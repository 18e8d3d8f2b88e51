/** The C demo's string writer, string reader and value skipper, over NUL-terminated text. */
module CJson {
  import opened Common
  import opened JsonText
  import opened Json
  import opened Unicode

  /** What a C program reads at `at`: the text, then its terminator, and nothing beyond. */
  function Char(s: Bytes, at: nat): byte
    requires at <= |s|
  {
    if at < |s| then s[at] else 0
  }

  // ---- reading a string -----------------------------------------------------------------------

  /** Four hexadecimal digits; the first character that is none stops the reading. */
  function Hex4(s: Bytes, at: nat, i: nat, value: nat): (r: Option<nat>)
    requires i <= 4 && at + i <= |s|
    ensures r.Some? ==> at + 4 <= |s|
    decreases 4 - i
  {
    if i == 4 then Some(value)
    else
      var digit := HexValue(Char(s, at + i));
      if digit.None? then None else Hex4(s, at, i + 1, value * 16 + digit.value)
  }

  lemma {:induction false} Hex4Below(s: Bytes, at: nat, i: nat, value: nat, bound: nat)
    requires i < 4 && at + i <= |s| && value < bound && Hex4(s, at, i, value).Some?
    ensures at + i < |s| && HexValue(s[at + i]).Some?
    ensures var next := value * 16 + HexValue(s[at + i]).value;
            next < 16 * bound && Hex4(s, at, i, value) == Hex4(s, at, i + 1, next)
  {
    hide HexValue;
    NulIsNoDigit();
  }

  lemma {:induction false} NulIsNoDigit()
    ensures HexValue(0) == None
  {}

  /** The code point of an escape is always one that fits sixteen bits. */
  lemma {:induction false} CodesFit(s: Bytes, at: nat)
    requires at + 2 <= |s| && Hex4(s, at + 2, 0, 0).Some?
    ensures Hex4(s, at + 2, 0, 0).value < 0x10000
  {
    hide HexValue;
    Hex4Below(s, at + 2, 0, 0, 1);
    var v1 := HexValue(s[at + 2]).value;
    Hex4Below(s, at + 2, 1, v1, 16);
    var v2 := v1 * 16 + HexValue(s[at + 3]).value;
    Hex4Below(s, at + 2, 2, v2, 256);
    var v3 := v2 * 16 + HexValue(s[at + 4]).value;
    Hex4Below(s, at + 2, 3, v3, 4096);
  }

  function Meaning(e: byte): Option<byte> {
    if e == 34 || e == 92 || e == 47 then Some(e)
    else if e == 98 then Some(8)
    else if e == 102 then Some(12)
    else if e == 110 then Some(10)
    else if e == 114 then Some(13)
    else if e == 116 then Some(9)
    else None
  }

  /** A code point that a C string may hold. */
  function Held(code: nat, at: nat): Step
    requires code < 0x110000
  {
    if code == 0 || 0xDC00 <= code <= 0xDFFF then Stuck else More(Encode(code), at)
  }

  /** One `\u` escape, or two that make one character. */
  function UnicodeStep(s: Bytes, at: nat): (step: Step)
    requires at + 2 <= |s|
    ensures !step.Stuck? ==> at < step.at <= |s|
  {
    var unit := Hex4(s, at + 2, 0, 0);
    if unit.None? then Stuck
    else if 0xD800 <= unit.value <= 0xDBFF then
      if Char(s, at + 6) != BACKSLASH || Char(s, at + 7) != 117 then Stuck
      else
        var low := Hex4(s, at + 8, 0, 0);
        if low.None? || low.value < 0xDC00 || low.value > 0xDFFF then Stuck
        else Held(0x10000 + (unit.value - 0xD800) * 1024 + (low.value - 0xDC00), at + 12)
    else
      CodesFit(s, at);
      Held(unit.value, at + 6)
  }

  /** One turn of the reader's loop. */
  function CStep(s: Bytes, at: nat): (step: Step)
    requires at <= |s|
    ensures !step.Stuck? ==> at < step.at <= |s|
  {
    var c := Char(s, at);
    if c == QUOTE then Done(at + 1)
    else if c < 0x20 then Stuck
    else if c != BACKSLASH then More([c], at + 1)
    else
      var e := Char(s, at + 1);
      if Meaning(e).Some? then More([Meaning(e).value], at + 2)
      else if e == 117 then UnicodeStep(s, at)
      else Stuck
  }

  /** `limit` is the size of the buffer that is filled; without one the string is only skipped. */
  function ReadFrom(s: Bytes, at: nat, limit: Option<nat>, out: Bytes): (r: Read<Bytes>)
    requires at <= |s|
    ensures r.Got? ==> at < r.at <= |s|
    ensures r.Got? && limit.Some? && |out| < limit.value ==> |r.value| < limit.value
    decreases |s| - at
  {
    match CStep(s, at)
    case Stuck => Fail
    case Done(next) => Got(out, next)
    case More(bytes, next) =>
      if limit.Some? && |out| + |bytes| >= limit.value then Fail else ReadFrom(s, next, limit, out + bytes)
  }

  function ReadText(s: Bytes, at: nat, limit: Option<nat>): (r: Read<Bytes>)
    requires at <= |s|
    ensures r.Got? ==> at < r.at <= |s|
  {
    if Char(s, at) != QUOTE then Fail else ReadFrom(s, at + 1, limit, [])
  }

  // ---- what was written is read back -------------------------------------------------------------

  lemma {:induction false} CReadEscape(s: Bytes, at: nat, b: byte)
    requires StandsAt(s, at, Escape(b)) && 0 < b < 0x20
    ensures CStep(s, at) == More([b], at + 6)
  {
    hide Hex4, HexValue;
    var high, low := b as nat / 16, b as nat % 16;
    EscapeStands(s, at, b);
    HexRoundTrip(high);
    HexRoundTrip(low);
    HexZero();
    Hex4Is(s, at + 2, 0, 0, high, low);
    assert UnicodeStep(s, at) == More([b], at + 6);
  }

  lemma {:induction false} HexZero()
    ensures HexValue(48) == Some(0)
  {}

  lemma {:induction false} EscapeStands(s: Bytes, at: nat, b: byte)
    requires StandsAt(s, at, Escape(b)) && b < 0x20
    ensures at + 6 <= |s| && s[at] == BACKSLASH && s[at + 1] == 117 && s[at + 2] == 48 && s[at + 3] == 48
    ensures s[at + 4] == HexDigit(b as nat / 16) && s[at + 5] == HexDigit(b as nat % 16)
  {
    var whole := s[at..at + 6];
    assert whole[0] == s[at] && whole[1] == s[at + 1] && whole[2] == s[at + 2] && whole[3] == s[at + 3]
        && whole[4] == s[at + 4] && whole[5] == s[at + 5];
  }

  lemma {:induction false} Hex4Is(s: Bytes, at: nat, a: nat, b: nat, c: nat, d: nat)
    requires at + 4 <= |s|
    requires HexValue(s[at]) == Some(a) && HexValue(s[at + 1]) == Some(b) && HexValue(s[at + 2]) == Some(c) && HexValue(s[at + 3]) == Some(d)
    ensures Hex4(s, at, 0, 0) == Some(a * 4096 + b * 256 + c * 16 + d)
  {
    hide HexValue;
    var v1 := a;
    var v2 := v1 * 16 + b;
    var v3 := v2 * 16 + c;
    var v4 := v3 * 16 + d;
    assert Hex4(s, at, 4, v4) == Some(v4);
    assert Hex4(s, at, 3, v3) == Some(v4);
    assert Hex4(s, at, 2, v2) == Some(v4);
    assert Hex4(s, at, 1, v1) == Some(v4);
  }

  lemma {:induction false} CReadByte(w: Writer, s: Bytes, at: nat, b: byte)
    requires StandsAt(s, at, QuoteByte(w, b)) && b != 0
    ensures CStep(s, at) == More([b], at + |QuoteByte(w, b)|)
  {
    hide Hex4;
    var q := QuoteByte(w, b);
    StandsByte(s, at, q, 0);
    if q == Escape(b) {
      CReadEscape(s, at, b);
    } else if |q| == 2 {
      StandsByte(s, at, q, 1);
    }
  }

  predicate Holds(limit: Option<nat>, length: nat) {
    limit.Some? ==> length < limit.value
  }

  lemma {:induction false} CReadAll(w: Writer, s: Bytes, at: nat, text: Bytes, limit: Option<nat>, out: Bytes)
    requires StandsAt(s, at, QuoteAll(w, text)) && 0 !in text && Holds(limit, |out|)
    ensures ReadFrom(s, at, limit, out)
            == if Holds(limit, |out| + |text|) then ReadFrom(s, at + |QuoteAll(w, text)|, limit, out + text) else Fail
    decreases |text|
  {
    hide QuoteByte, CStep;
    if text == [] {
      assert out + text == out;
    } else {
      StandsSplit(s, at, QuoteByte(w, text[0]), QuoteAll(w, text[1..]));
      CReadByte(w, s, at, text[0]);
      if Holds(limit, |out| + 1) {
        CReadAll(w, s, at + |QuoteByte(w, text[0])|, text[1..], limit, out + [text[0]]);
        assert out + [text[0]] + text[1..] == out + text;
      }
    }
  }

  lemma {:induction false} QuoteEnds(s: Bytes, at: nat, limit: Option<nat>, out: Bytes)
    requires at < |s| && s[at] == 34
    ensures ReadFrom(s, at, limit, out) == Got(out, at + 1)
  {}

  /**
   * Whatever either program quotes, the C reader reads back exactly when it
   * fits with its terminator, and fails when it does not; skipping always
   * gets past it.
   */
  lemma {:induction false} CStringsRoundTrip(w: Writer, s: Bytes, at: nat, text: Bytes, limit: Option<nat>)
    requires StandsAt(s, at, Quote(w, text)) && 0 !in text && Holds(limit, 0)
    ensures ReadText(s, at, limit) == if Holds(limit, |text|) then Got(text, at + |Quote(w, text)|) else Fail
  {
    hide QuoteAll, ReadFrom;
    var body := QuoteAll(w, text);
    assert Quote(w, text) == [QUOTE] + (body + [QUOTE]);
    StandsSplit(s, at, [QUOTE], body + [QUOTE]);
    StandsSplit(s, at + 1, body, [QUOTE]);
    StandsByte(s, at, [QUOTE], 0);
    StandsByte(s, at + 1 + |body|, [QUOTE], 0);
    CReadAll(w, s, at + 1, text, limit, []);
    assert [] + text == text;
    QuoteEnds(s, at + 1 + |body|, limit, text);
  }

  // ---- skipping a value ------------------------------------------------------------------------------

  predicate IsCSpace(b: byte) {
    b == 32 || b == 9 || b == 10 || b == 13
  }

  function CSkipSpace(s: Bytes, at: nat): (r: nat)
    requires at <= |s|
    ensures at <= r <= |s|
    decreases |s| - at
  {
    if IsCSpace(Char(s, at)) then CSkipSpace(s, at + 1) else at
  }

  function ReadEnd(r: Read<Bytes>): Option<nat> {
    if r.Got? then Some(r.at) else None
  }

  /** Literals and numbers, the latter checked loosely. */
  function SkipPlain(s: Bytes, at: nat): (r: Option<nat>)
    requires at <= |s|
    ensures r.Some? ==> at < r.value <= |s|
  {
    if StandsAt(s, at, Word().1) || StandsAt(s, at, Word().0) then Some(at + 4)
    else if StandsAt(s, at, Word().2) then Some(at + 5)
    else if NumberEnd(s, at) > at then Some(NumberEnd(s, at)) else None
  }

  function SkipValue(s: Bytes, at: nat): (r: Option<nat>)
    requires at <= |s|
    ensures r.Some? ==> at < r.value <= |s|
    decreases |s| - at, 1
  {
    var p := CSkipSpace(s, at);
    var c := Char(s, p);
    if c == QUOTE then ReadEnd(ReadText(s, p, None))
    else if c == 123 || c == 91 then
      var close: byte := c + 2;
      var first := CSkipSpace(s, p + 1);
      if Char(s, first) == close then Some(first + 1) else SkipMembers(s, first, close)
    else SkipPlain(s, p)
  }

  /** An object's key and colon; an array's member has none. */
  function SkipKey(s: Bytes, at: nat, close: byte): (r: Option<nat>)
    requires at <= |s|
    ensures r.Some? ==> at <= r.value <= |s|
  {
    if close != 125 then Some(at)
    else
      var key := ReadText(s, CSkipSpace(s, at), None);
      if key.Fail? then None
      else
        var colon := CSkipSpace(s, key.at);
        if Char(s, colon) != 58 then None else Some(colon + 1)
  }

  function SkipMembers(s: Bytes, at: nat, close: byte): (r: Option<nat>)
    requires at <= |s| && close != 0
    ensures r.Some? ==> at < r.value <= |s|
    decreases |s| - at, 2
  {
    var key := SkipKey(s, at, close);
    if key.None? then None
    else
      var value := SkipValue(s, key.value);
      if value.None? then None
      else
        var next := CSkipSpace(s, value.value);
        if Char(s, next) == close then Some(next + 1)
        else if Char(s, next) != 44 then None
        else SkipMembers(s, next + 1, close)
  }

  /** A quoted string is skipped to its end. */
  lemma {:induction false} SkipQuoted(w: Writer, s: Bytes, at: nat, text: Bytes)
    requires StandsAt(s, at, Quote(w, text)) && 0 !in text
    ensures at < |s| && SkipValue(s, at) == Some(at + |Quote(w, text)|)
  {
    hide ReadText, QuoteAll;
    StandsByte(s, at, Quote(w, text), 0);
    CStringsRoundTrip(w, s, at, text, None);
  }

  // ---- as the program runs them ------------------------------------------------------------------------

  /**
   * Reads the string whose opening quote is at `start`; into `out` when there
   * is one, with a terminator behind it. Every character read is inside the
   * text or its terminator.
   */
  method ReadString(s: Bytes, start: nat, out: array?<byte>) returns (after: Option<nat>)
    requires start <= |s| && (out != null ==> out.Length > 0)
    modifies out
    ensures var expected := ReadText(s, start, if out == null then None else Some(out.Length));
            && after == ReadEnd(expected)
            && (expected.Got? && out != null ==>
                  |expected.value| < out.Length && out[..|expected.value|] == expected.value && out[|expected.value|] == 0)
  {
    hide CStep;
    ghost var limit := if out == null then None else Some(out.Length);
    if Char(s, start) != QUOTE {
      return None;
    }
    var p := start + 1;
    var length := 0;
    ghost var text: Bytes := [];
    var step := CStep(s, p);
    while step.More?
      invariant start < p <= |s| && step == CStep(s, p)
      invariant |text| == length && Holds(limit, length)
      invariant out != null ==> out[..length] == text
      invariant ReadFrom(s, p, limit, text) == ReadFrom(s, start + 1, limit, [])
      decreases |s| - p
    {
      var bytes := step.bytes;
      if out != null {
        if length + |bytes| >= out.Length {
          return None;
        }
        var i := 0;
        while i < |bytes|
          invariant 0 <= i <= |bytes|
          invariant out[..length + i] == text + bytes[..i]
        {
          out[length + i] := bytes[i];
          i := i + 1;
        }
        assert bytes[..i] == bytes;
      }
      text := text + bytes;
      length := length + |bytes|;
      p := step.at;
      step := CStep(s, p);
    }
    if step.Stuck? {
      return None;
    }
    if out != null {
      out[length] := 0;
    }
    return Some(step.at);
  }

  method Skip(s: Bytes, at: nat) returns (r: Option<nat>)
    requires at <= |s|
    ensures r == SkipValue(s, at)
    decreases |s| - at, 1
  {
    hide ReadText, SkipPlain, SkipMembers;
    var p := CSkipSpace(s, at);
    if Char(s, p) == QUOTE {
      r := ReadString(s, p, null);
      return;
    }
    if Char(s, p) == 123 || Char(s, p) == 91 {
      var close: byte := if Char(s, p) == 123 then 125 else 93;
      p := CSkipSpace(s, p + 1);
      if Char(s, p) == close {
        return Some(p + 1);
      }
      r := SkipEach(s, p, close);
      return;
    }
    return SkipPlain(s, p);
  }

  method SkipEach(s: Bytes, start: nat, close: byte) returns (r: Option<nat>)
    requires start <= |s| && close != 0
    ensures r == SkipMembers(s, start, close)
    decreases |s| - start, 2
  {
    hide ReadText, SkipValue, CSkipSpace;
    var p := start;
    while true
      invariant start <= p <= |s|
      invariant SkipMembers(s, p, close) == SkipMembers(s, start, close)
      decreases |s| - p
    {
      ghost var before := p;
      if close == 125 {
        p := CSkipSpace(s, p);
        var key := ReadString(s, p, null);
        if key.None? {
          return None;
        }
        p := CSkipSpace(s, key.value);
        if Char(s, p) != 58 {
          return None;
        }
        p := p + 1;
      }
      assert SkipKey(s, before, close) == Some(p);
      var value := Skip(s, p);
      if value.None? {
        return None;
      }
      p := CSkipSpace(s, value.value);
      if Char(s, p) == close {
        return Some(p + 1);
      }
      if Char(s, p) != 44 {
        return None;
      }
      p := p + 1;
    }
  }

  // ---- the response buffer ------------------------------------------------------------------------------

  /** What a buffer of this capacity keeps of a text: all of it, or as much as leaves room for the terminator. */
  function CutOff(text: Bytes, capacity: nat): Bytes
    requires capacity > 0
  {
    if |text| < capacity then text else text[..capacity - 1]
  }

  /** The longest beginning of a text that leaves room for the terminator. */
  lemma {:induction false} CutOffIff(text: Bytes, capacity: nat, kept: Bytes)
    requires capacity > 0
    ensures kept == CutOff(text, capacity) <==>
            kept <= text && |kept| < capacity && forall longer: Bytes :: longer <= text && |longer| < capacity ==> longer <= kept
  {
    var most := CutOff(text, capacity);
    assert most <= text;
    if kept <= text && |kept| < capacity && forall longer: Bytes :: longer <= text && |longer| < capacity ==> longer <= kept {
      assert most <= kept;
    }
  }

  lemma {:induction false} CutOffTwice(a: Bytes, b: Bytes, capacity: nat)
    requires capacity > 0
    ensures CutOff(CutOff(a, capacity) + b, capacity) == CutOff(a + b, capacity)
  {}

  class Buffer {
    const data: array<byte>
    var length: nat

    ghost predicate Valid()
      reads this, data
    {
      length < data.Length
    }

    ghost function Contents(): Bytes
      reads this, data
      requires Valid()
    {
      data[..length]
    }

    constructor (capacity: nat)
      requires capacity > 0
      ensures Valid() && fresh(data) && data.Length == capacity && Contents() == []
    {
      data := new byte[capacity](i => 0);
      length := 0;
    }

    /** Prints behind what is there: cut off, never overrun. */
    method Append(piece: Bytes)
      requires Valid()
      modifies this, data
      ensures Valid() && Contents() == CutOff(old(Contents()) + piece, data.Length)
    {
      var room := data.Length - length;
      var written := if |piece| < room then |piece| else room - 1;
      var i := 0;
      while i < written
        invariant 0 <= i <= written && length == old(length)
        invariant data[..length + i] == old(Contents()) + piece[..i]
      {
        data[length + i] := piece[i];
        i := i + 1;
      }
      data[length + written] := 0;
      length := length + |piece|;
      if length >= data.Length {
        length := data.Length - 1;
      }
      assert data[..length] == old(Contents()) + piece[..written];
    }

    /** A JSON string of a NUL-terminated text. */
    method AppendString(text: Bytes)
      requires Valid() && 0 !in text
      modifies this, data
      ensures Valid() && Contents() == CutOff(old(Contents()) + Quote(CWriter, text), data.Length)
    {
      hide CutOff, QuoteByte;
      ghost var before := old(Contents());
      ghost var written: Bytes := [QUOTE];
      Append([QUOTE]);
      var i := 0;
      assert text[..0] == [] && [QUOTE] + [] == [QUOTE];
      while i < |text|
        invariant 0 <= i <= |text| && Valid()
        invariant written == [QUOTE] + QuoteAll(CWriter, text[..i])
        invariant Contents() == CutOff(before + written, data.Length)
      {
        ghost var so := written;
        Append(QuoteByte(CWriter, text[i]));
        written := written + QuoteByte(CWriter, text[i]);
        CutOffTwice(before + so, QuoteByte(CWriter, text[i]), data.Length);
        assert before + so + QuoteByte(CWriter, text[i]) == before + written;
        QuoteOneMore(text, i);
        i := i + 1;
      }
      assert text[..i] == text;
      Append([QUOTE]);
      CutOffTwice(before + written, [QUOTE], data.Length);
      assert before + written + [QUOTE] == before + Quote(CWriter, text);
    }
  }

  lemma {:induction false} QuoteOneMore(text: Bytes, i: nat)
    requires i < |text|
    ensures QuoteAll(CWriter, text[..i + 1]) == QuoteAll(CWriter, text[..i]) + QuoteByte(CWriter, text[i])
  {
    hide QuoteByte;
    QuoteBoth(CWriter, text[..i], [text[i]]);
    assert text[..i + 1] == text[..i] + [text[i]];
    assert [text[i]][1..] == [] && QuoteByte(CWriter, text[i]) + [] == QuoteByte(CWriter, text[i]);
  }

  lemma {:induction false} QuoteBoth(w: Writer, a: Bytes, b: Bytes)
    ensures QuoteAll(w, a + b) == QuoteAll(w, a) + QuoteAll(w, b)
    decreases |a|
  {
    hide QuoteByte;
    if a == [] {
      assert a + b == b;
    } else {
      assert (a + b)[1..] == a[1..] + b;
      QuoteBoth(w, a[1..], b);
      assert QuoteByte(w, a[0]) + (QuoteAll(w, a[1..]) + QuoteAll(w, b)) == QuoteByte(w, a[0]) + QuoteAll(w, a[1..]) + QuoteAll(w, b);
    }
  }
}
