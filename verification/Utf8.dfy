/** UTF-8 (section 4 of RFC 3629), and decoding it from a pipe that cuts anywhere. */
module Utf8 {
  import opened Common

  // ---- one character ------------------------------------------------------------------------

  /** How many bytes the character led by `b` has; 0 when no character starts so. */
  function Width(b: byte): nat {
    if b < 0x80 then 1
    else if 0xC2 <= b <= 0xDF then 2
    else if 0xE0 <= b <= 0xEF then 3
    else if 0xF0 <= b <= 0xF4 then 4
    else 0
  }

  /** May `b` be byte `i` of the character led by `lead`? Only the second is special. */
  predicate Continues(lead: byte, i: nat, b: byte) {
    && 0x80 <= b <= 0xBF
    && (i == 1 ==>
          && (lead == 0xE0 ==> 0xA0 <= b)
          && (lead == 0xED ==> b <= 0x9F)
          && (lead == 0xF0 ==> 0x90 <= b)
          && (lead == 0xF4 ==> b <= 0x8F))
  }

  /** The front of some bytes: a character, the beginning of one, or `length` bytes of neither. */
  datatype Front = Character(width: nat) | Partial | Invalid(length: nat)

  function FrontFrom(s: Bytes, i: nat): (f: Front)
    requires s != [] && 1 <= i <= Width(s[0]) && i <= |s|
    ensures f.Character? ==> f.width == Width(s[0]) <= |s|
    ensures f.Partial? ==> |s| < Width(s[0])
    ensures f.Invalid? ==> 1 <= f.length < |s|
    decreases |s| - i
  {
    if i == Width(s[0]) then Character(i)
    else if i == |s| then Partial
    else if Continues(s[0], i, s[i]) then FrontFrom(s, i + 1)
    else Invalid(i)
  }

  function FrontOf(s: Bytes): (f: Front)
    requires s != []
    ensures f.Character? ==> 1 <= f.width <= |s| && f.width <= 4
    ensures f.Partial? ==> |s| <= 3
    ensures f.Invalid? ==> 1 <= f.length <= |s|
  {
    if Width(s[0]) == 0 then Invalid(1) else FrontFrom(s, 1)
  }

  // ---- whole texts --------------------------------------------------------------------------

  predicate WellFormed(s: Bytes)
    decreases |s|
  {
    s == [] || (FrontOf(s).Character? && WellFormed(s[FrontOf(s).width..]))
  }

  /** What `str::from_utf8` reports: all fine, cut short after `valid` bytes, or broken there. */
  datatype Validity = Fine | CutShort(valid: nat) | Broken(valid: nat)

  function Shift(v: Validity, n: nat): Validity {
    match v
    case Fine => Fine
    case CutShort(valid) => CutShort(valid + n)
    case Broken(valid) => Broken(valid + n)
  }

  function Validate(s: Bytes): (v: Validity)
    ensures v.CutShort? ==> v.valid < |s| <= v.valid + 3
    ensures v.Broken? ==> v.valid < |s|
    decreases |s|
  {
    if s == [] then Fine
    else
      match FrontOf(s)
      case Character(width) => Shift(Validate(s[width..]), width)
      case Partial => CutShort(0)
      case Invalid(length) => Broken(0)
  }

  const REPLACEMENT: Bytes := [0xEF, 0xBF, 0xBD]

  /** `String::from_utf8_lossy`: each stretch that is no character becomes U+FFFD. */
  function Lossy(s: Bytes): Bytes
    decreases |s|
  {
    if s == [] then []
    else
      match FrontOf(s)
      case Character(width) => s[..width] + Lossy(s[width..])
      case Partial => REPLACEMENT
      case Invalid(length) => REPLACEMENT + Lossy(s[length..])
  }

  lemma {:induction false} ValidateIsWellFormed(s: Bytes)
    ensures Validate(s).Fine? <==> WellFormed(s)
    decreases |s|
  {
    if s != [] && FrontOf(s).Character? {
      ValidateIsWellFormed(s[FrontOf(s).width..]);
    }
  }

  lemma {:induction false} LossyKeepsText(s: Bytes)
    requires WellFormed(s)
    ensures Lossy(s) == s
    decreases |s|
  {
    if s != [] {
      LossyKeepsText(s[FrontOf(s).width..]);
    }
  }

  /** Whatever comes in, text goes out. */
  lemma {:induction false} LossyIsText(s: Bytes)
    ensures WellFormed(Lossy(s))
    decreases |s|
  {
    if s != [] {
      match FrontOf(s) {
        case Character(width) =>
          LossyIsText(s[width..]);
          CharacterFirst(s[..width], Lossy(s[width..]), s);
        case Partial =>
          ReplacementFirst([]);
          assert REPLACEMENT + [] == REPLACEMENT;
        case Invalid(length) =>
          LossyIsText(s[length..]);
          ReplacementFirst(Lossy(s[length..]));
      }
    }
  }

  /** A character depends on its own bytes only. */
  lemma {:induction false} FrontFromAgrees(s: Bytes, t: Bytes, i: nat)
    requires s != [] && t != [] && s[0] == t[0] && 1 <= i <= Width(s[0]) && i <= |s| && i <= |t|
    requires FrontFrom(s, i).Character? && Width(s[0]) <= |t| && s[..Width(s[0])] == t[..Width(s[0])]
    ensures FrontFrom(t, i) == FrontFrom(s, i)
    decreases Width(s[0]) - i
  {
    if i < Width(s[0]) {
      assert s[i] == s[..Width(s[0])][i] == t[i];
      FrontFromAgrees(s, t, i + 1);
    }
  }

  lemma {:induction false} CharacterFirst(c: Bytes, rest: Bytes, s: Bytes)
    requires s != [] && FrontOf(s).Character? && c == s[..FrontOf(s).width]
    ensures FrontOf(c + rest) == FrontOf(s)
    ensures WellFormed(rest) ==> WellFormed(c + rest)
  {
    var w := FrontOf(s).width;
    var all := c + rest;
    assert all[0] == c[0] == s[0];
    assert all[..w] == s[..w];
    FrontFromAgrees(s, all, 1);
    assert all[w..] == rest;
  }

  lemma {:induction false} ReplacementFirst(rest: Bytes)
    requires WellFormed(rest)
    ensures WellFormed(REPLACEMENT + rest)
  {
    var all := REPLACEMENT + rest;
    assert all[0] == 0xEF && all[1] == 0xBF && all[2] == 0xBD;
    assert FrontFrom(all, 3) == Character(3);
    assert FrontFrom(all, 2) == Character(3);
    assert FrontOf(all) == Character(3);
    assert all[3..] == rest;
  }

  // ---- texts cut in two ----------------------------------------------------------------------

  lemma {:induction false} CutFrontFrom(a: Bytes, b: Bytes, i: nat)
    requires a != [] && 1 <= i <= Width(a[0]) && i <= |a|
    requires FrontFrom(a + b, i).Character?
    ensures FrontFrom(a, i) == if Width(a[0]) <= |a| then Character(Width(a[0])) else Partial
    decreases |a| - i
  {
    if i < Width(a[0]) && i < |a| {
      assert (a + b)[i] == a[i];
      CutFrontFrom(a, b, i + 1);
    }
  }

  lemma {:induction false} CutFront(a: Bytes, b: Bytes)
    requires a != [] && FrontOf(a + b).Character?
    ensures var w := FrontOf(a + b).width;
            FrontOf(a) == if w <= |a| then Character(w) else Partial
  {
    hide FrontFrom;
    assert (a + b)[0] == a[0];
    CutFrontFrom(a, b, 1);
  }

  lemma {:induction false} TextTail(s: Bytes, w: nat)
    requires WellFormed(s) && s != [] && FrontOf(s) == Character(w)
    ensures w <= |s| && WellFormed(s[w..])
  {
    hide FrontOf;
  }

  /** A cut behind the first character. */
  lemma {:induction false} ShiftCut(a: Bytes, b: Bytes, w: nat)
    requires a != [] && FrontOf(a) == Character(w) && w <= |a|
    requires var v := Validate(a[w..]);
             v.CutShort? ==> WellFormed(a[w..][..v.valid]) && WellFormed(a[w..][v.valid..] + b)
    ensures Validate(a) == Shift(Validate(a[w..]), w)
    ensures var v := Validate(a);
            v.CutShort? ==> WellFormed(a[..v.valid]) && WellFormed(a[v.valid..] + b)
  {
    hide FrontOf, WellFormed;
    var v := Validate(a[w..]);
    if v.CutShort? {
      assert a[v.valid + w..] == a[w..][v.valid..];
      assert a[..v.valid + w] == a[..w] + a[w..][..v.valid];
      CharacterFirst(a[..w], a[w..][..v.valid], a);
    }
  }

  /** Cut anywhere, the first part of a text is text and then at most three bytes of a character. */
  lemma {:induction false} CutText(a: Bytes, b: Bytes)
    requires WellFormed(a + b)
    ensures !Validate(a).Broken?
    ensures Validate(a).Fine? ==> WellFormed(b)
    ensures var v := Validate(a);
            v.CutShort? ==> WellFormed(a[..v.valid]) && WellFormed(a[v.valid..] + b)
    decreases |a|
  {
    hide FrontOf, Validate, WellFormed;
    if a == [] {
      assert a + b == b;
      assert Validate(a).Fine? by { NothingIsFine(); }
    } else {
      TextHasFront(a + b);
      CutFront(a, b);
      var w := FrontOf(a + b).width;
      if w <= |a| {
        TextTail(a + b, w);
        assert (a + b)[w..] == a[w..] + b;
        CutText(a[w..], b);
        ShiftCut(a, b, w);
      } else {
        PartialIsShort(a);
        assert a[..0] == [] && a[0..] == a;
        NothingIsFine();
      }
    }
  }

  lemma {:induction false} NothingIsFine()
    ensures Validate([]).Fine? && WellFormed([])
  {}

  lemma {:induction false} TextHasFront(s: Bytes)
    requires WellFormed(s) && s != []
    ensures FrontOf(s).Character?
  {}

  lemma {:induction false} PartialIsShort(s: Bytes)
    requires s != [] && FrontOf(s).Partial?
    ensures Validate(s) == CutShort(0)
  {
    hide FrontOf;
  }

  // ---- the carry -----------------------------------------------------------------------------

  datatype Decoded = Decoded(text: Bytes, pending: Bytes)

  /** One chunk, behind what the last one left over. */
  function DecodeChunk(pending: Bytes, chunk: Bytes): Decoded {
    var bytes := pending + chunk;
    match Validate(bytes)
    case Fine => Decoded(bytes, [])
    case CutShort(valid) => Decoded(Lossy(bytes[..valid]), bytes[valid..])
    case Broken(valid) => Decoded(Lossy(bytes), [])
  }

  class Utf8Carry {
    var pending: Bytes

    constructor ()
      ensures pending == []
    {
      pending := [];
    }

    method Decode(chunk: Bytes) returns (text: Bytes)
      modifies this
      ensures Decoded(text, pending) == DecodeChunk(old(pending), chunk)
    {
      var bytes := pending;
      pending := [];
      bytes := bytes + chunk;
      match Validate(bytes) {
        case Fine =>
          text := bytes;
        case CutShort(valid) =>
          pending := bytes[valid..];
          text := Lossy(bytes[..valid]);
        case Broken(valid) =>
          text := Lossy(bytes);
      }
    }

    /** The end of the stream: what is still pending counts as broken. */
    method Finish() returns (text: Bytes)
      modifies this
      ensures text == Lossy(old(pending)) && pending == []
    {
      var bytes := pending;
      pending := [];
      text := if bytes == [] then [] else Lossy(bytes);
    }
  }

  /** On any bytes at all, the carry never holds more than three, and only text comes out. */
  lemma {:induction false} CarryIsShort(pending: Bytes, chunk: Bytes)
    ensures |DecodeChunk(pending, chunk).pending| <= 3
    ensures WellFormed(DecodeChunk(pending, chunk).text)
  {
    var bytes := pending + chunk;
    ValidateIsWellFormed(bytes);
    LossyIsText(bytes);
    if Validate(bytes).CutShort? {
      LossyIsText(bytes[..Validate(bytes).valid]);
    }
  }

  /** Of a valid stream, decoding loses and replaces nothing. */
  lemma {:induction false} DecodeKeepsText(pending: Bytes, chunk: Bytes, later: Bytes)
    requires WellFormed(pending + chunk + later)
    ensures var d := DecodeChunk(pending, chunk);
            && d.text + d.pending == pending + chunk
            && WellFormed(d.pending + later)
  {
    var bytes := pending + chunk;
    CutText(bytes, later);
    if Validate(bytes).CutShort? {
      var valid := Validate(bytes).valid;
      LossyKeepsText(bytes[..valid]);
      assert bytes == bytes[..valid] + bytes[valid..];
    } else {
      assert [] + later == later;
    }
  }

  function Joined(chunks: seq<Bytes>): Bytes {
    if chunks == [] then [] else chunks[0] + Joined(chunks[1..])
  }

  /** All chunks in turn, then the end of the stream. */
  function DecodeAll(pending: Bytes, chunks: seq<Bytes>): Bytes
    decreases |chunks|
  {
    if chunks == [] then Lossy(pending)
    else
      var d := DecodeChunk(pending, chunks[0]);
      d.text + DecodeAll(d.pending, chunks[1..])
  }

  /** A valid stream comes out as it went in, however it is cut. */
  lemma {:induction false} AnyCutDecodes(pending: Bytes, chunks: seq<Bytes>)
    requires WellFormed(pending + Joined(chunks))
    ensures DecodeAll(pending, chunks) == pending + Joined(chunks)
    decreases |chunks|
  {
    hide DecodeChunk, WellFormed, Lossy;
    if chunks == [] {
      assert pending + [] == pending;
      LossyKeepsText(pending);
    } else {
      var later := Joined(chunks[1..]);
      assert pending + chunks[0] + later == pending + Joined(chunks);
      DecodeKeepsText(pending, chunks[0], later);
      var d := DecodeChunk(pending, chunks[0]);
      AnyCutDecodes(d.pending, chunks[1..]);
      assert d.text + (d.pending + later) == d.text + d.pending + later;
    }
  }
}
