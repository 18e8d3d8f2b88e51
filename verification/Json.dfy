/** The demo's recursive-descent parser. */
module Json {
  import opened Common
  import opened JsonText
  import opened Unicode
  import opened Utf8

  datatype Json<F> = Null | Bool(value: bool) | Number(number: F) | Text(text: Bytes) | List(items: seq<Json<F>>) | Object(fields: seq<Field<F>>)

  datatype Field<F> = Field(name: Bytes, value: Json<F>)

  /** The library's reading of a number's text. */
  type ParseFloat<!F> = Bytes -> Option<F>

  /** A reader either fails or gets something and a cursor past it. */
  datatype Read<+T> = Fail | Got(value: T, at: nat)

  // ---- white space and words --------------------------------------------------------------------

  predicate IsSpace(b: byte) {
    b == 32 || b == 9 || b == 10 || b == 12 || b == 13
  }

  function SkipSpace(s: Bytes, at: nat): (r: nat)
    requires at <= |s|
    ensures at <= r <= |s| && (r < |s| ==> !IsSpace(s[r]))
    decreases |s| - at
  {
    if at < |s| && IsSpace(s[at]) then SkipSpace(s, at + 1) else at
  }

  function Word(): (words: (Bytes, Bytes, Bytes))
    ensures words == ([110, 117, 108, 108], [116, 114, 117, 101], [102, 97, 108, 115, 101])
  {
    ([110, 117, 108, 108], [116, 114, 117, 101], [102, 97, 108, 115, 101])
  }

  // ---- strings ----------------------------------------------------------------------------------

  /** `u32::from_str_radix` of four bytes: a leading plus sign is allowed. */
  function FromRadix16(hex: Bytes): Option<nat>
    requires |hex| == 4
  {
    var a, b, c, d := HexValue(hex[0]), HexValue(hex[1]), HexValue(hex[2]), HexValue(hex[3]);
    if (a.None? && hex[0] != 43) || b.None? || c.None? || d.None? then None
    else Some((if a.Some? then a.value else 0) * 4096 + b.value * 256 + c.value * 16 + d.value)
  }

  /** Surrogates are no characters. */
  function CharOf(code: nat): (c: nat)
    ensures c < 0x110000
  {
    if 0xD800 <= code <= 0xDFFF || code >= 0x110000 then 0xFFFD else code
  }

  datatype Step = Done(at: nat) | More(bytes: Bytes, at: nat) | Stuck

  function Escaped(e: byte): (c: nat)
    ensures c < 256
  {
    if e == 110 then 10
    else if e == 116 then 9
    else if e == 114 then 13
    else if e == 98 then 8
    else if e == 102 then 12
    else e as nat
  }

  /** One turn of the string loop. */
  function StringStep(s: Bytes, at: nat): (step: Step)
    ensures !step.Stuck? ==> at < step.at <= |s|
  {
    if at >= |s| then Stuck
    else if s[at] == QUOTE then Done(at + 1)
    else if s[at] != BACKSLASH then More([s[at]], at + 1)
    else if at + 1 >= |s| then Stuck
    else if s[at + 1] != 117 then More(Encode(Escaped(s[at + 1])), at + 2)
    else if at + 6 > |s| then Stuck
    else
      var code := FromRadix16(s[at + 2..at + 6]);
      if code.None? then Stuck else More(Encode(CharOf(code.value)), at + 6)
  }

  function StringFrom(s: Bytes, at: nat, out: Bytes): (r: Read<Bytes>)
    ensures r.Got? ==> at < r.at <= |s| && WellFormed(r.value)
    decreases if at <= |s| then |s| - at else 0
  {
    match StringStep(s, at)
    case Stuck => Fail
    case Done(next) => if WellFormed(out) then Got(out, next) else Fail
    case More(bytes, next) => StringFrom(s, next, out + bytes)
  }

  /** From the opening quote. */
  function StringAt(s: Bytes, at: nat): Read<Bytes> {
    StringFrom(s, at + 1, [])
  }

  // ---- values -------------------------------------------------------------------------------------

  predicate InNumber(b: byte) {
    b == 43 || b == 45 || b == 46 || b == 101 || b == 69 || 48 <= b <= 57
  }

  function NumberEnd(s: Bytes, at: nat): (r: nat)
    requires at <= |s|
    ensures at <= r <= |s|
    decreases |s| - at
  {
    if at < |s| && InNumber(s[at]) then NumberEnd(s, at + 1) else at
  }

  function NumberAt<F>(parseFloat: ParseFloat<F>, s: Bytes, at: nat): Read<Json<F>>
    requires at <= |s|
  {
    var end := NumberEnd(s, at);
    var number := parseFloat(s[at..end]);
    if number.Some? then Got(Number(number.value), end) else Fail
  }

  function WordAt<F>(s: Bytes, at: nat, word: Bytes, value: Json<F>): Read<Json<F>> {
    if StandsAt(s, at, word) then Got(value, at + |word|) else Fail
  }

  function ValueAt<F>(parseFloat: ParseFloat<F>, s: Bytes, at: nat): (r: Read<Json<F>>)
    requires at <= |s|
    ensures r.Got? ==> at <= r.at <= |s|
    decreases |s| - at, 1
  {
    var start := SkipSpace(s, at);
    if start == |s| then Fail
    else if s[start] == 110 then WordAt(s, start, Word().0, Null)
    else if s[start] == 116 then WordAt(s, start, Word().1, Bool(true))
    else if s[start] == 102 then WordAt(s, start, Word().2, Bool(false))
    else if s[start] == QUOTE then
      var text := StringAt(s, start);
      if text.Got? then Got(Text(text.value), text.at) else Fail
    else if s[start] == 91 then
      var first := SkipSpace(s, start + 1);
      if first == |s| then Fail
      else if s[first] == 93 then Got(List([]), first + 1)
      else ItemsFrom(parseFloat, s, first, [])
    else if s[start] == 123 then
      var first := SkipSpace(s, start + 1);
      if first == |s| then Fail
      else if s[first] == 125 then Got(Object([]), first + 1)
      else FieldsFrom(parseFloat, s, first, [])
    else NumberAt(parseFloat, s, start)
  }

  function ItemsFrom<F>(parseFloat: ParseFloat<F>, s: Bytes, at: nat, items: seq<Json<F>>): (r: Read<Json<F>>)
    requires at <= |s|
    ensures r.Got? ==> at <= r.at <= |s|
    decreases |s| - at, 2
  {
    var item := ValueAt(parseFloat, s, at);
    if item.Fail? then Fail
    else
      var next := SkipSpace(s, item.at);
      if next == |s| then Fail
      else if s[next] == 44 then ItemsFrom(parseFloat, s, next + 1, items + [item.value])
      else if s[next] == 93 then Got(List(items + [item.value]), next + 1)
      else Fail
  }

  /** The name and colon of an object's field. */
  function NameAt(s: Bytes, at: nat): (r: Read<Bytes>)
    requires at <= |s|
    ensures r.Got? ==> at < r.at <= |s|
  {
    var start := SkipSpace(s, at);
    if start == |s| || s[start] != QUOTE then Fail
    else
      var name := StringAt(s, start);
      if name.Fail? then Fail
      else
        var colon := SkipSpace(s, name.at);
        if colon == |s| || s[colon] != 58 then Fail else Got(name.value, colon + 1)
  }

  function FieldsFrom<F>(parseFloat: ParseFloat<F>, s: Bytes, at: nat, fields: seq<Field<F>>): (r: Read<Json<F>>)
    requires at <= |s|
    ensures r.Got? ==> at <= r.at <= |s|
    decreases |s| - at, 2
  {
    var name := NameAt(s, at);
    if name.Fail? then Fail
    else
      var value := ValueAt(parseFloat, s, name.at);
      if value.Fail? then Fail
      else
        var all := fields + [Field(name.value, value.value)];
        var next := SkipSpace(s, value.at);
        if next == |s| then Fail
        else if s[next] == 44 then FieldsFrom(parseFloat, s, next + 1, all)
        else if s[next] == 125 then Got(Object(all), next + 1)
        else Fail
  }

  function Parse<F>(parseFloat: ParseFloat<F>, s: Bytes): Option<Json<F>> {
    var value := ValueAt(parseFloat, s, 0);
    if value.Got? && SkipSpace(s, value.at) == |s| then Some(value.value) else None
  }

  // ---- what was quoted is read back -----------------------------------------------------------------

  lemma {:induction false} ReadEscape(s: Bytes, at: nat, b: byte)
    requires StandsAt(s, at, Escape(b)) && b < 0x20
    ensures StringStep(s, at) == More([b], at + 6)
  {
    forall i | 0 <= i < 6
      ensures s[at + i] == Escape(b)[i]
    {
      StandsByte(s, at, Escape(b), i);
    }
    var hex := s[at + 2..at + 6];
    assert hex == [48, 48, HexDigit(b as nat / 16), HexDigit(b as nat % 16)];
    HexRoundTrip(b as nat / 16);
    HexRoundTrip(b as nat % 16);
    assert HexValue(48) == Some(0);
    assert FromRadix16(hex) == Some(b as nat);
  }

  /** Each byte, however either program writes it, comes back as that byte. */
  lemma {:induction false} ReadByte(w: Writer, s: Bytes, at: nat, b: byte)
    requires StandsAt(s, at, QuoteByte(w, b))
    ensures StringStep(s, at) == More([b], at + |QuoteByte(w, b)|)
  {
    var q := QuoteByte(w, b);
    StandsByte(s, at, q, 0);
    if q == Escape(b) {
      ReadEscape(s, at, b);
    } else if |q| == 2 {
      StandsByte(s, at, q, 1);
    }
  }

  lemma {:induction false} ReadAll(w: Writer, s: Bytes, at: nat, text: Bytes, out: Bytes)
    requires StandsAt(s, at, QuoteAll(w, text))
    ensures StringFrom(s, at, out) == StringFrom(s, at + |QuoteAll(w, text)|, out + text)
    decreases |text|
  {
    hide QuoteByte, StringStep, WellFormed;
    if text == [] {
      assert out + text == out;
    } else {
      StandsSplit(s, at, QuoteByte(w, text[0]), QuoteAll(w, text[1..]));
      ReadByte(w, s, at, text[0]);
      ReadAll(w, s, at + |QuoteByte(w, text[0])|, text[1..], out + [text[0]]);
      assert out + [text[0]] + text[1..] == out + text;
    }
  }

  /** A quoted text anywhere in a buffer is read back whole. */
  lemma {:induction false} ReadQuoted(w: Writer, s: Bytes, at: nat, text: Bytes)
    requires StandsAt(s, at, Quote(w, text)) && WellFormed(text)
    ensures at < |s| && s[at] == QUOTE && StringAt(s, at) == Got(text, at + |Quote(w, text)|)
  {
    hide QuoteAll, WellFormed;
    var body := QuoteAll(w, text);
    assert Quote(w, text) == [QUOTE] + (body + [QUOTE]);
    StandsSplit(s, at, [QUOTE], body + [QUOTE]);
    StandsSplit(s, at + 1, body, [QUOTE]);
    StandsByte(s, at, [QUOTE], 0);
    StandsByte(s, at + 1 + |body|, [QUOTE], 0);
    ReadAll(w, s, at + 1, text, []);
    assert [] + text == text;
  }

  /** Every string round-trips, through either program's quoting. */
  lemma {:induction false} StringsRoundTrip<F>(parseFloat: ParseFloat<F>, w: Writer, text: Bytes)
    requires WellFormed(text)
    ensures Parse(parseFloat, Quote(w, text)) == Some(Text(text))
  {
    hide WellFormed, QuoteAll;
    var s := Quote(w, text);
    assert s[0..0 + |s|] == s;
    ReadQuoted(w, s, 0, text);
  }

  /** A bracket that does not close at once. */
  lemma {:induction false} ListFrom<F>(parseFloat: ParseFloat<F>, s: Bytes, start: nat)
    requires start < |s| && s[start] == 91
    ensures var first := SkipSpace(s, start + 1);
            ValueAt(parseFloat, s, start) == if first == |s| then Fail
                                             else if s[first] == 93 then Got(List([]), first + 1)
                                             else ItemsFrom(parseFloat, s, first, [])
  {
    hide ItemsFrom, FieldsFrom;
  }

  lemma {:induction false} ObjectFrom<F>(parseFloat: ParseFloat<F>, s: Bytes, start: nat)
    requires start < |s| && s[start] == 123
    ensures var first := SkipSpace(s, start + 1);
            ValueAt(parseFloat, s, start) == if first == |s| then Fail
                                             else if s[first] == 125 then Got(Object([]), first + 1)
                                             else FieldsFrom(parseFloat, s, first, [])
  {
    hide ItemsFrom, FieldsFrom;
  }

  /** A turn of the loop, branch by branch. */
  lemma {:induction false} StepAt(s: Bytes, at: nat)
    ensures at >= |s| ==> StringStep(s, at).Stuck?
    ensures at < |s| && s[at] == QUOTE ==> StringStep(s, at) == Done(at + 1)
    ensures at < |s| && s[at] != QUOTE && s[at] != BACKSLASH ==> StringStep(s, at) == More([s[at]], at + 1)
    ensures at < |s| && s[at] == BACKSLASH ==>
              StringStep(s, at) == if at + 1 >= |s| then Stuck
                                   else if s[at + 1] != 117 then More(Encode(Escaped(s[at + 1])), at + 2)
                                   else if at + 6 > |s| || FromRadix16(s[at + 2..at + 6]).None? then Stuck
                                   else More(Encode(CharOf(FromRadix16(s[at + 2..at + 6]).value)), at + 6)
  {
    hide Encode, FromRadix16, CharOf, Escaped;
  }

  // ---- the parser as the program runs it --------------------------------------------------------------

  class Parser<F> {
    const parseFloat: ParseFloat<F>
    const bytes: Bytes
    var at: nat

    ghost predicate Valid()
      reads this
    {
      at <= |bytes|
    }

    constructor (parseFloat: ParseFloat<F>, bytes: Bytes)
      ensures Valid() && this.bytes == bytes && at == 0 && this.parseFloat == parseFloat
    {
      this.parseFloat := parseFloat;
      this.bytes := bytes;
      at := 0;
    }

    /** What a method has read is what the specification reads, and the cursor is past it. */
    ghost predicate Reads<T>(r: Option<T>, expected: Read<T>)
      reads this
    {
      && Valid()
      && (r.Some? ==> expected == Got(r.value, at))
      && (r.None? ==> expected.Fail?)
    }

    method SkipBlanks()
      requires Valid()
      modifies this
      ensures Valid() && at == SkipSpace(bytes, old(at))
    {
      while at < |bytes| && IsSpace(bytes[at])
        invariant at <= |bytes| && SkipSpace(bytes, at) == SkipSpace(bytes, old(at))
      {
        at := at + 1;
      }
    }

    method Peek() returns (b: Option<byte>)
      requires Valid()
      modifies this
      ensures Valid() && at == SkipSpace(bytes, old(at))
      ensures b == if at < |bytes| then Some(bytes[at]) else None
    {
      SkipBlanks();
      b := if at < |bytes| then Some(bytes[at]) else None;
    }

    method Expect(word: Bytes, value: Json<F>) returns (r: Option<Json<F>>)
      requires Valid()
      modifies this
      ensures Reads(r, WordAt(bytes, old(at), word, value))
    {
      if at + |word| <= |bytes| && bytes[at..at + |word|] == word {
        at := at + |word|;
        return Some(value);
      }
      return None;
    }

    method ReadNumber() returns (r: Option<Json<F>>)
      requires Valid()
      modifies this
      ensures Reads(r, NumberAt(parseFloat, bytes, old(at)))
    {
      var start := at;
      while at < |bytes| && InNumber(bytes[at])
        invariant start <= at <= |bytes| && NumberEnd(bytes, at) == NumberEnd(bytes, start)
      {
        at := at + 1;
      }
      var number := parseFloat(bytes[start..at]);
      r := if number.Some? then Some(Number(number.value)) else None;
    }

    method ReadString() returns (r: Option<Bytes>)
      requires Valid() && at < |bytes|
      modifies this
      ensures Reads(r, StringAt(bytes, old(at)))
      ensures r.Some? ==> at > old(at)
    {
      hide WellFormed, Encode, FromRadix16, CharOf, Escaped, StringStep;
      at := at + 1;
      var out := [];
      ghost var start := at;
      while true
        invariant start <= at <= |bytes|
        invariant StringFrom(bytes, at, out) == StringFrom(bytes, start, [])
        decreases |bytes| - at
      {
        ghost var before := at;
        StepAt(bytes, at);
        if at >= |bytes| {
          return None;
        }
        var b := bytes[at];
        at := at + 1;
        if b == QUOTE {
          return if WellFormed(out) then Some(out) else None;
        } else if b == BACKSLASH {
          if at >= |bytes| {
            return None;
          }
          var escape := bytes[at];
          at := at + 1;
          var decoded: nat;
          if escape == 117 {
            if at + 4 > |bytes| {
              return None;
            }
            var code := FromRadix16(bytes[at..at + 4]);
            at := at + 4;
            if code.None? {
              return None;
            }
            decoded := CharOf(code.value);
          } else {
            decoded := Escaped(escape);
          }
          assert StringStep(bytes, before) == More(Encode(decoded), at);
          out := out + Encode(decoded);
        } else {
          out := out + [b];
        }
      }
    }

    method ReadValue() returns (r: Option<Json<F>>)
      requires Valid()
      modifies this
      ensures Reads(r, ValueAt(parseFloat, bytes, old(at)))
      decreases |bytes| - at, 1
    {
      hide StringAt, ItemsFrom, FieldsFrom, NumberAt, WordAt, SkipSpace;
      var b := Peek();
      if b.None? {
        return None;
      }
      NoSpace(bytes, at);
      match b.value {
        case 110 => r := Expect(Word().0, Null);
        case 116 => r := Expect(Word().1, Bool(true));
        case 102 => r := Expect(Word().2, Bool(false));
        case 34 =>
          var text := ReadString();
          r := if text.Some? then Some(Text(text.value)) else None;
        case 91 => r := ReadList();
        case 123 => r := ReadObject();
        case _ => r := ReadNumber();
      }
    }

    method ReadList() returns (r: Option<Json<F>>)
      requires Valid() && at < |bytes| && bytes[at] == 91
      modifies this
      ensures Reads(r, ValueAt(parseFloat, bytes, old(at)))
      decreases |bytes| - at, 0
    {
      hide StringAt, FieldsFrom, NumberAt, WordAt, SkipSpace, ValueAt;
      ghost var start := at;
      ListFrom(parseFloat, bytes, at);
      at := at + 1;
      var items := [];
      var first := Peek();
      if first.None? {
        return None;
      }
      if first.value == 93 {
        at := at + 1;
        return Some(List(items));
      }
      while true
        invariant start < at <= |bytes|
        invariant ItemsFrom(parseFloat, bytes, at, items) == ValueAt(parseFloat, bytes, start)
        decreases |bytes| - at
      {
        ghost var before := at;
        var item := ReadValue();
        if item.None? {
          return None;
        }
        items := items + [item.value];
        var next := Peek();
        if next.None? {
          return None;
        }
        match next.value {
          case 44 => at := at + 1;
          case 93 =>
            at := at + 1;
            return Some(List(items));
          case _ => return None;
        }
      }
    }

    method ReadObject() returns (r: Option<Json<F>>)
      requires Valid() && at < |bytes| && bytes[at] == 123
      modifies this
      ensures Reads(r, ValueAt(parseFloat, bytes, old(at)))
      decreases |bytes| - at, 0
    {
      hide StringAt, ItemsFrom, NumberAt, WordAt, SkipSpace, NameAt, ValueAt;
      ghost var start := at;
      ObjectFrom(parseFloat, bytes, at);
      at := at + 1;
      var fields := [];
      var first := Peek();
      if first.None? {
        return None;
      }
      if first.value == 125 {
        at := at + 1;
        return Some(Object(fields));
      }
      while true
        invariant start < at <= |bytes|
        invariant FieldsFrom(parseFloat, bytes, at, fields) == ValueAt(parseFloat, bytes, start)
        decreases |bytes| - at
      {
        var name := ReadName();
        if name.None? {
          return None;
        }
        var value := ReadValue();
        if value.None? {
          return None;
        }
        fields := fields + [Field(name.value, value.value)];
        var next := Peek();
        if next.None? {
          return None;
        }
        match next.value {
          case 44 => at := at + 1;
          case 125 =>
            at := at + 1;
            return Some(Object(fields));
          case _ => return None;
        }
      }
    }

    method ReadName() returns (r: Option<Bytes>)
      requires Valid()
      modifies this
      ensures Reads(r, NameAt(bytes, old(at)))
      ensures r.Some? ==> at > old(at)
    {
      hide StringAt, SkipSpace;
      var quote := Peek();
      if quote != Some(QUOTE) {
        return None;
      }
      var name := ReadString();
      if name.None? {
        return None;
      }
      var colon := Peek();
      if colon != Some(58) {
        return None;
      }
      at := at + 1;
      return name;
    }
  }

  lemma {:induction false} NoSpace(s: Bytes, at: nat)
    requires at < |s| && !IsSpace(s[at])
    ensures SkipSpace(s, at) == at
  {}

  /** The whole of an input, or nothing. It always comes to an end. */
  method ParseAll<F>(parseFloat: ParseFloat<F>, text: Bytes) returns (r: Option<Json<F>>)
    ensures r == Parse(parseFloat, text)
  {
    var parser := new Parser(parseFloat, text);
    r := parser.ReadValue();
    if r.None? {
      return None;
    }
    parser.SkipBlanks();
    if parser.at != |text| {
      return None;
    }
  }
}
