/** The texts that denote JSON values (RFC 8259), as the two demos read them, and the Rust parser as exactly their reader. */
module JsonGrammar {
  import opened Common
  import opened JsonText
  import opened Json
  import opened Unicode
  import opened Utf8

  /** The two readers differ in white space, in escapes and in what text is. */
  datatype Reader = RustReader | CReader

  // ---- strings -------------------------------------------------------------------------------------

  /** The escapes of one letter, and the characters they stand for. */
  predicate Short(e: byte, b: byte) {
    || (e == 34 && b == 34) || (e == 92 && b == 92) || (e == 47 && b == 47)
    || (e == 98 && b == 8) || (e == 102 && b == 12) || (e == 110 && b == 10) || (e == 114 && b == 13) || (e == 116 && b == 9)
  }

  predicate IsHex(b: byte, n: nat) {
    n < 16 && (b as int == "0123456789abcdef"[n] as int || b as int == "0123456789ABCDEF"[n] as int)
  }

  /** Four hexadecimal digits, the highest first. */
  predicate HexIs(h: Bytes, code: nat) {
    && |h| == 4 && code < 0x10000
    && IsHex(h[0], code / 4096) && IsHex(h[1], code / 256 % 16) && IsHex(h[2], code / 16 % 16) && IsHex(h[3], code % 16)
  }

  /** Rust's numbers may have a plus sign, here in place of the first digit. */
  predicate PlusHexIs(h: Bytes, code: nat) {
    |h| == 4 && (HexIs(h, code) || (h[0] == 43 && HexIs([48] + h[1..], code)))
  }

  predicate IsSurrogate(code: nat) {
    0xD800 <= code <= 0xDFFF
  }

  ghost predicate ShortUnit(unit: Bytes, out: Bytes) {
    |unit| == 2 && unit[0] == 92 && exists b: byte :: Short(unit[1], b) && out == [b]
  }

  predicate OpensHex(unit: Bytes) {
    |unit| >= 6 && unit[0] == 92 && unit[1] == 117
  }

  /** Four digits, where half of a pair is no character. */
  ghost predicate RustHexUnit(unit: Bytes, out: Bytes) {
    && |unit| == 6 && OpensHex(unit)
    && exists code: nat :: PlusHexIs(unit[2..], code) && out == if IsSurrogate(code) then REPLACEMENT else Encode(code)
  }

  /** Four digits of a character that C text can hold. */
  ghost predicate CHexUnit(unit: Bytes, out: Bytes) {
    && |unit| == 6 && OpensHex(unit)
    && exists code: nat :: HexIs(unit[2..], code) && code != 0 && !IsSurrogate(code) && out == Encode(code)
  }

  ghost predicate PairUnit(unit: Bytes, out: Bytes) {
    |unit| == 12 && OpensHex(unit) && OpensHex(unit[6..]) && exists c: Scalar :: IsPair(unit, c) && out == Encode(c)
  }

  /** What stands for `out` between the quotes of a string: a byte, or an escape. */
  ghost predicate Unit(r: Reader, unit: Bytes, out: Bytes) {
    if r.RustReader? then
      || (|unit| == 1 && unit[0] != 34 && unit[0] != 92 && out == unit)
      || ShortUnit(unit, out)
      || (|unit| == 2 && unit[0] == 92 && unit[1] != 117 && (forall b: byte :: !Short(unit[1], b)) && out == Encode(unit[1] as nat))
      || RustHexUnit(unit, out)
    else
      || (|unit| == 1 && unit[0] >= 32 && unit[0] != 34 && unit[0] != 92 && out == unit)
      || ShortUnit(unit, out)
      || CHexUnit(unit, out)
      || PairUnit(unit, out)
  }

  /** The two surrogates of a character past the sixteen bits. */
  predicate IsPair(unit: Bytes, c: Scalar) {
    && |unit| == 12 && c >= 0x10000
    && HexIs(unit[2..6], 0xD800 + (c - 0x10000) / 1024) && HexIs(unit[8..], 0xDC00 + (c - 0x10000) % 1024)
  }

  ghost predicate Spells(r: Reader, body: Bytes, text: Bytes)
    decreases |body|
  {
    if body == [] then text == []
    else exists k: nat, m: nat ::
           1 <= k <= |body| && m <= |text| && Unit(r, body[..k], text[..m]) && Spells(r, body[k..], text[m..])
  }

  ghost predicate Quoted(r: Reader, q: Bytes, text: Bytes) {
    && |q| >= 2 && q[0] == 34 && q[|q| - 1] == 34
    && Spells(r, Inside(q), text) && (r.RustReader? ==> WellFormed(text))
  }

  // ---- values --------------------------------------------------------------------------------------

  predicate Space(r: Reader, b: byte) {
    b == 32 || b == 9 || b == 10 || b == 13 || (r.RustReader? && b == 12)
  }

  predicate Spaces(r: Reader, s: Bytes) {
    forall i :: 0 <= i < |s| ==> Space(r, s[i])
  }

  /** Digits, signs, points and the letter of an exponent. */
  predicate NumberText(t: Bytes) {
    t != [] && forall i :: 0 <= i < |t| ==> t[i] in {43, 45, 46, 69, 101, 48, 49, 50, 51, 52, 53, 54, 55, 56, 57}
  }

  function Inside(t: Bytes): Bytes
    requires |t| >= 2
  {
    t[1..|t| - 1]
  }

  predicate Between(t: Bytes, open: byte, close: byte) {
    |t| >= 2 && t[0] == open && t[|t| - 1] == close
  }

  ghost predicate Denotes<F>(r: Reader, parseFloat: ParseFloat<F>, t: Bytes, v: Json<F>)
    decreases |t|, 0
  {
    match v
    case Null => t == [110, 117, 108, 108]
    case Bool(value) => t == if value then [116, 114, 117, 101] else [102, 97, 108, 115, 101]
    case Number(number) => NumberText(t) && parseFloat(t) == Some(number)
    case Text(text) => Quoted(r, t, text)
    case List(items) =>
      && Between(t, 91, 93)
      && if items == [] then Spaces(r, Inside(t)) else DenotesItems(r, parseFloat, Inside(t), items)
    case Object(fields) =>
      && Between(t, 123, 125)
      && if fields == [] then Spaces(r, Inside(t)) else DenotesFields(r, parseFloat, Inside(t), fields)
  }

  /** A value with white space around it. */
  ghost predicate DenotesItem<F>(r: Reader, parseFloat: ParseFloat<F>, m: Bytes, v: Json<F>)
    decreases |m|, 1
  {
    exists i: nat, j: nat ::
      i <= j <= |m| && Spaces(r, m[..i]) && Spaces(r, m[j..]) && Denotes(r, parseFloat, m[i..j], v)
  }

  /** Values with a comma between each two. */
  ghost predicate DenotesItems<F>(r: Reader, parseFloat: ParseFloat<F>, s: Bytes, items: seq<Json<F>>)
    decreases |s|, 2
  {
    items != [] &&
    if |items| == 1 then DenotesItem(r, parseFloat, s, items[0])
    else exists k: nat ::
           k < |s| && s[k] == 44 && DenotesItem(r, parseFloat, s[..k], items[0]) && DenotesItems(r, parseFloat, s[k + 1..], items[1..])
  }

  ghost predicate DenotesName(r: Reader, n: Bytes, name: Bytes) {
    exists i: nat, j: nat :: i <= j <= |n| && Spaces(r, n[..i]) && Spaces(r, n[j..]) && Quoted(r, n[i..j], name)
  }

  /** A name, a colon and a value. */
  ghost predicate DenotesField<F>(r: Reader, parseFloat: ParseFloat<F>, m: Bytes, field: Field<F>)
    decreases |m|, 1
  {
    exists k: nat ::
      k < |m| && m[k] == 58 && DenotesName(r, m[..k], field.name) && DenotesItem(r, parseFloat, m[k + 1..], field.value)
  }

  ghost predicate DenotesFields<F>(r: Reader, parseFloat: ParseFloat<F>, s: Bytes, fields: seq<Field<F>>)
    decreases |s|, 2
  {
    fields != [] &&
    if |fields| == 1 then DenotesField(r, parseFloat, s, fields[0])
    else exists k: nat ::
           k < |s| && s[k] == 44 && DenotesField(r, parseFloat, s[..k], fields[0]) && DenotesFields(r, parseFloat, s[k + 1..], fields[1..])
  }

  // ---- hexadecimal digits ----------------------------------------------------------------------------

  lemma {:induction false} HexValueIff(b: byte, n: nat)
    ensures HexValue(b) == Some(n) <==> IsHex(b, n)
  {}

  lemma {:induction false} Joins(high: nat, low: nat)
    requires low < 16
    ensures (high * 16 + low) / 16 == high && (high * 16 + low) % 16 == low
  {}

  lemma {:induction false} Sixteens(n: nat)
    ensures n / 256 == n / 16 / 16 && n / 4096 == n / 16 / 16 / 16
  {}

  /** Four digits taken apart. */
  lemma {:induction false} Quartets(a: nat, b: nat, c: nat, d: nat)
    requires a < 16 && b < 16 && c < 16 && d < 16
    ensures var code := a * 4096 + b * 256 + c * 16 + d;
            && code < 0x10000
            && code / 4096 == a && code / 256 % 16 == b && code / 16 % 16 == c && code % 16 == d
  {
    var ab := a * 16 + b;
    var abc := ab * 16 + c;
    Joins(a, b);
    Joins(ab, c);
    Joins(abc, d);
    Sixteens(abc * 16 + d);
    assert a * 4096 + b * 256 + c * 16 + d == abc * 16 + d;
  }

  lemma {:induction false} QuartetsSum(code: nat)
    requires code < 0x10000
    ensures code / 4096 < 16
    ensures code / 4096 * 4096 + code / 256 % 16 * 256 + code / 16 % 16 * 16 + code % 16 == code
  {
    assert code / 256 == code / 16 / 16 && code / 4096 == code / 16 / 16 / 16;
  }

  lemma {:induction false} HexOf(h: Bytes, code: nat)
    requires HexIs(h, code)
    ensures HexValue(h[0]) == Some(code / 4096) && HexValue(h[1]) == Some(code / 256 % 16)
    ensures HexValue(h[2]) == Some(code / 16 % 16) && HexValue(h[3]) == Some(code % 16)
  {
    hide HexValue, IsHex;
    HexValueIff(h[0], code / 4096);
    HexValueIff(h[1], code / 256 % 16);
    HexValueIff(h[2], code / 16 % 16);
    HexValueIff(h[3], code % 16);
  }

  lemma {:induction false} HexAre(h: Bytes, a: nat, b: nat, c: nat, d: nat)
    requires |h| == 4 && HexValue(h[0]) == Some(a) && HexValue(h[1]) == Some(b) && HexValue(h[2]) == Some(c) && HexValue(h[3]) == Some(d)
    ensures HexIs(h, a * 4096 + b * 256 + c * 16 + d)
  {
    hide HexValue, IsHex;
    HexValueIff(h[0], a);
    HexValueIff(h[1], b);
    HexValueIff(h[2], c);
    HexValueIff(h[3], d);
    Quartets(a, b, c, d);
  }

  lemma {:induction false} HexCode(h: Bytes, code: nat)
    requires |h| == 4
    ensures HexIs(h, code) <==>
            && HexValue(h[0]).Some? && HexValue(h[1]).Some? && HexValue(h[2]).Some? && HexValue(h[3]).Some?
            && code == HexValue(h[0]).value * 4096 + HexValue(h[1]).value * 256 + HexValue(h[2]).value * 16 + HexValue(h[3]).value
  {
    hide HexValue, IsHex, HexIs;
    if HexIs(h, code) {
      HexFits(h, code);
      HexOf(h, code);
      QuartetsSum(code);
    }
    if HexValue(h[0]).Some? && HexValue(h[1]).Some? && HexValue(h[2]).Some? && HexValue(h[3]).Some? {
      HexAre(h, HexValue(h[0]).value, HexValue(h[1]).value, HexValue(h[2]).value, HexValue(h[3]).value);
    }
  }

  lemma {:induction false} HexFits(h: Bytes, code: nat)
    requires HexIs(h, code)
    ensures code < 0x10000
  {}

  lemma {:induction false} RadixIff(h: Bytes, code: nat)
    requires |h| == 4
    ensures FromRadix16(h) == Some(code) <==> PlusHexIs(h, code)
  {
    hide HexValue, HexIs;
    HexCode(h, code);
    HexCode([48] + h[1..], code);
    assert HexValue(48) == Some(0) && HexValue(43) == None by {
      ZeroAndPlus();
    }
  }

  lemma {:induction false} ZeroAndPlus()
    ensures HexValue(48) == Some(0) && HexValue(43) == None
  {}

  // ---- the Rust parser reads strings -----------------------------------------------------------------

  lemma {:induction false} EscapedIff(e: byte, out: Bytes)
    requires e != 117
    ensures Encode(Escaped(e)) == out <==> (exists b: byte :: Short(e, b) && out == [b]) || ((forall b: byte :: !Short(e, b)) && out == Encode(e as nat))
  {
    var b := Escaped(e);
    assert Short(e, b as byte) || forall c: byte :: !Short(e, c);
    assert Short(e, b as byte) ==> b < 0x80 && Encode(b) == [b as byte];
    assert forall c: byte :: Short(e, c) ==> c == b as byte;
  }

  lemma {:induction false} RustHexIff(unit: Bytes, out: Bytes)
    requires |unit| == 6 && OpensHex(unit)
    ensures RustHexUnit(unit, out) <==>
            FromRadix16(unit[2..]).Some? && out == Encode(CharOf(FromRadix16(unit[2..]).value))
  {
    hide Encode, FromRadix16, HexIs;
    EncodeReplacement();
    forall code: nat
      ensures FromRadix16(unit[2..]) == Some(code) <==> PlusHexIs(unit[2..], code)
    {
      RadixIff(unit[2..], code);
    }
    forall code: nat | PlusHexIs(unit[2..], code)
      ensures code < 0x10000
    {
      PlusFits(unit[2..], code);
    }
  }

  lemma {:induction false} PlusFits(h: Bytes, code: nat)
    requires PlusHexIs(h, code)
    ensures code < 0x10000
  {
    hide IsHex;
  }

  lemma {:induction false} UnitOf(s: Bytes, at: nat, k: nat, out: Bytes)
    requires at + k <= |s| && Unit(RustReader, s[at..at + k], out)
    ensures StringStep(s, at) == More(out, at + k)
  {
    hide Encode, FromRadix16, Escaped, Short, WellFormed, RustHexUnit, StringStep, CharOf;
    var unit := s[at..at + k];
    SizeOf(unit, out);
    assert forall i :: 0 <= i < k ==> s[at + i] == unit[i];
    StepAt(s, at);
    if |unit| == 2 {
      EscapedIff(unit[1], out);
    } else if |unit| == 6 {
      assert s[at + 2..at + 6] == unit[2..];
      RustHexIff(unit, out);
    } else {
      assert unit == [s[at]];
    }
  }

  lemma {:induction false} SizeOf(unit: Bytes, out: Bytes)
    requires Unit(RustReader, unit, out)
    ensures |unit| in {1, 2, 6} && (|unit| > 1 ==> unit[0] == 92)
    ensures |unit| == 1 ==> unit[0] != 34 && unit[0] != 92 && out == unit
    ensures |unit| == 6 ==> RustHexUnit(unit, out) && OpensHex(unit)
    ensures |unit| == 2 ==> unit[1] != 117 && !RustHexUnit(unit, out)
  {
    hide Encode, PlusHexIs;
    NoLetterU();
  }

  lemma {:induction false} NoLetterU()
    ensures forall b: byte :: !Short(117, b)
  {}

  lemma {:induction false} EncodeReplacement()
    ensures Encode(0xFFFD) == REPLACEMENT
  {}

  lemma {:induction false} UnitIs(s: Bytes, at: nat)
    requires StringStep(s, at).More?
    ensures at < StringStep(s, at).at <= |s| && Unit(RustReader, s[at..StringStep(s, at).at], StringStep(s, at).bytes)
  {
    hide Encode, FromRadix16, Escaped, Short, WellFormed, RustHexUnit, StringStep, CharOf;
    StepAt(s, at);
    var out, next := StringStep(s, at).bytes, StringStep(s, at).at;
    var unit := s[at..next];
    assert forall i :: 0 <= i < |unit| ==> s[at + i] == unit[i];
    if |unit| == 2 {
      EscapedIff(unit[1], out);
    } else if |unit| == 6 {
      assert unit[2..] == s[at + 2..at + 6];
      RustHexIff(unit, out);
    } else {
      assert unit == [s[at]];
    }
  }

  /** The first unit of what is spelled. */
  lemma {:induction false} SpelledFirst(r: Reader, body: Bytes, text: Bytes) returns (k: nat, m: nat)
    requires body != [] && Spells(r, body, text)
    ensures 1 <= k <= |body| && m <= |text| && Unit(r, body[..k], text[..m]) && Spells(r, body[k..], text[m..])
  {
    hide Unit;
    k, m :| 1 <= k <= |body| && m <= |text| && Unit(r, body[..k], text[..m]) && Spells(r, body[k..], text[m..]);
  }

  /** The loop over what stands between the quotes gathers what it spells. */
  lemma {:induction false} SpelledReads(s: Bytes, at: nat, body: Bytes, text: Bytes, out: Bytes)
    requires StandsAt(s, at, body) && Spells(RustReader, body, text)
    ensures StringFrom(s, at, out) == StringFrom(s, at + |body|, out + text)
    decreases |body|
  {
    hide Unit, Spells, StringStep, WellFormed;
    if body == [] {
      NothingSpells(RustReader, text);
      assert out + text == out;
    } else {
      var k, m := SpelledFirst(RustReader, body, text);
      assert body == body[..k] + body[k..];
      StandsSplit(s, at, body[..k], body[k..]);
      UnitOf(s, at, k, text[..m]);
      SpelledReads(s, at + k, body[k..], text[m..], out + text[..m]);
      assert out + text[..m] + text[m..] == out + text;
    }
  }

  lemma {:induction false} NothingSpells(r: Reader, text: Bytes)
    ensures Spells(r, [], text) <==> text == []
  {}

  lemma {:induction false} QuotedReads(s: Bytes, at: nat, q: Bytes, text: Bytes)
    requires StandsAt(s, at, q) && Quoted(RustReader, q, text)
    ensures at < |s| && s[at] == 34 && StringAt(s, at) == Got(text, at + |q|)
  {
    hide Spells, WellFormed, StringStep;
    var body := q[1..|q| - 1];
    assert q == [34] + (body + [34]);
    StandsSplit(s, at, [34], body + [34]);
    StandsSplit(s, at + 1, body, [34]);
    StandsByte(s, at, [34], 0);
    StandsByte(s, at + 1 + |body|, [34], 0);
    SpelledReads(s, at + 1, body, text, []);
    assert [] + text == text;
    StepAt(s, at + 1 + |body|);
  }

  lemma {:induction false} SpelledMore(unit: Bytes, out: Bytes, body: Bytes, text: Bytes, r: Reader)
    requires unit != [] && Unit(r, unit, out) && Spells(r, body, text)
    ensures Spells(r, unit + body, out + text)
  {
    hide Unit;
    var whole, all := unit + body, out + text;
    assert whole[..|unit|] == unit && whole[|unit|..] == body;
    assert all[..|out|] == out && all[|out|..] == text;
    assert Unit(r, whole[..|unit|], all[..|out|]) && Spells(r, whole[|unit|..], all[|out|..]);
  }

  lemma {:induction false} ReadIsSpelled(s: Bytes, at: nat, out: Bytes) returns (text: Bytes)
    requires StringFrom(s, at, out).Got?
    ensures var r := StringFrom(s, at, out);
            && at < r.at <= |s| && s[r.at - 1] == 34
            && Spells(RustReader, s[at..r.at - 1], text) && r.value == out + text && WellFormed(r.value)
    decreases if at <= |s| then |s| - at else 0
  {
    hide Spells, StringStep, WellFormed, Unit;
    StepAt(s, at);
    var r := StringFrom(s, at, out);
    if StringStep(s, at).Done? {
      text := [];
      assert s[at..r.at - 1] == [] && out + [] == out;
      NothingSpells(RustReader, text);
    } else {
      var next, bytes := StringStep(s, at).at, StringStep(s, at).bytes;
      UnitIs(s, at);
      var rest := ReadIsSpelled(s, next, out + bytes);
      text := bytes + rest;
      SpelledMore(s[at..next], bytes, s[next..r.at - 1], rest, RustReader);
      assert s[at..next] + s[next..r.at - 1] == s[at..r.at - 1];
      assert out + bytes + rest == out + text;
    }
  }

  lemma {:induction false} ReadIsQuoted(s: Bytes, at: nat)
    requires at < |s| && s[at] == 34 && StringAt(s, at).Got?
    ensures var r := StringAt(s, at);
            at < r.at <= |s| && Quoted(RustReader, s[at..r.at], r.value)
  {
    hide Spells, WellFormed, StringFrom;
    var r := StringAt(s, at);
    var text := ReadIsSpelled(s, at + 1, []);
    assert [] + text == text;
    InsideAt(s, at, r.at);
    assert s[at..r.at][0] == s[at] && s[at..r.at][r.at - at - 1] == s[r.at - 1];
  }

  // ---- the Rust parser reads values --------------------------------------------------------------------

  predicate SpacesAt(s: Bytes, at: nat, end: nat) {
    at <= end <= |s| && forall i :: at <= i < end ==> IsSpace(s[i])
  }

  lemma {:induction false} SpacesSkipped(s: Bytes, at: nat, end: nat)
    requires SpacesAt(s, at, end) && (end < |s| ==> !IsSpace(s[end]))
    ensures SkipSpace(s, at) == end
    decreases end - at
  {
    if at < end {
      SpacesSkipped(s, at + 1, end);
    }
  }

  lemma {:induction false} SkippedSpaces(s: Bytes, at: nat)
    requires at <= |s|
    ensures SpacesAt(s, at, SkipSpace(s, at))
    decreases |s| - at
  {
    if at < |s| && IsSpace(s[at]) {
      SkippedSpaces(s, at + 1);
    }
  }

  lemma {:induction false} SpacesIff(s: Bytes, at: nat, end: nat)
    requires at <= end <= |s|
    ensures Spaces(RustReader, s[at..end]) <==> SpacesAt(s, at, end)
  {
    assert forall i :: at <= i < end ==> s[i] == s[at..end][i - at];
  }

  predicate NumberEndsAt(s: Bytes, at: nat) {
    at >= |s| || !InNumber(s[at])
  }

  lemma {:induction false} NumberRuns(s: Bytes, at: nat, end: nat)
    requires at <= end <= |s| && (forall i :: at <= i < end ==> InNumber(s[i])) && NumberEndsAt(s, end)
    ensures NumberEnd(s, at) == end
    decreases end - at
  {
    if at < end {
      NumberRuns(s, at + 1, end);
    }
  }

  lemma {:induction false} NumberRan(s: Bytes, at: nat)
    requires at <= |s|
    ensures var end := NumberEnd(s, at);
            (forall i :: at <= i < end ==> InNumber(s[i])) && NumberEndsAt(s, end)
    decreases |s| - at
  {
    if at < |s| && InNumber(s[at]) {
      NumberRan(s, at + 1);
    }
  }

  lemma {:induction false} NumberTextIff(t: Bytes)
    ensures NumberText(t) <==> t != [] && forall i :: 0 <= i < |t| ==> InNumber(t[i])
  {}

  // ---- every text of the grammar is read ---------------------------------------------------------------

  /** What a value begins with: no white space and no closing bracket. */
  lemma {:induction false} FirstByte<F>(r: Reader, parseFloat: ParseFloat<F>, t: Bytes, v: Json<F>)
    requires Denotes(r, parseFloat, t, v)
    ensures t != [] && !Space(RustReader, t[0]) && t[0] != 93 && t[0] != 125 && t[0] != 0
    ensures match v
            case Null => t[0] == 110
            case Bool(value) => t[0] == if value then 116 else 102
            case Number(_) => t[0] in {43, 45, 46, 69, 101} || 48 <= t[0] <= 57
            case Text(_) => t[0] == 34
            case List(_) => t[0] == 91
            case Object(_) => t[0] == 123
  {
    hide Spells, DenotesItems, DenotesFields, WellFormed;
  }

  lemma {:induction false} SpacesStay(s: Bytes, at: nat)
    requires at <= |s|
    ensures SkipSpace(s, SkipSpace(s, at)) == SkipSpace(s, at)
  {
    SkippedSpaces(s, at);
    SpacesSkipped(s, SkipSpace(s, at), SkipSpace(s, at));
  }

  lemma {:induction false} ValueSkips<F>(parseFloat: ParseFloat<F>, s: Bytes, at: nat)
    requires at <= |s|
    ensures ValueAt(parseFloat, s, at) == ValueAt(parseFloat, s, SkipSpace(s, at))
  {
    hide SkipSpace, StringAt, ItemsFrom, FieldsFrom, NumberAt, WordAt;
    SpacesStay(s, at);
  }

  lemma {:induction false} ItemsSkip<F>(parseFloat: ParseFloat<F>, s: Bytes, at: nat, items: seq<Json<F>>)
    requires at <= |s|
    ensures ItemsFrom(parseFloat, s, at, items) == ItemsFrom(parseFloat, s, SkipSpace(s, at), items)
  {
    hide SkipSpace, ValueAt;
    ValueSkips(parseFloat, s, at);
  }

  lemma {:induction false} NameSkips(s: Bytes, at: nat)
    requires at <= |s|
    ensures NameAt(s, at) == NameAt(s, SkipSpace(s, at))
  {
    hide SkipSpace, StringAt;
    SpacesStay(s, at);
  }

  lemma {:induction false} FieldsSkip<F>(parseFloat: ParseFloat<F>, s: Bytes, at: nat, fields: seq<Field<F>>)
    requires at <= |s|
    ensures FieldsFrom(parseFloat, s, at, fields) == FieldsFrom(parseFloat, s, SkipSpace(s, at), fields)
  {
    hide SkipSpace, ValueAt, NameAt;
    NameSkips(s, at);
  }

  /** Words, numbers and strings. */
  lemma {:induction false} AtomOf<F>(parseFloat: ParseFloat<F>, s: Bytes, at: nat, end: nat, v: Json<F>)
    requires at <= end <= |s| && Denotes(RustReader, parseFloat, s[at..end], v) && !v.List? && !v.Object?
    requires v.Number? ==> NumberEndsAt(s, end)
    ensures at < end && ValueAt(parseFloat, s, at) == Got(v, end)
  {
    hide Quoted, StringAt, ItemsFrom, FieldsFrom, Spells, WellFormed, NumberText, NumberEnd, DenotesItems, DenotesFields;
    var t := s[at..end];
    FirstByte(RustReader, parseFloat, t, v);
    assert t[0] == s[at];
    assert SkipSpace(s, at) == at;
    match v {
      case Number(number) =>
        NumberTextIff(t);
        assert forall i :: at <= i < end ==> s[i] == t[i - at];
        NumberRuns(s, at, end);
      case Text(text) => QuotedReads(s, at, t, text);
      case _ =>
    }
  }

  predicate Closes(s: Bytes, end: nat) {
    end == |s| || (end < |s| && !IsSpace(s[end]) && !InNumber(s[end]))
  }

  lemma {:induction false} InsideAt(s: Bytes, at: nat, end: nat)
    requires at + 2 <= end <= |s|
    ensures Inside(s[at..end]) == s[at + 1..end - 1]
  {
    var t := s[at..end];
    var inside := t[1..|t| - 1];
    assert |inside| == end - at - 2;
    assert forall i :: 0 <= i < |inside| ==> inside[i] == t[i + 1] == s[at + 1 + i];
    assert inside == s[at + 1..end - 1];
  }

  lemma {:induction false} Slices(s: Bytes, at: nat, end: nat, i: nat, j: nat)
    requires at <= end <= |s| && i <= j <= end - at
    ensures s[at..end][..i] == s[at..at + i] && s[at..end][j..] == s[at + j..end]
    ensures s[at..end][i..j] == s[at + i..at + j]
  {
    var middle := s[at..end][i..j];
    assert forall k :: 0 <= k < |middle| ==> middle[k] == s[at + i + k];
  }

  lemma {:induction false} ItemSplit<F>(r: Reader, parseFloat: ParseFloat<F>, s: Bytes, at: nat, end: nat, v: Json<F>) returns (p: nat, q: nat)
    requires at <= end <= |s| && DenotesItem(r, parseFloat, s[at..end], v)
    ensures at <= p <= q <= end && Spaces(r, s[at..p]) && Spaces(r, s[q..end]) && Denotes(r, parseFloat, s[p..q], v)
  {
    hide Denotes, Spaces;
    var m := s[at..end];
    var i: nat, j: nat :| i <= j <= |m| && Spaces(r, m[..i]) && Spaces(r, m[j..]) && Denotes(r, parseFloat, m[i..j], v);
    p, q := at + i, at + j;
    Slices(s, at, end, i, j);
  }

  lemma {:induction false} ItemsSplit<F>(r: Reader, parseFloat: ParseFloat<F>, s: Bytes, at: nat, end: nat, items: seq<Json<F>>) returns (p: nat)
    requires at <= end <= |s| && |items| > 1 && DenotesItems(r, parseFloat, s[at..end], items)
    ensures at <= p < end && s[p] == 44 && DenotesItem(r, parseFloat, s[at..p], items[0])
    ensures DenotesItems(r, parseFloat, s[p + 1..end], items[1..])
  {
    hide DenotesItem;
    var m := s[at..end];
    var k: nat :| k < |m| && m[k] == 44 && DenotesItem(r, parseFloat, m[..k], items[0]) && DenotesItems(r, parseFloat, m[k + 1..], items[1..]);
    p := at + k;
    assert m[..k] == s[at..p] && m[k + 1..] == s[p + 1..end] && s[p] == m[k];
  }

  lemma {:induction false} NameSplit(r: Reader, s: Bytes, at: nat, end: nat, name: Bytes) returns (p: nat, q: nat)
    requires at <= end <= |s| && DenotesName(r, s[at..end], name)
    ensures at <= p <= q <= end && Spaces(r, s[at..p]) && Spaces(r, s[q..end]) && Quoted(r, s[p..q], name)
  {
    hide Quoted, Spaces;
    var m := s[at..end];
    var i: nat, j: nat :| i <= j <= |m| && Spaces(r, m[..i]) && Spaces(r, m[j..]) && Quoted(r, m[i..j], name);
    p, q := at + i, at + j;
    Slices(s, at, end, i, j);
  }

  lemma {:induction false} FieldSplit<F>(r: Reader, parseFloat: ParseFloat<F>, s: Bytes, at: nat, end: nat, field: Field<F>) returns (p: nat)
    requires at <= end <= |s| && DenotesField(r, parseFloat, s[at..end], field)
    ensures at <= p < end && s[p] == 58 && DenotesName(r, s[at..p], field.name)
    ensures DenotesItem(r, parseFloat, s[p + 1..end], field.value)
  {
    hide DenotesItem, DenotesName;
    var m := s[at..end];
    var k: nat :| k < |m| && m[k] == 58 && DenotesName(r, m[..k], field.name) && DenotesItem(r, parseFloat, m[k + 1..], field.value);
    p := at + k;
    assert m[..k] == s[at..p] && m[k + 1..] == s[p + 1..end] && s[p] == m[k];
  }

  lemma {:induction false} FieldsSplit<F>(r: Reader, parseFloat: ParseFloat<F>, s: Bytes, at: nat, end: nat, fields: seq<Field<F>>) returns (p: nat)
    requires at <= end <= |s| && |fields| > 1 && DenotesFields(r, parseFloat, s[at..end], fields)
    ensures at <= p < end && s[p] == 44 && DenotesField(r, parseFloat, s[at..p], fields[0])
    ensures DenotesFields(r, parseFloat, s[p + 1..end], fields[1..])
  {
    hide DenotesField;
    var m := s[at..end];
    var k: nat :| k < |m| && m[k] == 44 && DenotesField(r, parseFloat, m[..k], fields[0]) && DenotesFields(r, parseFloat, m[k + 1..], fields[1..]);
    p := at + k;
    assert m[..k] == s[at..p] && m[k + 1..] == s[p + 1..end] && s[p] == m[k];
  }

  /** What a list denotes lies between its brackets. */
  lemma {:induction false} ListInside<F>(r: Reader, parseFloat: ParseFloat<F>, s: Bytes, at: nat, end: nat, items: seq<Json<F>>)
    requires at <= end <= |s|
    ensures Denotes(r, parseFloat, s[at..end], List(items)) <==>
            && at + 2 <= end && s[at] == 91 && s[end - 1] == 93
            && if items == [] then Spaces(r, s[at + 1..end - 1]) else DenotesItems(r, parseFloat, s[at + 1..end - 1], items)
  {
    hide DenotesItems, DenotesFields, Spaces;
    var t := s[at..end];
    if |t| >= 2 {
      assert t[0] == s[at] && t[|t| - 1] == s[end - 1];
      InsideAt(s, at, end);
    }
  }

  lemma {:induction false} ObjectInside<F>(r: Reader, parseFloat: ParseFloat<F>, s: Bytes, at: nat, end: nat, fields: seq<Field<F>>)
    requires at <= end <= |s|
    ensures Denotes(r, parseFloat, s[at..end], Object(fields)) <==>
            && at + 2 <= end && s[at] == 123 && s[end - 1] == 125
            && if fields == [] then Spaces(r, s[at + 1..end - 1]) else DenotesFields(r, parseFloat, s[at + 1..end - 1], fields)
  {
    hide DenotesItems, DenotesFields, Spaces;
    var t := s[at..end];
    if |t| >= 2 {
      assert t[0] == s[at] && t[|t| - 1] == s[end - 1];
      InsideAt(s, at, end);
    }
  }

  // ---- the loops, one turn at a time ---------------------------------------------------------------------

  lemma {:induction false} ItemsTurn<F>(parseFloat: ParseFloat<F>, s: Bytes, at: nat, before: seq<Json<F>>, next: nat)
    requires at <= |s| && ValueAt(parseFloat, s, at).Got? && next == SkipSpace(s, ValueAt(parseFloat, s, at).at) < |s|
    ensures var all := before + [ValueAt(parseFloat, s, at).value];
            && (s[next] == 93 ==> ItemsFrom(parseFloat, s, at, before) == Got(List(all), next + 1))
            && (s[next] == 44 ==> ItemsFrom(parseFloat, s, at, before) == ItemsFrom(parseFloat, s, next + 1, all))
  {
    hide ValueAt, SkipSpace;
  }

  lemma {:induction false} FieldsTurn<F>(parseFloat: ParseFloat<F>, s: Bytes, at: nat, before: seq<Field<F>>, name: Bytes, behind: nat, next: nat)
    requires at <= |s| && NameAt(s, at) == Got(name, behind) && behind <= |s| && ValueAt(parseFloat, s, behind).Got?
    requires next == SkipSpace(s, ValueAt(parseFloat, s, behind).at) < |s|
    ensures var all := before + [Field(name, ValueAt(parseFloat, s, behind).value)];
            && (s[next] == 125 ==> FieldsFrom(parseFloat, s, at, before) == Got(Object(all), next + 1))
            && (s[next] == 44 ==> FieldsFrom(parseFloat, s, at, before) == FieldsFrom(parseFloat, s, next + 1, all))
  {
    hide ValueAt, NameAt, SkipSpace;
  }

  lemma {:induction false} NoSpaceIsFirst(s: Bytes, at: nat)
    requires at < |s| && !IsSpace(s[at])
    ensures SkipSpace(s, at) == at
  {}

  /** An empty bracket. */
  lemma {:induction false} EmptyOf<F>(parseFloat: ParseFloat<F>, s: Bytes, at: nat, end: nat)
    requires at + 2 <= end <= |s| && Spaces(RustReader, s[at + 1..end - 1])
    ensures s[at] == 91 && s[end - 1] == 93 ==> ValueAt(parseFloat, s, at) == Got(List([]), end)
    ensures s[at] == 123 && s[end - 1] == 125 ==> ValueAt(parseFloat, s, at) == Got(Object([]), end)
  {
    hide ValueAt, SkipSpace, Spaces;
    SpacesIff(s, at + 1, end - 1);
    if s[at] == 91 && s[end - 1] == 93 {
      ListFrom(parseFloat, s, at);
      SpacesSkipped(s, at + 1, end - 1);
    }
    if s[at] == 123 && s[end - 1] == 125 {
      ObjectFrom(parseFloat, s, at);
      SpacesSkipped(s, at + 1, end - 1);
    }
  }

  lemma {:induction false} ValueOf<F>(parseFloat: ParseFloat<F>, s: Bytes, at: nat, end: nat, v: Json<F>)
    requires at <= end <= |s| && Denotes(RustReader, parseFloat, s[at..end], v)
    requires v.Number? ==> NumberEndsAt(s, end)
    ensures at < end && ValueAt(parseFloat, s, at) == Got(v, end)
    decreases end - at, 0
  {
    hide ValueAt, ItemsFrom, FieldsFrom, Denotes, SkipSpace, DenotesItems, DenotesFields, Spaces;
    match v {
      case List(items) =>
        ListInside(RustReader, parseFloat, s, at, end, items);
        if items == [] {
          EmptyOf(parseFloat, s, at, end);
        } else {
          ItemsOf(parseFloat, s, at + 1, end - 1, items, []);
          ListFrom(parseFloat, s, at);
          ItemsSkip(parseFloat, s, at + 1, []);
          assert [] + items == items;
        }
      case Object(fields) =>
        ObjectInside(RustReader, parseFloat, s, at, end, fields);
        if fields == [] {
          EmptyOf(parseFloat, s, at, end);
        } else {
          FieldsOf(parseFloat, s, at + 1, end - 1, fields, []);
          ObjectFrom(parseFloat, s, at);
          FieldsSkip(parseFloat, s, at + 1, []);
          assert [] + fields == fields;
        }
      case _ => AtomOf(parseFloat, s, at, end, v);
    }
  }

  lemma {:induction false} ItemOf<F>(parseFloat: ParseFloat<F>, s: Bytes, at: nat, end: nat, v: Json<F>)
    requires at <= end <= |s| && DenotesItem(RustReader, parseFloat, s[at..end], v) && Closes(s, end)
    ensures var r := ValueAt(parseFloat, s, at);
            && r.Got? && r.value == v && SkipSpace(s, r.at) == end
    ensures SkipSpace(s, at) < |s| && s[SkipSpace(s, at)] != 93
    decreases end - at, 1
  {
    hide ValueAt, Denotes, DenotesItem, SkipSpace, Spaces;
    var p, q := ItemSplit(RustReader, parseFloat, s, at, end, v);
    SpacesIff(s, at, p);
    SpacesIff(s, q, end);
    FirstByte(RustReader, parseFloat, s[p..q], v);
    assert s[p..q][0] == s[p];
    SpaceIs(s[p]);
    NumberStops(s, q, end);
    ValueOf(parseFloat, s, p, q, v);
    SpacesSkipped(s, at, p);
    SpacesSkipped(s, q, end);
    ValueSkips(parseFloat, s, at);
  }

  /** White space ends a number. */
  lemma {:induction false} NumberStops(s: Bytes, at: nat, end: nat)
    requires SpacesAt(s, at, end) && Closes(s, end)
    ensures NumberEndsAt(s, at)
  {}

  lemma {:induction false} SpaceIs(b: byte)
    ensures Space(RustReader, b) <==> IsSpace(b)
  {}

  lemma {:induction false} ItemsOf<F>(parseFloat: ParseFloat<F>, s: Bytes, at: nat, end: nat, items: seq<Json<F>>, before: seq<Json<F>>)
    requires at <= end < |s| && s[end] == 93 && items != [] && DenotesItems(RustReader, parseFloat, s[at..end], items)
    ensures ItemsFrom(parseFloat, s, at, before) == Got(List(before + items), end + 1)
    ensures SkipSpace(s, at) < |s| && s[SkipSpace(s, at)] != 93
    decreases end - at, 2
  {
    hide ValueAt, DenotesItem, SkipSpace, ItemsFrom, DenotesItems;
    if |items| == 1 {
      OneItem(RustReader, parseFloat, s[at..end], items);
      ItemOf(parseFloat, s, at, end, items[0]);
      ItemsTurn(parseFloat, s, at, before, end);
      assert [items[0]] == items;
    } else {
      var p := ItemsSplit(RustReader, parseFloat, s, at, end, items);
      ItemOf(parseFloat, s, at, p, items[0]);
      ItemsTurn(parseFloat, s, at, before, p);
      ItemsOf(parseFloat, s, p + 1, end, items[1..], before + [items[0]]);
      assert before + [items[0]] + items[1..] == before + items;
    }
  }

  lemma {:induction false} OneItem<F>(r: Reader, parseFloat: ParseFloat<F>, s: Bytes, items: seq<Json<F>>)
    requires |items| == 1
    ensures DenotesItems(r, parseFloat, s, items) <==> DenotesItem(r, parseFloat, s, items[0])
  {
    hide DenotesItem;
  }

  lemma {:induction false} OneField<F>(r: Reader, parseFloat: ParseFloat<F>, s: Bytes, fields: seq<Field<F>>)
    requires |fields| == 1
    ensures DenotesFields(r, parseFloat, s, fields) <==> DenotesField(r, parseFloat, s, fields[0])
  {
    hide DenotesField;
  }

  lemma {:induction false} NameOf(s: Bytes, at: nat, end: nat, name: Bytes)
    requires at <= end < |s| && s[end] == 58 && DenotesName(RustReader, s[at..end], name)
    ensures NameAt(s, at) == Got(name, end + 1)
    ensures SkipSpace(s, at) < |s| && s[SkipSpace(s, at)] == 34
  {
    hide Quoted, DenotesName, SkipSpace, StringAt, Spaces;
    var p, q := NameSplit(RustReader, s, at, end, name);
    SpacesIff(s, at, p);
    SpacesIff(s, q, end);
    QuotedReads(s, p, s[p..q], name);
    SpacesSkipped(s, at, p);
    SpacesSkipped(s, q, end);
  }

  lemma {:induction false} FieldOf<F>(parseFloat: ParseFloat<F>, s: Bytes, at: nat, end: nat, field: Field<F>)
    requires at <= end <= |s| && DenotesField(RustReader, parseFloat, s[at..end], field) && Closes(s, end)
    ensures var name := NameAt(s, at);
            && name.Got? && name.value == field.name
            && var value := ValueAt(parseFloat, s, name.at);
               value.Got? && value.value == field.value && SkipSpace(s, value.at) == end
    ensures SkipSpace(s, at) < |s| && s[SkipSpace(s, at)] != 125
    decreases end - at, 1
  {
    hide ValueAt, NameAt, DenotesField, DenotesItem, DenotesName, SkipSpace;
    var p := FieldSplit(RustReader, parseFloat, s, at, end, field);
    NameOf(s, at, p, field.name);
    ItemOf(parseFloat, s, p + 1, end, field.value);
  }

  lemma {:induction false} FieldsOf<F>(parseFloat: ParseFloat<F>, s: Bytes, at: nat, end: nat, fields: seq<Field<F>>, before: seq<Field<F>>)
    requires at <= end < |s| && s[end] == 125 && fields != [] && DenotesFields(RustReader, parseFloat, s[at..end], fields)
    ensures FieldsFrom(parseFloat, s, at, before) == Got(Object(before + fields), end + 1)
    ensures SkipSpace(s, at) < |s| && s[SkipSpace(s, at)] != 125
    decreases end - at, 2
  {
    hide ValueAt, NameAt, DenotesField, SkipSpace, FieldsFrom, DenotesFields;
    if |fields| == 1 {
      OneField(RustReader, parseFloat, s[at..end], fields);
      FieldOf(parseFloat, s, at, end, fields[0]);
      FieldsTurn(parseFloat, s, at, before, fields[0].name, NameAt(s, at).at, end);
      assert [Field(fields[0].name, fields[0].value)] == fields;
    } else {
      var p := FieldsSplit(RustReader, parseFloat, s, at, end, fields);
      FieldOf(parseFloat, s, at, p, fields[0]);
      FieldsTurn(parseFloat, s, at, before, fields[0].name, NameAt(s, at).at, p);
      FieldsOf(parseFloat, s, p + 1, end, fields[1..], before + [fields[0]]);
      assert before + [fields[0]] + fields[1..] == before + fields;
    }
  }

  // ---- every text that is read is of the grammar -----------------------------------------------------------

  /** The library refuses no digits at all. */
  ghost predicate NeedsText<F>(parseFloat: ParseFloat<F>) {
    parseFloat([]) == None
  }

  lemma {:induction false} NumberIs<F>(parseFloat: ParseFloat<F>, s: Bytes, at: nat)
    requires at <= |s| && NeedsText(parseFloat) && NumberAt(parseFloat, s, at).Got?
    ensures var r := NumberAt(parseFloat, s, at);
            at < r.at <= |s| && Denotes(RustReader, parseFloat, s[at..r.at], r.value) && NumberEndsAt(s, r.at)
  {
    hide NumberEnd, NumberText;
    NumberRan(s, at);
    var end := NumberEnd(s, at);
    var t := s[at..end];
    assert forall i :: 0 <= i < |t| ==> t[i] == s[at + i];
    NumberTextIff(t);
  }

  lemma {:induction false} AtomIs<F>(parseFloat: ParseFloat<F>, s: Bytes, at: nat)
    requires at < |s| && !IsSpace(s[at]) && s[at] != 91 && s[at] != 123
    requires NeedsText(parseFloat) && ValueAt(parseFloat, s, at).Got?
    ensures var r := ValueAt(parseFloat, s, at);
            && at < r.at <= |s| && Denotes(RustReader, parseFloat, s[at..r.at], r.value) && (r.value.Number? ==> NumberEndsAt(s, r.at))
  {
    hide NumberAt, StringAt, ItemsFrom, FieldsFrom, Spells, WellFormed, NumberText, Quoted, DenotesItems, DenotesFields;
    NoSpaceIsFirst(s, at);
    if s[at] == 34 {
      ReadIsQuoted(s, at);
    } else if s[at] != 110 && s[at] != 116 && s[at] != 102 {
      NumberIs(parseFloat, s, at);
    }
  }

  lemma {:induction false} ValueIs<F>(parseFloat: ParseFloat<F>, s: Bytes, at: nat)
    requires at < |s| && !IsSpace(s[at]) && NeedsText(parseFloat) && ValueAt(parseFloat, s, at).Got?
    ensures var r := ValueAt(parseFloat, s, at);
            && at < r.at <= |s| && Denotes(RustReader, parseFloat, s[at..r.at], r.value) && (r.value.Number? ==> NumberEndsAt(s, r.at))
    decreases |s| - at, 0
  {
    hide ValueAt, ItemsFrom, FieldsFrom, Denotes, SkipSpace, DenotesItems, DenotesFields, NeedsText, Spaces;
    if s[at] == 91 {
      ListFrom(parseFloat, s, at);
      var first := SkipSpace(s, at + 1);
      SkippedSpaces(s, at + 1);
      SpacesIff(s, at + 1, first);
      if s[first] == 93 {
        ListInside(RustReader, parseFloat, s, at, first + 1, []);
      } else {
        ItemsSkip(parseFloat, s, at + 1, []);
        var items := ItemsAre(parseFloat, s, at + 1, []);
        assert [] + items == items;
        ListInside(RustReader, parseFloat, s, at, ItemsFrom(parseFloat, s, at + 1, []).at, items);
      }
    } else if s[at] == 123 {
      ObjectFrom(parseFloat, s, at);
      var first := SkipSpace(s, at + 1);
      SkippedSpaces(s, at + 1);
      SpacesIff(s, at + 1, first);
      if s[first] == 125 {
        ObjectInside(RustReader, parseFloat, s, at, first + 1, []);
      } else {
        FieldsSkip(parseFloat, s, at + 1, []);
        var fields := FieldsAre(parseFloat, s, at + 1, []);
        assert [] + fields == fields;
        ObjectInside(RustReader, parseFloat, s, at, FieldsFrom(parseFloat, s, at + 1, []).at, fields);
      }
    } else {
      AtomIs(parseFloat, s, at);
    }
  }

  lemma {:induction false} ItemJoins<F>(r: Reader, parseFloat: ParseFloat<F>, s: Bytes, at: nat, p: nat, q: nat, end: nat, v: Json<F>)
    requires at <= p <= q <= end <= |s|
    requires Spaces(r, s[at..p]) && Spaces(r, s[q..end]) && Denotes(r, parseFloat, s[p..q], v)
    ensures DenotesItem(r, parseFloat, s[at..end], v)
  {
    hide Spaces, Denotes;
    var m := s[at..end];
    var i, j := p - at, q - at;
    Slices(s, at, end, i, j);
    assert Denotes(r, parseFloat, m[i..j], v);
  }

  lemma {:induction false} NameJoins(r: Reader, s: Bytes, at: nat, p: nat, q: nat, end: nat, name: Bytes)
    requires at <= p <= q <= end <= |s| && Spaces(r, s[at..p]) && Spaces(r, s[q..end]) && Quoted(r, s[p..q], name)
    ensures DenotesName(r, s[at..end], name)
  {
    hide Spaces, Quoted;
    var m := s[at..end];
    var i, j := p - at, q - at;
    Slices(s, at, end, i, j);
    assert Quoted(r, m[i..j], name);
  }

  lemma {:induction false} FieldJoins<F>(r: Reader, parseFloat: ParseFloat<F>, s: Bytes, at: nat, p: nat, end: nat, field: Field<F>)
    requires at <= p < end <= |s| && s[p] == 58 && DenotesName(r, s[at..p], field.name) && DenotesItem(r, parseFloat, s[p + 1..end], field.value)
    ensures DenotesField(r, parseFloat, s[at..end], field)
  {
    hide DenotesName, DenotesItem;
    var m := s[at..end];
    var k := p - at;
    assert m[..k] == s[at..p] && m[k + 1..] == s[p + 1..end] && m[k] == s[p];
  }

  lemma {:induction false} ItemsJoin<F>(r: Reader, parseFloat: ParseFloat<F>, s: Bytes, at: nat, p: nat, end: nat, item: Json<F>, items: seq<Json<F>>)
    requires at <= p < end <= |s| && s[p] == 44 && items != []
    requires DenotesItem(r, parseFloat, s[at..p], item) && DenotesItems(r, parseFloat, s[p + 1..end], items)
    ensures DenotesItems(r, parseFloat, s[at..end], [item] + items)
  {
    hide DenotesItem;
    var m := s[at..end];
    var k := p - at;
    var all := [item] + items;
    assert m[..k] == s[at..p] && m[k + 1..] == s[p + 1..end] && m[k] == s[p] && all[1..] == items;
    assert DenotesItem(r, parseFloat, m[..k], all[0]) && DenotesItems(r, parseFloat, m[k + 1..], all[1..]);
  }

  lemma {:induction false} FieldsJoin<F>(r: Reader, parseFloat: ParseFloat<F>, s: Bytes, at: nat, p: nat, end: nat, field: Field<F>, fields: seq<Field<F>>)
    requires at <= p < end <= |s| && s[p] == 44 && fields != []
    requires DenotesField(r, parseFloat, s[at..p], field) && DenotesFields(r, parseFloat, s[p + 1..end], fields)
    ensures DenotesFields(r, parseFloat, s[at..end], [field] + fields)
  {
    hide DenotesField;
    var m := s[at..end];
    var k := p - at;
    var all := [field] + fields;
    assert m[..k] == s[at..p] && m[k + 1..] == s[p + 1..end] && m[k] == s[p] && all[1..] == fields;
    assert DenotesField(r, parseFloat, m[..k], all[0]) && DenotesFields(r, parseFloat, m[k + 1..], all[1..]);
  }

  lemma {:induction false} ValueHasStart<F>(parseFloat: ParseFloat<F>, s: Bytes, at: nat)
    requires at <= |s| && ValueAt(parseFloat, s, at).Got?
    ensures SkipSpace(s, at) < |s|
  {
    hide StringAt, ItemsFrom, FieldsFrom, NumberAt, WordAt, SkipSpace;
  }

  lemma {:induction false} ItemIs<F>(parseFloat: ParseFloat<F>, s: Bytes, at: nat)
    requires at <= |s| && NeedsText(parseFloat) && ValueAt(parseFloat, s, at).Got?
    ensures var r := ValueAt(parseFloat, s, at);
            at < r.at && DenotesItem(RustReader, parseFloat, s[at..SkipSpace(s, r.at)], r.value)
    decreases |s| - at, 1
  {
    hide ValueAt, Denotes, DenotesItem, SkipSpace, Spaces, NeedsText;
    var r := ValueAt(parseFloat, s, at);
    var start := SkipSpace(s, at);
    ValueHasStart(parseFloat, s, at);
    ValueSkips(parseFloat, s, at);
    ValueIs(parseFloat, s, start);
    SkippedSpaces(s, at);
    SkippedSpaces(s, r.at);
    var end := SkipSpace(s, r.at);
    SpacesIff(s, at, start);
    SpacesIff(s, r.at, end);
    ItemJoins(RustReader, parseFloat, s, at, start, r.at, end, r.value);
  }

  /** How a list goes on, when it comes to an end. */
  lemma {:induction false} ItemsGoOn<F>(parseFloat: ParseFloat<F>, s: Bytes, at: nat, before: seq<Json<F>>)
    requires at <= |s| && ItemsFrom(parseFloat, s, at, before).Got?
    ensures ValueAt(parseFloat, s, at).Got?
    ensures var next := SkipSpace(s, ValueAt(parseFloat, s, at).at);
            next < |s| && (s[next] == 44 || s[next] == 93)
  {
    hide ValueAt, SkipSpace;
  }

  lemma {:induction false} ItemsAre<F>(parseFloat: ParseFloat<F>, s: Bytes, at: nat, before: seq<Json<F>>) returns (items: seq<Json<F>>)
    requires at <= |s| && NeedsText(parseFloat) && ItemsFrom(parseFloat, s, at, before).Got?
    ensures var r := ItemsFrom(parseFloat, s, at, before);
            && items != [] && r.value == List(before + items)
            && at < r.at <= |s| && s[r.at - 1] == 93 && DenotesItems(RustReader, parseFloat, s[at..r.at - 1], items)
    decreases |s| - at, 2
  {
    hide ValueAt, Denotes, DenotesItem, DenotesItems, SkipSpace, ItemsFrom, NeedsText;
    ItemsGoOn(parseFloat, s, at, before);
    var item := ValueAt(parseFloat, s, at);
    var next := SkipSpace(s, item.at);
    ItemIs(parseFloat, s, at);
    ItemsTurn(parseFloat, s, at, before, next);
    if s[next] == 93 {
      items := [item.value];
      OneItem(RustReader, parseFloat, s[at..next], items);
    } else {
      var rest := ItemsAre(parseFloat, s, next + 1, before + [item.value]);
      items := [item.value] + rest;
      var end := ItemsFrom(parseFloat, s, at, before).at - 1;
      ItemsJoin(RustReader, parseFloat, s, at, next, end, item.value, rest);
      assert before + [item.value] + rest == before + items;
    }
  }

  lemma {:induction false} NameIs(s: Bytes, at: nat)
    requires at <= |s| && NameAt(s, at).Got?
    ensures var r := NameAt(s, at);
            at < r.at <= |s| && s[r.at - 1] == 58 && DenotesName(RustReader, s[at..r.at - 1], r.value)
  {
    hide SkipSpace, StringAt, Quoted, DenotesName, Spaces;
    var start := SkipSpace(s, at);
    var name := StringAt(s, start);
    ReadIsQuoted(s, start);
    SkippedSpaces(s, at);
    SkippedSpaces(s, name.at);
    var colon := SkipSpace(s, name.at);
    SpacesIff(s, at, start);
    SpacesIff(s, name.at, colon);
    NameJoins(RustReader, s, at, start, name.at, colon, name.value);
  }

  lemma {:induction false} FieldsGoOn<F>(parseFloat: ParseFloat<F>, s: Bytes, at: nat, before: seq<Field<F>>)
    requires at <= |s| && FieldsFrom(parseFloat, s, at, before).Got?
    ensures NameAt(s, at).Got? && ValueAt(parseFloat, s, NameAt(s, at).at).Got?
    ensures var next := SkipSpace(s, ValueAt(parseFloat, s, NameAt(s, at).at).at);
            next < |s| && (s[next] == 44 || s[next] == 125)
  {
    hide ValueAt, NameAt, SkipSpace;
  }

  lemma {:induction false} FieldsAre<F>(parseFloat: ParseFloat<F>, s: Bytes, at: nat, before: seq<Field<F>>) returns (fields: seq<Field<F>>)
    requires at <= |s| && NeedsText(parseFloat) && FieldsFrom(parseFloat, s, at, before).Got?
    ensures var r := FieldsFrom(parseFloat, s, at, before);
            && fields != [] && r.value == Object(before + fields)
            && at < r.at <= |s| && s[r.at - 1] == 125 && DenotesFields(RustReader, parseFloat, s[at..r.at - 1], fields)
    decreases |s| - at, 2
  {
    hide ValueAt, NameAt, Denotes, DenotesItem, DenotesName, DenotesField, DenotesFields, SkipSpace, FieldsFrom, NeedsText;
    FieldsGoOn(parseFloat, s, at, before);
    NameIs(s, at);
    var name := NameAt(s, at);
    ItemIs(parseFloat, s, name.at);
    var value := ValueAt(parseFloat, s, name.at);
    var next := SkipSpace(s, value.at);
    var field := Field(name.value, value.value);
    FieldJoins(RustReader, parseFloat, s, at, name.at - 1, next, field);
    FieldsTurn(parseFloat, s, at, before, name.value, name.at, next);
    if s[next] == 125 {
      fields := [field];
      OneField(RustReader, parseFloat, s[at..next], fields);
    } else {
      var rest := FieldsAre(parseFloat, s, next + 1, before + [field]);
      fields := [field] + rest;
      var end := FieldsFrom(parseFloat, s, at, before).at - 1;
      FieldsJoin(RustReader, parseFloat, s, at, next, end, field, rest);
      assert before + [field] + rest == before + fields;
    }
  }

  /** The parser reads exactly the texts that denote a value, and the value they denote. */
  lemma {:induction false} ParseIff<F>(parseFloat: ParseFloat<F>, s: Bytes, v: Json<F>)
    requires NeedsText(parseFloat)
    ensures Parse(parseFloat, s) == Some(v) <==> DenotesItem(RustReader, parseFloat, s, v)
  {
    hide ValueAt, DenotesItem, SkipSpace, NeedsText;
    assert s[0..|s|] == s;
    if DenotesItem(RustReader, parseFloat, s, v) {
      ItemOf(parseFloat, s, 0, |s|, v);
    }
    if Parse(parseFloat, s) == Some(v) {
      ItemIs(parseFloat, s, 0);
    }
  }
}
