/** Characters written as escapes (section 7 of RFC 8259), and what the two parsers make of them. */
module JsonEscapes {
  import opened Common
  import opened CJson
  import opened Json
  import opened JsonText
  import opened Unicode
  import opened Utf8

  // ---- escapes ------------------------------------------------------------------------------

  /** The unit that four hexadecimal digits, in either case, stand for. */
  function UnitOf(a: byte, b: byte, c: byte, d: byte): Option<nat> {
    var h3, h2, h1, h0 := HexValue(a), HexValue(b), HexValue(c), HexValue(d);
    if h3.None? || h2.None? || h1.None? || h0.None? then None
    else Some(h3.value * 4096 + h2.value * 256 + h1.value * 16 + h0.value)
  }

  /** A `\u` escape of a sixteen-bit unit. */
  predicate UnitAt(s: Bytes, at: nat, unit: nat) {
    && at + 6 <= |s| && s[at] == BACKSLASH && s[at + 1] == 117
    && UnitOf(s[at + 2], s[at + 3], s[at + 4], s[at + 5]) == Some(unit)
  }

  function High(c: Scalar): nat
    requires c >= 0x10000
  {
    0xD800 + (c - 0x10000) / 1024
  }

  function Low(c: Scalar): nat
    requires c >= 0x10000
  {
    0xDC00 + (c - 0x10000) % 1024
  }

  /** A character is one unit or, past the sixteen bits, a pair of surrogates. */
  predicate EscapeAt(s: Bytes, at: nat, c: Scalar) {
    if c < 0x10000 then UnitAt(s, at, c) else UnitAt(s, at, High(c)) && UnitAt(s, at + 6, Low(c))
  }

  function EscapeLength(c: Scalar): nat {
    if c < 0x10000 then 6 else 12
  }

  /** Each of the characters as an escape, one behind the other. */
  predicate EscapesAt(s: Bytes, at: nat, text: seq<Scalar>)
    decreases |text|
  {
    text == [] || (EscapeAt(s, at, text[0]) && EscapesAt(s, at + EscapeLength(text[0]), text[1..]))
  }

  function EscapesLength(text: seq<Scalar>): nat {
    if text == [] then 0 else EscapeLength(text[0]) + EscapesLength(text[1..])
  }

  /** A JSON string all of whose characters are written as escapes. */
  predicate IsEscaped(s: Bytes, text: seq<Scalar>) {
    |s| == EscapesLength(text) + 2 && s[0] == QUOTE && EscapesAt(s, 1, text) && s[|s| - 1] == QUOTE
  }

  /** Every character fits one unit. */
  predicate NoPairs(text: seq<Scalar>) {
    forall i :: 0 <= i < |text| ==> text[i] < 0x10000
  }

  // ---- the Rust parser ------------------------------------------------------------------------

  lemma {:induction false} RustReadsUnit(s: Bytes, at: nat, unit: nat)
    requires UnitAt(s, at, unit)
    ensures StringStep(s, at) == More(Encode(CharOf(unit)), at + 6)
  {
    hide Encode, HexValue;
    var hex := s[at + 2..at + 6];
    assert hex[0] == s[at + 2] && hex[1] == s[at + 3] && hex[2] == s[at + 4] && hex[3] == s[at + 5];
    assert FromRadix16(hex) == Some(unit);
  }

  /** What the Rust parser makes of one character: each half of a pair is replaced. */
  function RustReading(c: Scalar): Bytes {
    if c < 0x10000 then Encode(c) else REPLACEMENT + REPLACEMENT
  }

  function RustReadings(text: seq<Scalar>): Bytes {
    if text == [] then [] else RustReading(text[0]) + RustReadings(text[1..])
  }

  lemma {:induction false} RustReadsOne(s: Bytes, at: nat, c: Scalar, out: Bytes)
    requires EscapeAt(s, at, c)
    ensures StringFrom(s, at, out) == StringFrom(s, at + EscapeLength(c), out + RustReading(c))
  {
    hide Encode, StringStep, WellFormed, UnitAt;
    if c < 0x10000 {
      RustReadsUnit(s, at, c);
    } else {
      RustReadsUnit(s, at, High(c));
      RustReadsUnit(s, at + 6, Low(c));
      ReplacementIsEncoded();
      assert out + REPLACEMENT + REPLACEMENT == out + (REPLACEMENT + REPLACEMENT);
    }
  }

  lemma {:induction false} ReplacementIsEncoded()
    ensures Encode(0xFFFD) == REPLACEMENT
  {}

  lemma {:induction false} RustReadsAll(s: Bytes, at: nat, text: seq<Scalar>, out: Bytes)
    requires EscapesAt(s, at, text)
    ensures StringFrom(s, at, out) == StringFrom(s, at + EscapesLength(text), out + RustReadings(text))
    decreases |text|
  {
    hide StringFrom, EscapeAt, RustReading, EscapeLength;
    if text == [] {
      assert out + [] == out;
    } else {
      RustReadsOne(s, at, text[0], out);
      RustReadsAll(s, at + EscapeLength(text[0]), text[1..], out + RustReading(text[0]));
      assert out + RustReading(text[0]) + RustReadings(text[1..]) == out + RustReadings(text);
    }
  }

  lemma {:induction false} ReadingsAreText(text: seq<Scalar>)
    ensures WellFormed(RustReadings(text))
  {
    hide WellFormed, Encode;
    if text == [] {
      NothingIsFine();
    } else {
      ReadingsAreText(text[1..]);
      var c, rest := text[0], RustReadings(text[1..]);
      if c < 0x10000 {
        EncodeIsText(c);
        assert Encode(c)[..|Encode(c)|] == Encode(c);
        CharacterFirst(Encode(c), rest, Encode(c));
      } else {
        ReplacementFirst(rest);
        ReplacementFirst(REPLACEMENT + rest);
        assert REPLACEMENT + (REPLACEMENT + rest) == REPLACEMENT + REPLACEMENT + rest;
      }
    }
  }

  lemma {:induction false} ReadingsDiffer(text: seq<Scalar>)
    ensures |RustReadings(text)| >= |EncodeAll(text)|
    ensures |RustReadings(text)| == |EncodeAll(text)| ==> NoPairs(text)
    ensures NoPairs(text) ==> RustReadings(text) == EncodeAll(text)
  {
    hide Encode;
    if text != [] {
      ReadingsDiffer(text[1..]);
      PairsAreLong(text[0]);
      assert NoPairs(text) <==> text[0] < 0x10000 && NoPairs(text[1..]) by {
        assert forall i :: 1 <= i < |text| ==> text[i] == text[1..][i - 1];
      }
    }
  }

  lemma {:induction false} PairsAreLong(c: Scalar)
    ensures c >= 0x10000 ==> |Encode(c)| == 4
  {}

  lemma {:induction false} RustReadsString<F>(parseFloat: ParseFloat<F>, s: Bytes, text: seq<Scalar>)
    requires IsEscaped(s, text)
    ensures Parse(parseFloat, s) == Some(Text(RustReadings(text)))
  {
    hide WellFormed, EscapesAt;
    var end := |s| - 1;
    RustReadsAll(s, 1, text, []);
    assert [] + RustReadings(text) == RustReadings(text);
    ReadingsAreText(text);
    assert StringStep(s, end) == Done(end + 1);
    assert StringAt(s, 0) == Got(RustReadings(text), |s|);
  }

  /**
   * The Rust parser reads the escapes of a text as that text exactly when
   * none of its characters needs a pair.
   */
  lemma {:induction false} RustReadsEscapesIff<F>(parseFloat: ParseFloat<F>, s: Bytes, text: seq<Scalar>)
    requires IsEscaped(s, text)
    ensures Parse(parseFloat, s) == Some(Text(EncodeAll(text))) <==> NoPairs(text)
  {
    hide Parse, IsEscaped, RustReadings, EncodeAll;
    RustReadsString(parseFloat, s, text);
    ReadingsDiffer(text);
  }

  // ---- the C reader -----------------------------------------------------------------------------

  lemma {:induction false} UnitValue(s: Bytes, at: nat, unit: nat)
    requires UnitAt(s, at, unit)
    ensures Hex4(s, at + 2, 0, 0) == Some(unit)
  {
    hide HexValue, Hex4;
    Hex4Is(s, at + 2, HexValue(s[at + 2]).value, HexValue(s[at + 3]).value, HexValue(s[at + 4]).value, HexValue(s[at + 5]).value);
  }

  lemma {:induction false} CReadsOne(s: Bytes, at: nat, c: Scalar)
    requires EscapeAt(s, at, c)
    ensures at <= |s| && CStep(s, at) == if c == 0 then Stuck else More(Encode(c), at + EscapeLength(c))
  {
    hide Hex4, Encode, HexValue;
    if c < 0x10000 {
      UnitValue(s, at, c);
    } else {
      UnitValue(s, at, High(c));
      UnitValue(s, at + 6, Low(c));
    }
  }

  lemma {:induction false} CReadsAll(s: Bytes, at: nat, text: seq<Scalar>, out: Bytes)
    requires EscapesAt(s, at, text) && at + EscapesLength(text) <= |s|
    ensures ReadFrom(s, at, None, out)
            == if 0 in text then Fail else ReadFrom(s, at + EscapesLength(text), None, out + EncodeAll(text))
    decreases |text|
  {
    hide CStep, EscapeAt, Encode, EscapeLength;
    if text == [] {
      assert out + [] == out;
    } else {
      CReadsOne(s, at, text[0]);
      assert text == [text[0]] + text[1..];
      if text[0] != 0 {
        CReadsAll(s, at + EscapeLength(text[0]), text[1..], out + Encode(text[0]));
        assert out + Encode(text[0]) + EncodeAll(text[1..]) == out + EncodeAll(text);
      }
    }
  }

  /** The C reader reads them exactly when none is NUL, and fails when one is. */
  lemma {:induction false} CReadsEscapes(s: Bytes, text: seq<Scalar>)
    requires IsEscaped(s, text)
    ensures ReadText(s, 0, None) == if 0 in text then Fail else Got(EncodeAll(text), |s|)
  {
    hide EscapesAt, EncodeAll, EscapesLength;
    CReadsAll(s, 1, text, []);
    assert [] + EncodeAll(text) == EncodeAll(text);
    assert CStep(s, |s| - 1) == Done(|s|);
  }

  // ---- one pair -----------------------------------------------------------------------------------

  /** `"\ud83c\udf89"`: the party popper, U+1F389, to the C reader; two replacement characters to the Rust parser. */
  lemma {:induction false} PairTellsTheParsers<F>(parseFloat: ParseFloat<F>)
    ensures var s: Bytes := [34, 92, 117, 100, 56, 51, 99, 92, 117, 100, 102, 56, 57, 34];
            && ReadText(s, 0, None) == Got([0xF0, 0x9F, 0x8E, 0x89], 14)
            && Parse(parseFloat, s) == Some(Text([0xEF, 0xBF, 0xBD, 0xEF, 0xBF, 0xBD]))
  {
    hide Parse, ReadText, Encode, EscapeAt, RustReading;
    var s: Bytes := [34, 92, 117, 100, 56, 51, 99, 92, 117, 100, 102, 56, 57, 34];
    var c: Scalar := 0x1F389;
    ThePair(s, c);
    assert [c][1..] == [] && EscapesLength([]) == 0 && RustReadings([]) == [] && EncodeAll([]) == [];
    assert EscapesAt(s, 13, []);
    assert EscapesAt(s, 1, [c]) && EscapesLength([c]) == 12;
    assert IsEscaped(s, [c]);
    RustReadsString(parseFloat, s, [c]);
    CReadsEscapes(s, [c]);
    assert RustReadings([c]) == RustReading(c) + [] == RustReading(c);
    assert EncodeAll([c]) == Encode(c) + [] == Encode(c);
    assert [c][0] == c;
  }

  lemma {:induction false} ThePair(s: Bytes, c: Scalar)
    requires c == 0x1F389 && s == [34, 92, 117, 100, 56, 51, 99, 92, 117, 100, 102, 56, 57, 34]
    ensures EscapeAt(s, 1, c) && EscapeLength(c) == 12
    ensures Encode(c) == [0xF0, 0x9F, 0x8E, 0x89] && RustReading(c) == [0xEF, 0xBF, 0xBD, 0xEF, 0xBF, 0xBD]
  {
    assert UnitAt(s, 1, 0xD83C) && UnitAt(s, 7, 0xDF89);
    assert High(c) == 0xD83C && Low(c) == 0xDF89;
  }
}
