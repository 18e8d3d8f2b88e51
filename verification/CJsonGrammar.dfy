/** The C demo reads exactly the strings, and skips exactly the values, of its own grammar. */
module CJsonGrammar {
  import opened Common
  import opened JsonText
  import opened Json
  import opened JsonGrammar
  import opened JsonPrinting
  import opened CJson
  import opened Unicode

  // ---- strings -------------------------------------------------------------------------------------

  /** Four digits in a row, or not. */
  lemma {:induction false} Hex4Iff(s: Bytes, at: nat, code: nat)
    requires at <= |s|
    ensures Hex4(s, at, 0, 0) == Some(code) <==> at + 4 <= |s| && HexIs(s[at..at + 4], code)
  {
    hide HexValue, HexIs, Hex4;
    if at + 4 <= |s| {
      var h := s[at..at + 4];
      assert h[0] == s[at] && h[1] == s[at + 1] && h[2] == s[at + 2] && h[3] == s[at + 3];
      HexCode(h, code);
      if HexValue(h[0]).Some? && HexValue(h[1]).Some? && HexValue(h[2]).Some? && HexValue(h[3]).Some? {
        Hex4Is(s, at, HexValue(h[0]).value, HexValue(h[1]).value, HexValue(h[2]).value, HexValue(h[3]).value);
      }
    }
    if Hex4(s, at, 0, 0).Some? {
      Hex4All(s, at);
    }
  }

  lemma {:induction false} Hex4All(s: Bytes, at: nat)
    requires at <= |s| && Hex4(s, at, 0, 0).Some?
    ensures at + 4 <= |s| && HexValue(s[at]).Some? && HexValue(s[at + 1]).Some? && HexValue(s[at + 2]).Some? && HexValue(s[at + 3]).Some?
  {
    hide HexValue;
    Hex4Below(s, at, 0, 0, 1);
    var v1 := HexValue(s[at]).value;
    Hex4Below(s, at, 1, v1, 16);
    var v2 := v1 * 16 + HexValue(s[at + 1]).value;
    Hex4Below(s, at, 2, v2, 256);
    var v3 := v2 * 16 + HexValue(s[at + 2]).value;
    Hex4Below(s, at, 3, v3, 4096);
  }

  /** The four digits behind `\u`, as the code they stand for. */
  lemma {:induction false} CodeAt(s: Bytes, at: nat, unit: Bytes, from: nat, code: nat)
    requires at <= |s| && unit <= s[at..] && from + 4 <= |unit|
    ensures Hex4(s, at + from, 0, 0) == Some(code) <==> HexIs(unit[from..from + 4], code)
  {
    hide HexIs, Hex4;
    assert unit[from..from + 4] == s[at + from..at + from + 4];
    Hex4Iff(s, at + from, code);
  }

  lemma {:induction false} MeaningIff(e: byte, b: byte)
    ensures Meaning(e) == Some(b) <==> Short(e, b)
    ensures Meaning(117) == None
  {}

  /** A pair of units, and the character past the sixteen bits that it makes. */
  lemma {:induction false} PairCode(high: nat, low: nat, c: nat)
    requires 0xD800 <= high <= 0xDBFF && 0xDC00 <= low <= 0xDFFF
    ensures 0x10000 <= c < 0x110000 && high == 0xD800 + (c - 0x10000) / 1024 && low == 0xDC00 + (c - 0x10000) % 1024
            <==> c == 0x10000 + (high - 0xD800) * 1024 + (low - 0xDC00)
  {}

  lemma {:induction false} Starts(s: Bytes, at: nat, unit: Bytes)
    requires StandsAt(s, at, unit)
    ensures at + |unit| <= |s| && unit <= s[at..]
    ensures |unit| > 0 ==> s[at] == unit[0]
    ensures |unit| > 1 ==> s[at + 1] == unit[1]
    ensures |unit| > 7 ==> s[at + 6] == unit[6] && s[at + 7] == unit[7]
  {
    var t := s[at..at + |unit|];
    assert s[at..][..|unit|] == unit;
    assert |unit| > 0 ==> t[0] == s[at];
    assert |unit| > 1 ==> t[1] == s[at + 1];
    assert |unit| > 7 ==> t[6] == s[at + 6] && t[7] == s[at + 7];
  }

  lemma {:induction false} ShapeOf(unit: Bytes, out: Bytes)
    requires Unit(CReader, unit, out)
    ensures |unit| in {1, 2, 6, 12} && (|unit| > 1 ==> unit[0] == 92)
    ensures |unit| == 1 ==> unit[0] >= 32 && unit[0] != 34 && unit[0] != 92 && out == unit
    ensures |unit| == 2 ==> ShortUnit(unit, out)
    ensures |unit| == 6 ==> CHexUnit(unit, out)
    ensures |unit| == 12 ==> PairUnit(unit, out)
  {
    hide HexIs, Encode, Short, IsPair;
  }

  lemma {:induction false} PlainStep(s: Bytes, at: nat)
    requires at < |s| && s[at] >= 32 && s[at] != 34 && s[at] != 92
    ensures CStep(s, at) == More([s[at]], at + 1)
  {}

  lemma {:induction false} ShortStep(s: Bytes, at: nat, b: byte)
    requires at + 2 <= |s| && s[at] == 92 && Short(s[at + 1], b)
    ensures CStep(s, at) == More([b], at + 2)
  {
    hide Short, UnicodeStep;
    MeaningIff(s[at + 1], b);
  }

  lemma {:induction false} HexStep(s: Bytes, at: nat)
    requires at + 2 <= |s| && s[at] == 92 && s[at + 1] == 117
    ensures CStep(s, at) == UnicodeStep(s, at)
  {
    hide UnicodeStep;
  }

  lemma {:induction false} CUnitOf(s: Bytes, at: nat, unit: Bytes, out: Bytes)
    requires StandsAt(s, at, unit) && Unit(CReader, unit, out)
    ensures at < |s| && CStep(s, at) == More(out, at + |unit|) && out != []
  {
    hide Unit, CStep, UnicodeStep, StandsAt, Encode, Short, PairUnit, CHexUnit;
    ShapeOf(unit, out);
    Starts(s, at, unit);
    if |unit| == 1 {
      PlainStep(s, at);
      assert [s[at]] == unit;
    } else if |unit| == 2 {
      var b: byte :| Short(unit[1], b) && out == [b];
      ShortStep(s, at, b);
    } else if |unit| == 6 {
      HexUnitOf(s, at, unit, out);
    } else {
      PairUnitOf(s, at, unit, out);
    }
  }

  lemma {:induction false} HexOfUnit(unit: Bytes, out: Bytes) returns (code: nat)
    requires CHexUnit(unit, out)
    ensures HexIs(unit[2..], code) && code != 0 && !IsSurrogate(code) && code < 0x10000 && out == Encode(code)
  {
    hide IsHex, Encode;
    code :| HexIs(unit[2..], code) && code != 0 && !IsSurrogate(code) && out == Encode(code);
  }

  lemma {:induction false} HexUnitOf(s: Bytes, at: nat, unit: Bytes, out: Bytes)
    requires StandsAt(s, at, unit) && CHexUnit(unit, out)
    ensures at < |s| && CStep(s, at) == More(out, at + 6) && out != []
  {
    hide CStep, Encode, HexIs, Hex4, StandsAt;
    Starts(s, at, unit);
    HexStep(s, at);
    var code := HexOfUnit(unit, out);
    assert unit[2..2 + 4] == unit[2..];
    CodeAt(s, at, unit, 2, code);
    EncodeHasBytes(code);
  }

  lemma {:induction false} EncodeHasBytes(code: nat)
    requires code < 0x110000
    ensures Encode(code) != []
  {}

  lemma {:induction false} PairUnitOf(s: Bytes, at: nat, unit: Bytes, out: Bytes)
    requires StandsAt(s, at, unit) && PairUnit(unit, out)
    ensures at < |s| && CStep(s, at) == More(out, at + 12) && out != []
  {
    hide CStep, Encode, HexIs, Hex4, StandsAt;
    Starts(s, at, unit);
    HexStep(s, at);
    var c: Scalar :| IsPair(unit, c) && out == Encode(c);
    var high, low := 0xD800 + (c - 0x10000) / 1024, 0xDC00 + (c - 0x10000) % 1024;
    assert unit[8..8 + 4] == unit[8..];
    CodeAt(s, at, unit, 2, high);
    CodeAt(s, at, unit, 8, low);
    assert unit[6..][0] == s[at + 6] && unit[6..][1] == s[at + 7];
    PairCode(high, low, c);
    EncodeHasBytes(c);
  }

  lemma {:induction false} CUnitIs(s: Bytes, at: nat)
    requires at <= |s| && CStep(s, at).More?
    ensures var step := CStep(s, at);
            at < step.at <= |s| && Unit(CReader, s[at..step.at], step.bytes) && step.bytes != []
  {
    hide UnicodeStep, Encode, HexIs, Unit, Meaning;
    var step := CStep(s, at);
    var unit := s[at..step.at];
    var c := s[at];
    if c != 92 {
      assert unit == [c];
      PlainUnit(unit);
    } else if Meaning(s[at + 1]).Some? {
      MeaningIff(s[at + 1], Meaning(s[at + 1]).value);
      assert unit[0] == 92 && unit[1] == s[at + 1];
      ShortIsUnit(unit, step.bytes);
    } else {
      HexStep(s, at);
      UnicodeIs(s, at);
    }
  }

  lemma {:induction false} PlainUnit(unit: Bytes)
    requires |unit| == 1 && unit[0] >= 32 && unit[0] != 34 && unit[0] != 92
    ensures Unit(CReader, unit, unit)
  {}

  lemma {:induction false} ShortIsUnit(unit: Bytes, out: Bytes)
    requires |unit| == 2 && unit[0] == 92 && |out| == 1 && Short(unit[1], out[0])
    ensures Unit(CReader, unit, out)
  {
    hide Short;
    assert out == [out[0]];
    assert ShortUnit(unit, out);
  }

  lemma {:induction false} UnicodeIs(s: Bytes, at: nat)
    requires at + 2 <= |s| && s[at] == 92 && s[at + 1] == 117 && UnicodeStep(s, at).More?
    ensures var step := UnicodeStep(s, at);
            at < step.at <= |s| && Unit(CReader, s[at..step.at], step.bytes) && step.bytes != []
  {
    hide Encode, HexIs, Unit, Hex4;
    CodesFit(s, at);
    var code := Hex4(s, at + 2, 0, 0).value;
    Hex4Iff(s, at + 2, code);
    if 0xD800 <= code <= 0xDBFF {
      PairIs(s, at);
    } else {
      var unit := s[at..at + 6];
      assert unit[2..] == s[at + 2..at + 6] && OpensHex(unit);
      assert CHexUnit(unit, Encode(code));
      HexIsUnit(unit, Encode(code));
      EncodeHasBytes(code);
    }
  }

  lemma {:induction false} HexIsUnit(unit: Bytes, out: Bytes)
    requires CHexUnit(unit, out) || PairUnit(unit, out)
    ensures Unit(CReader, unit, out)
  {
    hide CHexUnit, PairUnit;
  }

  lemma {:induction false} PairIs(s: Bytes, at: nat)
    requires at + 2 <= |s| && s[at] == 92 && s[at + 1] == 117 && UnicodeStep(s, at).More?
    requires Hex4(s, at + 2, 0, 0).Some? && 0xD800 <= Hex4(s, at + 2, 0, 0).value <= 0xDBFF
    ensures var step := UnicodeStep(s, at);
            at < step.at <= |s| && Unit(CReader, s[at..step.at], step.bytes) && step.bytes != []
  {
    hide Encode, HexIs, Unit, Hex4;
    var high, low := Hex4(s, at + 2, 0, 0).value, Hex4(s, at + 8, 0, 0).value;
    Hex4Iff(s, at + 2, high);
    Hex4Iff(s, at + 8, low);
    var c := 0x10000 + (high - 0xD800) * 1024 + (low - 0xDC00);
    PairCode(high, low, c);
    var unit := s[at..at + 12];
    assert unit[2..6] == s[at + 2..at + 6] && unit[8..] == s[at + 8..at + 12];
    assert unit[6..][0] == s[at + 6] && unit[6..][1] == s[at + 7];
    var scalar: Scalar := c;
    assert IsPair(unit, scalar);
    assert PairUnit(unit, Encode(c));
    HexIsUnit(unit, Encode(c));
    EncodeHasBytes(c);
  }

  /** One unit more is read when the buffer holds it. */
  lemma {:induction false} ReadMore(s: Bytes, at: nat, limit: Option<nat>, out: Bytes)
    requires at <= |s| && CStep(s, at).More?
    ensures var step := CStep(s, at);
            ReadFrom(s, at, limit, out) ==
            if Holds(limit, |out| + |step.bytes|) then ReadFrom(s, step.at, limit, out + step.bytes) else Fail
  {
    hide CStep;
  }

  /** The loop gathers what is spelled, or fails for want of room. */
  lemma {:induction false} CSpelledReads(s: Bytes, at: nat, body: Bytes, text: Bytes, limit: Option<nat>, out: Bytes)
    requires StandsAt(s, at, body) && Spells(CReader, body, text) && Holds(limit, |out|)
    ensures ReadFrom(s, at, limit, out)
            == if Holds(limit, |out| + |text|) then ReadFrom(s, at + |body|, limit, out + text) else Fail
    decreases |body|
  {
    hide Unit, Spells, CStep, ReadFrom;
    if body == [] {
      NothingSpells(CReader, text);
      assert out + text == out;
    } else {
      var k, m := SpelledFirst(CReader, body, text);
      assert body == body[..k] + body[k..];
      StandsSplit(s, at, body[..k], body[k..]);
      CUnitOf(s, at, body[..k], text[..m]);
      ReadMore(s, at, limit, out);
      if Holds(limit, |out| + m) {
        CSpelledReads(s, at + k, body[k..], text[m..], limit, out + text[..m]);
        assert out + text[..m] + text[m..] == out + text;
      }
    }
  }

  lemma {:induction false} CQuotedReads(s: Bytes, at: nat, q: Bytes, text: Bytes, limit: Option<nat>)
    requires StandsAt(s, at, q) && Quoted(CReader, q, text) && Holds(limit, 0)
    ensures at < |s| && s[at] == 34 && ReadText(s, at, limit) == if Holds(limit, |text|) then Got(text, at + |q|) else Fail
  {
    hide Spells, ReadFrom;
    var body := q[1..|q| - 1];
    assert q == [34] + (body + [34]);
    StandsSplit(s, at, [34], body + [34]);
    StandsSplit(s, at + 1, body, [34]);
    StandsByte(s, at, [34], 0);
    StandsByte(s, at + 1 + |body|, [34], 0);
    CSpelledReads(s, at + 1, body, text, limit, []);
    assert [] + text == text;
    QuoteEnds(s, at + 1 + |body|, limit, text);
  }

  lemma {:induction false} DoneIs(s: Bytes, at: nat)
    requires at <= |s| && CStep(s, at).Done?
    ensures at < |s| && s[at] == 34 && CStep(s, at) == Done(at + 1)
  {
    hide Hex4, Encode;
  }

  lemma {:induction false} CReadIsSpelled(s: Bytes, at: nat, limit: Option<nat>, out: Bytes) returns (text: Bytes)
    requires at <= |s| && ReadFrom(s, at, limit, out).Got?
    ensures var r := ReadFrom(s, at, limit, out);
            && at < r.at <= |s| && s[r.at - 1] == 34
            && Spells(CReader, s[at..r.at - 1], text) && r.value == out + text
    decreases |s| - at
  {
    hide Unit, CStep, Spells;
    var r := ReadFrom(s, at, limit, out);
    if CStep(s, at).Done? {
      DoneIs(s, at);
      text := [];
      NothingSpells(CReader, text);
      assert s[at..r.at - 1] == [] && out + [] == out;
    } else {
      var next, bytes := CStep(s, at).at, CStep(s, at).bytes;
      CUnitIs(s, at);
      var rest := CReadIsSpelled(s, next, limit, out + bytes);
      text := bytes + rest;
      SpelledMore(s[at..next], bytes, s[next..r.at - 1], rest, CReader);
      assert s[at..next] + s[next..r.at - 1] == s[at..r.at - 1];
      assert out + bytes + rest == out + text;
    }
  }

  /** A string is read exactly where one stands whose text fits with its terminator. */
  lemma {:induction false} ReadTextIff(s: Bytes, at: nat, limit: Option<nat>, text: Bytes, end: nat)
    requires at <= |s| && Holds(limit, 0)
    ensures ReadText(s, at, limit) == Got(text, end) <==>
            at <= end <= |s| && Quoted(CReader, s[at..end], text) && Holds(limit, |text|)
  {
    hide Spells, ReadFrom, Quoted;
    if at <= end <= |s| && Quoted(CReader, s[at..end], text) {
      CQuotedReads(s, at, s[at..end], text, limit);
    }
    if ReadText(s, at, limit).Got? {
      CReadIsQuoted(s, at, limit);
    }
  }

  lemma {:induction false} CReadIsQuoted(s: Bytes, at: nat, limit: Option<nat>)
    requires at <= |s| && ReadText(s, at, limit).Got? && Holds(limit, 0)
    ensures var r := ReadText(s, at, limit);
            at < r.at <= |s| && Quoted(CReader, s[at..r.at], r.value) && Holds(limit, |r.value|)
  {
    hide Spells, ReadFrom;
    var r := ReadText(s, at, limit);
    var text := CReadIsSpelled(s, at + 1, limit, []);
    assert [] + text == text;
    InsideAt(s, at, r.at);
    assert s[at..r.at][0] == s[at] && s[at..r.at][r.at - at - 1] == s[r.at - 1];
  }

  // ---- values ----------------------------------------------------------------------------------------

  /** The reader that keeps a number's own text. */
  const RAW: ParseFloat<Bytes> := (text: Bytes) => if text == [] then None else Some(text)

  predicate CSpacesAt(s: Bytes, at: nat, end: nat) {
    at <= end <= |s| && forall i :: at <= i < end ==> IsCSpace(s[i])
  }

  lemma {:induction false} CSpacesSkipped(s: Bytes, at: nat, end: nat)
    requires CSpacesAt(s, at, end) && (end < |s| ==> !IsCSpace(s[end]))
    ensures CSkipSpace(s, at) == end
    decreases end - at
  {
    if at < end {
      CSpacesSkipped(s, at + 1, end);
    }
  }

  lemma {:induction false} CSkippedSpaces(s: Bytes, at: nat)
    requires at <= |s|
    ensures CSpacesAt(s, at, CSkipSpace(s, at))
    ensures CSkipSpace(s, at) < |s| ==> !IsCSpace(s[CSkipSpace(s, at)])
    decreases |s| - at
  {
    if IsCSpace(Char(s, at)) {
      CSkippedSpaces(s, at + 1);
    }
  }

  lemma {:induction false} CSpacesIff(s: Bytes, at: nat, end: nat)
    requires at <= end <= |s|
    ensures Spaces(CReader, s[at..end]) <==> CSpacesAt(s, at, end)
  {
    assert forall i :: at <= i < end ==> s[i] == s[at..end][i - at];
  }

  predicate CCloses(s: Bytes, end: nat) {
    end == |s| || (end < |s| && !IsCSpace(s[end]) && !InNumber(s[end]))
  }

  lemma {:induction false} CNumberStops(s: Bytes, at: nat, end: nat)
    requires CSpacesAt(s, at, end) && CCloses(s, end)
    ensures NumberEndsAt(s, at)
  {}

  lemma {:induction false} SkipSkips(s: Bytes, at: nat)
    requires at <= |s|
    ensures SkipValue(s, at) == SkipValue(s, CSkipSpace(s, at))
  {
    hide CSkipSpace, ReadText, SkipMembers, SkipPlain;
    CSpaceStays(s, at);
  }

  lemma {:induction false} CSpaceStays(s: Bytes, at: nat)
    requires at <= |s|
    ensures CSkipSpace(s, CSkipSpace(s, at)) == CSkipSpace(s, at)
  {
    CSkippedSpaces(s, at);
    CSpacesSkipped(s, CSkipSpace(s, at), CSkipSpace(s, at));
  }

  lemma {:induction false} KeySkips(s: Bytes, at: nat)
    requires at <= |s|
    ensures SkipKey(s, at, 125) == SkipKey(s, CSkipSpace(s, at), 125)
  {
    hide CSkipSpace, ReadText;
    CSpaceStays(s, at);
  }

  /** A list's or object's members may start with white space. */
  lemma {:induction false} MembersSkip(s: Bytes, at: nat, close: byte)
    requires at <= |s| && (close == 93 || close == 125)
    ensures SkipMembers(s, at, close) == SkipMembers(s, CSkipSpace(s, at), close)
  {
    hide CSkipSpace, SkipValue, SkipKey;
    if close == 125 {
      KeySkips(s, at);
    } else {
      SkipSkips(s, at);
      NoKey(s, at);
      NoKey(s, CSkipSpace(s, at));
    }
  }

  lemma {:induction false} NoKey(s: Bytes, at: nat)
    requires at <= |s|
    ensures SkipKey(s, at, 93) == Some(at)
  {}

  // ---- every value of the grammar is skipped to its end ---------------------------------------------------

  lemma {:induction false} WordStands(s: Bytes, at: nat, end: nat, word: Bytes)
    requires at <= end <= |s|
    ensures s[at..end] == word ==> StandsAt(s, at, word) && end == at + |word|
  {}

  lemma {:induction false} StandsFirstByte(s: Bytes, at: nat, word: Bytes)
    requires word != [] && StandsAt(s, at, word)
    ensures at < |s| && s[at] == word[0]
  {
    StandsByte(s, at, word, 0);
  }

  lemma {:induction false} CAtomOf(s: Bytes, at: nat, end: nat, v: Json<Bytes>)
    requires at <= end <= |s| && Denotes(CReader, RAW, s[at..end], v) && !v.List? && !v.Object?
    requires v.Number? ==> NumberEndsAt(s, end)
    ensures at < end && SkipValue(s, at) == Some(end)
  {
    hide Quoted, ReadText, SkipMembers, NumberText, NumberEnd, DenotesItems, DenotesFields, SkipPlain;
    var t := s[at..end];
    FirstByte(CReader, RAW, t, v);
    assert t[0] == s[at];
    CSpacesSkipped(s, at, at);
    match v {
      case Text(text) => CQuotedReads(s, at, t, text, None);
      case _ => PlainOf(s, at, end, v);
    }
  }

  lemma {:induction false} PlainOf(s: Bytes, at: nat, end: nat, v: Json<Bytes>)
    requires at <= end <= |s| && Denotes(CReader, RAW, s[at..end], v) && (v.Null? || v.Bool? || v.Number?)
    requires v.Number? ==> NumberEndsAt(s, end)
    ensures SkipPlain(s, at) == Some(end)
  {
    hide NumberText, NumberEnd, StandsAt, DenotesItems, DenotesFields;
    var t := s[at..end];
    FirstByte(CReader, RAW, t, v);
    assert t[0] == s[at];
    WordStands(s, at, end, Word().0);
    WordStands(s, at, end, Word().1);
    WordStands(s, at, end, Word().2);
    OneWord(s, at);
    if v.Number? {
      NumberTextIff(t);
      assert forall i :: at <= i < end ==> s[i] == t[i - at];
      NumberRuns(s, at, end);
    }
  }

  lemma {:induction false} OneWord(s: Bytes, at: nat)
    ensures StandsAt(s, at, Word().0) ==> at < |s| && s[at] == 110
    ensures StandsAt(s, at, Word().1) ==> at < |s| && s[at] == 116
    ensures StandsAt(s, at, Word().2) ==> at < |s| && s[at] == 102
  {
    forall word: Bytes | word != [] && StandsAt(s, at, word)
      ensures at < |s| && s[at] == word[0]
    {
      StandsFirstByte(s, at, word);
    }
  }

  /** A bracket, and whether it closes at once. */
  lemma {:induction false} BracketAt(s: Bytes, at: nat)
    requires at < |s| && (s[at] == 91 || s[at] == 123)
    ensures var close := s[at] + 2;
            var first := CSkipSpace(s, at + 1);
            SkipValue(s, at) == if Char(s, first) == close then Some(first + 1) else SkipMembers(s, first, close)
  {
    hide SkipMembers, ReadText, SkipPlain;
    CSpacesSkipped(s, at, at);
  }

  /** A member and what follows it. */
  lemma {:induction false} MembersTurn(s: Bytes, at: nat, close: byte, value: nat, next: nat, end: nat)
    requires at <= |s| && (close == 93 || close == 125) && value <= |s|
    requires SkipKey(s, at, close) == Some(value) && SkipValue(s, value) == Some(end) && next == CSkipSpace(s, end)
    ensures next < |s| && s[next] == close ==> SkipMembers(s, at, close) == Some(next + 1)
    ensures next < |s| && s[next] == 44 ==> SkipMembers(s, at, close) == SkipMembers(s, next + 1, close)
  {
    hide SkipValue, SkipKey, CSkipSpace;
  }

  lemma {:induction false} SkipEmpty(s: Bytes, at: nat, end: nat)
    requires at + 2 <= end <= |s| && Spaces(CReader, s[at + 1..end - 1])
    requires (s[at] == 91 && s[end - 1] == 93) || (s[at] == 123 && s[end - 1] == 125)
    ensures SkipValue(s, at) == Some(end)
  {
    hide SkipValue, CSkipSpace, Spaces;
    CSpacesIff(s, at + 1, end - 1);
    CSpacesSkipped(s, at + 1, end - 1);
    BracketAt(s, at);
  }

  lemma {:induction false} SkipOf(s: Bytes, at: nat, end: nat, v: Json<Bytes>)
    requires at <= end <= |s| && Denotes(CReader, RAW, s[at..end], v)
    requires v.Number? ==> NumberEndsAt(s, end)
    ensures at < end && SkipValue(s, at) == Some(end)
    decreases end - at, 0
  {
    hide SkipValue, SkipMembers, Denotes, CSkipSpace, DenotesItems, DenotesFields, Spaces;
    match v {
      case List(items) =>
        ListInside(CReader, RAW, s, at, end, items);
        if items == [] {
          SkipEmpty(s, at, end);
        } else {
          SkipItems(s, at + 1, end - 1, items);
          BracketAt(s, at);
          MembersSkip(s, at + 1, 93);
        }
      case Object(fields) =>
        ObjectInside(CReader, RAW, s, at, end, fields);
        if fields == [] {
          SkipEmpty(s, at, end);
        } else {
          SkipFields(s, at + 1, end - 1, fields);
          BracketAt(s, at);
          MembersSkip(s, at + 1, 125);
        }
      case _ => CAtomOf(s, at, end, v);
    }
  }

  lemma {:induction false} SkipItem(s: Bytes, at: nat, end: nat, v: Json<Bytes>)
    requires at <= end <= |s| && DenotesItem(CReader, RAW, s[at..end], v) && CCloses(s, end)
    ensures SkipValue(s, at).Some? && CSkipSpace(s, SkipValue(s, at).value) == end
    ensures CSkipSpace(s, at) < |s| && Char(s, CSkipSpace(s, at)) != 93
    decreases end - at, 1
  {
    hide SkipValue, Denotes, DenotesItem, CSkipSpace, Spaces;
    var p, q := ItemSplit(CReader, RAW, s, at, end, v);
    CSpacesIff(s, at, p);
    CSpacesIff(s, q, end);
    FirstByte(CReader, RAW, s[p..q], v);
    assert s[p..q][0] == s[p];
    CSpaceIs(s[p]);
    CNumberStops(s, q, end);
    SkipOf(s, p, q, v);
    CSpacesSkipped(s, at, p);
    CSpacesSkipped(s, q, end);
    SkipSkips(s, at);
  }

  lemma {:induction false} CSpaceIs(b: byte)
    ensures IsCSpace(b) ==> Space(RustReader, b)
  {}

  lemma {:induction false} SkipItems(s: Bytes, at: nat, end: nat, items: seq<Json<Bytes>>)
    requires at <= end < |s| && s[end] == 93 && items != [] && DenotesItems(CReader, RAW, s[at..end], items)
    ensures SkipMembers(s, at, 93) == Some(end + 1)
    ensures CSkipSpace(s, at) < |s| && Char(s, CSkipSpace(s, at)) != 93
    decreases end - at, 2
  {
    hide SkipValue, SkipMembers, SkipKey, DenotesItem, DenotesItems, CSkipSpace;
    NoKey(s, at);
    if |items| == 1 {
      OneItem(CReader, RAW, s[at..end], items);
      SkipItem(s, at, end, items[0]);
      MembersTurn(s, at, 93, at, end, SkipValue(s, at).value);
    } else {
      var p := ItemsSplit(CReader, RAW, s, at, end, items);
      SkipItem(s, at, p, items[0]);
      MembersTurn(s, at, 93, at, p, SkipValue(s, at).value);
      SkipItems(s, p + 1, end, items[1..]);
    }
  }

  lemma {:induction false} SkipName(s: Bytes, at: nat, end: nat, name: Bytes)
    requires at <= end < |s| && s[end] == 58 && DenotesName(CReader, s[at..end], name)
    ensures SkipKey(s, at, 125) == Some(end + 1)
    ensures CSkipSpace(s, at) < |s| && Char(s, CSkipSpace(s, at)) == 34
  {
    hide Quoted, DenotesName, CSkipSpace, ReadText, Spaces;
    var p, q := NameSplit(CReader, s, at, end, name);
    CSpacesIff(s, at, p);
    CSpacesIff(s, q, end);
    CQuotedReads(s, p, s[p..q], name, None);
    CSpacesSkipped(s, at, p);
    CSpacesSkipped(s, q, end);
  }

  lemma {:induction false} SkipField(s: Bytes, at: nat, end: nat, field: Field<Bytes>)
    requires at <= end <= |s| && DenotesField(CReader, RAW, s[at..end], field) && CCloses(s, end)
    ensures var key := SkipKey(s, at, 125);
            key.Some? && SkipValue(s, key.value).Some? && CSkipSpace(s, SkipValue(s, key.value).value) == end
    ensures CSkipSpace(s, at) < |s| && Char(s, CSkipSpace(s, at)) != 125
    decreases end - at, 1
  {
    hide SkipValue, SkipKey, DenotesField, DenotesItem, DenotesName, CSkipSpace;
    var p := FieldSplit(CReader, RAW, s, at, end, field);
    SkipName(s, at, p, field.name);
    SkipItem(s, p + 1, end, field.value);
  }

  lemma {:induction false} SkipFields(s: Bytes, at: nat, end: nat, fields: seq<Field<Bytes>>)
    requires at <= end < |s| && s[end] == 125 && fields != [] && DenotesFields(CReader, RAW, s[at..end], fields)
    ensures SkipMembers(s, at, 125) == Some(end + 1)
    ensures CSkipSpace(s, at) < |s| && Char(s, CSkipSpace(s, at)) != 125
    decreases end - at, 2
  {
    hide SkipValue, SkipMembers, SkipKey, DenotesField, DenotesFields, CSkipSpace;
    if |fields| == 1 {
      OneField(CReader, RAW, s[at..end], fields);
      SkipField(s, at, end, fields[0]);
      var value := SkipKey(s, at, 125).value;
      MembersTurn(s, at, 125, value, end, SkipValue(s, value).value);
    } else {
      var p := FieldsSplit(CReader, RAW, s, at, end, fields);
      SkipField(s, at, p, fields[0]);
      var value := SkipKey(s, at, 125).value;
      MembersTurn(s, at, 125, value, p, SkipValue(s, value).value);
      SkipFields(s, p + 1, end, fields[1..]);
    }
  }

  // ---- everything that is skipped is a value of the grammar ---------------------------------------------------

  lemma {:induction false} PlainIs(s: Bytes, at: nat) returns (v: Json<Bytes>)
    requires at <= |s| && SkipPlain(s, at).Some?
    ensures var end := SkipPlain(s, at).value;
            at < end <= |s| && Denotes(CReader, RAW, s[at..end], v) && (v.Number? ==> NumberEndsAt(s, end))
  {
    hide NumberText, NumberEnd, DenotesItems, DenotesFields;
    var end := SkipPlain(s, at).value;
    var t := s[at..end];
    if StandsAt(s, at, Word().1) {
      v := Bool(true);
    } else if StandsAt(s, at, Word().0) {
      v := Null;
    } else if StandsAt(s, at, Word().2) {
      v := Bool(false);
    } else {
      v := Number(t);
      NumberRan(s, at);
      assert forall i :: 0 <= i < |t| ==> t[i] == s[at + i];
      NumberTextIff(t);
    }
  }

  lemma {:induction false} SkippedIs(s: Bytes, at: nat) returns (v: Json<Bytes>)
    requires at <= |s| && !IsCSpace(Char(s, at)) && SkipValue(s, at).Some?
    ensures var end := SkipValue(s, at).value;
            at < end <= |s| && Denotes(CReader, RAW, s[at..end], v) && (v.Number? ==> NumberEndsAt(s, end))
    decreases |s| - at, 0
  {
    hide SkipValue, SkipMembers, Denotes, CSkipSpace, DenotesItems, DenotesFields, Spaces, SkipPlain, ReadText, Quoted;
    if Char(s, at) == 91 || Char(s, at) == 123 {
      var close := s[at] + 2;
      var first := CSkipSpace(s, at + 1);
      BracketAt(s, at);
      CSkippedSpaces(s, at + 1);
      CSpacesIff(s, at + 1, first);
      if Char(s, first) == close {
        v := if close == 93 then List([]) else Object([]);
        ListInside(CReader, RAW, s, at, first + 1, []);
        ObjectInside(CReader, RAW, s, at, first + 1, []);
      } else {
        MembersSkip(s, at + 1, close);
        v := MembersAre(s, at + 1, close);
        var end := SkipValue(s, at).value;
        if close == 93 {
          ListInside(CReader, RAW, s, at, end, v.items);
        } else {
          ObjectInside(CReader, RAW, s, at, end, v.fields);
        }
      }
    } else {
      v := AtomSkipped(s, at);
    }
  }

  lemma {:induction false} AtomSkipped(s: Bytes, at: nat) returns (v: Json<Bytes>)
    requires at <= |s| && !IsCSpace(Char(s, at)) && SkipValue(s, at).Some? && Char(s, at) != 91 && Char(s, at) != 123
    ensures var end := SkipValue(s, at).value;
            at < end <= |s| && Denotes(CReader, RAW, s[at..end], v) && (v.Number? ==> NumberEndsAt(s, end))
  {
    hide SkipMembers, DenotesItems, DenotesFields, SkipPlain, ReadText, Quoted;
    assert CSkipSpace(s, at) == at;
    if Char(s, at) == 34 {
      CReadIsQuoted(s, at, None);
      v := Text(ReadText(s, at, None).value);
    } else {
      v := PlainIs(s, at);
    }
  }

  lemma {:induction false} ItemSkipped(s: Bytes, at: nat) returns (v: Json<Bytes>)
    requires at <= |s| && SkipValue(s, at).Some?
    ensures var end := SkipValue(s, at).value;
            at < end <= |s| && DenotesItem(CReader, RAW, s[at..CSkipSpace(s, end)], v)
    decreases |s| - at, 1
  {
    hide SkipValue, Denotes, DenotesItem, CSkipSpace, Spaces;
    var start := CSkipSpace(s, at);
    SkipSkips(s, at);
    CSkippedSpaces(s, at);
    NulIsNoSpace(s, start);
    v := SkippedIs(s, start);
    var q := SkipValue(s, at).value;
    var end := CSkipSpace(s, q);
    CSkippedSpaces(s, q);
    CSpacesIff(s, at, start);
    CSpacesIff(s, q, end);
    ItemJoins(CReader, RAW, s, at, start, q, end, v);
  }

  lemma {:induction false} NulIsNoSpace(s: Bytes, at: nat)
    requires at <= |s| && (at < |s| ==> !IsCSpace(s[at]))
    ensures !IsCSpace(Char(s, at))
  {}

  lemma {:induction false} NameSkipped(s: Bytes, at: nat) returns (name: Bytes)
    requires at <= |s| && SkipKey(s, at, 125).Some?
    ensures var end := SkipKey(s, at, 125).value;
            at < end <= |s| && s[end - 1] == 58 && DenotesName(CReader, s[at..end - 1], name)
  {
    hide CSkipSpace, ReadText, Quoted, DenotesName, Spaces;
    var start := CSkipSpace(s, at);
    var key := ReadText(s, start, None);
    CReadIsQuoted(s, start, None);
    name := key.value;
    var colon := CSkipSpace(s, key.at);
    CSkippedSpaces(s, at);
    CSkippedSpaces(s, key.at);
    CSpacesIff(s, at, start);
    CSpacesIff(s, key.at, colon);
    NameJoins(CReader, s, at, start, key.at, colon, name);
  }

  lemma {:induction false} MembersGoOn(s: Bytes, at: nat, close: byte)
    requires at <= |s| && (close == 93 || close == 125) && SkipMembers(s, at, close).Some?
    ensures SkipKey(s, at, close).Some? && SkipValue(s, SkipKey(s, at, close).value).Some?
    ensures var next := CSkipSpace(s, SkipValue(s, SkipKey(s, at, close).value).value);
            next < |s| && (s[next] == 44 || s[next] == close)
  {
    hide SkipKey, SkipValue, CSkipSpace;
  }

  lemma {:induction false} MembersAre(s: Bytes, at: nat, close: byte) returns (v: Json<Bytes>)
    requires at <= |s| && (close == 93 || close == 125) && SkipMembers(s, at, close).Some?
    ensures var end := SkipMembers(s, at, close).value;
            && at < end <= |s| && s[end - 1] == close
            && if close == 93 then v.List? && v.items != [] && DenotesItems(CReader, RAW, s[at..end - 1], v.items)
               else v.Object? && v.fields != [] && DenotesFields(CReader, RAW, s[at..end - 1], v.fields)
    decreases |s| - at, 3
  {
    hide SkipMembers, DenotesItems, DenotesFields;
    if close == 93 {
      var items := ItemsSkipped(s, at);
      v := List(items);
    } else {
      var fields := FieldsSkipped(s, at);
      v := Object(fields);
    }
  }

  lemma {:induction false} ItemsSkipped(s: Bytes, at: nat) returns (items: seq<Json<Bytes>>)
    requires at <= |s| && SkipMembers(s, at, 93).Some?
    ensures var end := SkipMembers(s, at, 93).value;
            at < end <= |s| && s[end - 1] == 93 && items != [] && DenotesItems(CReader, RAW, s[at..end - 1], items)
    decreases |s| - at, 2
  {
    hide SkipValue, SkipKey, SkipMembers, DenotesItem, DenotesItems, CSkipSpace;
    MembersGoOn(s, at, 93);
    NoKey(s, at);
    var item := ItemSkipped(s, at);
    var next := CSkipSpace(s, SkipValue(s, at).value);
    MembersTurn(s, at, 93, at, next, SkipValue(s, at).value);
    if s[next] == 93 {
      items := [item];
      OneItem(CReader, RAW, s[at..next], items);
    } else {
      var rest := ItemsSkipped(s, next + 1);
      items := [item] + rest;
      ItemsJoin(CReader, RAW, s, at, next, SkipMembers(s, at, 93).value - 1, item, rest);
    }
  }

  lemma {:induction false} FieldsSkipped(s: Bytes, at: nat) returns (fields: seq<Field<Bytes>>)
    requires at <= |s| && SkipMembers(s, at, 125).Some?
    ensures var end := SkipMembers(s, at, 125).value;
            at < end <= |s| && s[end - 1] == 125 && fields != [] && DenotesFields(CReader, RAW, s[at..end - 1], fields)
    decreases |s| - at, 2
  {
    hide SkipValue, SkipKey, SkipMembers, DenotesItem, DenotesName, DenotesField, DenotesFields, CSkipSpace;
    MembersGoOn(s, at, 125);
    var name := NameSkipped(s, at);
    var value := SkipKey(s, at, 125).value;
    var v := ItemSkipped(s, value);
    var next := CSkipSpace(s, SkipValue(s, value).value);
    var field := Field(name, v);
    FieldJoins(CReader, RAW, s, at, value - 1, next, field);
    MembersTurn(s, at, 125, value, next, SkipValue(s, value).value);
    if s[next] == 125 {
      fields := [field];
      OneField(CReader, RAW, s[at..next], fields);
    } else {
      var rest := FieldsSkipped(s, next + 1);
      fields := [field] + rest;
      FieldsJoin(CReader, RAW, s, at, next, SkipMembers(s, at, 125).value - 1, field, rest);
    }
  }

  /** White space up to `p`, then a text of the grammar, and behind a number none of its characters. */
  ghost predicate ValueFrom(s: Bytes, at: nat, p: nat, end: nat, v: Json<Bytes>) {
    && at <= p <= end <= |s| && Spaces(CReader, s[at..p]) && Denotes(CReader, RAW, s[p..end], v)
    && (v.Number? ==> NumberEndsAt(s, end))
  }

  /** Skipping gets exactly past a value, and fails where none stands. */
  lemma {:induction false} SkipIff(s: Bytes, at: nat, end: nat)
    requires at <= |s|
    ensures SkipValue(s, at) == Some(end) <==> exists p: nat, v: Json<Bytes> :: ValueFrom(s, at, p, end, v)
  {
    hide SkipValue, Denotes, CSkipSpace, Spaces;
    forall p: nat, v: Json<Bytes> | ValueFrom(s, at, p, end, v)
      ensures SkipValue(s, at) == Some(end)
    {
      SkipOf(s, p, end, v);
      FirstByte(CReader, RAW, s[p..end], v);
      assert s[p..end][0] == s[p];
      CSpaceIs(s[p]);
      CSpacesIff(s, at, p);
      CSpacesSkipped(s, at, p);
      SkipSkips(s, at);
    }
    if SkipValue(s, at) == Some(end) {
      var p := CSkipSpace(s, at);
      SkipSkips(s, at);
      CSkippedSpaces(s, at);
      NulIsNoSpace(s, p);
      var v := SkippedIs(s, p);
      CSpacesIff(s, at, p);
      assert ValueFrom(s, at, p, end, v);
    }
  }

  /** Whatever value either program prints, in whatever text it stands: it is skipped to its end. */
  lemma {:induction false} PrintedIsSkipped(s: Bytes, at: nat, w: Writer, printFloat: PrintFloat<Bytes>, v: Json<Bytes>)
    requires Printable(CReader, RAW, printFloat, v) && StandsAt(s, at, Printed(w, printFloat, v))
    requires v.Number? ==> NumberEndsAt(s, at + |Printed(w, printFloat, v)|)
    ensures at <= |s| && SkipValue(s, at) == Some(at + |Printed(w, printFloat, v)|)
  {
    hide Printed, Printable, Denotes, SkipValue;
    PrintedDenotes(CReader, RAW, w, printFloat, v);
    SkipOf(s, at, at + |Printed(w, printFloat, v)|, v);
  }
}
