/** What a header says (LSP 3.17, section "Header Part"): its one length line, among lines of any other kind. */
module LspHeaders {
  import opened Common
  import opened Decimal
  import opened Lsp
  import opened Text
  import opened Utf8
  import opened WhiteSpace
  import opened WhiteSpaceLaws

  // ---- the lines of a header --------------------------------------------------------------------

  predicate NoCrLf(line: Bytes) {
    forall i :: 0 <= i < |line| - 1 ==> !(line[i] == 13 && line[i + 1] == 10)
  }

  /** The lines with a carriage return and a newline between each two. */
  function Lined(lines: seq<Bytes>): Bytes
    requires lines != []
  {
    if |lines| == 1 then lines[0] else lines[0] + [13, 10] + Lined(lines[1..])
  }

  predicate Separates(lines: seq<Bytes>, header: Bytes) {
    && lines != [] && (forall i :: 0 <= i < |lines| ==> NoCrLf(lines[i]))
    && Lined(lines) == header
  }

  /** The bytes are this letter of the field's name, in either case. */
  predicate EitherCase(b: byte, c: char) {
    b as int == c as int || ('a' <= c <= 'z' && b as int == c as int - 32)
  }

  const LENGTH_FIELD: string := "content-length:"

  predicate BeginsLength(line: Bytes) {
    15 <= |line| && forall i :: 0 <= i < 15 ==> EitherCase(line[i], LENGTH_FIELD[i])
  }

  /** The header's line `line` is the only one that begins with the field's name. */
  ghost predicate OnlyLengthLine(header: Bytes, line: Bytes) {
    exists lines: seq<Bytes>, k: nat :: Separates(lines, header) && OnlyAt(lines, k, line)
  }

  predicate OnlyAt(lines: seq<Bytes>, k: nat, line: Bytes) {
    k < |lines| && lines[k] == line && forall i :: 0 <= i < |lines| ==> (BeginsLength(lines[i]) <==> i == k)
  }

  /** What stands behind the field's name, up to a further colon if there is one. */
  predicate Behind(line: Bytes, field: Bytes) {
    && 15 + |field| <= |line| && line[15..15 + |field|] == field
    && (forall i :: 0 <= i < |field| ==> field[i] != 58)
    && (15 + |field| < |line| ==> line[15 + |field|] == 58)
  }

  /** The text of the header's length. */
  ghost predicate LengthText(header: Bytes, text: Bytes) {
    exists line: Bytes, field: Bytes :: OnlyLengthLine(header, line) && Behind(line, field) && TrimsTo(field, text)
  }

  /** Decimal digits, behind a plus sign or not. */
  predicate Numeral(text: Bytes, n: nat) {
    || (text != [] && AllDigits(text) && Value(text) == n)
    || (|text| > 1 && text[0] == 43 && AllDigits(text[1..]) && Value(text[1..]) == n)
  }

  // ---- splitting --------------------------------------------------------------------------------

  lemma {:induction false} SplitSeparates(s: Bytes)
    ensures Separates(SplitCrLf(s), s)
    decreases |s|
  {
    var lines := SplitCrLf(s);
    if s == [] {
      assert Lined(lines) == [];
    } else if CrLf() <= s {
      SplitSeparates(s[2..]);
      assert lines[1..] == SplitCrLf(s[2..]);
      assert s == [] + [13, 10] + s[2..];
    } else {
      var rest := SplitCrLf(s[1..]);
      SplitSeparates(s[1..]);
      assert lines == [[s[0]] + rest[0]] + rest[1..];
      LinedStarts(rest);
      PrependByte(s[0], rest);
      assert s == [s[0]] + s[1..];
      assert NoCrLf([s[0]] + rest[0]) by {
        StartsNoCrLf(s, rest[0]);
      }
    }
  }

  lemma {:induction false} LinedStarts(lines: seq<Bytes>)
    requires lines != []
    ensures lines[0] <= Lined(lines)
  {}

  lemma {:induction false} PrependByte(b: byte, lines: seq<Bytes>)
    requires lines != []
    ensures Lined([[b] + lines[0]] + lines[1..]) == [b] + Lined(lines)
  {
    var all := [[b] + lines[0]] + lines[1..];
    assert all[1..] == lines[1..];
    if |lines| > 1 {
      assert [b] + lines[0] + [13, 10] + Lined(lines[1..]) == [b] + (lines[0] + [13, 10] + Lined(lines[1..]));
    }
  }

  lemma {:induction false} StartsNoCrLf(s: Bytes, line: Bytes)
    requires s != [] && !(CrLf() <= s) && line <= s[1..] && NoCrLf(line)
    ensures NoCrLf([s[0]] + line)
  {
    var all := [s[0]] + line;
    if |line| > 0 {
      assert line[0] == s[1];
      assert !(s[0] == 13 && s[1] == 10) by {
        assert s[..2] == [s[0], s[1]];
      }
    }
    forall i | 0 <= i < |all| - 1
      ensures !(all[i] == 13 && all[i + 1] == 10)
    {
      assert i > 0 ==> all[i] == line[i - 1] && all[i + 1] == line[i];
    }
  }

  /** A line in front comes off whole, whatever its last byte. */
  lemma {:induction false} SplitFront(line: Bytes, rest: Bytes)
    requires NoCrLf(line)
    ensures SplitCrLf(line + [13, 10] + rest) == [line] + SplitCrLf(rest)
    decreases |line|
  {
    var s := line + [13, 10] + rest;
    if line == [] {
      assert s == [13, 10] + rest;
      assert s[2..] == rest;
    } else {
      assert s[0] == line[0] && s[1] == if |line| > 1 then line[1] else 13;
      assert !(CrLf() <= s);
      assert s[1..] == line[1..] + [13, 10] + rest;
      SplitFront(line[1..], rest);
      assert [line[0]] + line[1..] == line;
    }
  }

  lemma {:induction false} CrLfFirst(s: Bytes)
    ensures CrLf() <= s <==> |s| >= 2 && s[0] == 13 && s[1] == 10
  {
    if |s| >= 2 {
      assert s[..2] == [s[0], s[1]];
    }
  }

  lemma {:induction false} SplitLast(line: Bytes)
    requires NoCrLf(line)
    ensures SplitCrLf(line) == [line]
    decreases |line|
  {
    if line != [] {
      CrLfFirst(line);
      SplitLast(line[1..]);
      assert [line[0]] + line[1..] == line;
    }
  }

  /** There is one way to separate a header into lines. */
  lemma {:induction false} SeparatedIsSplit(lines: seq<Bytes>, header: Bytes)
    requires Separates(lines, header)
    ensures SplitCrLf(header) == lines
    decreases |lines|
  {
    hide NoCrLf, SplitCrLf;
    if |lines| == 1 {
      SplitLast(lines[0]);
    } else {
      SeparatedIsSplit(lines[1..], Lined(lines[1..]));
      SplitFront(lines[0], Lined(lines[1..]));
      assert [lines[0]] + lines[1..] == lines;
    }
  }

  // ---- the one length line ------------------------------------------------------------------------

  lemma {:induction false} IsLengthLineIff(line: Bytes)
    ensures IsLengthLine(line) <==> BeginsLength(line)
  {
    var name := Ascii("content-length:");
    var low := LowerAll(line);
    assert |name| == 15 && |low| == |line|;
    if |line| >= 15 {
      forall i | 0 <= i < 15
        ensures low[i] == name[i] <==> EitherCase(line[i], LENGTH_FIELD[i])
      {
        LetterIff(line[i], i);
      }
      assert name <= low <==> forall i :: 0 <= i < 15 ==> low[i] == name[i];
    }
  }

  lemma {:induction false} LetterIff(b: byte, i: nat)
    requires i < 15
    ensures Lower(b) as int == "content-length:"[i] as int <==> EitherCase(b, LENGTH_FIELD[i])
  {}

  lemma {:induction false} NoLengthLines(lines: seq<Bytes>)
    ensures LengthLines(lines) == [] <==> forall i :: 0 <= i < |lines| ==> !BeginsLength(lines[i])
  {
    hide BeginsLength, IsLengthLine;
    if lines != [] {
      IsLengthLineIff(lines[0]);
      NoLengthLines(lines[1..]);
      assert forall i :: 1 <= i < |lines| ==> lines[i] == lines[1..][i - 1];
    }
  }

  lemma {:induction false} OnlyOf(lines: seq<Bytes>, k: nat, line: Bytes)
    requires OnlyAt(lines, k, line)
    ensures LengthLines(lines) == [line]
    decreases |lines|
  {
    hide BeginsLength, IsLengthLine;
    var rest := lines[1..];
    IsLengthLineIff(lines[0]);
    assert forall i :: 1 <= i < |lines| ==> lines[i] == rest[i - 1];
    if k == 0 {
      NoLengthLines(rest);
    } else {
      assert OnlyAt(rest, k - 1, line);
      OnlyOf(rest, k - 1, line);
    }
  }

  lemma {:induction false} OnlyIs(lines: seq<Bytes>) returns (k: nat)
    requires |LengthLines(lines)| == 1
    ensures OnlyAt(lines, k, LengthLines(lines)[0])
    decreases |lines|
  {
    hide BeginsLength, IsLengthLine;
    var rest := lines[1..];
    IsLengthLineIff(lines[0]);
    NoLengthLines(rest);
    assert forall i :: 1 <= i < |lines| ==> lines[i] == rest[i - 1];
    if IsLengthLine(lines[0]) {
      k := 0;
    } else {
      var j := OnlyIs(rest);
      k := j + 1;
    }
  }

  lemma {:induction false} OnlyLengthLineIff(header: Bytes)
    ensures |LengthLines(SplitCrLf(header))| == 1 <==> exists line: Bytes :: OnlyLengthLine(header, line)
    ensures forall line: Bytes :: OnlyLengthLine(header, line) ==> LengthLines(SplitCrLf(header)) == [line]
    ensures |LengthLines(SplitCrLf(header))| == 1 ==> OnlyLengthLine(header, LengthLines(SplitCrLf(header))[0])
  {
    hide OnlyAt, Separates, LengthLines, SplitCrLf;
    var found := LengthLines(SplitCrLf(header));
    forall line: Bytes | OnlyLengthLine(header, line)
      ensures found == [line]
    {
      var lines: seq<Bytes>, k: nat :| Separates(lines, header) && OnlyAt(lines, k, line);
      SeparatedIsSplit(lines, header);
      OnlyOf(lines, k, line);
    }
    if |found| == 1 {
      SplitSeparates(header);
      var k := OnlyIs(SplitCrLf(header));
      assert OnlyLengthLine(header, found[0]);
    }
  }

  // ---- what stands in it ----------------------------------------------------------------------------

  lemma {:induction false} FirstColon(line: Bytes)
    requires BeginsLength(line)
    ensures IndexOf(line, COLON) == Some(14)
  {
    assert EitherCase(line[14], LENGTH_FIELD[14]);
    forall i | 0 <= i < 14
      ensures line[i] != COLON
    {
      assert EitherCase(line[i], LENGTH_FIELD[i]);
      NotColon(i);
    }
  }

  lemma {:induction false} NotColon(i: nat)
    requires i < 14
    ensures LENGTH_FIELD[i] as int != 58 && LENGTH_FIELD[i] as int != 90
  {}

  lemma {:induction false} SecondFieldIff(line: Bytes, field: Bytes)
    requires BeginsLength(line)
    ensures SecondField(line) == field <==> Behind(line, field)
  {
    hide BeginsLength;
    FirstColon(line);
    var tail := line[15..];
    assert forall i :: 15 <= i < |line| ==> line[i] == tail[i - 15];
    FieldIs(line);
    if Behind(line, field) {
      assert tail[..|field|] == field;
      assert |field| < |tail| ==> IndexOf(tail, COLON) == Some(|field|) by {
        assert forall i :: 0 <= i < |field| ==> tail[i] == field[i];
      }
      assert |field| == |tail| ==> IndexOf(tail, COLON) == None && tail[..|tail|] == tail;
    }
  }

  lemma {:induction false} FieldIs(line: Bytes)
    requires IndexOf(line, COLON) == Some(14)
    ensures Behind(line, SecondField(line))
  {
    var tail := line[15..];
    assert forall i :: 15 <= i < |line| ==> line[i] == tail[i - 15];
    var second := IndexOf(tail, COLON);
    if second.Some? {
      assert line[15..15 + second.value] == tail[..second.value];
    } else {
      assert line[15..|line|] == tail;
    }
  }

  lemma {:induction false} LengthTextIff(header: Bytes, text: Bytes)
    ensures var found := LengthLines(SplitCrLf(header));
            LengthText(header, text) <==> |found| == 1 && Trim(SecondField(found[0])) == text
  {
    hide OnlyLengthLine, BeginsLength, SecondField, Behind, Trim, TrimsTo, LengthLines, SplitCrLf;
    var found := LengthLines(SplitCrLf(header));
    OnlyLengthLineIff(header);
    forall line: Bytes, field: Bytes | OnlyLengthLine(header, line) && Behind(line, field) && TrimsTo(field, text)
      ensures |found| == 1 && Trim(SecondField(found[0])) == text
    {
      OnlyBegins(header, line);
      SecondFieldIff(line, field);
      TrimIff(field, text);
    }
    if |found| == 1 && Trim(SecondField(found[0])) == text {
      OnlyBegins(header, found[0]);
      SecondFieldIff(found[0], SecondField(found[0]));
      TrimIff(SecondField(found[0]), text);
    }
  }

  lemma {:induction false} OnlyBegins(header: Bytes, line: Bytes)
    requires OnlyLengthLine(header, line)
    ensures BeginsLength(line)
  {
    hide BeginsLength, Separates;
  }

  lemma {:induction false} ParseUsizeIff(text: Bytes, n: nat)
    ensures ParseUsize(text) == Some(n) <==> Numeral(text, n) && n < 18446744073709551616
    ensures ParseUsize(text).None? <==> forall m: nat :: Numeral(text, m) ==> m >= 18446744073709551616
  {
    hide Value;
    assert text != [] && text[0] == 43 ==> !AllDigits(text);
    var digits := if text != [] && text[0] == 43 then text[1..] else text;
    if digits != [] && AllDigits(digits) {
      assert Numeral(text, Value(digits));
    }
  }

  /** What is read for every header, and when each complaint is made. */
  lemma {:induction false} BodyLengthIff(header: Bytes, n: nat, raw: Bytes)
    ensures BodyLength(header) == Ok(n) <==>
            1 <= n <= 8388608 && exists text: Bytes :: LengthText(header, text) && Numeral(text, n)
    ensures BodyLength(header) == Err(NotOneLength) <==> !exists line: Bytes :: OnlyLengthLine(header, line)
    ensures BodyLength(header) == Err(BadLength) <==>
            exists text: Bytes :: LengthText(header, text) && forall m: nat :: Numeral(text, m) ==> m >= 18446744073709551616
    ensures BodyLength(header) == Err(OutsideLimit(raw)) <==>
            LengthText(header, raw) && exists m: nat :: Numeral(raw, m) && (m == 0 || 8388608 < m < 18446744073709551616)
  {
    hide LengthText, Numeral, OnlyLengthLine, LengthLines, SplitCrLf, Trim, SecondField, ParseUsize;
    var found := LengthLines(SplitCrLf(header));
    OnlyLengthLineIff(header);
    forall text: Bytes
      ensures LengthText(header, text) <==> |found| == 1 && Trim(SecondField(found[0])) == text
    {
      LengthTextIff(header, text);
    }
    if |found| == 1 {
      var text := Trim(SecondField(found[0]));
      forall m: nat
        ensures ParseUsize(text) == Some(m) <==> Numeral(text, m) && m < 18446744073709551616
      {
        ParseUsizeIff(text, m);
      }
      ParseUsizeIff(text, n);
      assert LengthText(header, text);
    }
  }

  // ---- frames with further lines in their headers -----------------------------------------------------

  /** No line is empty, one gives the length n, and all of them fit 8 KiB. */
  ghost predicate Announces(lines: seq<Bytes>, n: nat) {
    && lines != [] && (forall i :: 0 <= i < |lines| ==> lines[i] != [] && NoCrLf(lines[i]))
    && WellFormed(Lined(lines)) && |Lined(lines)| + 3 <= 8192
    && 1 <= n <= 8388608
    && exists k: nat, text: Bytes :: SaysAt(lines, k, text) && Numeral(text, n)
  }

  /** Line k is the one length line, and this is its text. */
  ghost predicate SaysAt(lines: seq<Bytes>, k: nat, text: Bytes) {
    k < |lines| && OnlyAt(lines, k, lines[k]) && exists field: Bytes :: Behind(lines[k], field) && TrimsTo(field, text)
  }

  /** No blank line is found before the one that ends the header. */
  lemma {:induction false} NoBlankInside(lines: seq<Bytes>, i: nat)
    requires lines != [] && forall j :: 0 <= j < |lines| ==> lines[j] != [] && NoCrLf(lines[j])
    requires i < |Lined(lines)|
    ensures !EndsAt(Lined(lines) + Blankline(), i)
    decreases |lines|
  {
    var line := lines[0];
    var whole := Lined(lines) + Blankline();
    if |lines| == 1 {
      InsideLine(line, Blankline(), i);
    } else {
      var rest := Lined(lines[1..]) + Blankline();
      assert whole == line + ([13, 10] + rest);
      if i < |line| {
        InsideLine(line, [13, 10] + rest, i);
      } else if i >= |line| + 2 {
        assert |Lined(lines)| == |line| + 2 + |Lined(lines[1..])|;
        NoBlankInside(lines[1..], i - |line| - 2);
        assert whole[|line| + 2..] == rest;
        LaterEnd(whole, |line| + 2, i - |line| - 2);
      } else {
        BehindLine(line, rest);
        RestStarts(lines[1..]);
      }
    }
  }

  lemma {:induction false} LaterEnd(s: Bytes, k: nat, i: nat)
    requires k <= |s|
    ensures EndsAt(s, k + i) <==> EndsAt(s[k..], i)
  {}

  lemma {:induction false} InsideLine(line: Bytes, behind: Bytes, i: nat)
    requires NoCrLf(line) && i < |line| && behind != [] && behind[0] == 13
    ensures !EndsAt(line + behind, i)
  {
    var s := line + behind;
    assert s[i] == line[i];
    assert i + 1 < |line| ==> s[i + 1] == line[i + 1];
    assert i + 1 == |line| ==> s[i + 1] == 13;
  }

  /** A line that is not empty does not begin with the rest of a blank line. */
  lemma {:induction false} RestStarts(lines: seq<Bytes>)
    requires lines != [] && lines[0] != [] && NoCrLf(lines[0])
    ensures var rest := Lined(lines) + Blankline();
            |rest| >= 2 && !(rest[0] == 13 && rest[1] == 10)
  {
    var line := lines[0];
    var rest := Lined(lines) + Blankline();
    assert rest[0] == line[0];
    assert |line| > 1 ==> rest[1] == line[1];
    assert |line| == 1 ==> rest[1] == 13;
  }

  lemma {:induction false} BehindLine(line: Bytes, rest: Bytes)
    requires |rest| >= 2 ==> !(rest[0] == 13 && rest[1] == 10)
    ensures !EndsAt(line + ([13, 10] + rest), |line|) && !EndsAt(line + ([13, 10] + rest), |line| + 1)
  {}

  lemma {:induction false} AnnouncedLength(lines: seq<Bytes>, n: nat)
    requires Announces(lines, n)
    ensures Heads(Lined(lines), n)
  {
    hide NoCrLf, OnlyAt, Behind, TrimsTo, Numeral, BodyLength, Lossy, WellFormed, EndsAt, Lined;
    var header := Lined(lines);
    LossyKeepsText(header);
    var k: nat, text: Bytes :| SaysAt(lines, k, text) && Numeral(text, n);
    assert Separates(lines, header);
    assert OnlyLengthLine(header, lines[k]);
    assert LengthText(header, text);
    BodyLengthIff(header, n, text);
    forall i | 0 <= i < |header|
      ensures !EndsAt(header + Blankline(), i)
    {
      NoBlankInside(lines, i);
    }
  }

  ghost predicate Announced<V>(encode: V -> Bytes, letter: Letter<V>, lines: seq<Bytes>) {
    Announces(lines, |encode(letter.message)|) && letter.header == Lined(lines)
  }

  /**
   * However the pipe cuts them, frames whose headers have further lines of any
   * kind before and behind the length forward exactly their messages.
   */
  lemma {:induction false} HeadersRoundTrip<V>(
      encode: V -> Bytes, decode: Decode<V>, letters: seq<Letter<V>>, headers: seq<seq<Bytes>>, chunks: seq<Bytes>)
    requires |headers| == |letters|
    requires forall i :: 0 <= i < |letters| ==>
                         Sendable(encode, decode, letters[i].message) && Announced(encode, letters[i], headers[i])
    requires Joined(chunks) == Post(encode, letters)
    ensures Read(decode, FRESH, chunks) == Reading(Messages(letters), Ok(FRESH))
  {
    hide Announces, Heads, Read, Post, Lined, Sendable;
    forall i | 0 <= i < |letters|
      ensures Posts(encode, decode, letters[i])
    {
      assert Announced(encode, letters[i], headers[i]);
      AnnouncedLength(headers[i], |encode(letters[i].message)|);
    }
    LettersRoundTrip(encode, decode, letters, chunks);
  }

  const TYPE_LINE: Bytes := Ascii("Content-Type: ") + Ascii("application/") + Ascii("vscode-jsonrpc")

  lemma {:induction false} PlainHasNoCrLf(line: Bytes)
    requires Plain(line)
    ensures NoCrLf(line) && WellFormed(line)
  {
    PlainIsText(line);
  }

  lemma {:induction false} PlainBoth(a: Bytes, b: Bytes)
    requires Plain(a) && Plain(b)
    ensures Plain(a + b)
  {}

  lemma {:induction false} TypeIsPlain()
    ensures Plain(TYPE_LINE) && |TYPE_LINE| == 40
  {
    hide Plain;
    var a, b, c := Ascii("Content-Type: "), Ascii("application/"), Ascii("vscode-jsonrpc");
    assert Plain(a) by { FirstIsPlain(); }
    assert Plain(b) by { SecondIsPlain(); }
    assert Plain(c) by { ThirdIsPlain(); }
    PlainBoth(a, b);
    PlainBoth(a + b, c);
  }

  lemma {:induction false} FirstIsPlain()
    ensures Plain(Ascii("Content-Type: "))
  {}

  lemma {:induction false} SecondIsPlain()
    ensures Plain(Ascii("application/"))
  {}

  lemma {:induction false} ThirdIsPlain()
    ensures Plain(Ascii("vscode-jsonrpc"))
  {}

  lemma {:induction false} TwoAnnounce(a: Bytes, b: Bytes, text: Bytes, n: nat)
    requires a != [] && b != [] && Plain(a) && Plain(b) && |a| + |b| <= 8000
    requires SaysAt([a, b], 0, text) && Numeral(text, n) && 1 <= n <= 8388608
    ensures Announces([a, b], n) && Lined([a, b]) == a + [13, 10] + b
  {
    hide SaysAt, Numeral, Plain, NoCrLf, WellFormed;
    var lines := [a, b];
    assert lines[1..] == [b];
    PlainHasNoCrLf(a);
    PlainHasNoCrLf(b);
    TypedText(a, b);
    assert Lined(lines) == a + [13, 10] + b;
    assert SaysAt(lines, 0, text) && Numeral(text, n);
  }

  /** A length of 2 with a content type behind it. */
  lemma {:induction false} TypedHeader()
    ensures Heads(Header([50]) + [13, 10] + TYPE_LINE, 2)
  {
    hide Heads, Header, SaysAt, Numeral, Plain, Lined, Announces;
    HeaderIsPlain([50]);
    TypeIsPlain();
    TypedLength();
    TwoAnnounce(Header([50]), TYPE_LINE, [50], 2);
    AnnouncedLength([Header([50]), TYPE_LINE], 2);
  }

  /** Text behind text, with a line's end between. */
  lemma {:induction false} TypedText(a: Bytes, b: Bytes)
    requires Plain(a) && Plain(b)
    ensures WellFormed(a + [13, 10] + b)
  {
    PlainIsText(a + [13, 10] + b);
  }

  lemma {:induction false} TypedLength()
    ensures SaysAt([Header([50]), TYPE_LINE], 0, [50]) && Numeral([50], 2)
  {
    hide TrimsTo, BeginsLength, Behind, Numeral, Header;
    var lines := [Header([50]), TYPE_LINE];
    HeaderIsLengthLine([50]);
    IsLengthLineIff(Header([50]));
    TypeIsNoLength();
    HeaderField([50]);
    SecondFieldIff(Header([50]), [SPACE] + [50]);
    TrimsDigit();
    assert OnlyAt(lines, 0, lines[0]);
  }

  lemma {:induction false} TypeIsNoLength()
    ensures !BeginsLength(TYPE_LINE)
  {
    assert TYPE_LINE[8] == 84;
    assert !EitherCase(TYPE_LINE[8], LENGTH_FIELD[8]);
  }

  lemma {:induction false} TrimsDigit()
    ensures TrimsTo([SPACE] + [50], [50]) && Numeral([50], 2)
  {
    hide TrimsTo, Trim;
    TrimDigits([50]);
    TrimIff([SPACE] + [50], [50]);
    assert Value([]) == 0 && [50][..0] == [];
    assert Value([50]) == 2;
  }
}
