/** Searching and splitting byte strings. */
module Text {
  import opened Common

  const NEWLINE: byte := 10
  const CARRIAGE_RETURN: byte := 13
  const SPACE: byte := 32

  /** An ASCII literal as bytes. */
  function Ascii(s: string): (bytes: Bytes)
    requires forall i :: 0 <= i < |s| ==> s[i] as int < 128
    ensures |bytes| == |s| && forall i :: 0 <= i < |s| ==> bytes[i] as int == s[i] as int
  {
    seq(|s|, i requires 0 <= i < |s| => (s[i] as int) as byte)
  }

  /** The first position of `b`. */
  function IndexOf(s: Bytes, b: byte): (r: Option<nat>)
    ensures r.None? ==> forall j :: 0 <= j < |s| ==> s[j] != b
    ensures r.Some? ==> r.value < |s| && s[r.value] == b && forall j :: 0 <= j < r.value ==> s[j] != b
  {
    if s == [] then None
    else if s[0] == b then Some(0)
    else
      var rest := IndexOf(s[1..], b);
      assert forall j :: 0 < j < |s| ==> s[j] == s[1..][j - 1];
      if rest.Some? then Some(rest.value + 1) else None
  }

  /** The last position of `b`. */
  function LastIndexOf(s: Bytes, b: byte): (r: Option<nat>)
    ensures r.None? ==> forall j :: 0 <= j < |s| ==> s[j] != b
    ensures r.Some? ==> r.value < |s| && s[r.value] == b && forall j :: r.value < j < |s| ==> s[j] != b
  {
    if s == [] then None
    else if s[|s| - 1] == b then Some(|s| - 1)
    else LastIndexOf(s[..|s| - 1], b)
  }

  // ---- lines ------------------------------------------------------------------------

  /** The pieces of a text, each up to and including its newline; the last may lack one. */
  function Lines(text: Bytes): (lines: seq<Bytes>)
    decreases |text|
  {
    if text == [] then []
    else
      var end := IndexOf(text, NEWLINE);
      if end.None? then [text]
      else [text[..end.value + 1]] + Lines(text[end.value + 1..])
  }

  function Concat(parts: seq<Bytes>): Bytes {
    if parts == [] then [] else parts[0] + Concat(parts[1..])
  }

  lemma {:induction false} ConcatAppend(a: seq<Bytes>, b: seq<Bytes>)
    ensures Concat(a + b) == Concat(a) + Concat(b)
  {
    if a == [] {
      assert a + b == b;
    } else {
      assert (a + b)[1..] == a[1..] + b;
      ConcatAppend(a[1..], b);
    }
  }

  lemma {:induction false} LinesCover(text: Bytes)
    ensures Concat(Lines(text)) == text
    decreases |text|
  {
    if text != [] {
      var end := IndexOf(text, NEWLINE);
      if end.None? {
        assert Concat([text]) == text + Concat([]);
      } else {
        var first := text[..end.value + 1];
        var rest := text[end.value + 1..];
        LinesCover(rest);
        assert ([first] + Lines(rest))[1..] == Lines(rest);
        assert text == first + rest;
      }
    }
  }

  /** Where the last line of a text starts: a final newline belongs to the line it ends. */
  predicate StartsLastLine(text: Bytes, start: nat) {
    && start <= |text|
    && (text != [] ==> start < |text|)
    && (start > 0 ==> text[start - 1] == NEWLINE)
    && (forall j :: start <= j < |text| - 1 ==> text[j] != NEWLINE)
  }

  function LastLineStart(text: Bytes): (start: nat)
    ensures StartsLastLine(text, start)
  {
    if text == [] then 0
    else
      var r := LastIndexOf(text[..|text| - 1], NEWLINE);
      if r.None? then 0 else r.value + 1
  }

  lemma {:induction false} LastLineStartIsUnique(text: Bytes, start: nat)
    requires StartsLastLine(text, start)
    ensures start == LastLineStart(text)
  {}

  function LastLine(text: Bytes): Bytes {
    text[LastLineStart(text)..]
  }

  /** Dropping bytes before the last line leaves the last line. */
  lemma {:induction false} LastLineOfSuffix(text: Bytes, k: nat)
    requires k <= LastLineStart(text)
    ensures LastLine(text[k..]) == LastLine(text)
  {
    LastLineStartIsUnique(text[k..], LastLineStart(text) - k);
  }

  lemma {:induction false} LastLineAfter(text: Bytes, k: nat)
    requires 0 < k < |text| && text[k - 1] == NEWLINE
    ensures LastLine(text) == LastLine(text[k..])
  {
    var rest := text[k..];
    LastLineStartIsUnique(text, k + LastLineStart(rest));
  }

  /** The last of a text's lines is its last line. */
  lemma {:induction false} LastOfLines(text: Bytes)
    requires text != []
    ensures Lines(text) != [] && Lines(text)[|Lines(text)| - 1] == LastLine(text)
    decreases |text|
  {
    hide LastLine;
    var end := IndexOf(text, NEWLINE);
    if end.None? || end.value == |text| - 1 {
      OneLine(text);
    } else {
      var k := end.value + 1;
      LastOfLines(text[k..]);
      LastLineAfter(text, k);
      assert Lines(text) == [text[..k]] + Lines(text[k..]);
    }
  }

  lemma {:induction false} OneLine(text: Bytes)
    requires text != [] && forall j :: 0 <= j < |text| - 1 ==> text[j] != NEWLINE
    ensures Lines(text) == [text] && LastLine(text) == text
  {
    LastLineStartIsUnique(text, 0);
    assert text[..|text|] == text && Lines(text[|text|..]) == [];
  }
}
