/** The Python splicer: pieces put into the lines of a text, which are then joined again. */
module SplicePython {
  import opened Common
  import opened Splice
  import opened Text

  // ---- line by line -----------------------------------------------------------------------------------

  /** Lines are counted from one. */
  type Line = n: nat | n >= 1 witness 1

  /** A piece at a line and a byte column in it. */
  datatype Insertion = Insertion(line: Line, column: nat, text: Bytes)

  /** `b"\n".join` */
  function Join(lines: seq<Bytes>): Bytes {
    if lines == [] then []
    else if |lines| == 1 then lines[0]
    else Join(lines[..|lines| - 1]) + [NEWLINE] + lines[|lines| - 1]
  }

  /** Where a line starts in the joined text. */
  function LineStart(lines: seq<Bytes>, line: nat): nat
    requires line <= |lines|
  {
    if line == 0 then 0 else LineStart(lines, line - 1) + |lines[line - 1]| + 1
  }

  predicate Fits(lines: seq<Bytes>, insertion: Insertion) {
    insertion.line <= |lines| && insertion.column <= |lines[insertion.line - 1]|
  }

  predicate AllFit(lines: seq<Bytes>, insertions: seq<Insertion>) {
    forall i :: 0 <= i < |insertions| ==> Fits(lines, insertions[i])
  }

  /** By line and then column, highest first. */
  predicate Before(a: Insertion, b: Insertion) {
    a.line > b.line || (a.line == b.line && a.column >= b.column)
  }

  predicate LinesDescending(insertions: seq<Insertion>) {
    forall i, j :: 0 <= i < j < |insertions| ==> Before(insertions[i], insertions[j])
  }

  /** The same piece as an offset into the whole text. */
  function ToOffset(lines: seq<Bytes>, insertion: Insertion): Piece
    requires Fits(lines, insertion)
  {
    Piece(LineStart(lines, insertion.line - 1) + insertion.column, insertion.text)
  }

  function ToOffsets(lines: seq<Bytes>, insertions: seq<Insertion>): (pieces: seq<Piece>)
    requires AllFit(lines, insertions)
    ensures |pieces| == |insertions|
    ensures forall i :: 0 <= i < |pieces| ==> Fits(lines, insertions[i]) && pieces[i] == ToOffset(lines, insertions[i])
  {
    seq(|insertions|, i requires 0 <= i < |insertions| && Fits(lines, insertions[i]) => ToOffset(lines, insertions[i]))
  }

  function PutInLine(lines: seq<Bytes>, insertion: Insertion): seq<Bytes>
    requires Fits(lines, insertion)
  {
    lines[insertion.line - 1 := InsertAt(lines[insertion.line - 1], insertion.column, insertion.text)]
  }

  lemma {:induction false} LineStartSame(a: seq<Bytes>, b: seq<Bytes>, line: nat)
    requires line <= |a| && line <= |b| && a[..line] == b[..line]
    ensures LineStart(a, line) == LineStart(b, line)
  {
    if line > 0 {
      assert a[line - 1] == a[..line][line - 1] == b[line - 1];
      assert a[..line - 1] == a[..line][..line - 1] == b[..line - 1];
      LineStartSame(a, b, line - 1);
    }
  }

  lemma {:induction false} JoinLength(lines: seq<Bytes>)
    requires lines != []
    ensures |Join(lines)| + 1 == LineStart(lines, |lines|)
    decreases |lines|
  {
    var n := |lines| - 1;
    LineStartSame(lines, lines[..n], n);
    if n > 0 {
      JoinLength(lines[..n]);
    }
  }

  lemma {:induction false} JoinPutLast(lines: seq<Bytes>, insertion: Insertion)
    requires Fits(lines, insertion) && insertion.line == |lines|
    ensures Join(PutInLine(lines, insertion)) == Put(Join(lines), ToOffset(lines, insertion))
    ensures ToOffset(lines, insertion).offset <= |Join(lines)|
  {
    hide LineStart, Join;
    var n := |lines| - 1;
    var after := PutInLine(lines, insertion);
    assert after[..n] == lines[..n];
    if n > 0 {
      LineStartSame(lines, lines[..n], n);
      JoinLength(lines[..n]);
      JoinSplit(lines);
      JoinSplit(after);
      var front := Join(lines[..n]);
      InsertBehind(front + [NEWLINE], lines[n], insertion.column, insertion.text);
      assert front + ([NEWLINE] + lines[n]) == front + [NEWLINE] + lines[n];
      assert front + ([NEWLINE] + after[n]) == front + [NEWLINE] + after[n];
    } else {
      JoinOne(lines);
      JoinOne(after);
    }
  }

  lemma {:induction false} JoinOne(lines: seq<Bytes>)
    requires |lines| == 1
    ensures Join(lines) == lines[0] && LineStart(lines, 0) == 0
  {}

  lemma {:induction false} JoinSplit(lines: seq<Bytes>)
    requires |lines| > 1
    ensures var n := |lines| - 1;
            Join(lines) == Join(lines[..n]) + ([NEWLINE] + lines[n])
  {
    var n := |lines| - 1;
    assert Join(lines[..n]) + [NEWLINE] + lines[n] == Join(lines[..n]) + ([NEWLINE] + lines[n]);
  }

  /** Putting a piece into a line of the list puts it into the joined text. */
  lemma {:induction false} JoinPut(lines: seq<Bytes>, insertion: Insertion)
    requires Fits(lines, insertion)
    ensures Join(PutInLine(lines, insertion)) == Put(Join(lines), ToOffset(lines, insertion))
    ensures ToOffset(lines, insertion).offset <= |Join(lines)|
    decreases |lines|
  {
    hide Join, LineStart;
    if insertion.line == |lines| {
      JoinPutLast(lines, insertion);
    } else {
      var n := |lines| - 1;
      var after := PutInLine(lines, insertion);
      JoinPut(lines[..n], insertion);
      LineStartSame(lines, lines[..n], insertion.line - 1);
      assert after[..n] == PutInLine(lines[..n], insertion);
      JoinSplit(lines);
      JoinSplit(after);
      InsertInFront(Join(lines[..n]), [NEWLINE] + lines[n], ToOffset(lines, insertion).offset, insertion.text);
    }
  }

  lemma {:induction false} InsertBehind(front: Bytes, line: Bytes, column: nat, text: Bytes)
    requires column <= |line|
    ensures InsertAt(front + line, |front| + column, text) == front + InsertAt(line, column, text)
  {
    assert (front + line)[..|front| + column] == front + line[..column];
    assert (front + line)[|front| + column..] == line[column..];
  }

  lemma {:induction false} InsertInFront(line: Bytes, rest: Bytes, offset: nat, text: Bytes)
    requires offset <= |line|
    ensures InsertAt(line + rest, offset, text) == InsertAt(line, offset, text) + rest
  {
    assert (line + rest)[..offset] == line[..offset];
    assert (line + rest)[offset..] == line[offset..] + rest;
  }

  function PutAllInLines(lines: seq<Bytes>, insertions: seq<Insertion>): seq<Bytes>
    requires AllFit(lines, insertions)
    decreases |insertions|
  {
    if insertions == [] then lines
    else
      StillFit(lines, insertions);
      PutAllInLines(PutInLine(lines, insertions[0]), insertions[1..])
  }

  /** A line only grows, so what fitted still fits. */
  lemma {:induction false} StillFit(lines: seq<Bytes>, insertions: seq<Insertion>)
    requires insertions != [] && AllFit(lines, insertions)
    ensures Fits(lines, insertions[0]) && AllFit(PutInLine(lines, insertions[0]), insertions[1..])
  {
    assert Fits(lines, insertions[0]);
    var after := PutInLine(lines, insertions[0]);
    forall i | 0 <= i < |insertions[1..]|
      ensures Fits(after, insertions[1..][i])
    {
      assert Fits(lines, insertions[i + 1]);
    }
  }

  /** The lines before the one changed keep their starts, and only those are still to come. */
  lemma {:induction false} OffsetsStay(lines: seq<Bytes>, insertions: seq<Insertion>)
    requires insertions != [] && AllFit(lines, insertions) && LinesDescending(insertions)
    requires Fits(lines, insertions[0]) && AllFit(PutInLine(lines, insertions[0]), insertions[1..])
    ensures ToOffsets(PutInLine(lines, insertions[0]), insertions[1..]) == ToOffsets(lines, insertions)[1..]
  {
    var after := PutInLine(lines, insertions[0]);
    forall i | 0 <= i < |insertions[1..]|
      ensures ToOffsets(after, insertions[1..])[i] == ToOffsets(lines, insertions)[i + 1]
    {
      var next := insertions[i + 1];
      assert Before(insertions[0], next) && Fits(lines, next);
      assert after[..next.line - 1] == lines[..next.line - 1];
      LineStartSame(after, lines, next.line - 1);
    }
  }

  /** Python's line-by-line splice is the splice at byte offsets. */
  lemma {:induction false} LinesAgree(lines: seq<Bytes>, insertions: seq<Insertion>)
    requires AllFit(lines, insertions) && LinesDescending(insertions)
    ensures Join(PutAllInLines(lines, insertions)) == PutAll(Join(lines), ToOffsets(lines, insertions))
    decreases |insertions|
  {
    hide Join, LineStart;
    if insertions != [] {
      StillFit(lines, insertions);
      JoinPut(lines, insertions[0]);
      OffsetsStay(lines, insertions);
      LinesAgree(PutInLine(lines, insertions[0]), insertions[1..]);
    }
  }

  lemma {:induction false} LineStartGrows(lines: seq<Bytes>, a: nat, b: nat)
    requires a < b <= |lines|
    ensures LineStart(lines, a) + |lines[a]| < LineStart(lines, b)
  {
    if a < b - 1 {
      LineStartGrows(lines, a, b - 1);
    }
  }

  lemma {:induction false} OffsetsDescend(lines: seq<Bytes>, insertions: seq<Insertion>)
    requires AllFit(lines, insertions) && LinesDescending(insertions)
    ensures Descending(ToOffsets(lines, insertions)) && AllUpTo(ToOffsets(lines, insertions), |Join(lines)|)
  {
    hide Join;
    var pieces := ToOffsets(lines, insertions);
    forall i, j | 0 <= i < j < |pieces|
      ensures pieces[i].offset >= pieces[j].offset
    {
      var a, b := insertions[i], insertions[j];
      assert Before(a, b) && Fits(lines, a) && Fits(lines, b);
      if a.line > b.line {
        LineStartGrows(lines, b.line - 1, a.line - 1);
      }
    }
    forall i | 0 <= i < |pieces|
      ensures pieces[i].offset <= |Join(lines)|
    {
      assert Fits(lines, insertions[i]);
      JoinPut(lines, insertions[i]);
    }
  }

  lemma {:induction false} LinesAreWoven(lines: seq<Bytes>, insertions: seq<Insertion>)
    requires AllFit(lines, insertions) && LinesDescending(insertions)
    ensures Join(PutAllInLines(lines, insertions)) == Weave(Join(lines), ToOffsets(lines, insertions))
  {
    hide Join, PutAllInLines, Weave, PutAll;
    LinesAgree(lines, insertions);
    OffsetsDescend(lines, insertions);
    PutAllIsWeave(Join(lines), ToOffsets(lines, insertions));
  }

  predicate PiecesNewlineFree(insertions: seq<Insertion>) {
    forall i :: 0 <= i < |insertions| ==> NEWLINE !in insertions[i].text
  }

  // ---- splitting and sorting ---------------------------------------------------------------------

  /** `source.split("\n")` */
  function Split(source: Bytes): (lines: seq<Bytes>)
    ensures lines != []
  {
    if source == [] then [[]]
    else
      var n := |source| - 1;
      var front := Split(source[..n]);
      if source[n] == NEWLINE then front + [[]]
      else front[|front| - 1 := front[|front| - 1] + [source[n]]]
  }

  lemma {:induction false} JoinOfSplit(source: Bytes)
    ensures Join(Split(source)) == source
    decreases |source|
  {
    if source != [] {
      var n := |source| - 1;
      var front := Split(source[..n]);
      var k := |front| - 1;
      JoinOfSplit(source[..n]);
      assert source[..n] + [source[n]] == source;
      if source[n] == NEWLINE {
        var lines := front + [[]];
        assert lines[..k + 1] == front;
        JoinSplit(lines);
        assert [NEWLINE] + lines[k + 1] == [source[n]];
      } else {
        AppendToLast(front, [source[n]]);
      }
    }
  }

  lemma {:induction false} AppendToLast(lines: seq<Bytes>, text: Bytes)
    requires lines != []
    ensures Join(lines[|lines| - 1 := lines[|lines| - 1] + text]) == Join(lines) + text
  {
    var n := |lines| - 1;
    var after := lines[n := lines[n] + text];
    if n > 0 {
      JoinSplit(lines);
      JoinSplit(after);
      assert after[..n] == lines[..n];
      assert [NEWLINE] + (lines[n] + text) == [NEWLINE] + lines[n] + text;
      assert Join(lines[..n]) + ([NEWLINE] + lines[n] + text) == Join(lines[..n]) + ([NEWLINE] + lines[n]) + text;
    }
  }

  function InsertLine(insertion: Insertion, sorted: seq<Insertion>): seq<Insertion> {
    if sorted == [] || Before(insertion, sorted[0]) then [insertion] + sorted
    else [sorted[0]] + InsertLine(insertion, sorted[1..])
  }

  /** The library's stable sort by line and column, highest first. */
  function SortLines(insertions: seq<Insertion>): seq<Insertion> {
    if insertions == [] then [] else InsertLine(insertions[0], SortLines(insertions[1..]))
  }

  lemma {:induction false} FitsFirst(lines: seq<Bytes>, insertion: Insertion, rest: seq<Insertion>)
    requires Fits(lines, insertion) && AllFit(lines, rest)
    ensures AllFit(lines, [insertion] + rest)
    ensures ToOffsets(lines, [insertion] + rest) == [ToOffset(lines, insertion)] + ToOffsets(lines, rest)
  {
    hide ToOffset;
  }

  lemma {:induction false} FitsRest(lines: seq<Bytes>, insertions: seq<Insertion>)
    requires insertions != [] && AllFit(lines, insertions)
    ensures Fits(lines, insertions[0]) && AllFit(lines, insertions[1..])
    ensures ToOffsets(lines, insertions) == [ToOffset(lines, insertions[0])] + ToOffsets(lines, insertions[1..])
  {
    hide ToOffset;
    assert forall i :: 0 <= i < |insertions[1..]| ==> insertions[1..][i] == insertions[i + 1];
    assert insertions == [insertions[0]] + insertions[1..];
  }

  lemma {:induction false} InsertLineFits(lines: seq<Bytes>, insertion: Insertion, sorted: seq<Insertion>)
    requires Fits(lines, insertion) && AllFit(lines, sorted)
    ensures AllFit(lines, InsertLine(insertion, sorted))
    ensures ToOffsets(lines, InsertLine(insertion, sorted)) == InsertSorted(ToOffset(lines, insertion), ToOffsets(lines, sorted))
    decreases |sorted|
  {
    hide LineStart, ToOffset, ToOffsets, Fits, AllFit, Before;
    FitsFirst(lines, insertion, sorted);
    if sorted != [] {
      FitsRest(lines, sorted);
      BeforeIsHigher(lines, insertion, sorted[0]);
      if !Before(insertion, sorted[0]) {
        InsertLineFits(lines, insertion, sorted[1..]);
        FitsFirst(lines, sorted[0], InsertLine(insertion, sorted[1..]));
      }
    }
  }

  lemma {:induction false} BeforeIsHigher(lines: seq<Bytes>, a: Insertion, b: Insertion)
    requires Fits(lines, a) && Fits(lines, b)
    ensures Before(a, b) <==> ToOffset(lines, a).offset >= ToOffset(lines, b).offset
  {
    if a.line > b.line {
      LineStartGrows(lines, b.line - 1, a.line - 1);
    } else if b.line > a.line {
      LineStartGrows(lines, a.line - 1, b.line - 1);
    }
  }

  /** Sorting by line and column is sorting by byte offset. */
  lemma {:induction false} SortsAgree(lines: seq<Bytes>, insertions: seq<Insertion>)
    requires AllFit(lines, insertions)
    ensures AllFit(lines, SortLines(insertions))
    ensures ToOffsets(lines, SortLines(insertions)) == SortDescending(ToOffsets(lines, insertions))
    decreases |insertions|
  {
    hide LineStart, InsertLine, InsertSorted, ToOffset;
    if insertions != [] {
      FitsRest(lines, insertions);
      SortsAgree(lines, insertions[1..]);
      InsertLineFits(lines, insertions[0], SortLines(insertions[1..]));
    }
  }

  lemma {:induction false} SortedLinesDescend(lines: seq<Bytes>, sorted: seq<Insertion>)
    requires AllFit(lines, sorted) && Descending(ToOffsets(lines, sorted))
    ensures LinesDescending(sorted)
  {
    var pieces := ToOffsets(lines, sorted);
    forall i, j | 0 <= i < j < |sorted|
      ensures Before(sorted[i], sorted[j])
    {
      assert pieces[i].offset >= pieces[j].offset;
      BeforeIsHigher(lines, sorted[i], sorted[j]);
    }
  }

  /** What the sorted line-by-line splice comes to. */
  lemma {:induction false} SortedLinesAreWoven(lines: seq<Bytes>, insertions: seq<Insertion>)
    requires AllFit(lines, insertions)
    ensures AllFit(lines, SortLines(insertions))
    ensures Join(PutAllInLines(lines, SortLines(insertions))) == Weave(Join(lines), ToOffsets(lines, insertions))
  {
    hide Join, PutAllInLines, Weave, TextAt, SortLines, SortDescending, ToOffset;
    var pieces := ToOffsets(lines, insertions);
    SortsAgree(lines, insertions);
    SortIsStable(pieces);
    SortedLinesDescend(lines, SortLines(insertions));
    LinesAreWoven(lines, SortLines(insertions));
    WeaveSame(Join(lines), SortDescending(pieces), pieces);
  }

  // ---- lines and columns that are not there -------------------------------------------------------------

  predicate LinesExist(lines: seq<Bytes>, insertions: seq<Insertion>) {
    forall i :: 0 <= i < |insertions| ==> insertions[i].line <= |lines|
  }

  /** A slice past the end of a line stops at its end. */
  function Clamped(lines: seq<Bytes>, insertion: Insertion): (c: Insertion)
    requires insertion.line <= |lines|
    ensures Fits(lines, c) && c.line == insertion.line && c.text == insertion.text
    ensures Fits(lines, insertion) ==> c == insertion
  {
    var line := lines[insertion.line - 1];
    insertion.(column := if insertion.column <= |line| then insertion.column else |line|)
  }

  function PutAllClamped(lines: seq<Bytes>, insertions: seq<Insertion>): seq<Bytes>
    requires LinesExist(lines, insertions)
    decreases |insertions|
  {
    if insertions == [] then lines
    else PutAllClamped(PutInLine(lines, Clamped(lines, insertions[0])), insertions[1..])
  }

  lemma {:induction false} FittingIsNotClamped(lines: seq<Bytes>, insertions: seq<Insertion>)
    requires AllFit(lines, insertions) && LinesExist(lines, insertions)
    ensures PutAllClamped(lines, insertions) == PutAllInLines(lines, insertions)
    decreases |insertions|
  {
    hide Fits;
    if insertions != [] {
      StillFit(lines, insertions);
      FittingIsNotClamped(PutInLine(lines, insertions[0]), insertions[1..]);
    }
  }

  /** Wherever the pieces go, the newlines added are those they bring. */
  lemma {:induction false} ClampedNewlines(lines: seq<Bytes>, insertions: seq<Insertion>)
    requires LinesExist(lines, insertions)
    ensures Newlines(Join(PutAllClamped(lines, insertions))) >= Newlines(Join(lines))
    ensures Newlines(Join(PutAllClamped(lines, insertions))) == Newlines(Join(lines)) <==> PiecesNewlineFree(insertions)
    decreases |insertions|
  {
    hide Join, Newlines, LineStart, Clamped, PutInLine;
    if insertions != [] {
      var first := Clamped(lines, insertions[0]);
      var after := PutInLine(lines, first);
      OneMoreNewlines(lines, first);
      LinesStay(lines, first);
      ClampedNewlines(after, insertions[1..]);
      NewlinesIff(first.text);
      assert forall i :: 1 <= i < |insertions| ==> insertions[i] == insertions[1..][i - 1];
      assert PiecesNewlineFree(insertions) <==> NEWLINE !in insertions[0].text && PiecesNewlineFree(insertions[1..]);
    }
  }

  lemma {:induction false} LinesStay(lines: seq<Bytes>, insertion: Insertion)
    requires Fits(lines, insertion)
    ensures |PutInLine(lines, insertion)| == |lines|
  {}

  lemma {:induction false} OneMoreNewlines(lines: seq<Bytes>, insertion: Insertion)
    requires Fits(lines, insertion)
    ensures Newlines(Join(PutInLine(lines, insertion))) == Newlines(Join(lines)) + Newlines(insertion.text)
  {
    hide Join, Newlines, LineStart;
    JoinPut(lines, insertion);
    var t, o := Join(lines), ToOffset(lines, insertion).offset;
    NewlinesBoth(t[..o] + insertion.text, t[o..]);
    NewlinesBoth(t[..o], insertion.text);
    NewlinesBoth(t[..o], t[o..]);
    assert t[..o] + t[o..] == t;
  }

  lemma {:induction false} InsertLineMembers(insertion: Insertion, sorted: seq<Insertion>)
    ensures forall p :: p in InsertLine(insertion, sorted) <==> p == insertion || p in sorted
    decreases |sorted|
  {
    if sorted != [] && !Before(insertion, sorted[0]) {
      InsertLineMembers(insertion, sorted[1..]);
      assert sorted == [sorted[0]] + sorted[1..];
    }
  }

  lemma {:induction false} SortLinesMembers(insertions: seq<Insertion>)
    ensures forall p :: p in SortLines(insertions) <==> p in insertions
    decreases |insertions|
  {
    if insertions != [] {
      SortLinesMembers(insertions[1..]);
      InsertLineMembers(insertions[0], SortLines(insertions[1..]));
      assert insertions == [insertions[0]] + insertions[1..];
    }
  }

  lemma {:induction false} SortedAsGood(lines: seq<Bytes>, insertions: seq<Insertion>)
    ensures LinesExist(lines, SortLines(insertions)) <==> LinesExist(lines, insertions)
    ensures PiecesNewlineFree(SortLines(insertions)) <==> PiecesNewlineFree(insertions)
  {
    hide SortLines;
    var sorted := SortLines(insertions);
    SortLinesMembers(insertions);
    ByMembers(lines, sorted);
    ByMembers(lines, insertions);
  }

  lemma {:induction false} ByMembers(lines: seq<Bytes>, insertions: seq<Insertion>)
    ensures LinesExist(lines, insertions) <==> forall p :: p in insertions ==> p.line <= |lines|
    ensures PiecesNewlineFree(insertions) <==> forall p :: p in insertions ==> NEWLINE !in p.text
  {
    assert forall i :: 0 <= i < |insertions| ==> insertions[i] in insertions;
  }

  // ---- the splice -----------------------------------------------------------------------------------------

  datatype Error = IndexError

  /** What Python gets: `None` exactly when a piece brings a newline. */
  function PythonText(source: Bytes, insertions: seq<Insertion>): Option<Bytes>
    requires LinesExist(Split(source), SortLines(insertions))
  {
    if PiecesNewlineFree(insertions) then Some(Join(PutAllClamped(Split(source), SortLines(insertions)))) else None
  }

  lemma {:induction false} PythonTextIsWoven(source: Bytes, insertions: seq<Insertion>)
    requires AllFit(Split(source), insertions) && LinesExist(Split(source), SortLines(insertions))
    ensures PythonText(source, insertions)
            == if PiecesNewlineFree(insertions) then Some(Weave(source, ToOffsets(Split(source), insertions))) else None
  {
    hide Join, Weave, SortLines, ToOffset, Split, PutAllClamped, PutAllInLines, Fits;
    var lines := Split(source);
    JoinOfSplit(source);
    SortedLinesAreWoven(lines, insertions);
    FittingIsNotClamped(lines, SortLines(insertions));
  }

  /**
   * The Python splice: sort, rewrite the lines in place, join. Python's parser
   * also ends a line at a lone carriage return, the splice does not: in such a
   * source an insertion may name a line that is not there, which raises, or a
   * column past a line's end, which is cut back to it.
   */
  method PythonSplice(source: Bytes, insertions: seq<Insertion>) returns (generated: Result<Option<Bytes>, Error>)
    ensures generated.Ok? <==> LinesExist(Split(source), insertions)
    ensures generated.Ok? ==> (generated.value.Some? <==> PiecesNewlineFree(insertions))
    ensures generated.Ok? ==> LinesExist(Split(source), SortLines(insertions)) && generated.value == PythonText(source, insertions)
    ensures AllFit(Split(source), insertions) && PiecesNewlineFree(insertions) ==>
              generated == Ok(Some(Weave(source, ToOffsets(Split(source), insertions))))
  {
    hide Join, Weave, Newlines, SortLines, ToOffset, Split, PiecesNewlineFree, PutAllClamped;
    var lines := Split(source);
    var sorted := SortLines(insertions);
    SortedAsGood(lines, insertions);
    JoinOfSplit(source);
    var encodedLines := new Bytes[|lines|](i requires 0 <= i < |lines| => lines[i]);
    assert encodedLines[..] == lines;
    var i := 0;
    assert sorted[0..] == sorted;
    while i < |sorted|
      invariant 0 <= i <= |sorted|
      invariant forall k :: 0 <= k < i ==> sorted[k].line <= |lines|
      invariant LinesExist(lines, sorted) ==>
                  LinesExist(encodedLines[..], sorted[i..]) && PutAllClamped(encodedLines[..], sorted[i..]) == PutAllClamped(lines, sorted)
    {
      ghost var before := encodedLines[..];
      assert sorted[i..][0] == sorted[i] && sorted[i..][1..] == sorted[i + 1..];
      var lineNumber, column := sorted[i].line, sorted[i].column;
      if lineNumber > encodedLines.Length {
        return Err(IndexError);
      }
      var line := encodedLines[lineNumber - 1];
      var end := if column <= |line| then column else |line|;
      encodedLines[lineNumber - 1] := line[..end] + sorted[i].text + line[end..];
      assert encodedLines[..] == PutInLine(before, Clamped(before, sorted[i]));
      if LinesExist(lines, sorted) {
        OnePut(before, sorted[i..]);
      }
      i := i + 1;
    }
    assert sorted[i..] == [] && LinesExist(lines, sorted);
    NonePut(encodedLines[..], sorted[i..]);
    var joined := Join(encodedLines[..]);
    ClampedNewlines(lines, sorted);
    if AllFit(lines, insertions) {
      PythonTextIsWoven(source, insertions);
    }
    if Newlines(joined) != Newlines(source) {
      return Ok(None);
    }
    return Ok(Some(joined));
  }

  lemma {:induction false} OnePut(lines: seq<Bytes>, insertions: seq<Insertion>)
    requires insertions != [] && LinesExist(lines, insertions)
    ensures var after := PutInLine(lines, Clamped(lines, insertions[0]));
            LinesExist(after, insertions[1..]) && PutAllClamped(after, insertions[1..]) == PutAllClamped(lines, insertions)
  {
    assert forall i :: 0 <= i < |insertions[1..]| ==> insertions[1..][i] == insertions[i + 1];
  }

  lemma {:induction false} NonePut(lines: seq<Bytes>, insertions: seq<Insertion>)
    requires insertions == []
    ensures PutAllClamped(lines, insertions) == lines
  {}
}
