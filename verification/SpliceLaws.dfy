/** What the splicers take for a character's boundary, a line and the end of one. */
module SpliceLaws {
  import opened Common
  import opened Splice
  import opened SplicePython
  import opened Unicode
  import opened Utf8

  // ---- characters ------------------------------------------------------------------------------

  lemma {:induction false} ContinuesIsContinuation(lead: byte, i: nat, b: byte)
    requires Continues(lead, i, b)
    ensures IsContinuation(b)
  {}

  /** A lead byte continues nothing. */
  lemma {:induction false} TextBegins(text: Bytes)
    requires WellFormed(text)
    ensures text == [] || !IsContinuation(text[0])
  {
    hide FrontFrom;
  }

  /** Strings, as the instrumenter's pieces are, never begin inside a character. */
  lemma {:induction false} TextsBegin(pieces: seq<Piece>)
    requires forall i :: 0 <= i < |pieces| ==> WellFormed(pieces[i].text)
    ensures AllBegin(pieces)
  {
    hide WellFormed, IsContinuation;
    forall i | 0 <= i < |pieces|
      ensures pieces[i].text == [] || !IsContinuation(pieces[i].text[0])
    {
      TextBegins(pieces[i].text);
    }
  }

  /** Inside the first character no text ends, and every byte continues it. */
  lemma {:induction false} InsideFirst(source: Bytes, offset: nat)
    requires WellFormed(source) && source != [] && 0 < offset < FrontOf(source).width
    ensures IsContinuation(source[offset]) && !WellFormed(source[..offset])
  {
    hide FrontFrom, Continues;
    Passed(source, 1);
    ContinuesIsContinuation(source[0], offset, source[offset]);
    assert source[..offset] + source[offset..] == source;
    CutFront(source[..offset], source[offset..]);
  }

  lemma {:induction false} BehindFirst(source: Bytes, w: nat, offset: nat)
    requires source != [] && FrontOf(source) == Character(w) && w <= offset <= |source|
    ensures WellFormed(source[..offset]) <==> WellFormed(source[w..][..offset - w])
  {
    hide FrontOf, WellFormed;
    var head := source[..offset];
    assert head + source[offset..] == source;
    CutFront(head, source[offset..]);
    assert head[w..] == source[w..][..offset - w];
    assert head == head[..w] + head[w..];
    if WellFormed(head[w..]) {
      CharacterFirst(head[..w], head[w..], head);
    }
    if WellFormed(head) {
      TextTail(head, w);
    }
  }

  /** The boundary that Rust's guard asks for: what stands before it is whole characters. */
  lemma {:induction false} BoundaryIff(source: Bytes, offset: nat)
    requires WellFormed(source)
    ensures Boundary(source, offset) <==> offset <= |source| && WellFormed(source[..offset])
    decreases |source|
  {
    hide FrontOf, WellFormed, IsContinuation;
    NothingIsFine();
    if 0 < offset < |source| {
      TextHasFront(source);
      var w := FrontOf(source).width;
      TextTail(source, w);
      if offset < w {
        InsideFirst(source, offset);
      } else {
        BehindFirst(source, w, offset);
        BoundaryIff(source[w..], offset - w);
      }
    } else if offset == 0 {
      TextBegins(source);
      assert source[..0] == [];
    } else if offset == |source| {
      assert source[..offset] == source;
    }
  }

  // ---- lines -------------------------------------------------------------------------------------

  predicate LinesAreFree(lines: seq<Bytes>) {
    forall i :: 0 <= i < |lines| ==> 10 !in lines[i]
  }

  lemma {:induction false} SplitIsFree(source: Bytes)
    ensures LinesAreFree(Split(source))
    decreases |source|
  {
    if source != [] {
      SplitIsFree(source[..|source| - 1]);
    }
  }

  /** More of the last line. */
  lemma {:induction false} SplitLonger(s: Bytes, line: Bytes)
    requires 10 !in line
    ensures var front := Split(s);
            Split(s + line) == front[..|front| - 1] + [front[|front| - 1] + line]
    decreases |line|
  {
    var front := Split(s);
    var k := |front| - 1;
    if line == [] {
      assert s + line == s && front[k] + line == front[k];
    } else {
      var n := |line| - 1;
      SplitLonger(s, line[..n]);
      var all := s + line;
      assert all[..|all| - 1] == s + line[..n] && all[|all| - 1] == line[n];
      assert front[k] + line[..n] + [line[n]] == front[k] + line;
    }
  }

  lemma {:induction false} SplitOfJoin(lines: seq<Bytes>)
    requires lines != [] && LinesAreFree(lines)
    ensures Split(Join(lines)) == lines
    decreases |lines|
  {
    var n := |lines| - 1;
    var last := lines[n];
    if n == 0 {
      SplitLonger([], last);
      assert [] + last == last;
    } else {
      var s := Join(lines[..n]);
      SplitOfJoin(lines[..n]);
      assert (s + [10])[..|s|] == s;
      SplitLonger(s + [10], last);
      assert lines == lines[..n] + [last] && [] + last == last;
    }
  }

  /** The lines are the pieces between the newlines. */
  lemma {:induction false} SplitIff(source: Bytes, lines: seq<Bytes>)
    ensures Split(source) == lines <==> lines != [] && LinesAreFree(lines) && Join(lines) == source
  {
    hide Split, Join;
    SplitIsFree(source);
    JoinOfSplit(source);
    if lines != [] && LinesAreFree(lines) {
      SplitOfJoin(lines);
    }
  }

  /** A piece at a column in the line goes in there, and one past it at the line's end. */
  lemma {:induction false} ClampedPut(lines: seq<Bytes>, insertion: Insertion)
    requires insertion.line <= |lines|
    ensures var k, line := insertion.line - 1, lines[insertion.line - 1];
            var after := PutInLine(lines, Clamped(lines, insertion));
            && |after| == |lines| && (forall j :: 0 <= j < |lines| && j != k ==> after[j] == lines[j])
            && (insertion.column >= |line| ==> after[k] == line + insertion.text)
            && (forall a: Bytes, b: Bytes :: line == a + b && |a| == insertion.column ==> after[k] == a + insertion.text + b)
  {
    var k, line := insertion.line - 1, lines[insertion.line - 1];
    var after := PutInLine(lines, Clamped(lines, insertion));
    if insertion.column >= |line| {
      assert line[..|line|] == line && line[|line|..] == [];
      assert line + insertion.text + [] == line + insertion.text;
    }
    forall a: Bytes, b: Bytes | line == a + b && |a| == insertion.column
      ensures after[k] == a + insertion.text + b
    {
      assert line[..|a|] == a && line[|a|..] == b;
    }
  }
}
