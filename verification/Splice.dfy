/** Pieces put into a text from the highest offset down, and the Rust and Go splicers that do it. */
module Splice {
  import opened Common
  import opened Text

  datatype Piece = Piece(offset: nat, text: Bytes)

  function InsertAt(t: Bytes, offset: nat, text: Bytes): Bytes
    requires offset <= |t|
  {
    t[..offset] + text + t[offset..]
  }

  // ---- inserting everything at once -----------------------------------------------------------

  /** The pieces for one offset. Inserted one after the other at the same place, the later stands first. */
  function TextAt(pieces: seq<Piece>, offset: nat): Bytes {
    if pieces == [] then []
    else TextAt(pieces[1..], offset) + (if pieces[0].offset == offset then pieces[0].text else [])
  }

  /** Each byte of the source, with the pieces for its offset before it; those for the end come last. */
  function Weave(source: Bytes, pieces: seq<Piece>): Bytes
    decreases |source|
  {
    if source == [] then TextAt(pieces, 0)
    else
      var n := |source| - 1;
      Weave(source[..n], pieces) + [source[n]] + TextAt(pieces, |source|)
  }

  predicate AllUpTo(pieces: seq<Piece>, bound: nat) {
    forall i :: 0 <= i < |pieces| ==> pieces[i].offset <= bound
  }

  predicate Descending(pieces: seq<Piece>) {
    forall i, j :: 0 <= i < j < |pieces| ==> pieces[i].offset >= pieces[j].offset
  }

  // ---- the loop --------------------------------------------------------------------------------

  /** Go's loop body. */
  function Put(t: Bytes, piece: Piece): Bytes {
    if piece.offset <= |t| then InsertAt(t, piece.offset, piece.text) else t
  }

  function PutAll(t: Bytes, pieces: seq<Piece>): Bytes
    decreases |pieces|
  {
    if pieces == [] then t else PutAll(Put(t, pieces[0]), pieces[1..])
  }

  /** What lies behind every offset stays behind. */
  lemma {:induction false} PutAllBefore(p: Bytes, q: Bytes, pieces: seq<Piece>)
    requires AllUpTo(pieces, |p|)
    ensures PutAll(p + q, pieces) == PutAll(p, pieces) + q
    decreases |pieces|
  {
    if pieces != [] {
      var o := pieces[0].offset;
      assert (p + q)[..o] == p[..o] && (p + q)[o..] == p[o..] + q;
      assert Put(p + q, pieces[0]) == Put(p, pieces[0]) + q;
      PutAllBefore(Put(p, pieces[0]), q, pieces[1..]);
    }
  }

  lemma {:induction false} NoTextBeyond(pieces: seq<Piece>, bound: nat, offset: nat)
    requires AllUpTo(pieces, bound) && offset > bound
    ensures TextAt(pieces, offset) == []
    decreases |pieces|
  {
    if pieces != [] {
      NoTextBeyond(pieces[1..], bound, offset);
    }
  }

  /** A piece beyond the text does not matter. */
  lemma {:induction false} WeaveIgnores(source: Bytes, piece: Piece, pieces: seq<Piece>)
    requires piece.offset > |source|
    ensures Weave(source, [piece] + pieces) == Weave(source, pieces)
    decreases |source|
  {
    assert ([piece] + pieces)[1..] == pieces;
    assert TextAt([piece] + pieces, |source|) == TextAt(pieces, |source|) + [];
    if source != [] {
      WeaveIgnores(source[..|source| - 1], piece, pieces);
    }
  }

  lemma {:induction false} WeaveAtEnd(source: Bytes, piece: Piece, pieces: seq<Piece>)
    requires piece.offset == |source|
    ensures Weave(source, [piece] + pieces) == Weave(source, pieces) + piece.text
  {
    var all, o := [piece] + pieces, |source|;
    assert all[1..] == pieces;
    assert TextAt(all, o) == TextAt(pieces, o) + piece.text;
    if source != [] {
      var n := o - 1;
      WeaveIgnores(source[..n], piece, pieces);
      var front := Weave(source[..n], pieces) + [source[n]];
      assert front + (TextAt(pieces, o) + piece.text) == front + TextAt(pieces, o) + piece.text;
    }
  }

  /** With nothing for the end, the last byte of the source comes last. */
  lemma {:induction false} WeaveLast(source: Bytes, pieces: seq<Piece>)
    requires source != [] && AllUpTo(pieces, |source| - 1)
    ensures Weave(source, pieces) == Weave(source[..|source| - 1], pieces) + [source[|source| - 1]]
  {
    NoTextBeyond(pieces, |source| - 1, |source|);
  }

  /** The piece with the highest offset stands between what is woven before it and the plain rest. */
  lemma {:induction false} WeaveHighest(source: Bytes, piece: Piece, pieces: seq<Piece>)
    requires piece.offset <= |source| && AllUpTo(pieces, piece.offset)
    ensures Weave(source, [piece] + pieces) == Weave(source[..piece.offset], pieces) + piece.text + source[piece.offset..]
    decreases |source|
  {
    hide Weave, TextAt;
    var o := piece.offset;
    if o == |source| {
      assert source[..o] == source && source[o..] == [];
      WeaveAtEnd(source, piece, pieces);
    } else {
      var n := |source| - 1;
      AllUpToFirst(piece, pieces, n);
      WeaveLast(source, [piece] + pieces);
      WeaveHighest(source[..n], piece, pieces);
      assert source[..n][..o] == source[..o];
      assert source[..n][o..] + [source[n]] == source[o..];
    }
  }

  lemma {:induction false} AllUpToFirst(piece: Piece, pieces: seq<Piece>, bound: nat)
    requires piece.offset <= bound && AllUpTo(pieces, piece.offset)
    ensures AllUpTo([piece] + pieces, bound)
  {}

  lemma {:induction false} WeaveNothing(source: Bytes)
    ensures Weave(source, []) == source
    decreases |source|
  {
    if source != [] {
      WeaveNothing(source[..|source| - 1]);
    }
  }

  lemma {:induction false} RestDescends(pieces: seq<Piece>)
    requires pieces != [] && Descending(pieces)
    ensures AllUpTo(pieces[1..], pieces[0].offset) && Descending(pieces[1..])
  {
    assert forall i :: 0 <= i < |pieces[1..]| ==> pieces[1..][i] == pieces[i + 1];
  }

  /** One turn of the loop, seen in what the pieces weave. */
  lemma {:induction false} PutThenWeave(source: Bytes, piece: Piece, rest: seq<Piece>)
    requires piece.offset <= |source| && AllUpTo(rest, piece.offset)
    ensures PutAll(Put(source, piece), rest) == PutAll(source[..piece.offset], rest) + (piece.text + source[piece.offset..])
    ensures Weave(source, [piece] + rest) == Weave(source[..piece.offset], rest) + (piece.text + source[piece.offset..])
  {
    hide Weave, TextAt, PutAll;
    var front, back := source[..piece.offset], piece.text + source[piece.offset..];
    WeaveHighest(source, piece, rest);
    assert Put(source, piece) == front + back;
    PutAllBefore(front, back, rest);
    assert Weave(front, rest) + piece.text + source[piece.offset..] == Weave(front, rest) + back;
  }

  /**
   * Putting the pieces in from the highest offset down is inserting all of
   * them at their own offsets; one beyond the source is left out by both.
   */
  lemma {:induction false} PutAllIsWeave(source: Bytes, pieces: seq<Piece>)
    requires Descending(pieces)
    ensures PutAll(source, pieces) == Weave(source, pieces)
    decreases |pieces|
  {
    hide Weave, TextAt, Descending, AllUpTo;
    if pieces == [] {
      WeaveNothing(source);
    } else {
      var piece, rest := pieces[0], pieces[1..];
      assert pieces == [piece] + rest;
      RestDescends(pieces);
      if piece.offset > |source| {
        WeaveIgnores(source, piece, rest);
        PutAllIsWeave(source, rest);
      } else {
        hide Put;
        PutThenWeave(source, piece, rest);
        PutAllIsWeave(source[..piece.offset], rest);
      }
    }
  }

  // ---- what is kept ------------------------------------------------------------------------------

  /** Where a byte of the source ends up. */
  function Where(source: Bytes, pieces: seq<Piece>, i: nat): nat
    requires i <= |source|
  {
    |Weave(source[..i], pieces)|
  }

  lemma {:induction false} WeavePrefix(source: Bytes, pieces: seq<Piece>, i: nat)
    requires i <= |source|
    ensures Weave(source[..i], pieces) <= Weave(source, pieces)
    ensures i < |source| ==> Where(source, pieces, i) < |Weave(source, pieces)| && Weave(source, pieces)[Where(source, pieces, i)] == source[i]
    decreases |source|
  {
    if i == |source| {
      assert source[..i] == source;
    } else {
      var n := |source| - 1;
      if i < n {
        WeavePrefix(source[..n], pieces, i);
        assert source[..n][..i] == source[..i];
      }
    }
  }

  function Newlines(t: Bytes): nat {
    if t == [] then 0 else Newlines(t[..|t| - 1]) + (if t[|t| - 1] == NEWLINE then 1 else 0)
  }

  lemma {:induction false} NewlinesBoth(a: Bytes, b: Bytes)
    ensures Newlines(a + b) == Newlines(a) + Newlines(b)
    decreases |b|
  {
    if b == [] {
      assert a + b == a;
    } else {
      assert (a + b)[..|a + b| - 1] == a + b[..|b| - 1];
      NewlinesBoth(a, b[..|b| - 1]);
    }
  }

  predicate NewlineFree(pieces: seq<Piece>) {
    forall i :: 0 <= i < |pieces| ==> NEWLINE !in pieces[i].text
  }

  lemma {:induction false} NoNewlines(t: Bytes)
    requires NEWLINE !in t
    ensures Newlines(t) == 0
    decreases |t|
  {
    if t != [] {
      NoNewlines(t[..|t| - 1]);
    }
  }

  lemma {:induction false} TextAtIsPlain(pieces: seq<Piece>, offset: nat)
    requires NewlineFree(pieces)
    ensures Newlines(TextAt(pieces, offset)) == 0
    decreases |pieces|
  {
    if pieces != [] {
      TextAtIsPlain(pieces[1..], offset);
      var last := if pieces[0].offset == offset then pieces[0].text else [];
      NoNewlines(last);
      NewlinesBoth(TextAt(pieces[1..], offset), last);
    }
  }

  lemma {:induction false} WeaveKeepsNewlines(source: Bytes, pieces: seq<Piece>)
    requires NewlineFree(pieces)
    ensures Newlines(Weave(source, pieces)) == Newlines(source)
    decreases |source|
  {
    hide TextAt, NewlineFree;
    TextAtIsPlain(pieces, |source|);
    if source == [] {
      assert TextAt(pieces, |source|) == TextAt(pieces, 0);
    } else {
      var n := |source| - 1;
      WeaveKeepsNewlines(source[..n], pieces);
      var before := Weave(source[..n], pieces);
      NewlinesBoth(before + [source[n]], TextAt(pieces, |source|));
      NewlinesBoth(before, [source[n]]);
      NewlinesBoth(source[..n], [source[n]]);
      assert source[..n] + [source[n]] == source;
    }
  }

  /** No piece that goes in brings a newline; one beyond the bound stays out. */
  predicate NewlineFreeUpTo(pieces: seq<Piece>, bound: nat) {
    forall i :: 0 <= i < |pieces| && pieces[i].offset <= bound ==> NEWLINE !in pieces[i].text
  }

  predicate NewlineFreeAt(pieces: seq<Piece>, offset: nat) {
    forall i :: 0 <= i < |pieces| && pieces[i].offset == offset ==> NEWLINE !in pieces[i].text
  }

  lemma {:induction false} NewlinesIff(t: Bytes)
    ensures Newlines(t) == 0 <==> NEWLINE !in t
    decreases |t|
  {
    if t != [] {
      var n := |t| - 1;
      NewlinesIff(t[..n]);
      assert t == t[..n] + [t[n]];
    }
  }

  lemma {:induction false} TextAtNewlines(pieces: seq<Piece>, offset: nat)
    ensures Newlines(TextAt(pieces, offset)) == 0 <==> NewlineFreeAt(pieces, offset)
    decreases |pieces|
  {
    hide Newlines;
    if pieces == [] {
      NewlinesIff([]);
    } else {
      TextAtNewlines(pieces[1..], offset);
      var last := if pieces[0].offset == offset then pieces[0].text else [];
      NewlinesIff(last);
      NewlinesBoth(TextAt(pieces[1..], offset), last);
      assert forall i :: 1 <= i < |pieces| ==> pieces[i] == pieces[1..][i - 1];
    }
  }

  /** Weaving never loses a newline, and adds none exactly when no piece brings one. */
  lemma {:induction false} WeaveNewlinesIff(source: Bytes, pieces: seq<Piece>)
    ensures Newlines(Weave(source, pieces)) >= Newlines(source)
    ensures Newlines(Weave(source, pieces)) == Newlines(source) <==> NewlineFreeUpTo(pieces, |source|)
    decreases |source|
  {
    hide TextAt, Newlines;
    TextAtNewlines(pieces, |source|);
    if source == [] {
      NewlinesIff([]);
      assert TextAt(pieces, |source|) == TextAt(pieces, 0);
    } else {
      var n := |source| - 1;
      WeaveNewlinesIff(source[..n], pieces);
      var before := Weave(source[..n], pieces);
      NewlinesBoth(before + [source[n]], TextAt(pieces, |source|));
      NewlinesBoth(before, [source[n]]);
      NewlinesBoth(source[..n], [source[n]]);
      assert source[..n] + [source[n]] == source;
      assert NewlineFreeUpTo(pieces, n + 1) <==> NewlineFreeUpTo(pieces, n) && NewlineFreeAt(pieces, n + 1);
    }
  }

  /** The line a byte is on. */
  function LineOf(t: Bytes, i: nat): nat
    requires i <= |t|
  {
    1 + Newlines(t[..i])
  }

  /**
   * After splicing newline-free pieces: every source byte is still there, in
   * order, on its own line; taking those bytes alone gives the source back.
   */
  lemma {:induction false} SourceSurvives(source: Bytes, pieces: seq<Piece>)
    requires Descending(pieces) && NewlineFree(pieces)
    ensures var t := PutAll(source, pieces);
            && (forall i :: 0 <= i < |source| ==> Where(source, pieces, i) < |t| && t[Where(source, pieces, i)] == source[i])
            && (forall i, j :: 0 <= i < j < |source| ==> Where(source, pieces, i) < Where(source, pieces, j))
            && (forall i :: 0 <= i < |source| && Where(source, pieces, i) < |t| ==> LineOf(t, Where(source, pieces, i)) == LineOf(source, i))
            && Newlines(t) == Newlines(source)
  {
    hide Weave, Newlines, PutAll, NewlineFree;
    PutAllIsWeave(source, pieces);
    WeaveKeepsNewlines(source, pieces);
    var t := Weave(source, pieces);
    forall i | 0 <= i < |source|
      ensures Where(source, pieces, i) < |t| && t[Where(source, pieces, i)] == source[i]
      ensures LineOf(t, Where(source, pieces, i)) == LineOf(source, i)
    {
      WeavePrefix(source, pieces, i);
      WeaveKeepsNewlines(source[..i], pieces);
      assert t[..Where(source, pieces, i)] == Weave(source[..i], pieces);
    }
    forall i, j | 0 <= i < j < |source|
      ensures Where(source, pieces, i) < Where(source, pieces, j)
    {
      WeavePrefix(source[..j], pieces, i);
      assert source[..j][..i] == source[..i];
    }
  }

  // ---- sorting ------------------------------------------------------------------------------------

  /** An arrangement of the same pieces, highest offset first; at one offset the order is kept. */
  ghost predicate StablySorted(pieces: seq<Piece>, sorted: seq<Piece>) {
    && Descending(sorted)
    && (forall p :: p in sorted <==> p in pieces)
    && (forall offset :: TextAt(sorted, offset) == TextAt(pieces, offset))
  }

  function InsertSorted(piece: Piece, sorted: seq<Piece>): seq<Piece> {
    if sorted == [] || piece.offset >= sorted[0].offset then [piece] + sorted
    else [sorted[0]] + InsertSorted(piece, sorted[1..])
  }

  /** The library's stable sort, highest offset first. */
  function SortDescending(pieces: seq<Piece>): seq<Piece> {
    if pieces == [] then [] else InsertSorted(pieces[0], SortDescending(pieces[1..]))
  }

  lemma {:induction false} InsertSortedMembers(piece: Piece, sorted: seq<Piece>)
    ensures forall p :: p in InsertSorted(piece, sorted) <==> p == piece || p in sorted
    decreases |sorted|
  {
    if sorted != [] && piece.offset < sorted[0].offset {
      InsertSortedMembers(piece, sorted[1..]);
      assert sorted == [sorted[0]] + sorted[1..];
    }
  }

  lemma {:induction false} InsertSortedDescends(piece: Piece, sorted: seq<Piece>)
    requires Descending(sorted)
    ensures Descending(InsertSorted(piece, sorted))
    decreases |sorted|
  {
    if sorted != [] && piece.offset < sorted[0].offset {
      InsertSortedDescends(piece, sorted[1..]);
      InsertSortedMembers(piece, sorted[1..]);
      var rest := InsertSorted(piece, sorted[1..]);
      forall k | 0 <= k < |rest|
        ensures sorted[0].offset >= rest[k].offset
      {
        assert rest[k] in rest;
      }
    }
  }

  lemma {:induction false} InsertSortedText(piece: Piece, sorted: seq<Piece>, offset: nat)
    ensures TextAt(InsertSorted(piece, sorted), offset) == TextAt([piece] + sorted, offset)
    decreases |sorted|
  {
    assert ([piece] + sorted)[1..] == sorted;
    if sorted != [] && piece.offset < sorted[0].offset {
      var rest := InsertSorted(piece, sorted[1..]);
      InsertSortedText(piece, sorted[1..], offset);
      assert ([piece] + sorted[1..])[1..] == sorted[1..];
      assert ([sorted[0]] + rest)[1..] == rest;
    }
  }

  lemma {:induction false} SortIsStable(pieces: seq<Piece>)
    ensures StablySorted(pieces, SortDescending(pieces))
    decreases |pieces|
  {
    if pieces != [] {
      var rest := SortDescending(pieces[1..]);
      SortIsStable(pieces[1..]);
      InsertSortedMembers(pieces[0], rest);
      InsertSortedDescends(pieces[0], rest);
      forall offset: nat
        ensures TextAt(SortDescending(pieces), offset) == TextAt(pieces, offset)
      {
        InsertSortedText(pieces[0], rest, offset);
        assert ([pieces[0]] + rest)[1..] == rest;
      }
      assert pieces == [pieces[0]] + pieces[1..];
    }
  }

  lemma {:induction false} WeaveSame(source: Bytes, a: seq<Piece>, b: seq<Piece>)
    requires forall offset :: TextAt(a, offset) == TextAt(b, offset)
    ensures Weave(source, a) == Weave(source, b)
    decreases |source|
  {
    if source != [] {
      WeaveSame(source[..|source| - 1], a, b);
    }
  }

  /** Stably sorted first, the loop weaves the pieces as they were given. */
  lemma {:induction false} SortedSpliceIsWeave(source: Bytes, pieces: seq<Piece>, sorted: seq<Piece>)
    requires StablySorted(pieces, sorted)
    ensures PutAll(source, sorted) == Weave(source, pieces)
  {
    hide TextAt;
    PutAllIsWeave(source, sorted);
    WeaveSame(source, sorted, pieces);
  }

  // ---- Rust ---------------------------------------------------------------------------------------

  predicate IsContinuation(b: byte) {
    0x80 <= b < 0xC0
  }

  predicate Boundary(t: Bytes, offset: nat) {
    offset <= |t| && (offset == |t| || !IsContinuation(t[offset]))
  }

  /** Rust's loop body: a piece is only put where a character begins. */
  function PutOnBoundary(t: Bytes, piece: Piece): Bytes {
    if Boundary(t, piece.offset) then InsertAt(t, piece.offset, piece.text) else t
  }

  function PutAllOnBoundary(t: Bytes, pieces: seq<Piece>): Bytes
    decreases |pieces|
  {
    if pieces == [] then t else PutAllOnBoundary(PutOnBoundary(t, pieces[0]), pieces[1..])
  }

  /** The pieces that go in: those on a character boundary of the source. */
  function Kept(source: Bytes, pieces: seq<Piece>): seq<Piece> {
    if pieces == [] then []
    else (if Boundary(source, pieces[0].offset) then [pieces[0]] else []) + Kept(source, pieces[1..])
  }

  /** No piece begins inside a character, as no string does. */
  predicate AllBegin(pieces: seq<Piece>) {
    forall i :: 0 <= i < |pieces| ==> pieces[i].text == [] || !IsContinuation(pieces[i].text[0])
  }

  /** The text so far has the source's boundaries up to an offset. */
  predicate SameBoundaries(t: Bytes, source: Bytes, bound: nat) {
    forall offset :: 0 <= offset <= bound ==> (Boundary(t, offset) <==> Boundary(source, offset))
  }

  lemma {:induction false} InsertKeepsBoundaries(t: Bytes, source: Bytes, piece: Piece)
    requires SameBoundaries(t, source, piece.offset) && Boundary(t, piece.offset)
    requires piece.text == [] || !IsContinuation(piece.text[0])
    ensures SameBoundaries(InsertAt(t, piece.offset, piece.text), source, piece.offset)
  {
    var after := InsertAt(t, piece.offset, piece.text);
    forall offset | 0 <= offset <= piece.offset
      ensures Boundary(after, offset) <==> Boundary(t, offset)
    {
      if offset < piece.offset {
        assert after[offset] == t[offset];
      } else if piece.text != [] {
        assert after[offset] == piece.text[0];
      } else {
        assert after == t;
      }
    }
  }

  /** The guard looks at the text so far, but what it lets through is what lies on a boundary of the source. */
  lemma {:induction false} GuardKeeps(t: Bytes, source: Bytes, pieces: seq<Piece>)
    requires Descending(pieces) && AllBegin(pieces)
    requires pieces != [] ==> SameBoundaries(t, source, pieces[0].offset)
    ensures PutAllOnBoundary(t, pieces) == PutAll(t, Kept(source, pieces))
    decreases |pieces|
  {
    hide PutAll, InsertAt, Boundary;
    if pieces == [] {
      OneTurn(t, []);
    } else {
      var piece, rest := pieces[0], pieces[1..];
      RestDescends(pieces);
      RestBegins(pieces);
      assert rest != [] ==> rest[0].offset <= piece.offset;
      if Boundary(t, piece.offset) {
        OneTurn(t, [piece] + Kept(source, rest));
        BoundaryIsWithin(t, piece.offset);
        InsertKeepsBoundaries(t, source, piece);
        assert ([piece] + Kept(source, rest))[1..] == Kept(source, rest);
        GuardKeeps(InsertAt(t, piece.offset, piece.text), source, rest);
      } else {
        assert [] + Kept(source, rest) == Kept(source, rest);
        GuardKeeps(t, source, rest);
      }
    }
  }

  lemma {:induction false} OneTurn(t: Bytes, pieces: seq<Piece>)
    ensures PutAll(t, pieces) == if pieces == [] then t else PutAll(Put(t, pieces[0]), pieces[1..])
  {}

  lemma {:induction false} BoundaryIsWithin(t: Bytes, offset: nat)
    requires Boundary(t, offset)
    ensures offset <= |t|
  {}

  lemma {:induction false} RestBegins(pieces: seq<Piece>)
    requires pieces != [] && AllBegin(pieces)
    ensures AllBegin(pieces[1..])
    ensures pieces[0].text == [] || !IsContinuation(pieces[0].text[0])
  {
    assert forall i :: 0 <= i < |pieces[1..]| ==> pieces[1..][i] == pieces[i + 1];
  }

  lemma {:induction false} KeptStays(source: Bytes, pieces: seq<Piece>)
    ensures forall p :: p in Kept(source, pieces) ==> p in pieces
    ensures Descending(pieces) ==> Descending(Kept(source, pieces))
    decreases |pieces|
  {
    if pieces != [] {
      var rest := Kept(source, pieces[1..]);
      KeptStays(source, pieces[1..]);
      assert pieces == [pieces[0]] + pieces[1..];
      if Descending(pieces) {
        RestDescends(pieces);
        forall i | 0 <= i < |rest|
          ensures rest[i].offset <= pieces[0].offset
        {
          assert rest[i] in pieces[1..];
        }
      }
    }
  }

  lemma {:induction false} KeptText(source: Bytes, pieces: seq<Piece>, offset: nat)
    ensures TextAt(Kept(source, pieces), offset) == if Boundary(source, offset) then TextAt(pieces, offset) else []
    decreases |pieces|
  {
    hide Boundary;
    if pieces != [] {
      var rest := Kept(source, pieces[1..]);
      KeptText(source, pieces[1..], offset);
      assert ([pieces[0]] + rest)[1..] == rest && [] + rest == rest;
    }
  }

  /** Sorting and then dropping what the guard drops weaves the same as dropping first. */
  lemma {:induction false} GuardedIsWeave(source: Bytes, insertions: seq<Piece>)
    requires AllBegin(insertions)
    ensures PutAllOnBoundary(source, SortDescending(insertions)) == Weave(source, Kept(source, insertions))
  {
    hide PutAll, PutAllOnBoundary, Weave, TextAt, SortDescending, Kept, Boundary;
    var sorted := SortDescending(insertions);
    SortIsStable(insertions);
    forall i | 0 <= i < |sorted|
      ensures sorted[i].text == [] || !IsContinuation(sorted[i].text[0])
    {
      assert sorted[i] in insertions;
    }
    GuardKeeps(source, source, sorted);
    KeptStays(source, sorted);
    PutAllIsWeave(source, Kept(source, sorted));
    forall offset: nat
      ensures TextAt(Kept(source, sorted), offset) == TextAt(Kept(source, insertions), offset)
    {
      KeptText(source, sorted, offset);
      KeptText(source, insertions, offset);
    }
    WeaveSame(source, Kept(source, sorted), Kept(source, insertions));
  }

  /** Offsets on character boundaries, as spans are, are all kept. */
  lemma {:induction false} AllKept(source: Bytes, pieces: seq<Piece>)
    requires forall i :: 0 <= i < |pieces| ==> Boundary(source, pieces[i].offset)
    ensures Kept(source, pieces) == pieces
    decreases |pieces|
  {
    hide Boundary;
    if pieces != [] {
      AllKept(source, pieces[1..]);
      assert pieces == [pieces[0]] + pieces[1..];
    }
  }

  const PATH_ATTRIBUTE: string := "#[path = \"atomis_runtime.rs\"]"
  const MODULE_LINE: string := "mod __atomis_runtime;"

  lemma {:induction false} RuntimeModuleIsAscii()
    ensures forall i :: 0 <= i < |PATH_ATTRIBUTE| ==> PATH_ATTRIBUTE[i] as int < 128 && PATH_ATTRIBUTE[i] != '\n'
    ensures forall i :: 0 <= i < |MODULE_LINE| ==> MODULE_LINE[i] as int < 128 && MODULE_LINE[i] != '\n'
  {}

  /** What is appended to the entry file. */
  function RuntimeModule(): Bytes {
    RuntimeModuleIsAscii();
    [NEWLINE] + Ascii(PATH_ATTRIBUTE) + [NEWLINE] + Ascii(MODULE_LINE) + [NEWLINE]
  }

  lemma {:induction false} RuntimeModuleNewlines()
    ensures Newlines(RuntimeModule()) == 3
  {
    RuntimeModuleIsAscii();
    var a, b := Ascii(PATH_ATTRIBUTE), Ascii(MODULE_LINE);
    NoNewlines(a);
    NoNewlines(b);
    var nl := [NEWLINE];
    assert nl[..0] == [] && Newlines(nl) == 1;
    NewlinesBoth(nl, a);
    NewlinesBoth(nl + a, nl);
    NewlinesBoth(nl + a + nl, b);
    NewlinesBoth(nl + a + nl + b, nl);
  }

  /**
   * The entry file gains three newlines behind the source, one more than the
   * debug assertion beside the splice expects: that equation fails for every
   * entry file and holds for every other one.
   */
  lemma {:induction false} NewlineEquation(source: Bytes, insertions: seq<Piece>, entry: bool)
    requires NewlineFree(insertions)
    ensures var woven := Weave(source, insertions);
            var generated := if entry then woven + RuntimeModule() else woven;
            && Newlines(generated) == Newlines(source) + (if entry then 3 else 0)
            && (Newlines(source) + (if entry then 2 else 0) == Newlines(generated) <==> !entry)
            && (forall i :: 0 <= i < |source| && Where(source, insertions, i) <= |generated| ==>
                  LineOf(generated, Where(source, insertions, i)) == LineOf(source, i))
  {
    hide Weave, Newlines, RuntimeModule, NewlineFree;
    var woven := Weave(source, insertions);
    var generated := if entry then woven + RuntimeModule() else woven;
    WeaveKeepsNewlines(source, insertions);
    RuntimeModuleNewlines();
    NewlinesBoth(woven, RuntimeModule());
    forall i | 0 <= i < |source|
      ensures Where(source, insertions, i) <= |generated|
      ensures LineOf(generated, Where(source, insertions, i)) == LineOf(source, i)
    {
      WeavePrefix(source, insertions, i);
      WeaveKeepsNewlines(source[..i], insertions);
      assert generated[..Where(source, insertions, i)] == Weave(source[..i], insertions);
    }
  }

  /** The instrumenter's splice, without and with the runtime module appended. */
  method RustSplice(source: Bytes, insertions: seq<Piece>, entry: bool) returns (generated: Bytes)
    requires AllBegin(insertions)
    ensures generated == Weave(source, Kept(source, insertions)) + (if entry then RuntimeModule() else [])
  {
    hide Weave, TextAt, RuntimeModule, SortDescending, Kept, AllBegin;
    var sorted := SortDescending(insertions);
    GuardedIsWeave(source, insertions);
    generated := source;
    var i := 0;
    assert sorted[0..] == sorted;
    while i < |sorted|
      invariant 0 <= i <= |sorted|
      invariant PutAllOnBoundary(generated, sorted[i..]) == PutAllOnBoundary(source, sorted)
    {
      assert sorted[i..][0] == sorted[i] && sorted[i..][1..] == sorted[i + 1..];
      if Boundary(generated, sorted[i].offset) {
        generated := InsertAt(generated, sorted[i].offset, sorted[i].text);
      }
      i := i + 1;
    }
    if entry {
      generated := generated + RuntimeModule();
    }
  }

  // ---- Go -------------------------------------------------------------------------------------------

  /** The same pieces, highest offset first; at one offset in any order. */
  ghost predicate Arranged(pieces: seq<Piece>, order: seq<Piece>) {
    Descending(order) && multiset(order) == multiset(pieces)
  }

  lemma {:induction false} InsertSortedSame(piece: Piece, sorted: seq<Piece>)
    ensures multiset(InsertSorted(piece, sorted)) == multiset{piece} + multiset(sorted)
    decreases |sorted|
  {
    if sorted != [] && piece.offset < sorted[0].offset {
      InsertSortedSame(piece, sorted[1..]);
      assert sorted == [sorted[0]] + sorted[1..];
    }
  }

  lemma {:induction false} SortIsArranged(pieces: seq<Piece>)
    ensures Arranged(pieces, SortDescending(pieces))
    decreases |pieces|
  {
    if pieces != [] {
      SortIsArranged(pieces[1..]);
      InsertSortedDescends(pieces[0], SortDescending(pieces[1..]));
      InsertSortedSame(pieces[0], SortDescending(pieces[1..]));
      assert pieces == [pieces[0]] + pieces[1..];
    }
  }

  /** `sort.Slice`: its callers learn no more than that it sorts. */
  method SortSlice(pieces: seq<Piece>) returns (order: seq<Piece>)
    ensures Arranged(pieces, order)
  {
    SortIsArranged(pieces);
    order := SortDescending(pieces);
  }

  predicate DistinctOffsets(pieces: seq<Piece>) {
    forall i, j :: 0 <= i < j < |pieces| ==> pieces[i].offset != pieces[j].offset
  }

  /** The only piece at an offset is all there is at it. */
  lemma {:induction false} TextOfOne(pieces: seq<Piece>, piece: Piece)
    requires piece in pieces && forall q :: q in pieces && q.offset == piece.offset ==> q == piece
    requires multiset(pieces)[piece] == 1
    ensures TextAt(pieces, piece.offset) == piece.text
    decreases |pieces|
  {
    assert pieces == [pieces[0]] + pieces[1..];
    if pieces[0] == piece {
      assert piece !in pieces[1..];
      forall q | q in pieces[1..]
        ensures q.offset != piece.offset
      {
        assert q in pieces;
      }
      TextOfNone(pieces[1..], piece.offset);
    } else {
      assert pieces[0] in pieces;
      TextOfOne(pieces[1..], piece);
    }
  }

  lemma {:induction false} TextOfNone(pieces: seq<Piece>, offset: nat)
    requires forall q :: q in pieces ==> q.offset != offset
    ensures TextAt(pieces, offset) == []
    decreases |pieces|
  {
    if pieces != [] {
      assert pieces[0] in pieces;
      TextOfNone(pieces[1..], offset);
    }
  }

  lemma {:induction false} OnceIn(pieces: seq<Piece>, piece: Piece)
    requires piece in pieces && DistinctOffsets(pieces)
    ensures multiset(pieces)[piece] == 1
    decreases |pieces|
  {
    assert pieces == [pieces[0]] + pieces[1..];
    assert forall i :: 1 <= i < |pieces| ==> pieces[i] == pieces[1..][i - 1];
    if pieces[0] == piece {
      assert piece !in pieces[1..];
    } else {
      OnceIn(pieces[1..], piece);
    }
  }

  /** Without two pieces at one offset, every arrangement weaves the same. */
  lemma {:induction false} ArrangedWeavesSame(source: Bytes, pieces: seq<Piece>, order: seq<Piece>)
    requires Arranged(pieces, order) && DistinctOffsets(pieces)
    ensures Weave(source, order) == Weave(source, pieces)
  {
    hide TextAt, Weave;
    forall offset: nat
      ensures TextAt(order, offset) == TextAt(pieces, offset)
    {
      SameMembers(pieces, order);
      if i: nat :| i < |pieces| && pieces[i].offset == offset {
        OnceIn(pieces, pieces[i]);
        forall q | q in pieces && q.offset == offset
          ensures q == pieces[i]
        {
          var j: nat :| j < |pieces| && pieces[j] == q;
        }
        TextOfOne(pieces, pieces[i]);
        TextOfOne(order, pieces[i]);
      } else {
        TextOfNone(pieces, offset);
        TextOfNone(order, offset);
      }
    }
    WeaveSame(source, order, pieces);
  }

  lemma {:induction false} SameMembers(pieces: seq<Piece>, order: seq<Piece>)
    requires multiset(order) == multiset(pieces)
    ensures forall q :: q in order <==> q in pieces
  {
    assert forall q :: q in order <==> q in multiset(order);
    assert forall q :: q in pieces <==> q in multiset(pieces);
  }

  /** What Go returns when its sort gives this order: nothing exactly when a piece that goes in brings a newline. */
  function GoResult(source: Bytes, order: seq<Piece>): Option<Bytes> {
    if NewlineFreeUpTo(order, |source|) then Some(Weave(source, order)) else None
  }

  /** The Go splice: pieces at one offset come in the order its sort happens to give, and no other choice is left open. */
  method GoSplice(source: Bytes, insertions: seq<Piece>) returns (generated: Option<Bytes>)
    ensures exists order :: Arranged(insertions, order) && generated == GoResult(source, order)
    ensures DistinctOffsets(insertions) && generated.Some? ==> generated.value == Weave(source, insertions)
    ensures generated.Some? <==> NewlineFreeUpTo(insertions, |source|)
  {
    hide Weave, Newlines, TextAt, Arranged, DistinctOffsets;
    var sorted := SortSlice(insertions);
    ArrangedIsGood(source, insertions, sorted);
    WeaveNewlinesIff(source, sorted);
    var text := source;
    var i := 0;
    assert sorted[0..] == sorted;
    while i < |sorted|
      invariant 0 <= i <= |sorted|
      invariant PutAll(text, sorted[i..]) == PutAll(source, sorted)
    {
      assert sorted[i..][0] == sorted[i] && sorted[i..][1..] == sorted[i + 1..];
      if sorted[i].offset <= |text| {
        text := text[..sorted[i].offset] + sorted[i].text + text[sorted[i].offset..];
      }
      i := i + 1;
    }
    if Newlines(source) != Newlines(text) {
      return None;
    }
    return Some(text);
  }

  lemma {:induction false} ArrangedIsGood(source: Bytes, pieces: seq<Piece>, order: seq<Piece>)
    requires Arranged(pieces, order)
    ensures PutAll(source, order) == Weave(source, order)
    ensures DistinctOffsets(pieces) ==> Weave(source, order) == Weave(source, pieces)
    ensures NewlineFreeUpTo(order, |source|) <==> NewlineFreeUpTo(pieces, |source|)
  {
    hide Weave, TextAt, PutAll;
    PutAllIsWeave(source, order);
    if DistinctOffsets(pieces) {
      ArrangedWeavesSame(source, pieces, order);
    }
    SameMembers(pieces, order);
    FreeByMembers(pieces, |source|);
    FreeByMembers(order, |source|);
  }

  lemma {:induction false} FreeByMembers(pieces: seq<Piece>, bound: nat)
    ensures NewlineFreeUpTo(pieces, bound) <==> forall q :: q in pieces && q.offset <= bound ==> NEWLINE !in q.text
  {
    if NewlineFreeUpTo(pieces, bound) {
    } else {
      var i :| 0 <= i < |pieces| && pieces[i].offset <= bound && NEWLINE in pieces[i].text;
      assert pieces[i] in pieces;
    }
  }
}
