/**
 * How searching a buffer for markers agrees with reading it byte by byte: the
 * search finds what the scanner is about to close, and what the buffer ends in
 * is what the scanner keeps aside.
 */
module MarkerScan {
  import opened Common
  import opened Text
  import opened Markers

  predicate NoStart(t: Bytes) {
    forall i :: 0 <= i < |t| ==> t[i] != MARKER_START
  }

  /** Outside brackets, bytes up to the next start byte are text. */
  lemma {:induction false} PlainText(s: Scan, t: Bytes, rest: Bytes)
    requires s.pending == [] && NoStart(t)
    ensures ScanAll(s, t + rest) == ScanAll(s.(text := s.text + t), rest)
    decreases |t|
  {
    if t == [] {
      assert t + rest == rest && s.text + t == s.text;
    } else {
      assert (t + rest)[0] == t[0] && (t + rest)[1..] == t[1..] + rest;
      assert s.text + [t[0]] + t[1..] == s.text + t;
      PlainText(ScanByte(s, t[0]), t[1..], rest);
    }
  }

  /** Reading in two goes. */
  lemma {:induction false} ScanSplit(s: Scan, y: Bytes, n: nat)
    requires n <= |y|
    ensures ScanAll(s, y) == ScanAll(ScanAll(s, y[..n]), y[n..])
    ensures ScanAll(s, y).ok ==> ScanAll(s, y[..n]).ok
    ensures ScanAll(s, y).oneLine ==> ScanAll(s, y[..n]).oneLine
    ensures |ScanAll(s, y[..n]).markers| <= |ScanAll(s, y).markers|
  {
    assert y == y[..n] + y[n..];
    ScanAppend(s, y[..n], y[n..]);
    ScanGrows(ScanAll(s, y[..n]), y[n..]);
  }

  predicate NoEnd(t: Bytes) {
    forall i :: 0 <= i < |t| ==> t[i] != MARKER_END
  }

  /** Inside a bracket, an unsurprised scanner keeps everything before the end byte aside. */
  lemma {:induction false} Aside(s: Scan, t: Bytes)
    requires s.pending != [] && NoEnd(t) && ScanAll(s, t).ok
    ensures NoStart(t) && ScanAll(s, t) == s.(pending := s.pending + t)
    decreases |t|
  {
    if t == [] {
      assert s.pending + t == s.pending;
    } else {
      var u := ScanByte(s, t[0]);
      ScanGrows(u, t[1..]);
      Aside(u, t[1..]);
      assert s.pending + [t[0]] + t[1..] == s.pending + t;
      assert forall i :: 0 < i < |t| ==> t[i] == t[1..][i - 1];
    }
  }

  /** A bracket at the front of the buffer, as far as it is read without closing. */
  lemma {:induction false} Opening(s: Scan, y: Bytes, n: nat)
    requires s.pending == [] && 0 < n <= |y| && y[0] == MARKER_START && ScanAll(s, y).ok && NoEnd(y[..n])
    ensures NoStart(y[1..n]) && ScanAll(s, y[..n]) == s.(pending := y[..n])
  {
    ScanSplit(s, y, n);
    var t := y[1..n];
    assert y[..n][0] == y[0] && y[..n][1..] == t;
    Aside(ScanByte(s, y[0]), t);
    assert [y[0]] + t == y[..n];
  }

  lemma {:induction false} SkipPlain(t: Bytes, rest: Bytes)
    requires NoStart(t)
    ensures FirstMarker(t + rest) == Later(FirstMarker(rest), |t|)
  {
    if t == [] {
      assert t + rest == rest;
    } else {
      assert (t + rest)[0] == t[0] && (t + rest)[1..] == t[1..] + rest;
      SkipPlain(t[1..], rest);
    }
  }

  lemma {:induction false} ThroughEnd(y: Bytes, k: nat)
    requires 0 < k < |y| && y[k] == MARKER_END && NoStart(y[1..k])
    ensures NoStart(y[1..k + 1])
  {
    var t := y[1..k + 1];
    forall i | 0 <= i < |t|
      ensures t[i] != MARKER_START
    {
      if i < k - 1 {
        assert y[1..k][i] == y[i + 1];
      }
    }
  }

  /** The search looks at an opening bracket exactly as the scanner does: a marker is found… */
  lemma {:induction false} SearchFinds(y: Bytes, k: nat)
    requires 0 < k < |y| && y[k] == MARKER_END && NoEnd(y[..k]) && Bracketed(y[..k]).Some?
    ensures FirstMarker(y) == Some(Found(0, k + 1, Bracketed(y[..k]).value))
  {
    hide ParseBody;
    assert Prefix() <= y;
    EndAfterPrefix(y, k);
  }

  lemma {:induction false} NoneAtFront(y: Bytes, k: nat)
    requires 0 < k < |y| && y[k] == MARKER_END && NoEnd(y[..k]) && Bracketed(y[..k]).None?
    ensures FirstMarker(y) == Later(FirstMarker(y[1..]), 1)
  {
    hide ParseBody;
    if Prefix() <= y {
      EndAfterPrefix(y, k);
    }
  }

  /** … and any other bracket is passed over. */
  lemma {:induction false} SearchPasses(y: Bytes, k: nat)
    requires 0 < k < |y| && y[k] == MARKER_END && NoEnd(y[..k]) && NoStart(y[1..k]) && Bracketed(y[..k]).None?
    ensures FirstMarker(y) == Later(FirstMarker(y[k + 1..]), k + 1)
  {
    hide ParseBody, FirstMarker, Bracketed, NoStart, NoEnd;
    NoneAtFront(y, k);
    ThroughEnd(y, k);
    assert y[1..] == y[1..k + 1] + y[k + 1..];
    SkipPlain(y[1..k + 1], y[k + 1..]);
  }

  /** The prefix holds no end byte, so both look for the same one. */
  lemma {:induction false} EndAfterPrefix(y: Bytes, k: nat)
    requires k < |y| && y[k] == MARKER_END && NoEnd(y[..k]) && Prefix() <= y
    ensures k >= 12 && Prefix() <= y[..k] && IndexOf(y[12..], MARKER_END) == Some(k - 12)
    ensures y[12..12 + (k - 12)] == y[..k][12..]
  {
    assert forall i :: 0 <= i < 12 ==> y[i] == Prefix()[i];
    assert k >= 12;
    assert y[12..][k - 12] == MARKER_END;
    assert forall j :: 0 <= j < k - 12 ==> y[12..][j] == y[..k][j + 12];
  }

  lemma {:induction false} NoMarkerWhileOpen(y: Bytes)
    requires NoEnd(y)
    ensures FirstMarker(y) == None
  {
    hide ParseBody;
    if y != [] {
      if Prefix() <= y {
        assert forall j :: 0 <= j < |y[12..]| ==> y[12..][j] == y[12 + j];
      }
      assert forall j :: 0 <= j < |y[1..]| ==> y[1..][j] == y[1 + j];
      NoMarkerWhileOpen(y[1..]);
    }
  }

  /** The scanner, just before the end byte of the marker found. */
  ghost predicate FoundAgrees(s: Scan, y: Bytes, f: Found) {
    && f.start < f.end - 1 && f.end <= |y|
    && ScanAll(s, y[..f.end - 1]) == s.(text := s.text + y[..f.start], pending := y[f.start..f.end - 1])
    && y[f.end - 1] == MARKER_END
    && Bracketed(y[f.start..f.end - 1]) == Some(f.marker)
  }

  /** The scanner has met no marker: all of the buffer is text, or aside. */
  ghost predicate NothingAgrees(s: Scan, y: Bytes) {
    var z := ScanAll(s, y);
    z.text + z.pending == s.text + y && z == s.(text := z.text, pending := z.pending)
  }

  ghost predicate SearchAgrees(s: Scan, y: Bytes) {
    match FirstMarker(y)
    case Some(f) => FoundAgrees(s, y, f)
    case None => NothingAgrees(s, y)
  }

  /** Text at the front of the buffer only shifts what is found behind it. */
  lemma {:induction false} FoundBehind(s: Scan, y: Bytes, n: nat, t: Scan, f: Found)
    requires n <= |y| && t == ScanAll(s, y[..n]) && t == s.(text := s.text + y[..n])
    requires FoundAgrees(t, y[n..], f)
    ensures FoundAgrees(s, y, Found(f.start + n, f.end + n, f.marker))
  {
    hide ParseBody, ScanAll, FirstMarker;
    var e := f.end - 1 + n;
    var rest := y[n..];
    ScanSplit(s, y[..e], n);
    assert y[..e][..n] == y[..n];
    assert y[..e][n..] == rest[..f.end - 1];
    assert ScanAll(s, y[..e]) == ScanAll(t, rest[..f.end - 1]);
    assert t.text + rest[..f.start] == s.text + y[..f.start + n];
    assert rest[f.start..f.end - 1] == y[f.start + n..e];
  }

  lemma {:induction false} NothingBehind(s: Scan, y: Bytes, n: nat, t: Scan)
    requires n <= |y| && t == ScanAll(s, y[..n]) && t == s.(text := s.text + y[..n])
    requires NothingAgrees(t, y[n..])
    ensures NothingAgrees(s, y)
  {
    hide ParseBody;
    ScanSplit(s, y, n);
    assert t.text + y[n..] == s.text + y;
  }

  lemma {:induction false} FrontAgrees(s: Scan, y: Bytes, n: nat, t: Scan, f: Option<Found>)
    requires n <= |y| && t == ScanAll(s, y[..n]) && t == s.(text := s.text + y[..n])
    requires f == FirstMarker(y[n..]) && FirstMarker(y) == Later(f, n)
    requires SearchAgrees(t, y[n..])
    ensures SearchAgrees(s, y)
  {
    hide ParseBody, ScanAll, FirstMarker;
    if f.Some? {
      FoundBehind(s, y, n, t, f.value);
    } else {
      NothingBehind(s, y, n, t);
    }
  }

  /** A bracket that is not a marker is text. */
  lemma {:induction false} OrdinaryBracket(s: Scan, y: Bytes, k: nat)
    requires s.pending == [] && 0 < k < |y| && y[0] == MARKER_START && y[k] == MARKER_END && NoEnd(y[..k]) && ScanAll(s, y).ok
    requires Bracketed(y[..k]).None?
    ensures ScanAll(s, y[..k + 1]) == s.(text := s.text + y[..k + 1])
  {
    hide ParseBody;
    Opening(s, y, k);
    assert y[..k + 1][..k] == y[..k] && y[..k + 1][k..] == [MARKER_END];
    ScanSplit(s, y[..k + 1], k);
    assert s.text + y[..k] + [MARKER_END] == s.text + y[..k + 1];
    assert ScanAll(ScanByte(s.(pending := y[..k]), MARKER_END), []) == ScanByte(s.(pending := y[..k]), MARKER_END);
    assert [MARKER_END][1..] == [];
  }

  /** Searching a buffer for its first marker agrees with reading it byte by byte. */
  lemma {:induction false} SearchIsScan(s: Scan, y: Bytes)
    requires s.pending == [] && ScanAll(s, y).ok
    ensures SearchAgrees(s, y)
    decreases |y|
  {
    hide ParseBody;
    var e := IndexOf(y, MARKER_END);
    if y == [] {
    } else if y[0] != MARKER_START {
      assert y[..1] == [y[0]] && y[..1][1..] == [];
      assert ScanAll(s, y[..1]) == ScanAll(ScanByte(s, y[0]), []);
      ScanSplit(s, y, 1);
      var t := s.(text := s.text + y[..1]);
      SearchIsScan(t, y[1..]);
      FrontAgrees(s, y, 1, t, FirstMarker(y[1..]));
    } else if e.None? {
      assert y[..|y|] == y;
      Opening(s, y, |y|);
      NoMarkerWhileOpen(y);
    } else {
      var k := e.value;
      Opening(s, y, k);
      if Bracketed(y[..k]).Some? {
        SearchFinds(y, k);
        assert s.text + y[..0] == s.text && y[0..k] == y[..k];
        assert FoundAgrees(s, y, Found(0, k + 1, Bracketed(y[..k]).value));
      } else {
        SearchPasses(y, k);
        OrdinaryBracket(s, y, k);
        ScanSplit(s, y, k + 1);
        var t := s.(text := s.text + y[..k + 1]);
        SearchIsScan(t, y[k + 1..]);
        FrontAgrees(s, y, k + 1, t, FirstMarker(y[k + 1..]));
      }
    }
  }

  // ---- what may stay behind, and what may go -------------------------------------------------

  /** `p` is the bracket the buffer ends in; with none, every start byte has an end byte after it. */
  ghost predicate EndsIn(y: Bytes, p: Bytes) {
    if p == [] then forall i :: 0 <= i < |y| && y[i] == MARKER_START ==> !NoEnd(y[i..])
    else
      && |p| <= |y| && y[|y| - |p|..] == p && p[0] == MARKER_START
      && NoStart(p[1..]) && NoEnd(p) && |p| <= MAX_PENDING_MARKER
  }

  lemma {:induction false} EndsInStep(y: Bytes, p: Bytes, b: byte, s: Scan)
    requires s.pending == p && EndsIn(y, p) && ScanByte(s, b).ok
    ensures EndsIn(y + [b], ScanByte(s, b).pending)
  {
    hide ParseBody;
    var z := y + [b];
    if p == [] && b == MARKER_START {
      assert z[|z| - 1..] == [b];
    } else if p == [] {
      forall i | 0 <= i < |z| && z[i] == MARKER_START
        ensures !NoEnd(z[i..])
      {
        var j :| 0 <= j < |y[i..]| && y[i..][j] == MARKER_END;
        assert z[i..][j] == MARKER_END;
      }
    } else if b == MARKER_END {
      forall i | 0 <= i < |z| && z[i] == MARKER_START
        ensures !NoEnd(z[i..])
      {
        assert z[i..][|z| - 1 - i] == MARKER_END;
      }
    } else {
      assert z[|z| - |p| - 1..] == p + [b];
      assert (p + [b])[1..] == p[1..] + [b];
    }
  }

  /** What the scanner has aside is what the buffer ends in. */
  lemma {:induction false} PendingIsTail(s: Scan, y: Bytes)
    requires s.pending == [] && ScanAll(s, y).ok
    ensures EndsIn(y, ScanAll(s, y).pending)
    decreases |y|
  {
    if y != [] {
      var n := |y| - 1;
      ScanSplit(s, y, n);
      assert y[n..] == [y[n]] && [y[n]][1..] == [];
      assert ScanAll(s, y) == ScanByte(ScanAll(s, y[..n]), y[n]);
      PendingIsTail(s, y[..n]);
      EndsInStep(y[..n], ScanAll(s, y[..n]).pending, y[n], ScanAll(s, y[..n]));
      assert y[..n] + [y[n]] == y;
    }
  }

  /** Without markers in it, the buffer's first byte can go: the rest still reads the same. */
  lemma {:induction false} DropByte(s: Scan, y: Bytes)
    requires s.pending == [] && ScanAll(s, y).ok && |ScanAll(s, y).markers| == |s.markers|
    requires |ScanAll(s, y).pending| < |y|
    ensures ScanAll(s.(text := s.text + y[..1]), y[1..]) == ScanAll(s, y)
  {
    if y[0] == MARKER_START {
      hide ScanAll, Bracketed;
      var e := IndexOf(y, MARKER_END);
      if e.None? {
        assert y[..|y|] == y;
        Opening(s, y, |y|);
      } else {
        DropBracket(s, y, e.value);
      }
    } else {
      assert y[..1] == [y[0]];
    }
  }

  /** An ordinary bracket in front is text like any other. */
  lemma {:induction false} DropBracket(s: Scan, y: Bytes, k: nat)
    requires s.pending == [] && ScanAll(s, y).ok && |ScanAll(s, y).markers| == |s.markers|
    requires k < |y| && IndexOf(y, MARKER_END) == Some(k) && y[0] == MARKER_START
    ensures ScanAll(s.(text := s.text + y[..1]), y[1..]) == ScanAll(s, y)
  {
    hide ScanAll, Bracketed;
    Opening(s, y, k);
    NoMarkerIn(s, y, k);
    OrdinaryBracket(s, y, k);
    ScanSplit(s, y, k + 1);
    ThroughEnd(y, k);
    assert y[1..] == y[1..k + 1] + y[k + 1..];
    PlainText(s.(text := s.text + y[..1]), y[1..k + 1], y[k + 1..]);
    assert s.text + y[..1] + y[1..k + 1] == s.text + y[..k + 1];
  }

  /** If reading the buffer adds no marker, its first bracket is none. */
  lemma {:induction false} NoMarkerIn(s: Scan, y: Bytes, k: nat)
    requires s.pending == [] && 0 < k < |y| && y[k] == MARKER_END && ScanAll(s, y).ok && |ScanAll(s, y).markers| == |s.markers|
    requires ScanAll(s, y[..k]) == s.(pending := y[..k])
    ensures Bracketed(y[..k]).None?
  {
    hide ParseBody;
    ScanSplit(s, y, k + 1);
    assert y[..k + 1][..k] == y[..k] && y[..k + 1][k..] == [MARKER_END] && [MARKER_END][1..] == [];
    ScanSplit(s, y[..k + 1], k);
    assert ScanAll(s, y[..k + 1]) == ScanByte(s.(pending := y[..k]), MARKER_END);
  }

  /** So can everything before the bracket the buffer ends in. */
  lemma {:induction false} DropFront(s: Scan, y: Bytes, k: nat)
    requires s.pending == [] && ScanAll(s, y).ok && |ScanAll(s, y).markers| == |s.markers|
    requires k + |ScanAll(s, y).pending| <= |y|
    ensures ScanAll(s.(text := s.text + y[..k]), y[k..]) == ScanAll(s, y)
    decreases k
  {
    if k == 0 {
      assert s.text + y[..0] == s.text && y[0..] == y;
    } else {
      DropByte(s, y);
      var t := s.(text := s.text + y[..1]);
      DropFront(t, y[1..], k - 1);
      assert s.text + y[..1] + y[1..][..k - 1] == s.text + y[..k];
      assert y[1..][k - 1..] == y[k..];
    }
  }
}
