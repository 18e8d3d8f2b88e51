/**
 * The line held back is enough: of the text since the last marker only what
 * cannot be its last line any more goes out, so each location lands on the
 * line right before its marker.
 */
module MarkerHoldback {
  import opened Common
  import opened Text
  import opened Markers
  import opened MarkerScan
  import opened MarkerParser
  import opened MarkerFollows

  // ---- how much may go out early ----------------------------------------------------------

  lemma {:induction false} LastLineStartGrows(text: Bytes, more: Bytes)
    ensures LastLineStart(text) <= LastLineStart(text + more)
  {
    var start := LastLineStart(text);
    if start > 0 {
      assert (text + more)[start - 1] == NEWLINE;
    }
  }

  /**
   * Of the text since the last marker, only what cannot be its last line any
   * more is out. A bracket with a newline in it will not close as a marker,
   * and as text it ends the line before it.
   */
  predicate Safe(s: Scan, out: nat) {
    && s.from <= out <= |s.text|
    && (NEWLINE in s.pending || out - s.from <= LastLineStart(s.text[s.from..]))
  }

  lemma {:induction false} SafeText(s: Scan, more: Bytes, out: nat)
    requires Safe(s, out) && NEWLINE !in s.pending
    ensures out - s.from <= LastLineStart((s.text + more)[s.from..])
  {
    assert (s.text + more)[s.from..] == s.text[s.from..] + more;
    LastLineStartGrows(s.text[s.from..], more);
  }

  /** A newline inside a bracket that turns out to be text. */
  lemma {:induction false} SafeBracket(s: Scan, b: byte, out: nat)
    requires Safe(s, out) && NEWLINE in s.pending
    ensures out - s.from <= LastLineStart((s.text + s.pending + [b])[s.from..])
  {
    var j :| 0 <= j < |s.pending| && s.pending[j] == NEWLINE;
    var all := (s.text + s.pending + [b])[s.from..];
    assert all[|s.text| - s.from + j] == NEWLINE;
  }

  lemma {:induction false} SafeByte(s: Scan, b: byte, out: nat)
    requires Safe(s, out) && |ScanByte(s, b).markers| == |s.markers|
    ensures Safe(ScanByte(s, b), out)
  {
    hide Bracketed;
    if s.pending == [] {
      SafeText(s, [b], out);
    } else if b == MARKER_END {
      if NEWLINE in s.pending {
        SafeBracket(s, b, out);
      } else {
        SafeText(s, s.pending + [b], out);
        assert s.text + (s.pending + [b]) == s.text + s.pending + [b];
      }
    }
  }

  lemma {:induction false} SafeAll(s: Scan, bytes: Bytes, out: nat)
    requires Safe(s, out) && |ScanAll(s, bytes).markers| == |s.markers|
    ensures Safe(ScanAll(s, bytes), out)
    decreases |bytes|
  {
    hide ScanByte;
    if bytes != [] {
      ScanGrows(s, bytes[..1]);
      assert bytes[..1][0] == bytes[0] && bytes[..1][1..] == [];
      ScanGrows(ScanByte(s, bytes[0]), bytes[1..]);
      assert |s.markers| <= |ScanAll(ScanByte(s, bytes[0]), []).markers|;
      SafeByte(s, bytes[0], out);
      SafeAll(ScanByte(s, bytes[0]), bytes[1..], out);
    }
  }

  // ---- what holding back the last complete line gives --------------------------------------

  /** Bytes let go by the line holdback are before the last line of the text they belong to. */
  lemma {:induction false} HoldbackIsSafe(buffer: Bytes, pending: Bytes, hold: nat)
    requires |pending| <= |buffer| && buffer[|buffer| - |pending|..] == pending && NEWLINE !in pending
    requires hold <= LineHoldback(buffer) && hold <= |buffer| - |pending|
    ensures hold <= LastLineStart(buffer[..|buffer| - |pending|])
  {
    var line := LineHoldback(buffer);
    var text := buffer[..|buffer| - |pending|];
    if line > 0 {
      var last := LastIndexOf(buffer, NEWLINE).value;
      assert buffer[line - 1] == buffer[..last][line - 1] == NEWLINE;
      assert forall j :: |text| <= j < |buffer| ==> buffer[j] == pending[j - |text|];
      assert text[line - 1] == NEWLINE && line - 1 < last < |text|;
    }
  }

  lemma {:induction false} LastLineStartBehind(front: Bytes, text: Bytes)
    requires text != [] && LastLineStart(text) > 0
    ensures LastLineStart(front + text) == |front| + LastLineStart(text)
  {
    var all := front + text;
    assert forall j :: |front| <= j < |all| ==> all[j] == text[j - |front|];
    LastLineStartIsUnique(all, |front| + LastLineStart(text));
  }

  lemma {:induction false} ReadySafe(cfg: Config, p: Parser, s: Scan, hold: nat)
    requires Follows(p, s, []) && s.ok && Safe(s, |TextOf(p.emitted)|)
    requires hold <= LineHoldback(p.buffer) && hold + |s.pending| <= |p.buffer|
    ensures Safe(s, |TextOf(p.emitted)| + hold)
  {
    hide Follows, LineHoldback, Safe, EndsIn, TextOf;
    FollowsEndsIn(p, s);
    var out := TextOf(p.emitted);
    var text := p.buffer[..|p.buffer| - |s.pending|];
    SameSplit(out + p.buffer, s.text, s.pending, out + text);
    if NEWLINE !in s.pending && hold > 0 {
      PendingEnds(p.buffer, s.pending);
      HoldbackIsSafe(p.buffer, s.pending, hold);
    }
    StillSafe(s, out, text, hold);
  }

  lemma {:induction false} StillSafe(s: Scan, out: Bytes, text: Bytes, hold: nat)
    requires Safe(s, |out|) && s.text == out + text && hold <= |text|
    requires NEWLINE !in s.pending && hold > 0 ==> hold <= LastLineStart(text)
    ensures Safe(s, |out| + hold)
  {
    if NEWLINE !in s.pending && hold > 0 {
      assert s.text[s.from..] == out[s.from..] + text;
      LastLineStartBehind(out[s.from..], text);
    }
  }

  lemma {:induction false} PendingEnds(y: Bytes, p: Bytes)
    requires EndsIn(y, p) && |p| <= |y|
    ensures y[|y| - |p|..] == p
  {}

  lemma {:induction false} SameSplit(all: Bytes, a: Bytes, b: Bytes, c: Bytes)
    requires all == a + b && |c| == |a| && c <= all
    ensures a == c
  {
    assert a == all[..|a|] == c;
  }

  // ---- a marker is stripped -----------------------------------------------------------------

  /** The text right before a marker, as the scanner has it, ends in the line the parser gives the location. */
  lemma {:induction false} SegmentLine(s: Scan, out: Bytes, before: Bytes)
    requires Safe(s, |out|) && NEWLINE !in s.pending && s.text == out + before
    ensures LastLine(s.text[s.from..]) == LastLine(before)
    ensures s.text[s.from..] != [] ==> before != []
  {
    var segment := s.text[s.from..];
    LastLineOfSuffix(segment, |out| - s.from);
    assert segment[|out| - s.from..] == before;
  }

  /** The scanner just before the end byte of the first marker in the buffer. */
  lemma {:induction false} BeforeEnd(p: Parser, s: Scan, rest: Bytes, f: Found) returns (u: Scan)
    requires Follows(p, s, rest) && FoundAgrees(AtBuffer(p, s), p.buffer, f)
    requires Safe(s, |TextOf(p.emitted)|)
    ensures u == AtBuffer(p, s).(text := TextOf(p.emitted) + p.buffer[..f.start], pending := p.buffer[f.start..f.end - 1])
    ensures Safe(u, |TextOf(p.emitted)|)
  {
    hide ParseBody, ScanAll;
    var g := AtBuffer(p, s);
    var n := |p.buffer| - |rest|;
    FoundIsNew(p, s, rest, f);
    var y := p.buffer[..f.end - 1];
    u := ScanAll(g, y);
    ScanSplit(g, y, n);
    assert y[..n] == p.buffer[..n];
    SafeAll(s, y[n..], |TextOf(p.emitted)|);
  }

  /** The marker closes: its segment is filed, and nothing is held back yet for the next one. */
  lemma {:induction false} Closing(u: Scan, m: Marker)
    requires u.from <= |u.text| && Bracketed(u.pending) == Some(m) && u.pending != []
    ensures var t := ScanByte(u, MARKER_END);
            && t.segments == u.segments + [u.text[u.from..]]
            && (t.oneLine ==> NEWLINE !in u.pending)
            && Safe(t, |u.text|)
  {
    hide ParseBody;
  }

  /** Each marker whose segment has text lies right behind the line that carries its location. */
  ghost predicate Landed(cfg: Config, p: Parser, segments: seq<Bytes>) {
    && |p.ends| == |p.locations| == |segments|
    && (forall k :: 0 <= k < |segments| ==> LandedAt(cfg, p.emitted, p.ends[k], segments[k], p.locations[k]))
  }

  /** No line so far looks like a panic. */
  predicate Calm(cfg: Config, emitted: seq<Emission>) {
    forall i :: 0 <= i < |emitted| ==> !(cfg.detectErrors && cfg.isPanicLine(emitted[i].line))
  }

  predicate LandedAt(cfg: Config, emitted: seq<Emission>, end: nat, segment: Bytes, location: Location) {
    && end <= |emitted|
    && (segment != [] && Calm(cfg, emitted[..end]) ==>
          end > 0 && emitted[end - 1].line == LastLine(segment) && emitted[end - 1].location == Some(location))
  }

  /** The sticky flag is up exactly when a panic line has gone out. */
  ghost predicate StickyTells(cfg: Config, p: Parser) {
    p.sticky <==> !Calm(cfg, p.emitted)
  }

  lemma {:induction false} StickyLines(cfg: Config, p: Parser, lines: seq<Bytes>, location: Option<Location>)
    requires StickyTells(cfg, p)
    ensures StickyTells(cfg, EmitLines(cfg, p, lines, location))
    decreases |lines|
  {
    if lines != [] {
      var r := EmitLine(cfg, p, lines[0], location);
      assert forall i :: 0 <= i < |p.emitted| ==> r.emitted[i] == p.emitted[i];
      assert r.emitted[|p.emitted|].line == lines[0];
      StickyLines(cfg, r, lines[1..], location);
    }
  }

  lemma {:induction false} LandedMore(cfg: Config, p: Parser, q: Parser, segments: seq<Bytes>)
    requires Landed(cfg, p, segments)
    requires p.emitted <= q.emitted && q.ends == p.ends && q.locations == p.locations
    ensures Landed(cfg, q, segments)
  {
    forall k | 0 <= k < |segments|
      ensures LandedAt(cfg, q.emitted, q.ends[k], segments[k], q.locations[k])
    {
      assert LandedAt(cfg, p.emitted, p.ends[k], segments[k], p.locations[k]);
      assert q.emitted[..p.ends[k]] == p.emitted[..p.ends[k]];
    }
  }

  /** Everything the argument carries along. */
  ghost predicate Holding(cfg: Config, p: Parser, s: Scan) {
    && Safe(s, |TextOf(p.emitted)|)
    && StickyTells(cfg, p)
    && Landed(cfg, p, s.segments)
  }

  /** Stripping emits the text before the marker and files where that ends. */
  lemma {:induction false} StripOneLands(cfg: Config, p: Parser, f: Found, segments: seq<Bytes>, segment: Bytes)
    requires f.start < f.end <= |p.buffer| && Landed(cfg, p, segments) && StickyTells(cfg, p)
    requires LastLine(segment) == LastLine(p.buffer[..f.start])
    requires segment != [] ==> p.buffer[..f.start] != []
    ensures Landed(cfg, StripOne(cfg, p, f), segments + [segment]) && StickyTells(cfg, StripOne(cfg, p, f))
  {
    hide Lines, LastLine;
    var index := CountOf(p.counts, KeyOf(cfg, f.marker)) + 1;
    var location := Locate(cfg, f.marker, index);
    var before := p.buffer[..f.start];
    var r := EmitText(cfg, p, before, Some(location));
    EmitTextEmits(cfg, p, before, Some(location));
    StickyLines(cfg, p, Lines(before), Some(location));
    LandedMore(cfg, p, r, segments);
    assert r.emitted[..|r.emitted|] == r.emitted;
    assert LandedAt(cfg, r.emitted, |r.emitted|, segment, location);
    LandedOne(cfg, r, StripOne(cfg, p, f), segments, segment, location);
  }

  lemma {:induction false} LandedOne(cfg: Config, r: Parser, q: Parser, segments: seq<Bytes>, segment: Bytes, location: Location)
    requires Landed(cfg, r, segments) && LandedAt(cfg, r.emitted, |r.emitted|, segment, location)
    requires q.emitted == r.emitted && q.ends == r.ends + [|r.emitted|] && q.locations == r.locations + [location]
    ensures Landed(cfg, q, segments + [segment])
  {
    hide LandedAt;
  }

  lemma {:induction false} StripHolds(cfg: Config, p: Parser, s: Scan, rest: Bytes, f: Found)
    requires Follows(p, s, rest) && ScanAll(s, rest).ok && ScanAll(s, rest).oneLine && Holding(cfg, p, s)
    requires FirstMarker(p.buffer) == Some(f) && f.start < f.end <= |p.buffer|
    ensures var t := ScanAll(AtBuffer(p, s), p.buffer[..f.end]);
            Holding(cfg, StripOne(cfg, p, f), t)
  {
    hide ParseBody, FirstMarker, StripOne, Landed, StickyTells, Safe, Follows, ScanByte, LastLine;
    StripFollows(cfg, p, s, rest, f);
    var t := ScanAll(AtBuffer(p, s), p.buffer[..f.end]);
    ScanGrows(t, RestAfter(p, f));
    var u := BeforeEnd(p, s, rest, f);
    AfterFound(AtBuffer(p, s), p.buffer, f);
    assert t == ScanByte(u, MARKER_END);
    SafeBounds(s, |TextOf(p.emitted)|);
    Closing(u, f.marker);
    SegmentLine(u, TextOf(p.emitted), p.buffer[..f.start]);
    StripOneLands(cfg, p, f, s.segments, u.text[u.from..]);
    StripOneEmits(cfg, p, f);
  }

  lemma {:induction false} SafeBounds(s: Scan, out: nat)
    requires Safe(s, out)
    ensures s.from <= out <= |s.text|
  {}

  lemma {:induction false} StripAllHolds(cfg: Config, p: Parser, s: Scan, rest: Bytes)
    requires Follows(p, s, rest) && ScanAll(s, rest).ok && ScanAll(s, rest).oneLine && Holding(cfg, p, s)
    ensures Holding(cfg, StripAll(cfg, p), ScanAll(s, rest))
    decreases |p.buffer|
  {
    hide ParseBody, FirstMarker, StripOne, Holding;
    var f := FirstMarker(p.buffer);
    if f.Some? {
      StripFollows(cfg, p, s, rest, f.value);
      StripHolds(cfg, p, s, rest, f.value);
      StripOneEmits(cfg, p, f.value);
      var t := ScanAll(AtBuffer(p, s), p.buffer[..f.value.end]);
      StripAllHolds(cfg, StripOne(cfg, p, f.value), t, RestAfter(p, f.value));
    } else {
      NoMarkerHolds(cfg, p, s, rest);
    }
  }

  lemma {:induction false} NoMarkerHolds(cfg: Config, p: Parser, s: Scan, rest: Bytes)
    requires Follows(p, s, rest) && ScanAll(s, rest).ok && Holding(cfg, p, s)
    requires FirstMarker(p.buffer) == None
    ensures Holding(cfg, p, ScanAll(s, rest))
  {
    hide ParseBody, FirstMarker, Landed, StickyTells, Safe;
    var g := AtBuffer(p, s);
    ScanSplit(g, p.buffer, |p.buffer| - |rest|);
    SearchIsScan(g, p.buffer);
    SafeAll(s, rest, |TextOf(p.emitted)|);
  }

  // ---- a push -----------------------------------------------------------------------------------

  lemma {:induction false} ReadyHolds(cfg: Config, p: Parser, s: Scan, hold: nat)
    requires Follows(p, s, []) && s.ok && Holding(cfg, p, s)
    requires hold <= LineHoldback(p.buffer) && hold + |s.pending| <= |p.buffer|
    ensures Holding(cfg, EmitReady(cfg, p, hold), s)
  {
    hide Landed, StickyTells, Safe, Follows, LineHoldback, Lines, EmitLines;
    if hold > 0 {
      ReadySafe(cfg, p, s, hold);
      var r := p.(buffer := p.buffer[hold..]);
      EmitTextEmits(cfg, r, p.buffer[..hold], None);
      StickySame(cfg, p, r);
      StickyLines(cfg, r, Lines(p.buffer[..hold]), None);
      LandedMore(cfg, p, EmitReady(cfg, p, hold), s.segments);
    }
  }

  lemma {:induction false} StickySame(cfg: Config, p: Parser, r: Parser)
    requires StickyTells(cfg, p) && r.sticky == p.sticky && r.emitted == p.emitted
    ensures StickyTells(cfg, r)
  {}

  lemma {:induction false} PushHolds(cfg: Config, p: Parser, s: Scan, chunk: Bytes)
    requires Follows(p, s, []) && Counted(cfg, p) && ScanAll(s, chunk).ok && ScanAll(s, chunk).oneLine
    requires Holding(cfg, p, s)
    ensures Holding(cfg, Push(cfg, p, chunk), ScanAll(s, chunk))
  {
    hide ParseBody, FirstMarker, Landed, StickyTells, Safe, LineHoldback, MarkerHold, EmitReady;
    var r := p.(buffer := p.buffer + chunk);
    assert r.buffer[..|r.buffer| - |chunk|] == p.buffer[..|p.buffer|];
    StickySame(cfg, p, r);
    LandedMore(cfg, p, r, s.segments);
    StripAllHolds(cfg, r, s, chunk);
    StripAllFollows(cfg, r, s, chunk);
    var q := StripAll(cfg, r);
    FollowsEndsIn(q, ScanAll(s, chunk));
    PendingShort(q.buffer, ScanAll(s, chunk).pending);
    HoldIsPending(q.buffer, ScanAll(s, chunk).pending, MAX_PENDING_MARKER);
    ReadyHolds(cfg, q, ScanAll(s, chunk), Min(LineHoldback(q.buffer), MarkerHold(q.buffer, MAX_PENDING_MARKER)));
  }

  lemma {:induction false} PendingShort(y: Bytes, p: Bytes)
    requires EndsIn(y, p)
    ensures |p| <= MAX_PENDING_MARKER
  {}

  predicate ChunksOnly(ops: seq<Op>) {
    forall i :: 0 <= i < |ops| ==> ops[i].Chunk?
  }

  lemma {:induction false} RunHolds(cfg: Config, ops: seq<Op>)
    requires ChunksOnly(ops) && ScanAll(START, Input(ops)).ok && ScanAll(START, Input(ops)).oneLine
    ensures Holding(cfg, Run(cfg, ops), ScanAll(START, Input(ops)))
    decreases |ops|
  {
    hide ParseBody, FirstMarker, Push;
    if ops != [] {
      var front, last := ops[..|ops| - 1], ops[|ops| - 1];
      ScanAppend(START, Input(front), last.bytes);
      ScanGrows(ScanAll(START, Input(front)), last.bytes);
      RunFollows(cfg, front, Input(front));
      RunHolds(cfg, front);
      PushHolds(cfg, Run(cfg, front), ScanAll(START, Input(front)), last.bytes);
    }
  }

  // ---- how little is held ------------------------------------------------------------------------

  /** The buffer ends in a bracket that may still become a marker. */
  predicate HalfArrived(buffer: Bytes) {
    exists i :: 0 <= i < |buffer| && OpensAt(buffer, i)
  }

  predicate OpensAt(buffer: Bytes, i: nat) {
    && i < |buffer| && buffer[i] == MARKER_START && |buffer| - i <= MAX_PENDING_MARKER
    && forall j :: i < j < |buffer| ==> buffer[j] != MARKER_START && buffer[j] != MARKER_END
  }

  lemma {:induction false} HeldMeansHalfArrived(buffer: Bytes, hold: nat)
    requires MarkerHold(buffer, MAX_PENDING_MARKER) < |buffer| && hold <= MarkerHold(buffer, MAX_PENDING_MARKER)
    ensures HalfArrived(buffer[hold..])
  {
    var i := MarkerHold(buffer, MAX_PENDING_MARKER);
    assert forall j :: i < j < |buffer| ==> buffer[j] == buffer[i..][j - i];
    assert OpensAt(buffer[hold..], i - hold);
  }

  lemma {:induction false} ReadyBuffer(cfg: Config, p: Parser, hold: nat)
    requires hold <= |p.buffer|
    ensures EmitReady(cfg, p, hold).buffer == p.buffer[hold..]
  {
    if hold > 0 {
      EmitTextEmits(cfg, p.(buffer := p.buffer[hold..]), p.buffer[..hold], None);
    }
  }

  lemma {:induction false} OneNewline(buffer: Bytes)
    ensures var held := buffer[LineHoldback(buffer)..];
            forall i, j :: 0 <= i < j < |held| ==> held[i] != NEWLINE || held[j] != NEWLINE
  {
    var last := LastIndexOf(buffer, NEWLINE);
    if last.Some? {
      var front := buffer[..last.value];
      assert forall i :: 0 <= i < |front| ==> buffer[i] == front[i];
    }
  }
}
