/** What the marker parser promises over whole runs, however the pipe cuts the bytes. */
module MarkerTheorems {
  import opened Common
  import opened Text
  import opened Markers
  import opened MarkerScan
  import opened MarkerParser
  import opened MarkerFollows
  import opened MarkerHoldback

  /**
   * However the pipe cuts the bytes and wherever the program goes quiet, the
   * parser emits the scanned text and strips the scanned markers, each with
   * the execution index of its place.
   */
  lemma {:induction false} OutputIsScan(cfg: Config, ops: seq<Op>)
    requires WellBracketed(Input(ops))
    ensures var out := Output(cfg, ops);
            var scan := ScanAll(START, Input(ops));
            && TextOf(out.emitted) == scan.text
            && out.stripped == scan.markers
            && |out.locations| == |scan.markers|
            && forall k :: 0 <= k < |scan.markers| ==> out.locations[k] == LocationAt(cfg, scan.markers, k)
  {
    hide ParseBody, FirstMarker, Apply;
    WellBracketedScans(Input(ops));
    RunFollows(cfg, ops, Input(ops));
    var p := Run(cfg, ops);
    FollowsEndsIn(p, ScanAll(START, Input(ops)));
    EmitTextEmits(cfg, p.(buffer := []), p.buffer, None);
  }

  /** Two runs over the same bytes agree. */
  lemma {:induction false} ChunkIndependent(cfg: Config, ops1: seq<Op>, ops2: seq<Op>)
    requires Input(ops1) == Input(ops2) && WellBracketed(Input(ops1))
    ensures TextOf(Output(cfg, ops1).emitted) == TextOf(Output(cfg, ops2).emitted)
    ensures Output(cfg, ops1).stripped == Output(cfg, ops2).stripped
    ensures Output(cfg, ops1).locations == Output(cfg, ops2).locations
  {
    OutputIsScan(cfg, ops1);
    OutputIsScan(cfg, ops2);
  }

  /**
   * However the pipe cuts the bytes: as long as no panic line has gone out,
   * the line ending right before a marker carries exactly that marker's
   * location.
   */
  lemma {:induction false} LocationsLand(cfg: Config, ops: seq<Op>)
    requires ChunksOnly(ops) && WellBracketed(Input(ops)) && MarkersOnOneLine(Input(ops))
    ensures var out := Output(cfg, ops);
            var scan := ScanAll(START, Input(ops));
            && |out.ends| == |out.locations| == |scan.segments| == |scan.markers|
            && forall k :: 0 <= k < |scan.segments| && scan.segments[k] != [] && Calm(cfg, out.emitted[..Min(out.ends[k], |out.emitted|)]) ==>
                 && 0 < out.ends[k] <= |out.emitted|
                 && out.emitted[out.ends[k] - 1].line == LastLine(scan.segments[k])
                 && out.emitted[out.ends[k] - 1].location == Some(LocationAt(cfg, scan.markers, k))
  {
    hide ParseBody, FirstMarker, Apply, Safe, StickyTells, LastLine, LocationAt;
    WellBracketedScans(Input(ops));
    RunHolds(cfg, ops);
    OutputIsScan(cfg, ops);
    var p := Run(cfg, ops);
    EmitTextEmits(cfg, p.(buffer := []), p.buffer, None);
    LandedMore(cfg, p, Output(cfg, ops), ScanAll(START, Input(ops)).segments);
  }

  /** After any push, on any input, at most one newline stays held unless a bracket is half arrived. */
  lemma {:induction false} HoldsOneLine(cfg: Config, p: Parser, chunk: Bytes)
    ensures var held := Push(cfg, p, chunk).buffer;
            HalfArrived(held) || forall i, j :: 0 <= i < j < |held| ==> held[i] != NEWLINE || held[j] != NEWLINE
  {
    hide FirstMarker, StripOne, ParseBody, HalfArrived, MarkerHold;
    var q := StripAll(cfg, p.(buffer := p.buffer + chunk));
    var bracket := MarkerHold(q.buffer, MAX_PENDING_MARKER);
    var hold := Min(LineHoldback(q.buffer), bracket);
    ReadyBuffer(cfg, q, hold);
    if bracket < |q.buffer| {
      HeldMeansHalfArrived(q.buffer, hold);
    } else {
      OneNewline(q.buffer);
    }
  }
}
