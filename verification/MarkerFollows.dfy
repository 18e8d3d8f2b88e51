/**
 * The parser follows the scanner: its buffer is always what lies between the
 * text it has emitted and what the scanner has read, however the bytes came,
 * and its counts are those of the markers stripped.
 */
module MarkerFollows {
  import opened Common
  import opened Text
  import opened Markers
  import opened MarkerScan
  import opened MarkerParser

  // ---- emitting loses nothing ---------------------------------------------------------------

  lemma {:induction false} TextOfAppend(emitted: seq<Emission>, e: Emission)
    ensures TextOf(emitted + [e]) == TextOf(emitted) + e.line
  {
    assert (emitted + [e])[..|emitted|] == emitted;
  }

  /** What emitting leaves alone, and what it adds. */
  ghost predicate Emits(p: Parser, q: Parser, text: Bytes) {
    && q == p.(sticky := q.sticky, emitted := q.emitted)
    && TextOf(q.emitted) == TextOf(p.emitted) + text
    && p.emitted <= q.emitted
    && (p.sticky ==> q.sticky)
  }

  lemma {:induction false} EmitLinesEmits(cfg: Config, p: Parser, lines: seq<Bytes>, location: Option<Location>)
    ensures var q := EmitLines(cfg, p, lines, location);
            && Emits(p, q, Concat(lines))
            && (lines != [] && !q.sticky ==>
                  |q.emitted| > 0 && q.emitted[|q.emitted| - 1].line == lines[|lines| - 1]
                  && q.emitted[|q.emitted| - 1].location == location)
    decreases |lines|
  {
    if lines == [] {
      assert TextOf(p.emitted) + [] == TextOf(p.emitted);
    } else {
      var r := EmitLine(cfg, p, lines[0], location);
      TextOfAppend(p.emitted, r.emitted[|p.emitted|]);
      EmitLinesEmits(cfg, r, lines[1..], location);
      assert TextOf(p.emitted) + lines[0] + Concat(lines[1..]) == TextOf(p.emitted) + Concat(lines);
    }
  }

  lemma {:induction false} EmitTextEmits(cfg: Config, p: Parser, text: Bytes, location: Option<Location>)
    ensures var q := EmitText(cfg, p, text, location);
            && Emits(p, q, text)
            && (text != [] && !q.sticky ==>
                  |q.emitted| > 0 && q.emitted[|q.emitted| - 1].line == LastLine(text)
                  && q.emitted[|q.emitted| - 1].location == location)
  {
    EmitLinesEmits(cfg, p, Lines(text), location);
    LinesCover(text);
    if text != [] {
      LastOfLines(text);
    }
  }

  // ---- the parser against the scanner --------------------------------------------------------

  /** The scanner where the parser's buffer begins: outside brackets, all emitted. */
  ghost function AtBuffer(p: Parser, s: Scan): Scan {
    s.(text := TextOf(p.emitted), pending := [])
  }

  /**
   * `s` has read everything but the last `rest` of the buffer, and the buffer
   * is what lies between what was emitted and what `s` has read.
   */
  ghost predicate Follows(p: Parser, s: Scan, rest: Bytes) {
    && |rest| <= |p.buffer| && p.buffer[|p.buffer| - |rest|..] == rest
    && ScanAll(AtBuffer(p, s), p.buffer[..|p.buffer| - |rest|]) == s
    && s.markers == p.stripped
  }

  ghost predicate Counted(cfg: Config, p: Parser) {
    && (forall key :: CountOf(p.counts, key) == Occurrences(cfg, p.stripped, key))
    && |p.locations| == |p.stripped|
    && (forall k :: 0 <= k < |p.stripped| ==> p.locations[k] == LocationAt(cfg, p.stripped, k))
  }

  /** Emitting before a marker leaves the counts and the markers as they were. */
  lemma {:induction false} StripOneFields(cfg: Config, p: Parser, f: Found)
    requires f.start < f.end <= |p.buffer|
    ensures var q := StripOne(cfg, p, f);
            var key := KeyOf(cfg, f.marker);
            var index := CountOf(p.counts, key) + 1;
            && q.counts == p.counts[key := index]
            && q.stripped == p.stripped + [f.marker]
            && q.locations == p.locations + [Locate(cfg, f.marker, index)]
  {
    hide EmitText;
  }

  lemma {:induction false} OccurrencesStep(cfg: Config, markers: seq<Marker>, m: Marker, key: Key)
    ensures Occurrences(cfg, markers + [m], key) == Occurrences(cfg, markers, key) + (if KeyOf(cfg, m) == key then 1 else 0)
  {
    assert (markers + [m])[..|markers|] == markers;
  }

  lemma {:induction false} LocationsStep(cfg: Config, markers: seq<Marker>, m: Marker, k: nat)
    requires k < |markers|
    ensures LocationAt(cfg, markers + [m], k) == LocationAt(cfg, markers, k)
  {
    assert (markers + [m])[..k + 1] == markers[..k + 1];
  }

  lemma {:induction false} CountedStep(cfg: Config, p: Parser, f: Found)
    requires Counted(cfg, p) && f.start < f.end <= |p.buffer|
    ensures Counted(cfg, StripOne(cfg, p, f))
  {
    hide StripOne, Occurrences, LocationAt, KeyOf;
    StripOneFields(cfg, p, f);
    var q := StripOne(cfg, p, f);
    forall key
      ensures CountOf(q.counts, key) == Occurrences(cfg, q.stripped, key)
    {
      OccurrencesStep(cfg, p.stripped, f.marker, key);
    }
    forall k | 0 <= k < |q.stripped|
      ensures q.locations[k] == LocationAt(cfg, q.stripped, k)
    {
      if k < |p.stripped| {
        LocationsStep(cfg, p.stripped, f.marker, k);
      } else {
        LastLocation(cfg, p.stripped, f.marker);
      }
    }
  }

  lemma {:induction false} LastLocation(cfg: Config, markers: seq<Marker>, m: Marker)
    ensures LocationAt(cfg, markers + [m], |markers|) == Locate(cfg, m, Occurrences(cfg, markers, KeyOf(cfg, m)) + 1)
  {
    hide Locate, KeyOf;
    assert (markers + [m])[..|markers| + 1] == markers + [m];
    OccurrencesStep(cfg, markers, m, KeyOf(cfg, m));
  }

  /** The marker found ends in the part of the buffer not yet read. */
  lemma {:induction false} FoundIsNew(p: Parser, s: Scan, rest: Bytes, f: Found)
    requires Follows(p, s, rest) && FoundAgrees(AtBuffer(p, s), p.buffer, f)
    ensures f.end > |p.buffer| - |rest|
  {
    hide ParseBody;
    var g := AtBuffer(p, s);
    var n := |p.buffer| - |rest|;
    if f.end <= n {
      var y := p.buffer[..n];
      assert y[..f.end] == p.buffer[..f.end];
      ScanSplit(g, y, f.end);
      AfterFound(g, p.buffer, f);
    }
  }

  /** Reading on through the end byte of the marker found. */
  lemma {:induction false} AfterFound(g: Scan, y: Bytes, f: Found)
    requires FoundAgrees(g, y, f)
    ensures ScanAll(g, y[..f.end]) == ScanByte(g.(text := g.text + y[..f.start], pending := y[f.start..f.end - 1]), MARKER_END)
    ensures ScanAll(g, y[..f.end]).markers == g.markers + [f.marker]
  {
    hide ParseBody;
    assert y[..f.end][..f.end - 1] == y[..f.end - 1] && y[..f.end][f.end - 1..] == [MARKER_END] && [MARKER_END][1..] == [];
    ScanSplit(g, y[..f.end], f.end - 1);
  }

  /** What remains to be read after the first marker of the buffer. */
  function RestAfter(p: Parser, f: Found): Bytes
    requires f.end <= |p.buffer|
  {
    p.buffer[f.end..]
  }

  lemma {:induction false} StripOneEmits(cfg: Config, p: Parser, f: Found)
    requires f.start < f.end <= |p.buffer|
    ensures var q := StripOne(cfg, p, f);
            && TextOf(q.emitted) == TextOf(p.emitted) + p.buffer[..f.start]
            && q.buffer == p.buffer[f.end..]
            && q.stripped == p.stripped + [f.marker]
  {
    hide EmitText;
    var index := CountOf(p.counts, KeyOf(cfg, f.marker)) + 1;
    EmitTextEmits(cfg, p, p.buffer[..f.start], Some(Locate(cfg, f.marker, index)));
  }

  lemma {:induction false} StripFollows(cfg: Config, p: Parser, s: Scan, rest: Bytes, f: Found)
    requires Follows(p, s, rest) && ScanAll(s, rest).ok
    requires FirstMarker(p.buffer) == Some(f)
    ensures f.start < f.end <= |p.buffer| && FoundAgrees(AtBuffer(p, s), p.buffer, f)
    ensures var q := StripOne(cfg, p, f);
            var t := ScanAll(AtBuffer(p, s), p.buffer[..f.end]);
            && Follows(q, t, RestAfter(p, f))
            && ScanAll(t, RestAfter(p, f)) == ScanAll(s, rest)
            && t.from == |TextOf(q.emitted)| && t.pending == []
  {
    hide ParseBody, FirstMarker, StripOne, TextOf;
    var g := AtBuffer(p, s);
    var n := |p.buffer| - |rest|;
    ScanSplit(g, p.buffer, n);
    SearchIsScan(g, p.buffer);
    AfterFound(g, p.buffer, f);
    ScanSplit(g, p.buffer, f.end);
    var q := StripOne(cfg, p, f);
    StripOneEmits(cfg, p, f);
    var t := ScanAll(g, p.buffer[..f.end]);
    assert q.buffer[..|q.buffer| - |RestAfter(p, f)|] == [];
    assert AtBuffer(q, t) == t;
  }

  lemma {:induction false} StripAllFollows(cfg: Config, p: Parser, s: Scan, rest: Bytes)
    requires Follows(p, s, rest) && ScanAll(s, rest).ok && Counted(cfg, p)
    ensures var q := StripAll(cfg, p);
            Follows(q, ScanAll(s, rest), []) && Counted(cfg, q)
    decreases |p.buffer|
  {
    hide ParseBody, FirstMarker;
    var f := FirstMarker(p.buffer);
    if f.Some? {
      StripFollows(cfg, p, s, rest, f.value);
      CountedStep(cfg, p, f.value);
      var t := ScanAll(AtBuffer(p, s), p.buffer[..f.value.end]);
      StripAllFollows(cfg, StripOne(cfg, p, f.value), t, RestAfter(p, f.value));
    } else {
      var g := AtBuffer(p, s);
      ScanSplit(g, p.buffer, |p.buffer| - |rest|);
      SearchIsScan(g, p.buffer);
      assert p.buffer[..|p.buffer|] == p.buffer && p.buffer[|p.buffer|..] == [];
    }
  }

  /** Holding back at the last unclosed start byte holds exactly the bracket the buffer ends in. */
  lemma {:induction false} HoldIsPending(y: Bytes, p: Bytes, limit: nat)
    requires EndsIn(y, p) && |p| <= limit
    ensures MarkerHold(y, limit) == |y| - |p|
  {
    var r := LastIndexOf(y, MARKER_START);
    if p == [] {
      if r.Some? {
        var j :| 0 <= j < |y[r.value..]| && y[r.value..][j] == MARKER_END;
      }
    } else {
      var n := |y| - |p|;
      assert y[n] == y[n..][0] == MARKER_START;
      assert forall i :: n < i < |y| ==> y[i] == y[n..][1..][i - n - 1];
    }
  }

  lemma {:induction false} ReadyFollows(cfg: Config, p: Parser, s: Scan, hold: nat)
    requires Follows(p, s, []) && s.ok && hold + |s.pending| <= |p.buffer|
    ensures Follows(EmitReady(cfg, p, hold), s, [])
  {
    hide ParseBody;
    if hold > 0 {
      var g := AtBuffer(p, s);
      assert p.buffer[..|p.buffer|] == p.buffer;
      DropFront(g, p.buffer, hold);
      var q := EmitReady(cfg, p, hold);
      EmitTextEmits(cfg, p.(buffer := p.buffer[hold..]), p.buffer[..hold], None);
      assert q.buffer[..|q.buffer|] == q.buffer;
      assert AtBuffer(q, s) == g.(text := g.text + p.buffer[..hold]);
    }
  }

  /** The scanner's bracket is at the end of the buffer. */
  lemma {:induction false} FollowsEndsIn(p: Parser, s: Scan)
    requires Follows(p, s, []) && s.ok
    ensures EndsIn(p.buffer, s.pending) && |s.pending| <= |p.buffer|
    ensures TextOf(p.emitted) + p.buffer == s.text + s.pending
  {
    hide ParseBody;
    assert p.buffer[..|p.buffer|] == p.buffer;
    PendingIsTail(AtBuffer(p, s), p.buffer);
    SearchIsScan(AtBuffer(p, s), p.buffer);
    if FirstMarker(p.buffer).Some? {
      var f := FirstMarker(p.buffer).value;
      AfterFound(AtBuffer(p, s), p.buffer, f);
      ScanSplit(AtBuffer(p, s), p.buffer, f.end);
    }
  }

  lemma {:induction false} OpFollows(cfg: Config, p: Parser, s: Scan, op: Op)
    requires Follows(p, s, []) && Counted(cfg, p) && ScanAll(s, if op.Chunk? then op.bytes else []).ok
    ensures var q := Apply(cfg, p, op);
            Follows(q, ScanAll(s, if op.Chunk? then op.bytes else []), []) && Counted(cfg, q)
  {
    hide ParseBody, FirstMarker;
    match op
    case Chunk(bytes) =>
      var r := p.(buffer := p.buffer + bytes);
      assert r.buffer[..|r.buffer| - |bytes|] == p.buffer[..|p.buffer|];
      StripAllFollows(cfg, r, s, bytes);
      var q := StripAll(cfg, r);
      FollowsEndsIn(q, ScanAll(s, bytes));
      HoldIsPending(q.buffer, ScanAll(s, bytes).pending, MAX_PENDING_MARKER);
      var hold := Min(LineHoldback(q.buffer), MarkerHold(q.buffer, MAX_PENDING_MARKER));
      ReadyFollows(cfg, q, ScanAll(s, bytes), hold);
      ReadyCounted(cfg, q, hold);
    case Quiet =>
      FollowsEndsIn(p, s);
      HoldIsPending(p.buffer, s.pending, |p.buffer|);
      ReadyFollows(cfg, p, s, MarkerHold(p.buffer, |p.buffer|));
      ReadyCounted(cfg, p, MarkerHold(p.buffer, |p.buffer|));
  }

  lemma {:induction false} ReadyCounted(cfg: Config, p: Parser, hold: nat)
    requires Counted(cfg, p) && hold <= |p.buffer|
    ensures Counted(cfg, EmitReady(cfg, p, hold))
  {
    if hold > 0 {
      EmitTextEmits(cfg, p.(buffer := p.buffer[hold..]), p.buffer[..hold], None);
    }
  }

  /** After any chunks and quiet moments, the parser is where the scanner is. */
  lemma {:induction false} RunFollows(cfg: Config, ops: seq<Op>, input: Bytes)
    requires input == Input(ops) && ScanAll(START, input).ok
    ensures Follows(Run(cfg, ops), ScanAll(START, input), []) && Counted(cfg, Run(cfg, ops))
    decreases |ops|
  {
    hide ParseBody, FirstMarker, Apply;
    if ops != [] {
      var front, last := ops[..|ops| - 1], ops[|ops| - 1];
      var more := if last.Chunk? then last.bytes else [];
      ScanAppend(START, Input(front), more);
      ScanGrows(ScanAll(START, Input(front)), more);
      RunFollows(cfg, front, Input(front));
      OpFollows(cfg, Run(cfg, front), ScanAll(START, Input(front)), last);
    }
  }
}
