/** Which output streams are stripped alike however the pipe cuts them and wherever the program goes quiet. */
module MarkerCuts {
  import opened Common
  import opened Text
  import opened Markers
  import opened MarkerScan
  import opened MarkerParser
  import opened MarkerFollows

  // ---- the uncut stream -----------------------------------------------------------------------

  /** The text around the markers. */
  function StripText(s: Bytes): Bytes
    decreases |s|
  {
    var f := FirstMarker(s);
    if f.None? then s else s[..f.value.start] + StripText(s[f.value.end..])
  }

  function StripMarkers(s: Bytes): seq<Marker>
    decreases |s|
  {
    var f := FirstMarker(s);
    if f.None? then [] else [f.value.marker] + StripMarkers(s[f.value.end..])
  }

  /** What is behind the last marker. */
  function Left(s: Bytes): Bytes
    decreases |s|
  {
    var f := FirstMarker(s);
    if f.None? then s else Left(s[f.value.end..])
  }

  predicate OneBreak(t: Bytes) {
    forall i, j :: 0 <= i < j < |t| ==> t[i] != NEWLINE || t[j] != NEWLINE
  }

  /**
   * A marker that no cut tears: no other start byte in it, and either short
   * enough to be held half arrived or held by its own lines.
   */
  predicate Sturdy(m: Bytes)
    requires m != []
  {
    MARKER_START !in m[1..] && (|m| <= MAX_PENDING_MARKER + 1 || OneBreak(m[..|m| - 1]))
  }

  /** Every marker in the stream is sturdy. */
  predicate Robust(s: Bytes)
    decreases |s|
  {
    var f := FirstMarker(s);
    f.Some? ==> Sturdy(s[f.value.start..f.value.end]) && Robust(s[f.value.end..])
  }

  // ---- the search -------------------------------------------------------------------------------

  /** One step of the search, its three outcomes apart. */
  lemma {:induction false} FirstStep(s: Bytes)
    ensures s == [] ==> FirstMarker(s) == None
    ensures s != [] && !(Prefix() <= s) ==> FirstMarker(s) == Later(FirstMarker(s[1..]), 1)
    ensures s != [] && Prefix() <= s ==>
              var end := IndexOf(s[12..], MARKER_END);
              FirstMarker(s) == if end.None? then None
                                else if ParseBody(s[12..12 + end.value]).Some? then
                                  Some(Found(0, 12 + end.value + 1, ParseBody(s[12..12 + end.value]).value))
                                else Later(FirstMarker(s[1..]), 1)
  {
    hide ParseBody, Prefix;
    PrefixLength();
  }

  lemma {:induction false} PrefixLength()
    ensures |Prefix()| == 12 && Prefix()[0] == MARKER_START
    ensures forall i :: 0 <= i < 12 ==> Prefix()[i] != MARKER_END
  {}

  /** A prefix whose end is missing hides nothing: there is no end byte behind it. */
  lemma {:induction false} OpenPrefix(s: Bytes)
    requires Prefix() <= s && IndexOf(s[12..], MARKER_END).None?
    ensures NoEnd(s) && NoEnd(s[1..])
  {
    hide Prefix;
    PrefixLength();
    assert s[..12] == Prefix();
    forall i | 0 <= i < |s|
      ensures s[i] != MARKER_END
    {
      if i < 12 {
        assert s[i] == s[..12][i];
      } else {
        assert s[i] == s[12..][i - 12];
      }
    }
  }

  /** What the first marker looks like. */
  lemma {:induction false} MarkerShape(s: Bytes)
    requires FirstMarker(s).Some?
    ensures var f := FirstMarker(s).value;
            && f.start + 13 <= f.end <= |s| && s[f.start] == MARKER_START && s[f.end - 1] == MARKER_END
            && forall j :: f.start <= j < f.end - 1 ==> s[j] != MARKER_END
    decreases |s|
  {
    hide FirstMarker, ParseBody, Prefix;
    FirstStep(s);
    var f := FirstMarker(s).value;
    PrefixLength();
    if f.start == 0 && Prefix() <= s && f.end == 12 + IndexOf(s[12..], MARKER_END).value + 1 {
      assert s[..12] == Prefix();
      assert forall j :: 0 <= j < 12 ==> s[j] == s[..12][j];
      assert forall j :: 12 <= j < f.end - 1 ==> s[j] == s[12..][j - 12];
    } else {
      MarkerShape(s[1..]);
      assert forall j :: 1 <= j < |s| ==> s[j] == s[1..][j - 1];
    }
  }

  lemma {:induction false} PrefixUpto(s: Bytes, n: nat)
    requires 12 <= n <= |s|
    ensures Prefix() <= s[..n] <==> Prefix() <= s
  {
    hide Prefix;
    PrefixLength();
    assert s[..n][..12] == s[..12];
  }

  /** A marker that is all there is found, whatever is cut off behind it. */
  lemma {:induction false} FirstUpto(s: Bytes, n: nat)
    requires FirstMarker(s).Some? && FirstMarker(s).value.end <= n <= |s|
    ensures FirstMarker(s[..n]) == FirstMarker(s)
    decreases |s|
  {
    hide FirstMarker, ParseBody, Prefix;
    MarkerShape(s);
    PrefixUpto(s, n);
    FirstStep(s);
    FirstStep(s[..n]);
    if Prefix() <= s {
      BodyUpto(s, n, FirstMarker(s).value.end - 1);
      if ParseBody(s[12..12 + IndexOf(s[12..], MARKER_END).value]).None? {
        FirstUpto(s[1..], n - 1);
        assert s[..n][1..] == s[1..][..n - 1];
      }
    } else {
      FirstUpto(s[1..], n - 1);
      assert s[..n][1..] == s[1..][..n - 1];
    }
  }

  /** The body behind a prefix, while an end byte for it is left. */
  lemma {:induction false} BodyUpto(s: Bytes, n: nat, k: nat)
    requires 12 <= k < n <= |s| && s[k] == MARKER_END
    ensures var end := IndexOf(s[12..], MARKER_END);
            && IndexOf(s[..n][12..], MARKER_END) == end && end.Some? && 12 + end.value < n
            && s[..n][12..12 + end.value] == s[12..12 + end.value]
  {
    assert s[..n][12..] == s[12..][..n - 12];
    assert s[k] == s[12..][k - 12];
    IndexUpto(s[12..], n - 12);
  }

  lemma {:induction false} IndexUpto(t: Bytes, n: nat)
    requires n <= |t| && exists j :: 0 <= j < n && t[j] == MARKER_END
    ensures IndexOf(t, MARKER_END).Some? && IndexOf(t, MARKER_END).value < n
    ensures IndexOf(t[..n], MARKER_END) == IndexOf(t, MARKER_END)
  {
    var j :| 0 <= j < n && t[j] == MARKER_END;
    assert t[..n][j] == MARKER_END;
    var a, b := IndexOf(t, MARKER_END).value, IndexOf(t[..n], MARKER_END).value;
    assert t[..n][b] == t[b];
    assert a < n && t[..n][a] == t[a];
  }

  /** What is found at the front stays found whatever follows. */
  lemma {:induction false} FirstStays(a: Bytes, b: Bytes)
    requires FirstMarker(a).Some?
    ensures FirstMarker(a + b) == FirstMarker(a)
    decreases |a|
  {
    hide FirstMarker, ParseBody, Prefix;
    var s := a + b;
    MarkerShape(a);
    assert s[..|a|] == a && s[1..] == a[1..] + b;
    PrefixUpto(s, |a|);
    FirstStep(a);
    FirstStep(s);
    if Prefix() <= a {
      BodyUpto(s, |a|, FirstMarker(a).value.end - 1);
      if ParseBody(a[12..12 + IndexOf(a[12..], MARKER_END).value]).None? {
        FirstStays(a[1..], b);
      }
    } else {
      FirstStays(a[1..], b);
    }
  }

  /** A marker that is not all there is not found. */
  lemma {:induction false} FirstTorn(s: Bytes, n: nat)
    requires FirstMarker(s).Some? && n < FirstMarker(s).value.end && n <= |s|
    ensures FirstMarker(s[..n]) == None
  {
    hide FirstMarker;
    if FirstMarker(s[..n]).Some? {
      FirstStays(s[..n], s[n..]);
      assert s[..n] + s[n..] == s;
      MarkerShape(s[..n]);
    }
  }

  /** Text before the first marker may go: the search finds the same. */
  lemma {:induction false} FirstBehind(s: Bytes, h: nat)
    requires h <= |s| && (FirstMarker(s).Some? ==> h <= FirstMarker(s).value.start)
    ensures FirstMarker(s[h..]).Some? <==> FirstMarker(s).Some?
    ensures FirstMarker(s) == Later(FirstMarker(s[h..]), h)
    decreases |s|
  {
    hide FirstMarker, ParseBody, Prefix;
    if h == 0 {
      assert s[0..] == s;
    } else {
      FirstStep(s);
      if Prefix() <= s && IndexOf(s[12..], MARKER_END).None? {
        OpenPrefix(s);
        PrefixLength();
        NoMarkerWhileOpen(s[1..]);
      }
      assert FirstMarker(s) == Later(FirstMarker(s[1..]), 1);
      FirstBehind(s[1..], h - 1);
      assert s[1..][h - 1..] == s[h..];
    }
  }

  // ---- what the parser does to the text -------------------------------------------------------------

  /** Stripping what is in the buffer, in the parser and on the bytes. */
  lemma {:induction false} StripAllStrips(cfg: Config, p: Parser)
    ensures var q := StripAll(cfg, p);
            && q.buffer == Left(p.buffer) && FirstMarker(q.buffer) == None
            && TextOf(q.emitted) + q.buffer == TextOf(p.emitted) + StripText(p.buffer)
            && (Counted(cfg, p) ==> Counted(cfg, q))
    decreases |p.buffer|
  {
    hide FirstMarker, StripOne, TextOf, Counted;
    var f := FirstMarker(p.buffer);
    if f.Some? {
      StripOneEmits(cfg, p, f.value);
      var r := StripOne(cfg, p, f.value);
      StripAllStrips(cfg, r);
      if Counted(cfg, p) {
        CountedStep(cfg, p, f.value);
      }
      assert TextOf(p.emitted) + p.buffer[..f.value.start] + StripText(r.buffer)
          == TextOf(p.emitted) + (p.buffer[..f.value.start] + StripText(r.buffer));
    }
  }

  lemma {:induction false} ReadyEmits(cfg: Config, p: Parser, h: nat)
    requires h <= |p.buffer|
    ensures var q := EmitReady(cfg, p, h);
            && TextOf(q.emitted) == TextOf(p.emitted) + p.buffer[..h]
            && q.buffer == p.buffer[h..] && q.stripped == p.stripped
            && (Counted(cfg, p) ==> Counted(cfg, q))
  {
    hide TextOf, EmitText, Counted;
    if h > 0 {
      EmitTextEmits(cfg, p.(buffer := p.buffer[h..]), p.buffer[..h], None);
    } else {
      assert TextOf(p.emitted) + [] == TextOf(p.emitted);
    }
    if Counted(cfg, p) {
      ReadyCounted(cfg, p, h);
    }
  }

  lemma {:induction false} FlushEmits(cfg: Config, p: Parser)
    ensures var q := Flush(cfg, p);
            TextOf(q.emitted) == TextOf(p.emitted) + p.buffer && q.stripped == p.stripped && q.locations == p.locations
  {
    hide TextOf, EmitText;
    EmitTextEmits(cfg, p.(buffer := []), p.buffer, None);
  }

  /** What a push keeps of what is left after stripping; what a quiet moment then keeps of it. */
  function Held(x: Bytes, quiet: bool): Bytes {
    var y := x[Min(LineHoldback(x), MarkerHold(x, MAX_PENDING_MARKER))..];
    if quiet then y[MarkerHold(y, |y|)..] else y
  }

  lemma {:induction false} PushStrips(cfg: Config, p: Parser, chunk: Bytes)
    ensures var q := Push(cfg, p, chunk);
            && q.buffer == Held(Left(p.buffer + chunk), false)
            && TextOf(q.emitted) + q.buffer == TextOf(p.emitted) + StripText(p.buffer + chunk)
            && (Counted(cfg, p) ==> Counted(cfg, q))
  {
    hide TextOf, StripAll, EmitReady, LineHoldback, MarkerHold, Left, StripText, FirstMarker, Counted;
    var r := p.(buffer := p.buffer + chunk);
    assert Counted(cfg, p) ==> Counted(cfg, r) by { SameCounts(cfg, p, r); }
    StripAllStrips(cfg, r);
    var q := StripAll(cfg, r);
    var h := Min(LineHoldback(q.buffer), MarkerHold(q.buffer, MAX_PENDING_MARKER));
    ReadyEmits(cfg, q, h);
    assert TextOf(q.emitted) + q.buffer[..h] + q.buffer[h..] == TextOf(q.emitted) + q.buffer;
  }

  lemma {:induction false} SameCounts(cfg: Config, p: Parser, q: Parser)
    requires q == p.(buffer := q.buffer)
    ensures Counted(cfg, p) ==> Counted(cfg, q)
  {}

  lemma {:induction false} ReleaseStrips(cfg: Config, p: Parser)
    ensures var q := Release(cfg, p);
            && q.buffer == p.buffer[MarkerHold(p.buffer, |p.buffer|)..]
            && TextOf(q.emitted) + q.buffer == TextOf(p.emitted) + p.buffer
            && (Counted(cfg, p) ==> Counted(cfg, q))
  {
    hide TextOf, EmitReady, MarkerHold, Counted;
    var h := MarkerHold(p.buffer, |p.buffer|);
    ReadyEmits(cfg, p, h);
    assert TextOf(p.emitted) + p.buffer[..h] + p.buffer[h..] == TextOf(p.emitted) + p.buffer;
  }

  lemma {:induction false} RunCounts(cfg: Config, ops: seq<Op>)
    ensures Counted(cfg, Run(cfg, ops))
    decreases |ops|
  {
    hide Counted, Push, Release;
    if ops == [] {
      NothingCounted(cfg);
    } else {
      var p, last := Run(cfg, ops[..|ops| - 1]), ops[|ops| - 1];
      RunCounts(cfg, ops[..|ops| - 1]);
      if last.Chunk? {
        PushStrips(cfg, p, last.bytes);
      } else {
        ReleaseStrips(cfg, p);
      }
    }
  }

  lemma {:induction false} NothingCounted(cfg: Config)
    ensures Counted(cfg, FRESH)
  {}

  // ---- no cut tears a robust stream -----------------------------------------------------------------

  /** What has been emitted and stripped, with what the rest of the stream will give, is what the whole gives. */
  ghost predicate Ahead(p: Parser, rest: Bytes, whole: Bytes) {
    && TextOf(p.emitted) + StripText(p.buffer + rest) == StripText(whole)
    && p.stripped + StripMarkers(p.buffer + rest) == StripMarkers(whole)
    && Robust(p.buffer + rest)
  }

  lemma {:induction false} StripOneAhead(cfg: Config, p: Parser, rest: Bytes, whole: Bytes, f: Found)
    requires Ahead(p, rest, whole) && FirstMarker(p.buffer) == Some(f)
    ensures Ahead(StripOne(cfg, p, f), rest, whole)
  {
    hide FirstMarker, StripOne, TextOf, Sturdy;
    var all := p.buffer + rest;
    FirstStays(p.buffer, rest);
    StripOneEmits(cfg, p, f);
    var q := StripOne(cfg, p, f);
    assert all[f.end..] == q.buffer + rest && all[..f.start] == p.buffer[..f.start];
    assert TextOf(p.emitted) + (p.buffer[..f.start] + StripText(q.buffer + rest))
        == TextOf(p.emitted) + p.buffer[..f.start] + StripText(q.buffer + rest);
    assert p.stripped + ([f.marker] + StripMarkers(q.buffer + rest)) == p.stripped + [f.marker] + StripMarkers(q.buffer + rest);
  }

  lemma {:induction false} StripAllAhead(cfg: Config, p: Parser, rest: Bytes, whole: Bytes)
    requires Ahead(p, rest, whole)
    ensures Ahead(StripAll(cfg, p), rest, whole)
    decreases |p.buffer|
  {
    hide FirstMarker, StripOne, Ahead;
    var f := FirstMarker(p.buffer);
    if f.Some? {
      StripOneAhead(cfg, p, rest, whole, f.value);
      StripOneEmits(cfg, p, f.value);
      StripAllAhead(cfg, StripOne(cfg, p, f.value), rest, whole);
    }
  }

  /** The program holds back no less than this where nothing must be torn. */
  predicate Careful(x: Bytes, h: nat) {
    || h <= MarkerHold(x, |x|)
    || (h <= LineHoldback(x) && h <= MarkerHold(x, MAX_PENDING_MARKER))
  }

  lemma {:induction false} LastStart(x: Bytes, i: nat, limit: nat)
    requires i < |x| && x[i] == MARKER_START && NoEnd(x[i..]) && NoStart(x[i + 1..])
    ensures MarkerHold(x, limit) == if |x| - i <= limit then i else |x|
  {
    assert forall j :: i < j < |x| ==> x[j] == x[i + 1..][j - i - 1];
    var start := LastIndexOf(x, MARKER_START).value;
    assert start == i;
  }

  lemma {:induction false} FewBreaks(x: Bytes, i: nat)
    requires i <= |x| && OneBreak(x[i..])
    ensures LineHoldback(x) <= i
  {
    BreaksAhead(x, i);
    var last := LastIndexOf(x, NEWLINE);
    if last.Some? {
      var previous := LastIndexOf(x[..last.value], NEWLINE);
      assert previous.Some? ==> x[..last.value][previous.value] == x[previous.value];
    }
  }

  lemma {:induction false} BreaksAhead(x: Bytes, i: nat)
    requires i <= |x| && OneBreak(x[i..])
    ensures forall a, b :: i <= a < b < |x| ==> x[a] != NEWLINE || x[b] != NEWLINE
  {
    forall a, b | i <= a < b < |x|
      ensures x[a] != NEWLINE || x[b] != NEWLINE
    {
      assert x[a] == x[i..][a - i] && x[b] == x[i..][b - i];
    }
  }

  /** The first marker of what is ahead is held from its start. */
  lemma {:induction false} HeldWhole(x: Bytes, rest: Bytes, h: nat)
    requires FirstMarker(x) == None && Robust(x + rest) && Careful(x, h) && FirstMarker(x + rest).Some?
    ensures h <= FirstMarker(x + rest).value.start
  {
    hide FirstMarker, MarkerHold, LineHoldback;
    var all := x + rest;
    var f := FirstMarker(all).value;
    MarkerShape(all);
    assert all[..|x|] == x;
    if f.end <= |x| {
      FirstUpto(all, |x|);
    }
    MarkerHoldWithin(x);
    if f.start < |x| {
      var m := all[f.start..f.end];
      assert forall j :: f.start < j < f.end ==> all[j] == m[1..][j - f.start - 1];
      assert forall j :: f.start <= j < |x| ==> x[j] == all[j];
      LastStart(x, f.start, |x|);
      LastStart(x, f.start, MAX_PENDING_MARKER);
      if |x| - f.start > MAX_PENDING_MARKER {
        assert |m| > MAX_PENDING_MARKER + 1;
        assert forall j :: f.start <= j < |x| ==> x[j] == m[..|m| - 1][j - f.start];
        FewBreaks(x, f.start);
      }
    }
  }

  lemma {:induction false} MarkerHoldWithin(x: Bytes)
    ensures MarkerHold(x, |x|) <= |x| && LineHoldback(x) <= |x|
  {}

  /** Text before the first marker, taken off the front. */
  lemma {:induction false} DropText(all: Bytes, h: nat)
    requires h <= |all| && (FirstMarker(all).Some? ==> h <= FirstMarker(all).value.start)
    ensures StripText(all) == all[..h] + StripText(all[h..])
    ensures StripMarkers(all) == StripMarkers(all[h..])
    ensures Robust(all) ==> Robust(all[h..])
  {
    hide FirstMarker, Sturdy;
    FirstBehind(all, h);
    if FirstMarker(all).Some? {
      var f := FirstMarker(all).value;
      var tail := all[h..];
      assert tail[f.end - h..] == all[f.end..] && tail[f.start - h..f.end - h] == all[f.start..f.end];
      Front(all, h, f.start, StripText(all[f.end..]));
    }
  }

  lemma {:induction false} Front(all: Bytes, h: nat, i: nat, rest: Bytes)
    requires h <= i <= |all|
    ensures all[..i] + rest == all[..h] + (all[h..][..i - h] + rest)
  {}

  /** Text that nothing ahead needs can go out. */
  lemma {:induction false} DropAhead(x: Bytes, rest: Bytes, h: nat)
    requires FirstMarker(x) == None && Robust(x + rest) && h <= |x| && Careful(x, h)
    ensures StripText(x + rest) == x[..h] + StripText(x[h..] + rest)
    ensures StripMarkers(x + rest) == StripMarkers(x[h..] + rest)
    ensures Robust(x[h..] + rest) && FirstMarker(x[h..]) == None
  {
    hide FirstMarker, Careful, StripText, StripMarkers, Robust;
    var all := x + rest;
    if FirstMarker(all).Some? {
      HeldWhole(x, rest, h);
    }
    DropText(all, h);
    FirstBehind(x, h);
    assert all[h..] == x[h..] + rest && all[..h] == x[..h];
  }

  lemma {:induction false} ReadyAhead(cfg: Config, p: Parser, rest: Bytes, whole: Bytes, h: nat)
    requires Ahead(p, rest, whole) && FirstMarker(p.buffer) == None && h <= |p.buffer| && Careful(p.buffer, h)
    ensures Ahead(EmitReady(cfg, p, h), rest, whole) && FirstMarker(EmitReady(cfg, p, h).buffer) == None
  {
    hide FirstMarker, EmitReady, TextOf, Careful, StripText, StripMarkers, Robust;
    DropAhead(p.buffer, rest, h);
    ReadyEmits(cfg, p, h);
    var tail := StripText(p.buffer[h..] + rest);
    assert TextOf(p.emitted) + p.buffer[..h] + tail == TextOf(p.emitted) + (p.buffer[..h] + tail);
  }

  lemma {:induction false} PushAhead(cfg: Config, p: Parser, chunk: Bytes, rest: Bytes, whole: Bytes)
    requires Ahead(p, chunk + rest, whole)
    ensures Ahead(Push(cfg, p, chunk), rest, whole) && FirstMarker(Push(cfg, p, chunk).buffer) == None
  {
    hide FirstMarker, StripAll, EmitReady, MarkerHold, LineHoldback, TextOf, StripText, StripMarkers, Robust;
    var r := p.(buffer := p.buffer + chunk);
    assert p.buffer + (chunk + rest) == r.buffer + rest;
    StripAllAhead(cfg, r, rest, whole);
    StripAllStrips(cfg, r);
    var q := StripAll(cfg, r);
    ReadyAhead(cfg, q, rest, whole, Min(LineHoldback(q.buffer), MarkerHold(q.buffer, MAX_PENDING_MARKER)));
  }

  lemma {:induction false} RunAhead(cfg: Config, ops: seq<Op>, rest: Bytes)
    requires Robust(Input(ops) + rest)
    ensures Ahead(Run(cfg, ops), rest, Input(ops) + rest) && FirstMarker(Run(cfg, ops).buffer) == None
    decreases |ops|
  {
    hide FirstMarker, Push, EmitReady, MarkerHold, Robust;
    if ops == [] {
      NothingAhead(rest);
    } else {
      hide Ahead;
      var front, last := ops[..|ops| - 1], ops[|ops| - 1];
      var p := Run(cfg, front);
      if last.Chunk? {
        assert Input(ops) + rest == Input(front) + (last.bytes + rest);
        RunAhead(cfg, front, last.bytes + rest);
        PushAhead(cfg, p, last.bytes, rest, Input(ops) + rest);
      } else {
        assert Input(ops) == Input(front) + [] == Input(front);
        RunAhead(cfg, front, rest);
        ReadyAhead(cfg, p, rest, Input(ops) + rest, MarkerHold(p.buffer, |p.buffer|));
      }
    }
  }

  lemma {:induction false} NothingAhead(rest: Bytes)
    requires Robust([] + rest)
    ensures Ahead(FRESH, rest, [] + rest) && FirstMarker(FRESH.buffer) == None
  {
    hide StripText, StripMarkers, Robust;
    assert [] + rest == rest;
    assert [] + StripText(rest) == StripText(rest) && [] + StripMarkers(rest) == StripMarkers(rest);
  }

  lemma {:induction false} RobustOutput(cfg: Config, ops: seq<Op>)
    requires Robust(Input(ops))
    ensures TextOf(Output(cfg, ops).emitted) == StripText(Input(ops)) && Output(cfg, ops).stripped == StripMarkers(Input(ops))
  {
    hide FirstMarker, TextOf, Robust, Run, Flush;
    assert Input(ops) + [] == Input(ops);
    RunAhead(cfg, ops, []);
    var p := Run(cfg, ops);
    assert p.buffer + [] == p.buffer;
    FlushEmits(cfg, p);
    assert StripText(p.buffer) == p.buffer && p.stripped + [] == p.stripped;
  }

  // ---- and some cut tears every other ------------------------------------------------------------------

  /** Behind an end byte, no less text is left with what is before it than without. */
  lemma {:induction false} TailStrips(s: Bytes, d: nat)
    requires 0 < d <= |s| && s[d - 1] == MARKER_END
    ensures |StripText(s)| >= |StripText(s[d..])|
    decreases |s|
  {
    hide FirstMarker;
    var first := FirstMarker(s);
    if first.None? {
      FirstBehind(s, d);
    } else {
      var f := first.value;
      MarkerShape(s);
      if f.end == d {
      } else if f.end < d {
        TailStrips(s[f.end..], d - f.end);
        assert s[f.end..][d - f.end..] == s[d..];
      } else {
        assert d <= f.start;
        FirstBehind(s, d);
        assert s[d..][f.end - d..] == s[f.end..];
      }
    }
  }

  /** The cut that lets the marker's first bytes go. */
  lemma {:induction false} TornText(s: Bytes, q: nat)
    requires FirstMarker(s).Some? && FirstMarker(s).value.start < q < FirstMarker(s).value.end && q <= |s|
    ensures q + |StripText(s[q..])| > |StripText(s)|
  {
    hide FirstMarker;
    var f := FirstMarker(s).value;
    MarkerShape(s);
    TailStrips(s[q..], f.end - q);
    assert s[q..][f.end - q..] == s[f.end..];
  }

  /** A second start byte has just arrived, and the program goes quiet: all before it goes out. */
  lemma {:induction false} HeldStart(x: Bytes)
    requires x != [] && x[|x| - 1] == MARKER_START
    ensures Held(x, true) == [MARKER_START]
  {
    hide MarkerHold, LineHoldback;
    var n := |x| - 1;
    LastStart(x, n, MAX_PENDING_MARKER);
    var h := Min(LineHoldback(x), MarkerHold(x, MAX_PENDING_MARKER));
    var y := x[h..];
    assert y[|y| - 1] == x[n];
    LastStart(y, |y| - 1, |y|);
  }

  /** The marker but for its end, too long to be held and with two lines of its own: the first goes out. */
  lemma {:induction false} HeldLines(x: Bytes, i: nat)
    requires i < |x| && x[i] == MARKER_START && NoEnd(x[i..]) && NoStart(x[i + 1..])
    requires |x| - i > MAX_PENDING_MARKER && !OneBreak(x[i..])
    ensures exists q :: i < q <= |x| && Held(x, false) == x[q..]
  {
    hide MarkerHold;
    LastStart(x, i, MAX_PENDING_MARKER);
    var a, b :| 0 <= a < b < |x[i..]| && x[i..][a] == NEWLINE && x[i..][b] == NEWLINE;
    assert x[i + a] == NEWLINE && x[i + b] == NEWLINE;
    var last := LastIndexOf(x, NEWLINE).value;
    assert last >= i + b;
    assert x[..last][i + a] == NEWLINE;
    assert LineHoldback(x) > i;
    assert Held(x, false) == x[LineHoldback(x)..];
  }

  /** More comes out of the stream cut at `n`, with or without a quiet moment there. */
  ghost predicate Tears(s: Bytes, n: nat, quiet: bool)
    requires n <= |s|
  {
    var h := Held(Left(s[..n]), quiet);
    |StripText(s[..n])| + |StripText(h + s[n..])| > |StripText(s)| + |h|
  }

  /** It does if what is held begins inside the first marker. */
  lemma {:induction false} HeldPart(s: Bytes, n: nat, quiet: bool, q: nat)
    requires FirstMarker(s).Some?
    requires var f := FirstMarker(s).value; f.start < q <= n < f.end <= |s| && Held(s[..n], quiet) == s[..n][q..]
    ensures Tears(s, n, quiet)
  {
    hide FirstMarker, Held;
    FirstTorn(s, n);
    assert s[..n][q..] + s[n..] == s[q..];
    TornText(s, q);
  }

  lemma {:induction false} TearsAtStart(s: Bytes, r: nat)
    requires FirstMarker(s).Some?
    requires var f := FirstMarker(s).value; f.start < r < f.end - 1 && f.end <= |s| && s[r] == MARKER_START
    ensures Tears(s, r + 1, true)
  {
    hide FirstMarker, Held, Tears;
    var x := s[..r + 1];
    HeldStart(x);
    assert x[r..] == [MARKER_START];
    HeldPart(s, r + 1, true, r);
  }

  lemma {:induction false} TearsAtLines(s: Bytes)
    requires FirstMarker(s).Some?
    requires var f := FirstMarker(s).value;
             f.start + 1 < f.end <= |s| && f.end - f.start > MAX_PENDING_MARKER + 1
             && MARKER_START !in s[f.start + 1..f.end] && !OneBreak(s[f.start..f.end - 1])
    ensures Tears(s, FirstMarker(s).value.end - 1, false)
  {
    hide FirstMarker, Held, Tears, OneBreak;
    var f := FirstMarker(s).value;
    MarkerShape(s);
    var x := s[..f.end - 1];
    assert x[f.start..] == s[f.start..f.end - 1];
    assert forall k :: f.start < k < f.end ==> s[k] == s[f.start + 1..f.end][k - f.start - 1];
    HeldLines(x, f.start);
    var q :| f.start < q <= |x| && Held(x, false) == x[q..];
    HeldPart(s, f.end - 1, false, q);
  }

  lemma {:induction false} TearsFirst(s: Bytes) returns (n: nat, quiet: bool)
    requires FirstMarker(s).Some?
    requires var f := FirstMarker(s).value; f.start < f.end <= |s| && !Sturdy(s[f.start..f.end])
    ensures n <= |s| && Tears(s, n, quiet)
  {
    hide FirstMarker, Tears, OneBreak;
    var f := FirstMarker(s).value;
    MarkerShape(s);
    var m := s[f.start..f.end];
    assert m[1..] == s[f.start + 1..f.end] && m[..|m| - 1] == s[f.start..f.end - 1];
    if MARKER_START in m[1..] {
      var j :| 0 <= j < |m[1..]| && m[1..][j] == MARKER_START;
      var r := f.start + 1 + j;
      assert s[r] == MARKER_START;
      TearsAtStart(s, r);
      n, quiet := r + 1, true;
    } else {
      TearsAtLines(s);
      n, quiet := f.end - 1, false;
    }
  }

  /** Where to cut a stream that is not robust so that more of it comes out. */
  lemma {:induction false} TearingCut(s: Bytes) returns (n: nat, quiet: bool)
    requires !Robust(s)
    ensures n <= |s| && Tears(s, n, quiet)
    decreases |s|
  {
    hide FirstMarker, Held, Sturdy;
    var f := FirstMarker(s).value;
    MarkerShape(s);
    if Sturdy(s[f.start..f.end]) {
      var m: nat;
      m, quiet := TearingCut(s[f.end..]);
      n := f.end + m;
      FirstUpto(s, n);
      assert s[..n][f.end..] == s[f.end..][..m] && s[n..] == s[f.end..][m..] && s[..n][..f.start] == s[..f.start];
    } else {
      n, quiet := TearsFirst(s);
    }
  }

  /** The operations that cut a stream there. */
  function CutAt(s: Bytes, n: nat, quiet: bool): seq<Op>
    requires n <= |s|
  {
    [Chunk(s[..n])] + (if quiet then [Quiet] else []) + [Chunk(s[n..])]
  }

  lemma {:induction false} CutInput(s: Bytes, n: nat, quiet: bool)
    requires n <= |s|
    ensures Input(CutAt(s, n, quiet)) == s
  {
    var ops := CutAt(s, n, quiet);
    var front := ops[..|ops| - 1];
    assert Input(front) == s[..n] by {
      var one := [Chunk(s[..n])];
      assert one[..0] == [] && Input([]) + s[..n] == s[..n];
      assert Input(one) == s[..n];
      if quiet {
        assert front[..1] == one && Input(one) + [] == s[..n];
      } else {
        assert front == one;
      }
    }
    assert s[..n] + s[n..] == s;
  }

  /** What is held after the first chunk, and perhaps a quiet moment. */
  lemma {:induction false} FirstChunk(cfg: Config, a: Bytes, quiet: bool)
    ensures var p := Run(cfg, [Chunk(a)] + (if quiet then [Quiet] else []));
            p.buffer == Held(Left(a), quiet) && TextOf(p.emitted) + p.buffer == StripText(a)
  {
    hide Push, Release, TextOf, StripText, Left, MarkerHold, LineHoldback;
    var one := [Chunk(a)];
    assert one[..0] == [] && Run(cfg, []) == FRESH;
    var q := Run(cfg, one);
    assert [] + a == a;
    PushStrips(cfg, FRESH, a);
    NoText();
    assert [] + StripText(a) == StripText(a);
    if quiet {
      var two := one + [Quiet];
      assert two[..1] == one;
      ReleaseStrips(cfg, q);
    } else {
      assert one + [] == one;
    }
  }

  lemma {:induction false} NoText()
    ensures TextOf([]) == []
  {}

  lemma {:induction false} CutOutput(cfg: Config, s: Bytes, n: nat, quiet: bool)
    requires n <= |s|
    ensures var h := Held(Left(s[..n]), quiet);
            |TextOf(Output(cfg, CutAt(s, n, quiet)).emitted)| + |h| == |StripText(s[..n])| + |StripText(h + s[n..])|
  {
    hide Push, Flush, TextOf, StripText, Left, Held;
    var front := [Chunk(s[..n])] + (if quiet then [Quiet] else []);
    var ops := CutAt(s, n, quiet);
    assert ops == front + [Chunk(s[n..])] && ops[..|ops| - 1] == front;
    FirstChunk(cfg, s[..n], quiet);
    var p := Run(cfg, front);
    PushStrips(cfg, p, s[n..]);
    FlushEmits(cfg, Push(cfg, p, s[n..]));
  }

  // ---- exactly which -----------------------------------------------------------------------------------

  /** The same text, the same markers, the same locations. */
  predicate SameOutput(a: Parser, b: Parser) {
    TextOf(a.emitted) == TextOf(b.emitted) && a.stripped == b.stripped && a.locations == b.locations
  }

  lemma {:induction false} UncutOutput(cfg: Config, s: Bytes)
    ensures TextOf(Output(cfg, [Chunk(s)]).emitted) == StripText(s)
  {
    hide Push, Flush, TextOf, StripText, Left, Held;
    FirstChunk(cfg, s, false);
    assert [Chunk(s)] + [] == [Chunk(s)];
    FlushEmits(cfg, Run(cfg, [Chunk(s)]));
  }

  lemma {:induction false} InputOfOne(s: Bytes)
    ensures Input([Chunk(s)]) == s
  {
    var one := [Chunk(s)];
    assert one[..0] == [] && Input([]) == [];
    assert [] + s == s;
  }

  lemma {:induction false} LocationsFollow(cfg: Config, ops1: seq<Op>, ops2: seq<Op>)
    requires Output(cfg, ops1).stripped == Output(cfg, ops2).stripped
    ensures Output(cfg, ops1).locations == Output(cfg, ops2).locations
  {
    hide LocationAt, CountOf, Occurrences, Run, Flush;
    RunCounts(cfg, ops1);
    RunCounts(cfg, ops2);
    FlushEmits(cfg, Run(cfg, ops1));
    FlushEmits(cfg, Run(cfg, ops2));
  }

  /**
   * Every way to cut a stream, with quiet moments anywhere, gives the text,
   * markers and locations of the uncut stream exactly when each of its markers
   * has no second start byte and is either at most 4096 bytes before its end
   * byte or has at most one newline.
   */
  lemma {:induction false} CutsStripAlikeIff(cfg: Config, stream: Bytes)
    ensures (forall ops :: Input(ops) == stream ==> SameOutput(Output(cfg, ops), Output(cfg, [Chunk(stream)]))) <==> Robust(stream)
  {
    hide Output, TextOf, Robust, StripText, Left, Held, CutAt;
    InputOfOne(stream);
    if Robust(stream) {
      RobustOutput(cfg, [Chunk(stream)]);
      forall ops | Input(ops) == stream
        ensures SameOutput(Output(cfg, ops), Output(cfg, [Chunk(stream)]))
      {
        RobustOutput(cfg, ops);
        LocationsFollow(cfg, ops, [Chunk(stream)]);
      }
    } else {
      var n, quiet := TearingCut(stream);
      var ops := CutAt(stream, n, quiet);
      CutInput(stream, n, quiet);
      CutOutput(cfg, stream, n, quiet);
      UncutOutput(cfg, stream);
      assert !SameOutput(Output(cfg, ops), Output(cfg, [Chunk(stream)]));
    }
  }

  /** Streams whose start bytes are all closed in time are among them. */
  lemma {:induction false} WellBracketedIsRobust(s: Bytes)
    requires WellBracketed(s)
    ensures Robust(s)
    decreases |s|
  {
    hide FirstMarker, OneBreak;
    if FirstMarker(s).Some? {
      var f := FirstMarker(s).value;
      MarkerShape(s);
      var k :| f.start < k < |s| && ClosesAt(s, f.start, k);
      assert k == f.end - 1;
      var m := s[f.start..f.end];
      assert forall j :: 1 <= j < |m| ==> m[j] == s[f.start + j];
      assert MARKER_START !in m[1..];
      BracketedBehind(s, f.end);
      WellBracketedIsRobust(s[f.end..]);
    }
  }

  lemma {:induction false} BracketedBehind(s: Bytes, n: nat)
    requires WellBracketed(s) && n <= |s|
    ensures WellBracketed(s[n..])
  {
    var t := s[n..];
    forall i | 0 <= i < |t| && t[i] == MARKER_START
      ensures exists k :: i < k < |t| && ClosesAt(t, i, k)
    {
      assert s[n + i] == MARKER_START;
      var k :| n + i < k < |s| && ClosesAt(s, n + i, k);
      assert ClosesAt(t, i, k - n);
    }
  }
}
