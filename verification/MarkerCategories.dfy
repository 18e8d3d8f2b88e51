/** Which lines of the output go out as errors. */
module MarkerCategories {
  import opened Common
  import opened Text
  import opened Markers
  import opened MarkerParser

  /** A panic line is among the first `n` lines that went out. */
  predicate PanicAmong(cfg: Config, emitted: seq<Emission>, n: nat) {
    exists i :: 0 <= i < n && i < |emitted| && cfg.isPanicLine(emitted[i].line)
  }

  /**
   * A line is an error exactly if errors are looked for and it says so, or a
   * panic line went out before it or is itself it; from then on no line
   * carries a location.
   */
  ghost predicate Categorised(cfg: Config, p: Parser) {
    && (p.sticky <==> cfg.detectErrors && PanicAmong(cfg, p.emitted, |p.emitted|))
    && forall n :: 0 <= n < |p.emitted| ==>
         var bad := cfg.detectErrors && PanicAmong(cfg, p.emitted, n + 1);
         && (p.emitted[n].category == Error <==> cfg.detectErrors && (bad || cfg.lineHasError(p.emitted[n].line)))
         && (bad ==> p.emitted[n].location == None)
  }

  lemma {:induction false} PanicStep(cfg: Config, emitted: seq<Emission>, e: Emission, n: nat)
    ensures n <= |emitted| ==> (PanicAmong(cfg, emitted + [e], n) <==> PanicAmong(cfg, emitted, n))
    ensures PanicAmong(cfg, emitted + [e], |emitted| + 1) <==> PanicAmong(cfg, emitted, |emitted|) || cfg.isPanicLine(e.line)
  {
    var all := emitted + [e];
    if i :| 0 <= i < n && i < |emitted| && cfg.isPanicLine(emitted[i].line) {
      assert cfg.isPanicLine(all[i].line);
    }
    if i :| 0 <= i < |emitted| && cfg.isPanicLine(emitted[i].line) {
      assert cfg.isPanicLine(all[i].line);
    }
    if cfg.isPanicLine(e.line) {
      assert cfg.isPanicLine(all[|emitted|].line);
    }
  }

  lemma {:induction false} LineCategorised(cfg: Config, p: Parser, line: Bytes, location: Option<Location>)
    requires Categorised(cfg, p)
    ensures Categorised(cfg, EmitLine(cfg, p, line, location))
  {
    hide PanicAmong;
    var q := EmitLine(cfg, p, line, location);
    var k := |p.emitted|;
    var e := q.emitted[k];
    assert q.emitted == p.emitted + [e];
    PanicStep(cfg, p.emitted, e, k);
    forall n | 0 <= n < |q.emitted|
      ensures n < k ==> (PanicAmong(cfg, q.emitted, n + 1) <==> PanicAmong(cfg, p.emitted, n + 1)) && q.emitted[n] == p.emitted[n]
    {
      if n < k {
        PanicStep(cfg, p.emitted, e, n + 1);
      }
    }
  }

  lemma {:induction false} TextCategorised(cfg: Config, p: Parser, lines: seq<Bytes>, location: Option<Location>)
    requires Categorised(cfg, p)
    ensures Categorised(cfg, EmitLines(cfg, p, lines, location))
    decreases |lines|
  {
    hide Categorised, EmitLine;
    if lines != [] {
      LineCategorised(cfg, p, lines[0], location);
      TextCategorised(cfg, EmitLine(cfg, p, lines[0], location), lines[1..], location);
    }
  }

  /** The fields that decide are those of the text emitted. */
  lemma {:induction false} SameCategories(cfg: Config, p: Parser, q: Parser)
    requires Categorised(cfg, p) && q.emitted == p.emitted && q.sticky == p.sticky
    ensures Categorised(cfg, q)
  {}

  lemma {:induction false} StripCategorised(cfg: Config, p: Parser)
    requires Categorised(cfg, p)
    ensures Categorised(cfg, StripAll(cfg, p))
    decreases |p.buffer|
  {
    hide Categorised, FirstMarker, EmitLines;
    var f := FirstMarker(p.buffer);
    if f.Some? {
      var m := f.value.marker;
      var location := Locate(cfg, m, CountOf(p.counts, KeyOf(cfg, m)) + 1);
      var text := p.buffer[..f.value.start];
      TextCategorised(cfg, p, Lines(text), Some(location));
      SameCategories(cfg, EmitText(cfg, p, text, Some(location)), StripOne(cfg, p, f.value));
      StripCategorised(cfg, StripOne(cfg, p, f.value));
    }
  }

  lemma {:induction false} ReadyCategorised(cfg: Config, p: Parser, hold: nat)
    requires Categorised(cfg, p) && hold <= |p.buffer|
    ensures Categorised(cfg, EmitReady(cfg, p, hold))
  {
    hide Categorised, EmitLines;
    var q := p.(buffer := p.buffer[hold..]);
    SameCategories(cfg, p, q);
    TextCategorised(cfg, q, Lines(p.buffer[..hold]), None);
  }

  lemma {:induction false} RunCategorised(cfg: Config, ops: seq<Op>)
    ensures Categorised(cfg, Run(cfg, ops))
    decreases |ops|
  {
    hide Categorised, StripAll, EmitReady, LineHoldback, MarkerHold;
    if ops == [] {
      FreshCategorised(cfg);
    } else {
      var p, last := Run(cfg, ops[..|ops| - 1]), ops[|ops| - 1];
      RunCategorised(cfg, ops[..|ops| - 1]);
      match last
      case Chunk(bytes) =>
        var r := p.(buffer := p.buffer + bytes);
        SameCategories(cfg, p, r);
        StripCategorised(cfg, r);
        var q := StripAll(cfg, r);
        ReadyCategorised(cfg, q, Min(LineHoldback(q.buffer), MarkerHold(q.buffer, MAX_PENDING_MARKER)));
      case Quiet => ReadyCategorised(cfg, p, MarkerHold(p.buffer, |p.buffer|));
    }
  }

  lemma {:induction false} FreshCategorised(cfg: Config)
    ensures Categorised(cfg, FRESH)
  {}

  /** Every line of every run, however its bytes came, has the category and the location it should. */
  lemma {:induction false} OutputCategorised(cfg: Config, ops: seq<Op>)
    ensures Categorised(cfg, Output(cfg, ops))
  {
    hide Categorised, Run, EmitLines;
    RunCategorised(cfg, ops);
    var p := Run(cfg, ops);
    var q := p.(buffer := []);
    SameCategories(cfg, p, q);
    TextCategorised(cfg, q, Lines(p.buffer), None);
  }
}
