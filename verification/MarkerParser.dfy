/** The streaming parser's operations as functions of its state. */
module MarkerParser {
  import opened Common
  import opened Text
  import opened Markers

  /** The panic and error heuristics are whatever they are. */
  datatype Config = Config(fileIds: map<nat, string>, detectErrors: bool, isPanicLine: Bytes -> bool, lineHasError: Bytes -> bool)

  datatype Location = Location(path: Option<string>, line: nat, column: nat, executionIndex: nat, loopInfo: Option<LoopInfo>)

  datatype Category = Program | Error

  datatype Emission = Emission(line: Bytes, category: Category, location: Option<Location>)

  datatype Key = Key(path: string, line: nat, column: nat)

  /**
   * `buffer`, `sticky` and `counts` are the parser's own; the rest is what it
   * has done: lines emitted, markers stripped with their locations, and how
   * many lines were out after each.
   */
  datatype Parser = Parser(
    buffer: Bytes,
    sticky: bool,
    counts: map<Key, nat>,
    emitted: seq<Emission>,
    stripped: seq<Marker>,
    locations: seq<Location>,
    ends: seq<nat>)

  const FRESH: Parser := Parser([], false, map[], [], [], [], [])

  function PathOf(cfg: Config, fileId: nat): Option<string> {
    if fileId in cfg.fileIds then Some(cfg.fileIds[fileId]) else None
  }

  function KeyOf(cfg: Config, m: Marker): Key {
    var path := PathOf(cfg, m.fileId);
    Key(if path.Some? then path.value else "unknown", m.line, m.column)
  }

  function CountOf(counts: map<Key, nat>, key: Key): nat {
    if key in counts then counts[key] else 0
  }

  function Locate(cfg: Config, m: Marker, executionIndex: nat): Location {
    Location(PathOf(cfg, m.fileId), m.line, m.column, executionIndex, m.loopInfo)
  }

  // ---- emit_text ------------------------------------------------------------------------

  function EmitLine(cfg: Config, p: Parser, line: Bytes, location: Option<Location>): Parser {
    var sticky := p.sticky || (cfg.detectErrors && cfg.isPanicLine(line));
    var isError := cfg.detectErrors && (sticky || cfg.lineHasError(line));
    p.(sticky := sticky,
       emitted := p.emitted + [Emission(line, if isError then Error else Program, if sticky then None else location)])
  }

  function EmitLines(cfg: Config, p: Parser, lines: seq<Bytes>, location: Option<Location>): Parser
    decreases |lines|
  {
    if lines == [] then p else EmitLines(cfg, EmitLine(cfg, p, lines[0], location), lines[1..], location)
  }

  function EmitText(cfg: Config, p: Parser, text: Bytes, location: Option<Location>): Parser {
    EmitLines(cfg, p, Lines(text), location)
  }

  // ---- push, release, flush ----------------------------------------------------------------

  function StripOne(cfg: Config, p: Parser, f: Found): Parser
    requires f.start < f.end <= |p.buffer|
  {
    var key := KeyOf(cfg, f.marker);
    var index := CountOf(p.counts, key) + 1;
    var location := Locate(cfg, f.marker, index);
    var q := EmitText(cfg, p, p.buffer[..f.start], Some(location));
    q.(buffer := p.buffer[f.end..],
       counts := p.counts[key := index],
       stripped := p.stripped + [f.marker],
       locations := p.locations + [location],
       ends := p.ends + [|q.emitted|])
  }

  function StripAll(cfg: Config, p: Parser): Parser
    decreases |p.buffer|
  {
    var f := FirstMarker(p.buffer);
    if f.None? then p else StripAll(cfg, StripOne(cfg, p, f.value))
  }

  /** Where the streamable prefix ends: everything before the most recent complete line. */
  function LineHoldback(buffer: Bytes): (hold: nat)
    ensures hold <= |buffer|
  {
    var last := LastIndexOf(buffer, NEWLINE);
    if last.None? then 0
    else
      var previous := LastIndexOf(buffer[..last.value], NEWLINE);
      if previous.Some? then previous.value + 1 else 0
  }

  function MarkerHold(buffer: Bytes, limit: nat): (hold: nat)
    ensures hold <= |buffer|
  {
    var start := LastIndexOf(buffer, MARKER_START);
    if start.Some? && IndexOf(buffer[start.value..], MARKER_END).None? && |buffer| - start.value <= limit then start.value
    else |buffer|
  }

  function EmitReady(cfg: Config, p: Parser, hold: nat): Parser
    requires hold <= |p.buffer|
  {
    if hold > 0 then EmitText(cfg, p.(buffer := p.buffer[hold..]), p.buffer[..hold], None) else p
  }

  function Min(a: nat, b: nat): nat {
    if a <= b then a else b
  }

  function Push(cfg: Config, p: Parser, chunk: Bytes): Parser {
    var q := StripAll(cfg, p.(buffer := p.buffer + chunk));
    EmitReady(cfg, q, Min(LineHoldback(q.buffer), MarkerHold(q.buffer, MAX_PENDING_MARKER)))
  }

  /** No limit here: a bracket half arrived is held however long it is. */
  function Release(cfg: Config, p: Parser): Parser {
    EmitReady(cfg, p, MarkerHold(p.buffer, |p.buffer|))
  }

  function Flush(cfg: Config, p: Parser): Parser {
    EmitText(cfg, p.(buffer := []), p.buffer, None)
  }

  // ---- runs ------------------------------------------------------------------------------

  datatype Op = Chunk(bytes: Bytes) | Quiet

  function Apply(cfg: Config, p: Parser, op: Op): Parser {
    match op
    case Chunk(bytes) => Push(cfg, p, bytes)
    case Quiet => Release(cfg, p)
  }

  function Run(cfg: Config, ops: seq<Op>): Parser {
    if ops == [] then FRESH else Apply(cfg, Run(cfg, ops[..|ops| - 1]), ops[|ops| - 1])
  }

  /** The whole life of a parser: chunks and quiet moments in any order, then the end. */
  function Output(cfg: Config, ops: seq<Op>): Parser {
    Flush(cfg, Run(cfg, ops))
  }

  function Input(ops: seq<Op>): Bytes {
    if ops == [] then []
    else Input(ops[..|ops| - 1]) + (if ops[|ops| - 1].Chunk? then ops[|ops| - 1].bytes else [])
  }

  function TextOf(emitted: seq<Emission>): Bytes {
    if emitted == [] then [] else TextOf(emitted[..|emitted| - 1]) + emitted[|emitted| - 1].line
  }

  /** How many of the markers carry this key. */
  function Occurrences(cfg: Config, markers: seq<Marker>, key: Key): nat {
    if markers == [] then 0
    else Occurrences(cfg, markers[..|markers| - 1], key) + (if KeyOf(cfg, markers[|markers| - 1]) == key then 1 else 0)
  }

  /** The k-th marker's location: its execution index counts the markers at its place so far, itself included. */
  function LocationAt(cfg: Config, markers: seq<Marker>, k: nat): Location
    requires k < |markers|
  {
    Locate(cfg, markers[k], Occurrences(cfg, markers[..k + 1], KeyOf(cfg, markers[k])))
  }
}
