/** The marker parser as the program runs it, updating its buffer in place. */
module MarkerMachine {
  import opened Common
  import opened Text
  import opened Markers
  import opened MarkerScan
  import MP = MarkerParser

  // ---- find_marker -------------------------------------------------------------------------

  lemma {:induction false} LaterTwice(f: Option<Found>, a: nat, b: nat)
    ensures Later(Later(f, a), b) == Later(f, a + b)
  {}

  /** `i` is the first place in `s` where `pattern` stands. */
  ghost predicate FirstAt(s: Bytes, pattern: Bytes, i: nat) {
    && i <= |s| && pattern <= s[i..]
    && forall j :: 0 <= j < i ==> !(pattern <= s[j..])
  }

  method FindPattern(s: Bytes, pattern: Bytes, start: nat) returns (r: Option<nat>)
    requires start <= |s|
    ensures r.Some? ==> FirstAt(s[start..], pattern, r.value)
    ensures r.None? ==> forall j :: 0 <= j <= |s| - start ==> !(pattern <= s[start..][j..])
  {
    var rest := s[start..];
    var i := 0;
    while i <= |rest|
      invariant i <= |rest| + 1
      invariant forall j :: 0 <= j < i ==> !(pattern <= rest[j..])
    {
      if pattern <= rest[i..] {
        return Some(i);
      }
      i := i + 1;
    }
    return None;
  }

  lemma {:induction false} NothingBefore(s: Bytes, i: nat)
    requires i <= |s| && forall j :: 0 <= j < i ==> !(Prefix() <= s[j..])
    ensures FirstMarker(s) == Later(FirstMarker(s[i..]), i)
  {
    hide ParseBody, Prefix;
    if i == 0 {
      assert s[0..] == s;
      assert FirstMarker(s).Some? ==> Later(FirstMarker(s), 0) == FirstMarker(s);
    } else {
      assert s[0..] == s && s[1..][i - 1..] == s[i..];
      forall j | 0 <= j < i - 1
        ensures !(Prefix() <= s[1..][j..])
      {
        assert s[1..][j..] == s[j + 1..];
      }
      NothingBefore(s[1..], i - 1);
      LaterTwice(FirstMarker(s[i..]), i - 1, 1);
    }
  }

  /** The prefix cannot start again inside itself. */
  lemma {:induction false} PastPrefix(s: Bytes)
    requires Prefix() <= s && IndexOf(s[12..], MARKER_END).Some?
    requires ParseBody(s[12..12 + IndexOf(s[12..], MARKER_END).value]).None?
    ensures FirstMarker(s) == Later(FirstMarker(s[12..]), 12)
  {
    hide ParseBody;
    assert forall i :: 0 <= i < 12 ==> s[i] == Prefix()[i];
    SkipPlain(s[1..12], s[12..]);
    assert s[1..] == s[1..12] + s[12..];
    LaterTwice(FirstMarker(s[12..]), 11, 1);
  }

  method FindMarker(buffer: Bytes) returns (r: Option<Found>)
    ensures r == FirstMarker(buffer)
  {
    hide ParseBody, Prefix, FirstMarker;
    var searchFrom := 0;
    assert buffer[0..] == buffer;
    NoShift(FirstMarker(buffer));
    while true
      invariant searchFrom <= |buffer|
      invariant FirstMarker(buffer) == Later(FirstMarker(buffer[searchFrom..]), searchFrom)
      decreases |buffer| - searchFrom
    {
      var offset := FindPattern(buffer, Prefix(), searchFrom);
      if offset.None? {
        NoPrefix(buffer[searchFrom..]);
        return None;
      }
      var start := searchFrom + offset.value;
      Narrow(buffer, searchFrom, offset.value);
      var bodyStart := start + 12;
      var endOffset := IndexOf(buffer[bodyStart..], MARKER_END);
      AtPrefix(buffer, start);
      if endOffset.None? {
        return None;
      }
      var body := buffer[bodyStart..bodyStart + endOffset.value];
      var marker := ParseBody(body);
      if marker.Some? {
        return Some(Found(start, bodyStart + endOffset.value + 1, marker.value));
      }
      searchFrom := bodyStart;
    }
  }

  lemma {:induction false} NoShift(f: Option<Found>)
    ensures Later(f, 0) == f
  {}

  lemma {:induction false} Narrow(buffer: Bytes, from: nat, i: nat)
    requires from <= |buffer| && FirstAt(buffer[from..], Prefix(), i)
    requires FirstMarker(buffer) == Later(FirstMarker(buffer[from..]), from)
    ensures from + i + 12 <= |buffer| && Prefix() <= buffer[from + i..]
    ensures FirstMarker(buffer) == Later(FirstMarker(buffer[from + i..]), from + i)
  {
    hide ParseBody, FirstMarker;
    assert buffer[from..][i..] == buffer[from + i..];
    NothingBefore(buffer[from..], i);
    LaterTwice(FirstMarker(buffer[from + i..]), i, from);
  }

  lemma {:induction false} NoPrefix(s: Bytes)
    requires forall j :: 0 <= j <= |s| ==> !(Prefix() <= s[j..])
    ensures FirstMarker(s) == None
  {
    hide Prefix, ParseBody;
    NothingBefore(s, |s|);
  }

  lemma {:induction false} AtFront(s: Bytes)
    requires Prefix() <= s
    ensures IndexOf(s[12..], MARKER_END).None? ==> FirstMarker(s) == None
    ensures IndexOf(s[12..], MARKER_END).Some? ==>
              var end := IndexOf(s[12..], MARKER_END).value;
              var marker := ParseBody(s[12..12 + end]);
              marker.Some? ==> FirstMarker(s) == Some(Found(0, 12 + end + 1, marker.value))
  {
    hide ParseBody;
  }

  /** What the search says where the prefix stands. */
  lemma {:induction false} AtPrefix(buffer: Bytes, start: nat)
    requires start + 12 <= |buffer| && Prefix() <= buffer[start..]
    requires FirstMarker(buffer) == Later(FirstMarker(buffer[start..]), start)
    ensures var end := IndexOf(buffer[start + 12..], MARKER_END);
            if end.None? then FirstMarker(buffer) == None
            else
              var marker := ParseBody(buffer[start + 12..start + 12 + end.value]);
              if marker.Some? then FirstMarker(buffer) == Some(Found(start, start + 12 + end.value + 1, marker.value))
              else FirstMarker(buffer) == Later(FirstMarker(buffer[start + 12..]), start + 12)
  {
    hide ParseBody, Prefix, FirstMarker;
    var s := buffer[start..];
    AtFront(s);
    assert s[12..] == buffer[start + 12..];
    var end := IndexOf(s[12..], MARKER_END);
    if end.Some? {
      assert s[12..12 + end.value] == buffer[start + 12..start + 12 + end.value];
      if ParseBody(s[12..12 + end.value]).None? {
        PastPrefix(s);
        LaterTwice(FirstMarker(s[12..]), 12, start);
      }
    }
  }

  // ---- the parser ---------------------------------------------------------------------------

  class Parser {
    const cfg: MP.Config
    var buffer: Bytes
    var stickyError: bool
    var logCounts: map<MP.Key, nat>
    /** What the `emit` callback has been given. */
    var emitted: seq<MP.Emission>
    ghost var stripped: seq<Marker>
    ghost var locations: seq<MP.Location>
    ghost var ends: seq<nat>

    ghost function View(): MP.Parser
      reads this
    {
      MP.Parser(buffer, stickyError, logCounts, emitted, stripped, locations, ends)
    }

    constructor (cfg: MP.Config)
      ensures this.cfg == cfg && View() == MP.FRESH
    {
      this.cfg := cfg;
      buffer := [];
      stickyError := false;
      logCounts := map[];
      emitted := [];
      stripped := [];
      locations := [];
      ends := [];
    }

    method EmitText(text: Bytes, location: Option<MP.Location>)
      modifies this`stickyError, this`emitted
      ensures View() == MP.EmitText(cfg, old(View()), text, location)
    {
      hide Lines, IndexOf;
      var rest := text;
      FirstOfLines(text);
      while rest != []
        invariant MP.EmitLines(cfg, View(), Lines(rest), location) == MP.EmitText(cfg, old(View()), text, location)
        decreases |rest|
      {
        ghost var before := View();
        ghost var lines := Lines(rest);
        FirstOfLines(rest);
        var line: Bytes;
        var end := IndexOf(rest, NEWLINE);
        if end.Some? {
          line, rest := rest[..end.value + 1], rest[end.value + 1..];
        } else {
          line, rest := rest, [];
        }
        assert lines == [line] + Lines(rest);
        if cfg.detectErrors && cfg.isPanicLine(line) {
          stickyError := true;
        }
        var lineIsError := cfg.detectErrors && (stickyError || cfg.lineHasError(line));
        var source := if stickyError then None else location;
        emitted := emitted + [MP.Emission(line, if lineIsError then MP.Error else MP.Program, source)];
        assert View() == MP.EmitLine(cfg, before, line, location);
        assert lines[0] == line && lines[1..] == Lines(rest);
      }
    }

    method Push(chunk: Bytes)
      modifies this
      ensures View() == MP.Push(cfg, old(View()), chunk)
    {
      hide MP.EmitText, FirstMarker, MP.LineHoldback, MP.MarkerHold, MP.CountOf, MP.KeyOf, MP.PathOf;
      buffer := buffer + chunk;
      ghost var start := View();
      var marker := FindMarker(buffer);
      while marker.Some?
        invariant marker == FirstMarker(buffer)
        invariant MP.StripAll(cfg, View()) == MP.StripAll(cfg, start)
        decreases |buffer|
      {
        ghost var before := View();
        var path := MP.PathOf(cfg, marker.value.marker.fileId);
        var countKey := MP.KeyOf(cfg, marker.value.marker);
        var executionIndex := MP.CountOf(logCounts, countKey) + 1;
        logCounts := logCounts[countKey := executionIndex];
        var m := marker.value.marker;
        var location := MP.Location(path, m.line, m.column, executionIndex, m.loopInfo);
        ghost var counted := View();
        EmitText(buffer[..marker.value.start], Some(location));
        EmitCounts(cfg, before, counted.counts, buffer[..marker.value.start], Some(location));
        buffer := buffer[marker.value.end..];
        stripped := stripped + [m];
        locations := locations + [location];
        ends := ends + [|emitted|];
        assert View() == MP.StripOne(cfg, before, marker.value);
        marker := FindMarker(buffer);
      }
      var bracket := MP.MarkerHold(buffer, MAX_PENDING_MARKER);
      var holdFrom := MP.Min(MP.LineHoldback(buffer), bracket);
      if holdFrom > 0 {
        var ready := buffer[..holdFrom];
        buffer := buffer[holdFrom..];
        EmitText(ready, None);
      }
    }

    method Release()
      modifies this
      ensures View() == MP.Release(cfg, old(View()))
    {
      var hold := MP.MarkerHold(buffer, |buffer|);
      if hold > 0 {
        var ready := buffer[..hold];
        buffer := buffer[hold..];
        EmitText(ready, None);
      }
    }

    method Flush()
      modifies this
      ensures View() == MP.Flush(cfg, old(View()))
    {
      var rest := buffer;
      buffer := [];
      EmitText(rest, None);
    }
  }

  /** Emitting does not look at the counts. */
  lemma {:induction false} EmitCounts(cfg: MP.Config, p: MP.Parser, counts: map<MP.Key, nat>, text: Bytes, location: Option<MP.Location>)
    ensures MP.EmitText(cfg, p.(counts := counts), text, location) == MP.EmitText(cfg, p, text, location).(counts := counts)
  {
    EmitLinesCounts(cfg, p, counts, Lines(text), location);
  }

  lemma {:induction false} EmitLinesCounts(cfg: MP.Config, p: MP.Parser, counts: map<MP.Key, nat>, lines: seq<Bytes>, location: Option<MP.Location>)
    ensures MP.EmitLines(cfg, p.(counts := counts), lines, location) == MP.EmitLines(cfg, p, lines, location).(counts := counts)
    decreases |lines|
  {
    if lines != [] {
      EmitLinesCounts(cfg, MP.EmitLine(cfg, p, lines[0], location), counts, lines[1..], location);
    }
  }

  /** The first line of a text, and the lines of what is behind it. */
  lemma {:induction false} FirstOfLines(text: Bytes)
    ensures Lines([]) == []
    ensures text != [] ==>
            var end := IndexOf(text, NEWLINE);
            Lines(text) == if end.Some? then [text[..end.value + 1]] + Lines(text[end.value + 1..]) else [text] + Lines([])
  {}
}
