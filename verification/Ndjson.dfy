/** The line-based JSON readers of the probe and test channels. */
module Ndjson {
  import opened Common
  import opened Text
  import opened Utf8
  import opened WhiteSpace

  const MAX_LINE: nat := 64 * 1024
  const MAX_EVENTS: nat := 10_000

  /** What a line turns out to be: an event, well-formed JSON of another shape, or not JSON. */
  datatype Verdict<+E> = Event(event: E) | OtherSchema | NotJson(reason: string)

  datatype Error = LineTooLong | TooManyEvents | BadSchema | BadJson(reason: string) | EndedMidLine

  /** The JSON library's reading of one line. */
  type Classify<!E> = Bytes -> Verdict<E>

  /** The reader's own fields, and the events it has handed on. */
  datatype Reader<+E> = Reader(buffer: Bytes, pending: Bytes, events: nat, error: Option<Error>, delivered: seq<E>)

  function Fresh<E>(): Reader<E> {
    Reader([], [], 0, None, [])
  }

  // ---- one line, one push, the end -----------------------------------------------------------

  function Parse<E>(classify: Classify<E>, r: Reader<E>, line: Bytes): Reader<E> {
    var q := r.(events := r.events + 1);
    if q.events > MAX_EVENTS then q.(error := Some(TooManyEvents))
    else
      match classify(line)
      case Event(event) => q.(delivered := q.delivered + [event])
      case OtherSchema => q.(error := Some(BadSchema))
      case NotJson(reason) => q.(error := Some(BadJson(reason)))
  }

  function TakeLine<E>(classify: Classify<E>, r: Reader<E>, line: Bytes): (q: Reader<E>)
    ensures q.buffer == r.buffer
  {
    if |line| > MAX_LINE then r.(error := Some(LineTooLong))
    else if line == [] then r
    else Parse(classify, r, line)
  }

  function DrainLines<E>(classify: Classify<E>, r: Reader<E>): Reader<E>
    decreases |r.buffer|
  {
    var newline := IndexOf(r.buffer, NEWLINE);
    if newline.None? then
      if |r.buffer| > MAX_LINE then r.(error := Some(LineTooLong)) else r
    else
      var q := TakeLine(classify, r.(buffer := r.buffer[newline.value + 1..]), r.buffer[..newline.value]);
      if q.error.Some? then q else DrainLines(classify, q)
  }

  function PushChunk<E>(classify: Classify<E>, r: Reader<E>, chunk: Bytes): Reader<E> {
    if r.error.Some? then r
    else
      var d := DecodeChunk(r.pending, chunk);
      DrainLines(classify, r.(buffer := r.buffer + d.text, pending := d.pending))
  }

  function Ended<E>(r: Reader<E>): Reader<E> {
    var q := r.(buffer := r.buffer + Lossy(r.pending), pending := []);
    if q.error.None? && !Blank(q.buffer) then q.(error := Some(EndedMidLine)) else q
  }

  function PushAll<E>(classify: Classify<E>, r: Reader<E>, chunks: seq<Bytes>): Reader<E>
    decreases |chunks|
  {
    if chunks == [] then r else PushAll(classify, PushChunk(classify, r, chunks[0]), chunks[1..])
  }

  // ---- what a whole text means ---------------------------------------------------------------

  datatype Outcome<+E> = Outcome(delivered: seq<E>, error: Option<Error>)

  /** Reading a text line by line with nothing cut: after `events` lines, of which these were delivered. */
  function ReadText<E>(classify: Classify<E>, events: nat, delivered: seq<E>, text: Bytes): Outcome<E>
    decreases |text|
  {
    var newline := IndexOf(text, NEWLINE);
    if newline.None? then
      Outcome(delivered, if |text| > MAX_LINE then Some(LineTooLong) else if !Blank(text) then Some(EndedMidLine) else None)
    else
      var line, rest := text[..newline.value], text[newline.value + 1..];
      if |line| > MAX_LINE then Outcome(delivered, Some(LineTooLong))
      else if line == [] then ReadText(classify, events, delivered, rest)
      else if events == MAX_EVENTS then Outcome(delivered, Some(TooManyEvents))
      else
        match classify(line)
        case Event(event) => ReadText(classify, events + 1, delivered + [event], rest)
        case OtherSchema => Outcome(delivered, Some(BadSchema))
        case NotJson(reason) => Outcome(delivered, Some(BadJson(reason)))
  }

  function Meaning<E>(classify: Classify<E>, text: Bytes): Outcome<E> {
    ReadText(classify, 0, [], text)
  }

  /** What a reader will have done once it has also read `rest`. */
  function Ahead<E>(classify: Classify<E>, r: Reader<E>, rest: Bytes): Outcome<E> {
    if r.error.Some? then Outcome(r.delivered, r.error)
    else ReadText(classify, r.events, r.delivered, r.buffer + rest)
  }

  /** Every event has been counted, and the limit holds. */
  predicate Within<E>(r: Reader<E>) {
    r.error.None? ==> |r.delivered| == r.events <= MAX_EVENTS && |r.buffer| <= MAX_LINE
  }

  lemma {:induction false} NewlineAhead(a: Bytes, b: Bytes)
    ensures IndexOf(a, NEWLINE).Some? ==> IndexOf(a + b, NEWLINE) == IndexOf(a, NEWLINE)
    ensures IndexOf(a, NEWLINE).None? && IndexOf(a + b, NEWLINE).Some? ==> IndexOf(a + b, NEWLINE).value >= |a|
  {
    var i, j := IndexOf(a, NEWLINE), IndexOf(a + b, NEWLINE);
    if i.Some? {
      assert (a + b)[i.value] == NEWLINE;
    } else {
      assert forall k :: 0 <= k < |a| ==> (a + b)[k] == a[k];
    }
  }

  /** A line taken is a line of the text ahead. */
  lemma {:induction false} LineAhead<E>(classify: Classify<E>, r: Reader<E>, i: nat, rest: Bytes)
    requires r.error.None? && r.events <= MAX_EVENTS && IndexOf(r.buffer, NEWLINE) == Some(i)
    ensures var q := TakeLine(classify, r.(buffer := r.buffer[i + 1..]), r.buffer[..i]);
            Ahead(classify, q, rest) == Ahead(classify, r, rest)
  {
    hide Blank;
    var text := r.buffer + rest;
    NewlineAhead(r.buffer, rest);
    assert text[..i] == r.buffer[..i] && text[i + 1..] == r.buffer[i + 1..] + rest;
  }

  /** A line already too long is too long however it goes on. */
  lemma {:induction false} TooLongAhead<E>(classify: Classify<E>, r: Reader<E>, rest: Bytes)
    requires r.error.None? && IndexOf(r.buffer, NEWLINE).None? && |r.buffer| > MAX_LINE
    ensures Ahead(classify, r, rest) == Outcome(r.delivered, Some(LineTooLong))
  {
    hide Blank;
    NewlineAhead(r.buffer, rest);
  }

  lemma {:induction false} TakeLineWithin<E>(classify: Classify<E>, r: Reader<E>, line: Bytes)
    requires r.error.None? && |r.delivered| == r.events <= MAX_EVENTS
    ensures var q := TakeLine(classify, r, line);
            && (q.error.None? ==> |q.delivered| == q.events <= MAX_EVENTS)
            && |q.delivered| <= MAX_EVENTS && q.pending == r.pending
  {}

  lemma {:induction false} DrainAhead<E>(classify: Classify<E>, r: Reader<E>, rest: Bytes)
    requires r.error.None? && |r.delivered| == r.events <= MAX_EVENTS
    ensures var q := DrainLines(classify, r);
            && Ahead(classify, q, rest) == Ahead(classify, r, rest)
            && q.pending == r.pending && Within(q) && |q.delivered| <= MAX_EVENTS
    decreases |r.buffer|
  {
    hide Ahead, TakeLine;
    var newline := IndexOf(r.buffer, NEWLINE);
    if newline.None? {
      if |r.buffer| > MAX_LINE {
        TooLongAhead(classify, r, rest);
        Stopped(classify, r.(error := Some(LineTooLong)), rest);
      }
    } else {
      var next := r.(buffer := r.buffer[newline.value + 1..]);
      var q := TakeLine(classify, next, r.buffer[..newline.value]);
      LineAhead(classify, r, newline.value, rest);
      TakeLineWithin(classify, next, r.buffer[..newline.value]);
      if q.error.None? {
        DrainAhead(classify, q, rest);
      }
    }
  }

  lemma {:induction false} Stopped<E>(classify: Classify<E>, r: Reader<E>, rest: Bytes)
    requires r.error.Some?
    ensures Ahead(classify, r, rest) == Outcome(r.delivered, r.error)
  {}

  /** Bytes moved from the text ahead into the buffer. */
  lemma {:induction false} MoveIn<E>(classify: Classify<E>, r: Reader<E>, text: Bytes, pending: Bytes, rest: Bytes)
    ensures Ahead(classify, r.(buffer := r.buffer + text, pending := pending), rest) == Ahead(classify, r, text + rest)
  {
    assert r.buffer + text + rest == r.buffer + (text + rest);
  }

  // ---- any cut means the same ------------------------------------------------------------------

  lemma {:induction false} PushAhead<E>(classify: Classify<E>, r: Reader<E>, chunk: Bytes, later: Bytes)
    requires Within(r) && (r.error.None? ==> WellFormed(r.pending + chunk + later))
    ensures var q := PushChunk(classify, r, chunk);
            && Within(q)
            && (q.error.None? ==> WellFormed(q.pending + later))
            && Ahead(classify, q, q.pending + later) == Ahead(classify, r, r.pending + chunk + later)
  {
    hide WellFormed, DecodeChunk, Ahead, DrainLines;
    if r.error.None? {
      var d := DecodeChunk(r.pending, chunk);
      DecodeKeepsText(r.pending, chunk, later);
      var in_ := r.(buffer := r.buffer + d.text, pending := d.pending);
      DrainAhead(classify, in_, d.pending + later);
      MoveIn(classify, r, d.text, d.pending, d.pending + later);
      assert d.text + (d.pending + later) == r.pending + chunk + later;
    } else {
      Stopped(classify, r, r.pending + later);
      Stopped(classify, r, r.pending + chunk + later);
    }
  }

  lemma {:induction false} PushAllAhead<E>(classify: Classify<E>, r: Reader<E>, chunks: seq<Bytes>)
    requires Within(r) && (r.error.None? ==> WellFormed(r.pending + Joined(chunks)))
    ensures var q := PushAll(classify, r, chunks);
            && Within(q)
            && (q.error.None? ==> WellFormed(q.pending))
            && Ahead(classify, q, q.pending) == Ahead(classify, r, r.pending + Joined(chunks))
    decreases |chunks|
  {
    hide WellFormed, Ahead, PushChunk, Within;
    if chunks == [] {
      assert r.pending + [] == r.pending;
    } else {
      var later := Joined(chunks[1..]);
      assert r.pending + chunks[0] + later == r.pending + Joined(chunks);
      PushAhead(classify, r, chunks[0], later);
      PushAllAhead(classify, PushChunk(classify, r, chunks[0]), chunks[1..]);
    }
  }

  /** After a push no line break is left in the buffer unless reading has stopped. */
  lemma {:induction false} DrainEmpties<E>(classify: Classify<E>, r: Reader<E>)
    ensures var q := DrainLines(classify, r);
            q.error.None? ==> IndexOf(q.buffer, NEWLINE).None?
    decreases |r.buffer|
  {
    hide TakeLine;
    var newline := IndexOf(r.buffer, NEWLINE);
    if newline.Some? {
      var q := TakeLine(classify, r.(buffer := r.buffer[newline.value + 1..]), r.buffer[..newline.value]);
      if q.error.None? {
        DrainEmpties(classify, q);
      }
    }
  }

  lemma {:induction false} PushAllEmpties<E>(classify: Classify<E>, r: Reader<E>, chunks: seq<Bytes>)
    requires r.error.None? ==> IndexOf(r.buffer, NEWLINE).None?
    ensures var q := PushAll(classify, r, chunks);
            q.error.None? ==> IndexOf(q.buffer, NEWLINE).None?
    decreases |chunks|
  {
    hide DrainLines, DecodeChunk;
    if chunks != [] {
      if r.error.None? {
        var d := DecodeChunk(r.pending, chunks[0]);
        DrainEmpties(classify, r.(buffer := r.buffer + d.text, pending := d.pending));
      }
      PushAllEmpties(classify, PushChunk(classify, r, chunks[0]), chunks[1..]);
    }
  }

  /** Ending a reader that has stopped before any line break and within the limit. */
  lemma {:induction false} EndIsMeaning<E>(classify: Classify<E>, r: Reader<E>)
    requires Within(r) && (r.error.None? ==> WellFormed(r.pending) && IndexOf(r.buffer + r.pending, NEWLINE).None?)
    requires r.error.None? ==> |r.buffer + r.pending| <= MAX_LINE
    ensures Outcome(Ended(r).delivered, Ended(r).error) == Ahead(classify, r, r.pending)
  {
    hide Blank, WellFormed, Lossy;
    if r.error.None? {
      LossyKeepsText(r.pending);
    }
  }

  /**
   * However the pipe cuts a valid stream, the reader delivers the events of
   * the uncut text and ends with its error: over-long lines, the event limit,
   * bad lines and an unfinished last line included.
   */
  lemma {:induction false} AnyCutReads<E>(classify: Classify<E>, chunks: seq<Bytes>)
    requires WellFormed(Joined(chunks))
    ensures var q := Ended(PushAll(classify, Fresh(), chunks));
            Outcome(q.delivered, q.error) == Meaning(classify, Joined(chunks))
  {
    hide WellFormed, PushAll, ReadText, Lossy, Blank;
    var r := Fresh<E>();
    assert [] + Joined(chunks) == Joined(chunks);
    PushAllAhead(classify, r, chunks);
    PushAllEmpties(classify, r, chunks);
    var q := PushAll(classify, r, chunks);
    if q.error.None? {
      NothingPending(classify, r, chunks);
      assert q.buffer + [] == q.buffer;
    }
    EndIsMeaning(classify, q);
  }

  /** A valid stream leaves nothing pending: a character cut short would be unfinished text. */
  lemma {:induction false} NothingPending<E>(classify: Classify<E>, r: Reader<E>, chunks: seq<Bytes>)
    requires Within(r) && WellFormed(r.pending + Joined(chunks)) && PushAll(classify, r, chunks).error.None?
    requires Validate(r.pending) == CutShort(0) || r.pending == []
    ensures PushAll(classify, r, chunks).pending == []
    decreases |chunks|
  {
    hide WellFormed, Validate, DrainLines;
    if chunks == [] {
      assert r.pending + [] == r.pending;
      ValidateIsWellFormed(r.pending);
    } else {
      var later := Joined(chunks[1..]);
      assert r.pending + chunks[0] + later == r.pending + Joined(chunks);
      var q := PushChunk(classify, r, chunks[0]);
      if r.error.Some? {
        StaysStopped(classify, r, chunks);
      }
      DecodeKeepsText(r.pending, chunks[0], later);
      LeftOver(r.pending, chunks[0]);
      var d := DecodeChunk(r.pending, chunks[0]);
      DrainAhead(classify, r.(buffer := r.buffer + d.text, pending := d.pending), []);
      NothingPending(classify, q, chunks[1..]);
    }
  }

  lemma {:induction false} StaysStopped<E>(classify: Classify<E>, r: Reader<E>, chunks: seq<Bytes>)
    requires r.error.Some?
    ensures PushAll(classify, r, chunks) == r
    decreases |chunks|
  {
    if chunks != [] {
      StaysStopped(classify, r, chunks[1..]);
    }
  }

  /** What decoding leaves over is the beginning of one character. */
  lemma {:induction false} LeftOver(pending: Bytes, chunk: Bytes)
    ensures var left := DecodeChunk(pending, chunk).pending;
            left == [] || Validate(left) == CutShort(0)
  {
    var bytes := pending + chunk;
    if Validate(bytes).CutShort? {
      TailIsPartial(bytes);
    }
  }

  lemma {:induction false} TailIsPartial(s: Bytes)
    requires Validate(s).CutShort?
    ensures Validate(s[Validate(s).valid..]) == CutShort(0)
    decreases |s|
  {
    hide FrontOf;
    match FrontOf(s) {
      case Character(width) =>
        TailIsPartial(s[width..]);
        assert s[Validate(s).valid..] == s[width..][Validate(s[width..]).valid..];
      case Partial =>
        assert s[0..] == s;
      case Invalid(length) =>
    }
  }

  /** One push of the whole stream is no different from many small ones. */
  lemma {:induction false} OnePush<E>(classify: Classify<E>, chunks: seq<Bytes>)
    requires WellFormed(Joined(chunks))
    ensures var many := Ended(PushAll(classify, Fresh(), chunks));
            var one := Ended(PushAll(classify, Fresh(), [Joined(chunks)]));
            many.delivered == one.delivered && many.error == one.error
  {
    hide WellFormed, PushAll, Ended, Meaning;
    AnyCutReads(classify, chunks);
    assert [Joined(chunks)][1..] == [] && Joined(chunks) + [] == Joined(chunks);
    AnyCutReads(classify, [Joined(chunks)]);
  }

  /** On any bytes, at most 10000 events are delivered and the carry never holds more than three bytes. */
  lemma {:induction false} LimitsHold<E>(classify: Classify<E>, r: Reader<E>, chunks: seq<Bytes>)
    requires Within(r) && |r.delivered| <= MAX_EVENTS && |r.pending| <= 3
    ensures var q := PushAll(classify, r, chunks);
            Within(q) && |q.delivered| <= MAX_EVENTS && |q.pending| <= 3
    decreases |chunks|
  {
    hide DecodeChunk, DrainLines;
    if chunks != [] {
      if r.error.None? {
        CarryIsShort(r.pending, chunks[0]);
        var d := DecodeChunk(r.pending, chunks[0]);
        DrainAhead(classify, r.(buffer := r.buffer + d.text, pending := d.pending), []);
      }
      LimitsHold(classify, PushChunk(classify, r, chunks[0]), chunks[1..]);
    }
  }

  // ---- the reader as the program runs it -------------------------------------------------------

  class NdjsonReader<E> {
    const classify: Classify<E>
    const decoder: Utf8Carry
    var buffer: Bytes
    var events: nat
    var error: Option<Error>
    /** What the `on_event` callback has been given. */
    var delivered: seq<E>

    ghost function View(): Reader<E>
      reads this, decoder
    {
      Reader(buffer, decoder.pending, events, error, delivered)
    }

    constructor (classify: Classify<E>)
      ensures View() == Fresh() && this.classify == classify && fresh(decoder)
    {
      this.classify := classify;
      decoder := new Utf8Carry();
      buffer := [];
      events := 0;
      error := None;
      delivered := [];
    }

    method ParseLine(line: Bytes)
      modifies this
      ensures View() == Parse(classify, old(View()), line)
    {
      events := events + 1;
      if events > MAX_EVENTS {
        error := Some(TooManyEvents);
        return;
      }
      match classify(line) {
        case Event(event) => delivered := delivered + [event];
        case OtherSchema => error := Some(BadSchema);
        case NotJson(reason) => error := Some(BadJson(reason));
      }
    }

    method Push(chunk: Bytes)
      modifies this, decoder
      ensures View() == PushChunk(classify, old(View()), chunk)
    {
      if error.Some? {
        return;
      }
      var text := decoder.Decode(chunk);
      buffer := buffer + text;
      ghost var start := View();
      var newline := IndexOf(buffer, NEWLINE);
      while newline.Some?
        invariant newline == IndexOf(buffer, NEWLINE)
        invariant error.None?
        invariant DrainLines(classify, View()) == DrainLines(classify, start)
        decreases |buffer|
      {
        var line := buffer[..newline.value];
        buffer := buffer[newline.value + 1..];
        if |line| > MAX_LINE {
          error := Some(LineTooLong);
          return;
        }
        if line != [] {
          ParseLine(line);
        }
        if error.Some? {
          return;
        }
        newline := IndexOf(buffer, NEWLINE);
      }
      if |buffer| > MAX_LINE {
        error := Some(LineTooLong);
      }
    }

    method End()
      modifies this, decoder
      ensures View() == Ended(old(View()))
    {
      var rest := decoder.Finish();
      buffer := buffer + rest;
      if error.None? && !Blank(buffer) {
        error := Some(EndedMidLine);
      }
    }
  }
}
