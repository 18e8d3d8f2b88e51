/** What the line readers make of a text, told line by line: the events of the good lines, and why they stop. */
module NdjsonLaws {
  import opened Common
  import opened Text
  import opened Utf8
  import opened WhiteSpace
  import opened WhiteSpaceLaws
  import opened Ndjson

  predicate NoNewline(line: Bytes) {
    forall i :: 0 <= i < |line| ==> line[i] != 10
  }

  /** Each line with a newline behind it, and the tail behind them all. */
  function Terminated(lines: seq<Bytes>, tail: Bytes): Bytes {
    if lines == [] then tail else lines[0] + [10] + Terminated(lines[1..], tail)
  }

  /** Lines within the limit that are either empty or, in their order, these events. */
  predicate GoodLines<E(==)>(classify: Classify<E>, lines: seq<Bytes>, events: seq<E>)
    decreases |lines|
  {
    if lines == [] then events == []
    else
      && NoNewline(lines[0]) && |lines[0]| <= 65536
      && if lines[0] == [] then GoodLines(classify, lines[1..], events)
         else events != [] && classify(lines[0]) == Event(events[0]) && GoodLines(classify, lines[1..], events[1..])
  }

  /** The line that `tail` begins with. */
  predicate LineFirst(tail: Bytes, line: Bytes) {
    NoNewline(line) && |line| < |tail| && tail[..|line|] == line && tail[|line|] == 10
  }

  /** A line that stops the reading after so many events. */
  predicate BadLine<E>(classify: Classify<E>, count: nat, line: Bytes, error: Error) {
    if |line| > 65536 then error == LineTooLong
    else if count == 10000 then error == TooManyEvents
    else
      match classify(line)
      case Event(_) => false
      case OtherSchema => error == BadSchema
      case NotJson(reason) => error == BadJson(reason)
  }

  /** Why reading stops at `tail`: no line is left but white space, or one that is not ended, or its first line is no good. */
  ghost predicate StopsAt<E>(classify: Classify<E>, count: nat, tail: Bytes, error: Option<Error>) {
    if NoNewline(tail) then error == if |tail| > 65536 then Some(LineTooLong) else if White(tail) then None else Some(EndedMidLine)
    else error.Some? && exists line: Bytes :: LineFirst(tail, line) && line != [] && BadLine(classify, count, line, error.value)
  }

  ghost predicate Told<E>(classify: Classify<E>, text: Bytes, count: nat, events: seq<E>, error: Option<Error>, lines: seq<Bytes>, tail: Bytes) {
    && Terminated(lines, tail) == text && GoodLines(classify, lines, events)
    && count + |events| <= 10000 && StopsAt(classify, count + |events|, tail, error)
  }

  lemma {:induction false} FirstNewline(text: Bytes, line: Bytes)
    ensures LineFirst(text, line) <==> IndexOf(text, NEWLINE) == Some(|line|) && text[..|line|] == line
  {
    if LineFirst(text, line) {
      assert forall i :: 0 <= i < |line| ==> text[i] == line[i];
    }
    if IndexOf(text, NEWLINE) == Some(|line|) && text[..|line|] == line {
      assert forall i :: 0 <= i < |line| ==> line[i] == text[i];
    }
  }

  lemma {:induction false} NoneFirst(text: Bytes)
    ensures NoNewline(text) <==> IndexOf(text, NEWLINE) == None
  {}

  lemma {:induction false} OneLineFirst(text: Bytes, a: Bytes, b: Bytes)
    requires LineFirst(text, a) && LineFirst(text, b)
    ensures a == b
  {
    hide LineFirst;
    FirstNewline(text, a);
    FirstNewline(text, b);
  }

  /** A tail at which reading stops is read as just that. */
  lemma {:induction false} TailReads<E>(classify: Classify<E>, count: nat, delivered: seq<E>, tail: Bytes, error: Option<Error>)
    requires count <= 10000 && StopsAt(classify, count, tail, error)
    ensures ReadText(classify, count, delivered, tail) == Outcome(delivered, error)
  {
    hide White, Blank, NoNewline, LineFirst;
    NoneFirst(tail);
    BlankIff(tail);
    if !NoNewline(tail) {
      forall line: Bytes | LineFirst(tail, line)
        ensures IndexOf(tail, NEWLINE) == Some(|line|) && tail[..|line|] == line
      {
        FirstNewline(tail, line);
      }
    }
  }

  /** One good line more in front. */
  lemma {:induction false} LineReads<E>(classify: Classify<E>, count: nat, delivered: seq<E>, line: Bytes, rest: Bytes)
    requires NoNewline(line) && |line| <= 65536
    ensures line == [] ==> ReadText(classify, count, delivered, line + [10] + rest) == ReadText(classify, count, delivered, rest)
    ensures line != [] && count < 10000 && classify(line).Event? ==>
              ReadText(classify, count, delivered, line + [10] + rest) == ReadText(classify, count + 1, delivered + [classify(line).event], rest)
  {
    hide Blank;
    var text := line + [10] + rest;
    assert text[|line|] == 10 && text[..|line|] == line && text[|line| + 1..] == rest;
    FirstNewline(text, line);
  }

  lemma {:induction false} LinesRead<E>(classify: Classify<E>, count: nat, delivered: seq<E>, lines: seq<Bytes>, events: seq<E>, tail: Bytes)
    requires GoodLines(classify, lines, events) && count + |events| <= 10000
    ensures ReadText(classify, count, delivered, Terminated(lines, tail)) == ReadText(classify, count + |events|, delivered + events, tail)
    decreases |lines|
  {
    hide ReadText, NoNewline;
    if lines == [] {
      assert delivered + events == delivered;
    } else {
      LineReads(classify, count, delivered, lines[0], Terminated(lines[1..], tail));
      if lines[0] == [] {
        LinesRead(classify, count, delivered, lines[1..], events, tail);
      } else {
        LinesRead(classify, count + 1, delivered + [events[0]], lines[1..], events[1..], tail);
        assert delivered + [events[0]] + events[1..] == delivered + events;
      }
    }
  }

  lemma {:induction false} StoppedHere<E>(classify: Classify<E>, count: nat, text: Bytes, error: Option<Error>)
    requires count <= 10000 && StopsAt(classify, count, text, error)
    ensures Told(classify, text, count, [], error, [], text)
  {
    hide StopsAt;
  }

  lemma {:induction false} EmptyBefore<E>(classify: Classify<E>, count: nat, rest: Bytes, events: seq<E>, error: Option<Error>, lines: seq<Bytes>, tail: Bytes)
    requires Told(classify, rest, count, events, error, lines, tail)
    ensures Told(classify, [] + [10] + rest, count, events, error, [[]] + lines, tail)
  {
    hide StopsAt;
    assert ([[]] + lines)[1..] == lines;
  }

  lemma {:induction false} EventBefore<E>(
      classify: Classify<E>, count: nat, line: Bytes, event: E, rest: Bytes, events: seq<E>, error: Option<Error>, lines: seq<Bytes>, tail: Bytes)
    requires NoNewline(line) && 0 < |line| <= 65536 && classify(line) == Event(event)
    requires Told(classify, rest, count + 1, events, error, lines, tail)
    ensures Told(classify, line + [10] + rest, count, [event] + events, error, [line] + lines, tail)
  {
    hide StopsAt, NoNewline;
    assert ([line] + lines)[1..] == lines && ([event] + events)[1..] == events;
  }

  /** Where the reading of a text stops, and what it has read until then. */
  lemma {:induction false} TextIs<E>(classify: Classify<E>, count: nat, delivered: seq<E>, text: Bytes)
      returns (events: seq<E>, lines: seq<Bytes>, tail: Bytes)
    requires count <= 10000
    ensures var out := ReadText(classify, count, delivered, text);
            out.delivered == delivered + events && Told(classify, text, count, events, out.error, lines, tail)
    decreases |text|
  {
    hide NoNewline, LineFirst, StopsAt, Told, ReadText;
    events, lines, tail := [], [], text;
    assert delivered + events == delivered;
    var newline := IndexOf(text, NEWLINE);
    var line := if newline.None? then [] else text[..newline.value];
    StopIs(classify, count, delivered, text);
    var error := ReadText(classify, count, delivered, text).error;
    if newline.None? || |line| > 65536 || (line != [] && (count == 10000 || !classify(line).Event?)) {
      StoppedHere(classify, count, text, error);
    } else {
      var rest := text[|line| + 1..];
      FirstNewline(text, line);
      LineIsGood(text, line);
      assert text == line + [10] + rest;
      LineReads(classify, count, delivered, line, rest);
      if line == [] {
        events, lines, tail := TextIs(classify, count, delivered, rest);
        EmptyBefore(classify, count, rest, events, error, lines, tail);
        lines := [[]] + lines;
      } else {
        var event := classify(line).event;
        events, lines, tail := TextIs(classify, count + 1, delivered + [event], rest);
        EventBefore(classify, count, line, event, rest, events, error, lines, tail);
        assert delivered + [event] + events == delivered + ([event] + events);
        events, lines := [event] + events, [line] + lines;
      }
    }
  }

  lemma {:induction false} LineIsGood(text: Bytes, line: Bytes)
    requires LineFirst(text, line)
    ensures NoNewline(line)
  {}

  /** Reading that goes no further has stopped here. */
  lemma {:induction false} StopIs<E>(classify: Classify<E>, count: nat, delivered: seq<E>, text: Bytes)
    requires count <= 10000
    ensures var newline := IndexOf(text, NEWLINE);
            var out := ReadText(classify, count, delivered, text);
            var line := if newline.None? then [] else text[..newline.value];
            newline.None? || |line| > 65536 || (line != [] && (count == 10000 || !classify(line).Event?)) ==>
              out.delivered == delivered && StopsAt(classify, count, text, out.error)
  {
    hide White, Blank, NoNewline, LineFirst;
    var newline := IndexOf(text, NEWLINE);
    NoneFirst(text);
    BlankIff(text);
    if newline.Some? {
      FirstNewline(text, text[..newline.value]);
    }
  }

  /**
   * A text means the events of its good lines up to where reading stops, and
   * stops for the reason told there: exactly one way of telling it is true.
   */
  lemma {:induction false} MeaningIff<E>(classify: Classify<E>, text: Bytes, events: seq<E>, error: Option<Error>)
    ensures Meaning(classify, text) == Outcome(events, error) <==>
            exists lines: seq<Bytes>, tail: Bytes :: Told(classify, text, 0, events, error, lines, tail)
  {
    hide ReadText, StopsAt, GoodLines;
    forall lines: seq<Bytes>, tail: Bytes | Told(classify, text, 0, events, error, lines, tail)
      ensures Meaning(classify, text) == Outcome(events, error)
    {
      LinesRead(classify, 0, [], lines, events, tail);
      assert [] + events == events;
      TailReads(classify, |events|, events, tail, error);
    }
    var found, lines, tail := TextIs(classify, 0, [], text);
    assert [] + found == found;
  }
}
