/** Content-Length framing (LSP 3.17, section "Base Protocol"). */
module Lsp {
  import opened Common
  import opened Text
  import opened Decimal
  import opened Utf8
  import opened WhiteSpace

  const MAX_LSP_MESSAGE: nat := 8 * 1024 * 1024
  const MAX_HEADER: nat := 8192
  const COLON: byte := 58

  function CrLf(): (s: Bytes)
    ensures s == [13, 10]
  {
    [CARRIAGE_RETURN, NEWLINE]
  }

  function Blankline(): (s: Bytes)
    ensures |s| == 4 && s == [13, 10, 13, 10]
  {
    CrLf() + CrLf()
  }

  datatype Error = HeaderTooLong | NotOneLength | BadLength | OutsideLimit(raw: Bytes) | BadJson(reason: string)

  // ---- the header ----------------------------------------------------------------------------

  function FindHeaderEnd(buffer: Bytes): (r: Option<nat>)
    ensures r.Some? ==> r.value + 4 <= |buffer| && Blankline() <= buffer[r.value..]
  {
    if |buffer| < 4 then None
    else if Blankline() <= buffer then Some(0)
    else
      var rest := FindHeaderEnd(buffer[1..]);
      if rest.Some? then Some(rest.value + 1) else None
  }

  function SplitCrLf(s: Bytes): (lines: seq<Bytes>)
    ensures lines != []
  {
    if s == [] then [[]]
    else if CrLf() <= s then [[]] + SplitCrLf(s[2..])
    else
      var rest := SplitCrLf(s[1..]);
      [[s[0]] + rest[0]] + rest[1..]
  }

  function Lower(b: byte): byte {
    if 65 <= b <= 90 then b + 32 else b
  }

  function LowerAll(s: Bytes): Bytes {
    seq(|s|, i requires 0 <= i < |s| => Lower(s[i]))
  }

  predicate IsLengthLine(line: Bytes) {
    Ascii("content-length:") <= LowerAll(line)
  }

  function LengthLines(lines: seq<Bytes>): seq<Bytes> {
    if lines == [] then []
    else (if IsLengthLine(lines[0]) then [lines[0]] else []) + LengthLines(lines[1..])
  }

  /** What stands between the first colon and the second. */
  function SecondField(line: Bytes): Bytes {
    var first := IndexOf(line, COLON);
    if first.None? then []
    else
      var tail := line[first.value + 1..];
      var second := IndexOf(tail, COLON);
      if second.None? then tail else tail[..second.value]
  }

  /** `str::parse::<usize>`: digits, a plus sign allowed, and 64 bits. */
  function ParseUsize(s: Bytes): Option<nat> {
    var digits := if s != [] && s[0] == 43 then s[1..] else s;
    if digits == [] || !AllDigits(digits) || Value(digits) >= 0x1_0000_0000_0000_0000 then None
    else Some(Value(digits))
  }

  function BodyLength(header: Bytes): (r: Result<nat, Error>)
    ensures r.Ok? ==> 1 <= r.value <= MAX_LSP_MESSAGE
    ensures r.Err? ==> r.error != HeaderTooLong
  {
    var lengths := LengthLines(SplitCrLf(header));
    if |lengths| != 1 then Err(NotOneLength)
    else
      var raw := Trim(SecondField(lengths[0]));
      var length := ParseUsize(raw);
      if length.None? then Err(BadLength)
      else if length.value == 0 || length.value > MAX_LSP_MESSAGE then Err(OutsideLimit(raw))
      else Ok(length.value)
  }

  // ---- the framer as a function -----------------------------------------------------------------

  datatype Framer = Framer(buffer: Bytes, expectedBody: Option<nat>)

  const FRESH: Framer := Framer([], None)

  /** The JSON library's reading of a body. */
  type Decode<!V> = Bytes -> Result<V, string>

  datatype Pushed<+V> = Pushed(framer: Framer, result: Result<seq<V>, Error>)

  function Before<V>(v: V, p: Pushed<V>): Pushed<V> {
    Pushed(p.framer, if p.result.Ok? then Ok([v] + p.result.value) else p.result)
  }

  function Drain<V>(decode: Decode<V>, f: Framer): Pushed<V>
    decreases |f.buffer|, f.expectedBody.Some?
  {
    match f.expectedBody
    case None =>
      var end := FindHeaderEnd(f.buffer);
      if end.None? then
        Pushed(f, if |f.buffer| > MAX_HEADER then Err(HeaderTooLong) else Ok([]))
      else
        var rest := f.buffer[end.value + 4..];
        var length := BodyLength(Lossy(f.buffer[..end.value]));
        if length.Err? then Pushed(Framer(rest, None), Err(length.error))
        else Drain(decode, Framer(rest, Some(length.value)))
    case Some(expected) =>
      if |f.buffer| < expected then Pushed(f, Ok([]))
      else
        var rest := Framer(f.buffer[expected..], None);
        var body := decode(f.buffer[..expected]);
        if body.Err? then Pushed(rest, Err(BadJson(body.error)))
        else Before(body.value, Drain(decode, rest))
  }

  function More(f: Framer, chunk: Bytes): Framer {
    f.(buffer := f.buffer + chunk)
  }

  function PushChunk<V>(decode: Decode<V>, f: Framer, chunk: Bytes): Pushed<V> {
    Drain(decode, More(f, chunk))
  }

  // ---- plain headers -------------------------------------------------------------------------------

  /** Printable ASCII only. */
  predicate Plain(s: Bytes) {
    forall i :: 0 <= i < |s| ==> 32 <= s[i] < 127
  }

  lemma {:induction false} PlainIsText(s: Bytes)
    requires forall i :: 0 <= i < |s| ==> s[i] < 0x80
    ensures WellFormed(s) && Lossy(s) == s
    decreases |s|
  {
    if s != [] {
      assert FrontFrom(s, 1) == Character(1);
      PlainIsText(s[1..]);
      LossyKeepsText(s);
    }
  }

  predicate EndsAt(s: Bytes, i: nat) {
    i + 4 <= |s| && s[i] == 13 && s[i + 1] == 10 && s[i + 2] == 13 && s[i + 3] == 10
  }

  /** The search finds the first blank line, or none when there is none. */
  lemma {:induction false} FirstEnd(s: Bytes, i: nat)
    requires i <= |s| && forall j :: 0 <= j < i ==> !EndsAt(s, j)
    requires EndsAt(s, i) || |s| < i + 4
    ensures FindHeaderEnd(s) == if EndsAt(s, i) then Some(i) else None
    decreases |s|
  {
    if |s| >= 4 {
      assert Blankline() <= s <==> EndsAt(s, 0);
      if i > 0 {
        assert !EndsAt(s, 0);
        forall j | 0 <= j < i - 1
          ensures !EndsAt(s[1..], j)
        {
          assert !EndsAt(s, j + 1);
        }
        FirstEnd(s[1..], i - 1);
      }
    }
  }

  lemma {:induction false} SplitPlain(s: Bytes)
    requires Plain(s)
    ensures SplitCrLf(s) == [s]
    decreases |s|
  {
    if s != [] {
      SplitPlain(s[1..]);
      assert [s[0]] + s[1..] == s;
    }
  }

  lemma {:induction false} SplitLine(line: Bytes, rest: Bytes)
    requires Plain(line)
    ensures SplitCrLf(line + CrLf() + rest) == [line] + SplitCrLf(rest)
    decreases |line|
  {
    var all := line + CrLf() + rest;
    if line == [] {
      assert all == CrLf() + rest;
      assert all[2..] == rest;
    } else {
      assert all[0] == line[0];
      assert all[1..] == line[1..] + CrLf() + rest;
      SplitLine(line[1..], rest);
      assert [line[0]] + line[1..] == line;
    }
  }

  // ---- the header of a frame ---------------------------------------------------------------------

  const LENGTH_NAME: string := "Content-Length: "

  function Header(digits: Bytes): Bytes {
    Ascii(LENGTH_NAME) + digits
  }

  lemma {:induction false} HeaderIsPlain(digits: Bytes)
    requires AllDigits(digits)
    ensures Plain(Header(digits)) && |Header(digits)| == 16 + |digits|
  {
    assert forall i :: 0 <= i < 16 ==> Header(digits)[i] as int == LENGTH_NAME[i] as int;
  }

  lemma {:induction false} HeaderIsLengthLine(digits: Bytes)
    ensures IsLengthLine(Header(digits))
  {
    var h := Header(digits);
    var name := "content-length:";
    assert forall i :: 0 <= i < 16 ==> h[i] as int == LENGTH_NAME[i] as int;
    assert LENGTH_NAME[..15] == "Content-Length:";
    forall i | 0 <= i < 15
      ensures Lower(h[i]) as int == name[i] as int
    {
      LowerName(i);
    }
    assert LowerAll(h)[..15] == Ascii(name);
  }

  lemma {:induction false} LowerName(i: nat)
    requires i < 15
    ensures var c := LENGTH_NAME[i] as int;
            (if 65 <= c <= 90 then c + 32 else c) == "content-length:"[i] as int
  {}

  lemma {:induction false} HeaderField(digits: Bytes)
    requires AllDigits(digits)
    ensures SecondField(Header(digits)) == [SPACE] + digits
  {
    var h := Header(digits);
    assert forall i :: 0 <= i < 16 ==> h[i] as int == LENGTH_NAME[i] as int;
    assert h[14] == COLON;
    assert IndexOf(h, COLON) == Some(14) by {
      forall i | 0 <= i < 14
        ensures h[i] != COLON
      {
        NoColonInName(i);
      }
    }
    var tail := h[15..];
    assert tail == [SPACE] + digits;
    assert forall i :: 0 <= i < |tail| ==> tail[i] != COLON;
  }

  lemma {:induction false} NoColonInName(i: nat)
    requires i < 14
    ensures LENGTH_NAME[i] as int != 58
  {}

  lemma {:induction false} TrimDigits(digits: Bytes)
    requires AllDigits(digits) && digits != []
    ensures Trim([SPACE] + digits) == digits
  {
    var s := [SPACE] + digits;
    assert WhiteWidth(s) == 1 && s[1..] == digits;
    assert IsDigit(digits[0]) && IsDigit(digits[|digits| - 1]);
    assert WhiteWidth(digits) == 0 && WhiteTail(digits) == 0;
    assert TrimStart(s) == TrimStart(digits) == digits && TrimEnd(digits) == digits;
  }

  lemma {:induction false} OneLengthLine(digits: Bytes, lines: seq<Bytes>)
    requires AllDigits(digits) && digits != [] && LengthLines(lines) == [Header(digits)]
    requires 1 <= Value(digits) <= MAX_LSP_MESSAGE
    ensures forall header :: SplitCrLf(header) == lines ==> BodyLength(header) == Ok(Value(digits))
  {
    hide LengthLines, SplitCrLf, SecondField, Header, Trim, Value;
    HeaderField(digits);
    TrimDigits(digits);
    assert ParseUsize(digits) == Some(Value(digits));
  }

  lemma {:induction false} LengthOfHeader(digits: Bytes)
    requires AllDigits(digits) && digits != [] && 1 <= Value(digits) <= MAX_LSP_MESSAGE
    ensures BodyLength(Header(digits)) == Ok(Value(digits))
  {
    hide Header, BodyLength, IsLengthLine;
    var h := Header(digits);
    HeaderIsPlain(digits);
    SplitPlain(h);
    HeaderIsLengthLine(digits);
    assert [h][1..] == [] && LengthLines([]) == [];
    assert LengthLines([h]) == [h];
    OneLengthLine(digits, [h]);
  }

  // ---- frames --------------------------------------------------------------------------------------

  /** One message's text: what the JSON library prints, which it reads back. */
  ghost predicate Sendable<V>(encode: V -> Bytes, decode: Decode<V>, v: V) {
    1 <= |encode(v)| <= MAX_LSP_MESSAGE && decode(encode(v)) == Ok(v)
  }

  ghost predicate AllSendable<V>(encode: V -> Bytes, decode: Decode<V>, messages: seq<V>) {
    forall i :: 0 <= i < |messages| ==> Sendable(encode, decode, messages[i])
  }

  /** A message and the header it is sent behind. */
  datatype Letter<V> = Letter(header: Bytes, message: V)

  /** A header for a body of n bytes: it says n, holds no blank line, and stays within 8 KiB with all but the last byte of its own. */
  predicate Heads(header: Bytes, n: nat) {
    && BodyLength(Lossy(header)) == Ok(n)
    && |header| + 3 <= MAX_HEADER
    && forall i :: 0 <= i < |header| ==> !EndsAt(header + Blankline(), i)
  }

  ghost predicate Posts<V>(encode: V -> Bytes, decode: Decode<V>, letter: Letter<V>) {
    Sendable(encode, decode, letter.message) && Heads(letter.header, |encode(letter.message)|)
  }

  ghost predicate AllPosted<V>(encode: V -> Bytes, decode: Decode<V>, letters: seq<Letter<V>>) {
    forall i :: 0 <= i < |letters| ==> Posts(encode, decode, letters[i])
  }

  function Messages<V>(letters: seq<Letter<V>>): (messages: seq<V>)
    ensures |messages| == |letters|
  {
    seq(|letters|, i requires 0 <= i < |letters| => letters[i].message)
  }

  function Post<V>(encode: V -> Bytes, letters: seq<Letter<V>>): Bytes {
    if letters == [] then []
    else letters[0].header + Blankline() + encode(letters[0].message) + Post(encode, letters[1..])
  }

  /** What has been pushed and not returned, with what is still to come, is the frames of the remaining letters. */
  ghost predicate Awaits<V>(encode: V -> Bytes, f: Framer, rest: Bytes, letters: seq<Letter<V>>) {
    match f.expectedBody
    case None => f.buffer + rest == Post(encode, letters)
    case Some(expected) =>
      && letters != [] && expected == |encode(letters[0].message)|
      && f.buffer + rest == encode(letters[0].message) + Post(encode, letters[1..])
  }

  /** Of a buffer that begins as a frame does, the header is found exactly when all of it is there. */
  lemma {:induction false} HeaderFound(header: Bytes, n: nat, buffer: Bytes, all: Bytes)
    requires Heads(header, n) && buffer <= header + Blankline() + all
    ensures FindHeaderEnd(buffer) == if |buffer| >= |header| + 4 then Some(|header|) else None
  {
    hide BodyLength, Lossy, FindHeaderEnd;
    var own := header + Blankline();
    var whole := own + all;
    assert buffer == whole[..|buffer|];
    forall i | 0 <= i < |header|
      ensures !EndsAt(buffer, i)
    {
      assert !EndsAt(own, i);
    }
    if |buffer| >= |header| + 4 {
      assert EndsAt(whole, |header|);
      FirstEnd(buffer, |header|);
    } else {
      FirstEnd(buffer, if |buffer| < |header| then |buffer| else |header|);
    }
  }

  /** A drain returns the messages that are complete, and awaits the others. */
  ghost predicate Delivers<V>(encode: V -> Bytes, p: Pushed<V>, rest: Bytes, letters: seq<Letter<V>>) {
    && p.result.Ok? && p.result.value <= Messages(letters)
    && Awaits(encode, p.framer, rest, letters[|p.result.value|..])
    && (rest == [] ==> p.result.value == Messages(letters) && p.framer == FRESH)
  }

  lemma {:induction false} HeaderStep<V>(encode: V -> Bytes, decode: Decode<V>, f: Framer, rest: Bytes, letters: seq<Letter<V>>)
    requires f.expectedBody.None? && letters != [] && Awaits(encode, f, rest, letters) && Posts(encode, decode, letters[0])
    ensures var header, n := letters[0].header, |encode(letters[0].message)|;
            if |f.buffer| < |header| + 4 then
              && FindHeaderEnd(f.buffer) == None && |f.buffer| <= MAX_HEADER && rest != []
            else
              && FindHeaderEnd(f.buffer) == Some(|header|)
              && BodyLength(Lossy(f.buffer[..|header|])) == Ok(n)
              && Awaits(encode, Framer(f.buffer[|header| + 4..], Some(n)), rest, letters)
  {
    hide BodyLength, Lossy, FindHeaderEnd, Post, Blankline, Heads;
    var body := encode(letters[0].message);
    var header := letters[0].header;
    var others := Post(encode, letters[1..]);
    HeadsSays(header, |body|);
    PostBegins(encode, letters);
    assert f.buffer <= header + Blankline() + (body + others);
    HeaderFound(header, |body|, f.buffer, body + others);
    HeaderTaken(header, f.buffer, rest, body + others);
  }

  lemma {:induction false} HeadsSays(header: Bytes, n: nat)
    requires Heads(header, n)
    ensures BodyLength(Lossy(header)) == Ok(n) && |header| + 3 <= MAX_HEADER
  {}

  lemma {:induction false} PostBegins<V>(encode: V -> Bytes, letters: seq<Letter<V>>)
    requires letters != []
    ensures var body := encode(letters[0].message);
            Post(encode, letters) == letters[0].header + Blankline() + (body + Post(encode, letters[1..]))
  {
    hide Blankline;
  }

  lemma {:induction false} HeaderTaken(header: Bytes, buffer: Bytes, rest: Bytes, others: Bytes)
    requires buffer + rest == header + Blankline() + others
    ensures |buffer| < |header| + 4 ==> rest != []
    ensures |buffer| >= |header| + 4 ==> buffer[..|header|] == header && buffer[|header| + 4..] + rest == others
  {
    var whole := buffer + rest;
    if |buffer| >= |header| + 4 {
      assert buffer[..|header|] == whole[..|header|] == header;
      assert buffer[|header| + 4..] + rest == whole[|header| + 4..] == others;
    }
  }

  lemma {:induction false} BodyStep<V>(encode: V -> Bytes, f: Framer, rest: Bytes, letters: seq<Letter<V>>)
    requires f.expectedBody.Some? && Awaits(encode, f, rest, letters)
    ensures var n := f.expectedBody.value;
            if |f.buffer| < n then rest != []
            else f.buffer[..n] == encode(letters[0].message) && Awaits(encode, Framer(f.buffer[n..], None), rest, letters[1..])
  {
    var n := f.expectedBody.value;
    var body, others := encode(letters[0].message), Post(encode, letters[1..]);
    var whole := f.buffer + rest;
    assert whole == body + others;
    if |f.buffer| >= n {
      assert f.buffer[..n] == whole[..n] == body;
      assert f.buffer[n..] + rest == whole[n..] == others;
    }
  }

  lemma {:induction false} DeliversOne<V>(encode: V -> Bytes, p: Pushed<V>, rest: Bytes, letters: seq<Letter<V>>)
    requires letters != [] && Delivers(encode, p, rest, letters[1..])
    ensures Delivers(encode, Before(letters[0].message, p), rest, letters)
  {
    hide Awaits;
    var k := |p.result.value|;
    assert letters[1..][k..] == letters[k + 1..];
    assert Messages(letters) == [letters[0].message] + Messages(letters[1..]);
  }

  lemma {:induction false} DrainDelivers<V>(encode: V -> Bytes, decode: Decode<V>, f: Framer, rest: Bytes, letters: seq<Letter<V>>)
    requires Awaits(encode, f, rest, letters) && AllPosted(encode, decode, letters)
    ensures Delivers(encode, Drain(decode, f), rest, letters)
    decreases |f.buffer|, f.expectedBody.Some?
  {
    hide Awaits, Posts, FindHeaderEnd, BodyLength, Lossy, Before;
    assert letters[0..] == letters;
    match f.expectedBody {
      case None =>
        if letters == [] {
          NothingAwaited(encode, f, rest);
        } else {
          var n := |encode(letters[0].message)|;
          HeaderStep(encode, decode, f, rest, letters);
          var end := FindHeaderEnd(f.buffer);
          if end.Some? {
            DrainDelivers(encode, decode, Framer(f.buffer[end.value + 4..], Some(n)), rest, letters);
          }
        }
      case Some(expected) =>
        BodyStep(encode, f, rest, letters);
        AwaitsSome(encode, f, rest, letters);
        if |f.buffer| >= expected {
          IsPosted(encode, decode, letters);
          var next := Framer(f.buffer[expected..], None);
          DrainDelivers(encode, decode, next, rest, letters[1..]);
          DeliversOne(encode, Drain(decode, next), rest, letters);
        }
    }
  }

  lemma {:induction false} NothingAwaited<V>(encode: V -> Bytes, f: Framer, rest: Bytes)
    requires f.expectedBody.None? && Awaits<V>(encode, f, rest, [])
    ensures f == FRESH && FindHeaderEnd(f.buffer) == None
  {}

  lemma {:induction false} AwaitsSome<V>(encode: V -> Bytes, f: Framer, rest: Bytes, letters: seq<Letter<V>>)
    requires f.expectedBody.Some? && Awaits(encode, f, rest, letters)
    ensures letters != []
  {}

  lemma {:induction false} IsPosted<V>(encode: V -> Bytes, decode: Decode<V>, letters: seq<Letter<V>>)
    requires letters != [] && AllPosted(encode, decode, letters)
    ensures decode(encode(letters[0].message)) == Ok(letters[0].message) && AllPosted(encode, decode, letters[1..])
  {
    assert Posts(encode, decode, letters[0]);
  }

  /** What the reader of the language server's output forwards, and how it ends: it stops at an error. */
  datatype Reading<+V> = Reading(forwarded: seq<V>, end: Result<Framer, Error>)

  function After<V>(messages: seq<V>, r: Reading<V>): Reading<V> {
    Reading(messages + r.forwarded, r.end)
  }

  function Read<V>(decode: Decode<V>, f: Framer, chunks: seq<Bytes>): Reading<V>
    decreases |chunks|
  {
    if chunks == [] then Reading([], Ok(f))
    else
      var p := PushChunk(decode, f, chunks[0]);
      match p.result
      case Err(error) => Reading([], Err(error))
      case Ok(messages) => After(messages, Read(decode, p.framer, chunks[1..]))
  }

  lemma {:induction false} ChunksDeliver<V>(encode: V -> Bytes, decode: Decode<V>, f: Framer, chunks: seq<Bytes>, letters: seq<Letter<V>>)
    requires Awaits(encode, f, Joined(chunks), letters) && AllPosted(encode, decode, letters)
    requires chunks == [] ==> f == FRESH && letters == []
    ensures Read(decode, f, chunks) == Reading(Messages(letters), Ok(FRESH))
    decreases |chunks|
  {
    hide Drain, Posts;
    if chunks != [] {
      var rest := Joined(chunks[1..]);
      assert f.buffer + (chunks[0] + rest) == f.buffer + chunks[0] + rest;
      DrainDelivers(encode, decode, More(f, chunks[0]), rest, letters);
      var p := PushChunk(decode, f, chunks[0]);
      var k := |p.result.value|;
      assert chunks[1..] == [] ==> rest == [];
      ChunksDeliver(encode, decode, p.framer, chunks[1..], letters[k..]);
      assert p.result.value + Messages(letters[k..]) == Messages(letters);
    }
  }

  /**
   * However the pipe cuts the frames of any messages between one byte and
   * 8 MiB, each behind any header of at most 8 KiB that says its length,
   * exactly those messages are forwarded and the framer is empty again.
   */
  lemma {:induction false} LettersRoundTrip<V>(encode: V -> Bytes, decode: Decode<V>, letters: seq<Letter<V>>, chunks: seq<Bytes>)
    requires AllPosted(encode, decode, letters) && Joined(chunks) == Post(encode, letters)
    ensures Read(decode, FRESH, chunks) == Reading(Messages(letters), Ok(FRESH))
  {
    assert [] + Joined(chunks) == Joined(chunks);
    assert letters != [] ==> |Post(encode, letters)| >= 4;
    ChunksDeliver(encode, decode, FRESH, chunks, letters);
  }

  // ---- the frames the server itself writes -----------------------------------------------------------

  function Frame(body: Bytes): Bytes {
    Header(Print(|body|)) + Blankline() + body
  }

  function Frames<V>(encode: V -> Bytes, messages: seq<V>): Bytes {
    if messages == [] then [] else Frame(encode(messages[0])) + Frames(encode, messages[1..])
  }

  lemma {:induction false} HeaderFits(n: nat)
    requires 1 <= n <= MAX_LSP_MESSAGE
    ensures var h := Header(Print(n));
            |h| <= 23 && Plain(h) && Heads(h, n)
  {
    hide Header, BodyLength, Lossy, Print;
    var h := Header(Print(n));
    HeaderIsPlain(Print(n));
    assert Power10(7) == 10 * 10 * 10 * 10 * 10 * 10 * 10 * Power10(0);
    PrintIsShort(n, 7);
    PlainIsText(h);
    ValueOfPrint(n);
    LengthOfHeader(Print(n));
    forall i | 0 <= i < |h|
      ensures !EndsAt(h + Blankline(), i)
    {
      assert (h + Blankline())[i] == h[i];
    }
  }

  /** Each message behind the header that `frame` writes. */
  function Written<V>(encode: V -> Bytes, messages: seq<V>): (letters: seq<Letter<V>>)
    ensures |letters| == |messages|
  {
    seq(|messages|, i requires 0 <= i < |messages| => Letter(Header(Print(|encode(messages[i])|)), messages[i]))
  }

  lemma {:induction false} FramesArePosted<V>(encode: V -> Bytes, messages: seq<V>)
    ensures Frames(encode, messages) == Post(encode, Written(encode, messages))
  {
    hide Header, Blankline, Print;
    if messages != [] {
      FramesArePosted(encode, messages[1..]);
      assert Written(encode, messages)[1..] == Written(encode, messages[1..]);
    }
  }

  /** However the pipe cuts the frames of any messages between one byte and 8 MiB, exactly those messages are forwarded. */
  lemma {:induction false} FramesRoundTrip<V>(encode: V -> Bytes, decode: Decode<V>, messages: seq<V>, chunks: seq<Bytes>)
    requires AllSendable(encode, decode, messages) && Joined(chunks) == Frames(encode, messages)
    ensures Read(decode, FRESH, chunks) == Reading(messages, Ok(FRESH))
  {
    hide Header, Heads, Print, Post, Frames, Read;
    var letters := Written(encode, messages);
    forall i | 0 <= i < |messages|
      ensures Posts(encode, decode, letters[i])
    {
      assert Sendable(encode, decode, messages[i]);
      HeaderFits(|encode(messages[i])|);
    }
    FramesArePosted(encode, messages);
    LettersRoundTrip(encode, decode, letters, chunks);
    assert Messages(letters) == messages;
  }

  // ---- the framer as the program runs it -------------------------------------------------------------

  class LspFramer<V> {
    const decode: Decode<V>
    var buffer: Bytes
    var expectedBody: Option<nat>

    ghost function View(): Framer
      reads this
    {
      Framer(buffer, expectedBody)
    }

    constructor (decode: Decode<V>)
      ensures View() == FRESH && this.decode == decode
    {
      this.decode := decode;
      buffer := [];
      expectedBody := None;
    }

    method Push(chunk: Bytes) returns (r: Result<seq<V>, Error>)
      modifies this
      ensures Pushed(View(), r) == PushChunk(decode, old(View()), chunk)
    {
      hide FindHeaderEnd, BodyLength, Lossy;
      buffer := buffer + chunk;
      ghost var all := Drain(decode, View());
      var messages := [];
      Prepended([], all);
      while true
        invariant all == Prepend(messages, Drain(decode, View()))
        decreases |buffer|, expectedBody.Some?
      {
        if expectedBody.None? {
          var end := FindHeaderEnd(buffer);
          if end.None? {
            if |buffer| > MAX_HEADER {
              return Err(HeaderTooLong);
            }
            break;
          }
          var header := Lossy(buffer[..end.value]);
          buffer := buffer[end.value + 4..];
          var length := BodyLength(header);
          if length.Err? {
            return Err(length.error);
          }
          expectedBody := Some(length.value);
        }
        assert all == Prepend(messages, Drain(decode, View()));
        var expected := expectedBody.value;
        if |buffer| < expected {
          break;
        }
        var body := buffer[..expected];
        buffer := buffer[expected..];
        expectedBody := None;
        var value := decode(body);
        if value.Err? {
          return Err(BadJson(value.error));
        }
        PrependBefore(messages, value.value, Drain(decode, View()));
        messages := messages + [value.value];
      }
      assert messages + [] == messages;
      return Ok(messages);
    }
  }

  ghost function Prepend<V>(messages: seq<V>, p: Pushed<V>): Pushed<V> {
    Pushed(p.framer, if p.result.Ok? then Ok(messages + p.result.value) else p.result)
  }

  lemma {:induction false} Prepended<V>(messages: seq<V>, p: Pushed<V>)
    requires messages == []
    ensures Prepend(messages, p) == p
  {
    if p.result.Ok? {
      assert messages + p.result.value == p.result.value;
    }
  }

  lemma {:induction false} PrependBefore<V>(messages: seq<V>, v: V, p: Pushed<V>)
    ensures Prepend(messages + [v], p) == Prepend(messages, Before(v, p))
  {
    if p.result.Ok? {
      assert messages + [v] + p.result.value == messages + ([v] + p.result.value);
    }
  }
}
