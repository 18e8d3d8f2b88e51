/** Where the pipe's cuts show in the framing, and where they do not. */
module LspCuts {
  import opened Common
  import opened Decimal
  import opened Lsp
  import opened Text
  import opened Utf8

  // ---- two pushes are one --------------------------------------------------------------

  lemma {:induction false} PrefixStays(p: Bytes, a: Bytes, b: Bytes)
    requires |p| <= |a|
    ensures p <= a <==> p <= a + b
  {
    assert (a + b)[..|p|] == a[..|p|];
  }

  lemma {:induction false} BlankHasFour()
    ensures |Blankline()| == 4
  {}

  lemma {:induction false} FindStep(s: Bytes)
    ensures |s| < 4 ==> FindHeaderEnd(s) == None
    ensures |s| >= 4 && Blankline() <= s ==> FindHeaderEnd(s) == Some(0)
    ensures |s| >= 4 && !(Blankline() <= s) ==>
              var rest := FindHeaderEnd(s[1..]);
              FindHeaderEnd(s) == if rest.Some? then Some(rest.value + 1) else None
  {
    hide Blankline;
  }

  lemma {:induction false} BlankUpto(s: Bytes, n: nat)
    requires 4 <= n <= |s|
    ensures Blankline() <= s[..n] <==> Blankline() <= s
    ensures s[..n][1..] == s[1..][..n - 1]
  {
    hide Blankline;
    assert s[..n] + s[n..] == s;
    BlankHasFour();
    PrefixStays(Blankline(), s[..n], s[n..]);
  }

  lemma {:induction false} HeaderEndStays(a: Bytes, b: Bytes)
    requires FindHeaderEnd(a).Some?
    ensures FindHeaderEnd(a + b) == FindHeaderEnd(a)
    decreases |a|
  {
    hide FindHeaderEnd, Blankline;
    FindStep(a);
    FindStep(a + b);
    BlankHasFour();
    PrefixStays(Blankline(), a, b);
    if !(Blankline() <= a) {
      assert (a + b)[1..] == a[1..] + b;
      HeaderEndStays(a[1..], b);
    }
  }

  /** What two pushes give when the first one succeeds: its messages, then the second one's. */
  function Then<V>(p: Pushed<V>, q: Pushed<V>): Pushed<V>
    requires p.result.Ok?
  {
    Pushed(q.framer, if q.result.Ok? then Ok(p.result.value + q.result.value) else q.result)
  }

  /** How pushing more relates to the push before it. */
  ghost predicate Extends<V>(decode: Decode<V>, p: Pushed<V>, chunk: Bytes, all: Pushed<V>) {
    match p.result
    case Ok(messages) => all == Then(p, PushChunk(decode, p.framer, chunk))
    case Err(error) => error != HeaderTooLong ==> all.result == p.result
  }

  lemma {:induction false} ThenBefore<V>(v: V, p: Pushed<V>, q: Pushed<V>)
    requires p.result.Ok?
    ensures Then(Before(v, p), q) == Before(v, Then(p, q))
  {
    if q.result.Ok? {
      assert [v] + p.result.value + q.result.value == [v] + (p.result.value + q.result.value);
    }
  }

  lemma {:induction false} DrainExtends<V>(decode: Decode<V>, f: Framer, chunk: Bytes)
    ensures Extends(decode, Drain(decode, f), chunk, Drain(decode, More(f, chunk)))
    decreases |f.buffer|, f.expectedBody.Some?
  {
    hide FindHeaderEnd, BodyLength, Lossy;
    var all := f.buffer + chunk;
    match f.expectedBody {
      case None =>
        var end := FindHeaderEnd(f.buffer);
        if end.None? {
          NothingBefore(decode, f, chunk);
        } else {
          HeaderEndStays(f.buffer, chunk);
          assert all[..end.value] == f.buffer[..end.value];
          assert all[end.value + 4..] == f.buffer[end.value + 4..] + chunk;
          var length := BodyLength(Lossy(f.buffer[..end.value]));
          if length.Ok? {
            DrainExtends(decode, Framer(f.buffer[end.value + 4..], Some(length.value)), chunk);
          }
        }
      case Some(expected) =>
        if |f.buffer| < expected {
          NothingBefore(decode, f, chunk);
        } else {
          assert all[..expected] == f.buffer[..expected];
          assert all[expected..] == f.buffer[expected..] + chunk;
          var rest := Framer(f.buffer[expected..], None);
          DrainExtends(decode, rest, chunk);
          var body := decode(f.buffer[..expected]);
          var p := Drain(decode, rest);
          if body.Ok? && p.result.Ok? {
            ThenBefore(body.value, p, PushChunk(decode, p.framer, chunk));
          }
        }
    }
  }

  /** A push that takes nothing out of the buffer. */
  lemma {:induction false} NothingBefore<V>(decode: Decode<V>, f: Framer, chunk: Bytes)
    requires Drain(decode, f).framer == f && (Drain(decode, f).result.Ok? ==> Drain(decode, f).result.value == [])
    ensures Drain(decode, f).result.Ok? ==> Extends(decode, Drain(decode, f), chunk, Drain(decode, More(f, chunk)))
  {
    hide Drain;
    var q := PushChunk(decode, f, chunk);
    if q.result.Ok? {
      assert [] + q.result.value == q.result.value;
    }
  }

  // ---- headers longer than the limit -----------------------------------------------------

  /**
   * Somewhere in the buffer a header ends of which more than the limit can be
   * read before its end: the program's guard, asked of everything ahead.
   */
  predicate LongHeader<V>(decode: Decode<V>, f: Framer)
    decreases |f.buffer|, f.expectedBody.Some?
  {
    match f.expectedBody
    case None =>
      var end := FindHeaderEnd(f.buffer);
      end.Some? &&
      (|| end.value + 3 > MAX_HEADER
       || var length := BodyLength(Lossy(f.buffer[..end.value]));
          length.Ok? && LongHeader(decode, Framer(f.buffer[end.value + 4..], Some(length.value))))
    case Some(expected) =>
      |f.buffer| >= expected && decode(f.buffer[..expected]).Ok? && LongHeader(decode, Framer(f.buffer[expected..], None))
  }

  /** The last header reached has not ended and is longer than the limit: the program's guard where the buffer ends. */
  predicate Overgrown<V>(decode: Decode<V>, f: Framer)
    decreases |f.buffer|, f.expectedBody.Some?
  {
    match f.expectedBody
    case None =>
      var end := FindHeaderEnd(f.buffer);
      if end.None? then |f.buffer| > MAX_HEADER
      else
        var length := BodyLength(Lossy(f.buffer[..end.value]));
        length.Ok? && Overgrown(decode, Framer(f.buffer[end.value + 4..], Some(length.value)))
    case Some(expected) =>
      |f.buffer| >= expected && decode(f.buffer[..expected]).Ok? && Overgrown(decode, Framer(f.buffer[expected..], None))
  }

  /** Some header ahead says no good length, or some body is no JSON. */
  predicate Malformed<V>(decode: Decode<V>, f: Framer)
    decreases |f.buffer|, f.expectedBody.Some?
  {
    match f.expectedBody
    case None =>
      var end := FindHeaderEnd(f.buffer);
      end.Some? &&
      var length := BodyLength(Lossy(f.buffer[..end.value]));
      length.Err? || Malformed(decode, Framer(f.buffer[end.value + 4..], Some(length.value)))
    case Some(expected) =>
      |f.buffer| >= expected && (decode(f.buffer[..expected]).Err? || Malformed(decode, Framer(f.buffer[expected..], None)))
  }

  /** The messages that are complete before the buffer ends or an error stops the reading. */
  function Messages<V>(decode: Decode<V>, f: Framer): seq<V>
    decreases |f.buffer|, f.expectedBody.Some?
  {
    match f.expectedBody
    case None =>
      var end := FindHeaderEnd(f.buffer);
      if end.None? then []
      else
        var length := BodyLength(Lossy(f.buffer[..end.value]));
        if length.Err? then [] else Messages(decode, Framer(f.buffer[end.value + 4..], Some(length.value)))
    case Some(expected) =>
      if |f.buffer| < expected then []
      else
        var body := decode(f.buffer[..expected]);
        if body.Err? then [] else [body.value] + Messages(decode, Framer(f.buffer[expected..], None))
  }

  /** Nothing in the buffer waits to be taken out of it: so after every push that succeeds. */
  ghost predicate Settled<V>(decode: Decode<V>, f: Framer) {
    Drain(decode, f) == Pushed(f, Ok([]))
  }

  /** Where the reading of a whole buffer ends in an error, told from its bytes. */
  lemma {:induction false} RefusedIff<V>(decode: Decode<V>, f: Framer)
    ensures Drain(decode, f).result == Err(HeaderTooLong) <==> Overgrown(decode, f)
    ensures Drain(decode, f).result.Err? <==> Overgrown(decode, f) || Malformed(decode, f)
    decreases |f.buffer|, f.expectedBody.Some?
  {
    hide FindHeaderEnd, BodyLength, Lossy;
    match f.expectedBody {
      case None =>
        var end := FindHeaderEnd(f.buffer);
        if end.Some? {
          var length := BodyLength(Lossy(f.buffer[..end.value]));
          if length.Ok? {
            RefusedIff(decode, Framer(f.buffer[end.value + 4..], Some(length.value)));
          }
        }
      case Some(expected) =>
        if |f.buffer| >= expected {
          RefusedIff(decode, Framer(f.buffer[expected..], None));
        }
    }
  }

  function Upto(f: Framer, n: nat): Framer
    requires n <= |f.buffer|
  {
    f.(buffer := f.buffer[..n])
  }

  lemma {:induction false} HeaderEndFrom(s: Bytes, n: nat)
    requires FindHeaderEnd(s).Some? && n <= |s|
    ensures FindHeaderEnd(s[..n]) == if n >= FindHeaderEnd(s).value + 4 then FindHeaderEnd(s) else None
    decreases |s|
  {
    hide Blankline, FindHeaderEnd;
    FindStep(s);
    FindStep(s[..n]);
    if n >= 4 {
      BlankUpto(s, n);
      if !(Blankline() <= s) {
        HeaderEndFrom(s[1..], n - 1);
      }
    }
  }

  /** A header found too long stays so, or ends and is one that was too long on the way. */
  lemma {:induction false} TooLongMeans<V>(decode: Decode<V>, f: Framer, chunk: Bytes)
    requires Drain(decode, f).result == Err(HeaderTooLong)
    ensures LongHeader(decode, More(f, chunk)) || Drain(decode, More(f, chunk)).result == Err(HeaderTooLong)
    decreases |f.buffer|, f.expectedBody.Some?
  {
    hide FindHeaderEnd, BodyLength, Lossy;
    var all := f.buffer + chunk;
    match f.expectedBody {
      case None =>
        var end := FindHeaderEnd(f.buffer);
        if end.None? {
          if FindHeaderEnd(all).Some? {
            HeaderEndFrom(all, |f.buffer|);
            assert all[..|f.buffer|] == f.buffer;
          }
        } else {
          HeaderEndStays(f.buffer, chunk);
          assert all[..end.value] == f.buffer[..end.value];
          assert all[end.value + 4..] == f.buffer[end.value + 4..] + chunk;
          var length := BodyLength(Lossy(f.buffer[..end.value]));
          TooLongMeans(decode, Framer(f.buffer[end.value + 4..], Some(length.value)), chunk);
        }
      case Some(expected) =>
        assert all[..expected] == f.buffer[..expected];
        assert all[expected..] == f.buffer[expected..] + chunk;
        TooLongMeans(decode, Framer(f.buffer[expected..], None), chunk);
    }
  }

  /** Of a buffer with a header in front, more bytes change only what is behind it. */
  lemma {:induction false} HeaderAhead(f: Framer, chunk: Bytes)
    requires FindHeaderEnd(f.buffer).Some?
    ensures var n, all := FindHeaderEnd(f.buffer).value, f.buffer + chunk;
            && FindHeaderEnd(all) == Some(n)
            && all[..n] == f.buffer[..n] && all[n + 4..] == f.buffer[n + 4..] + chunk
  {
    hide FindHeaderEnd;
    HeaderEndStays(f.buffer, chunk);
  }

  lemma {:induction false} BodyAhead(f: Framer, chunk: Bytes)
    requires f.expectedBody.Some? && |f.buffer| >= f.expectedBody.value
    ensures var n, all := f.expectedBody.value, f.buffer + chunk;
            all[..n] == f.buffer[..n] && all[n..] == f.buffer[n..] + chunk
  {}

  /** After a push that succeeds, nothing waits. */
  lemma {:induction false} DrainSettles<V>(decode: Decode<V>, f: Framer)
    requires Drain(decode, f).result.Ok?
    ensures Settled(decode, Drain(decode, f).framer)
    decreases |f.buffer|, f.expectedBody.Some?
  {
    hide FindHeaderEnd, BodyLength, Lossy;
    match f.expectedBody {
      case None =>
        var end := FindHeaderEnd(f.buffer);
        if end.Some? {
          DrainSettles(decode, Framer(f.buffer[end.value + 4..], Some(BodyLength(Lossy(f.buffer[..end.value])).value)));
        }
      case Some(expected) =>
        if |f.buffer| >= expected {
          DrainSettles(decode, Framer(f.buffer[expected..], None));
        }
    }
  }

  /** A long header ahead of what a push leaves was ahead before it. */
  lemma {:induction false} LongAhead<V>(decode: Decode<V>, f: Framer, chunk: Bytes)
    requires Drain(decode, f).result.Ok?
    ensures LongHeader(decode, More(Drain(decode, f).framer, chunk)) ==> LongHeader(decode, More(f, chunk))
    decreases |f.buffer|, f.expectedBody.Some?
  {
    hide FindHeaderEnd, BodyLength, Lossy;
    match f.expectedBody {
      case None =>
        var end := FindHeaderEnd(f.buffer);
        if end.Some? {
          HeaderAhead(f, chunk);
          var length := BodyLength(Lossy(f.buffer[..end.value]));
          LongAhead(decode, Framer(f.buffer[end.value + 4..], Some(length.value)), chunk);
        }
      case Some(expected) =>
        if |f.buffer| >= expected {
          BodyAhead(f, chunk);
          LongAhead(decode, Framer(f.buffer[expected..], None), chunk);
        }
    }
  }

  /** The messages ahead are those a push returns and those ahead of what it leaves. */
  lemma {:induction false} MessagesAhead<V>(decode: Decode<V>, f: Framer, chunk: Bytes)
    requires Drain(decode, f).result.Ok?
    ensures var p := Drain(decode, f);
            Messages(decode, More(f, chunk)) == p.result.value + Messages(decode, More(p.framer, chunk))
    decreases |f.buffer|, f.expectedBody.Some?
  {
    hide FindHeaderEnd, BodyLength, Lossy;
    match f.expectedBody {
      case None =>
        var end := FindHeaderEnd(f.buffer);
        if end.Some? {
          HeaderAhead(f, chunk);
          var length := BodyLength(Lossy(f.buffer[..end.value]));
          MessagesAhead(decode, Framer(f.buffer[end.value + 4..], Some(length.value)), chunk);
        } else {
          assert [] + Messages(decode, More(f, chunk)) == Messages(decode, More(f, chunk));
        }
      case Some(expected) =>
        if |f.buffer| >= expected {
          hide Drain, Messages;
          var rest := Framer(f.buffer[expected..], None);
          MessagesAhead(decode, rest, chunk);
          BodyThenMessages(decode, f, chunk);
          var p := Drain(decode, rest);
          PrependAhead(decode(f.buffer[..expected]).value, p.result.value, Messages(decode, More(p.framer, chunk)));
        } else {
          assert [] + Messages(decode, More(f, chunk)) == Messages(decode, More(f, chunk));
        }
    }
  }

  lemma {:induction false} BodyThenMessages<V>(decode: Decode<V>, f: Framer, chunk: Bytes)
    requires f.expectedBody.Some? && |f.buffer| >= f.expectedBody.value && Drain(decode, f).result.Ok?
    ensures var v, rest := decode(f.buffer[..f.expectedBody.value]), Framer(f.buffer[f.expectedBody.value..], None);
            && v.Ok? && Drain(decode, f) == Before(v.value, Drain(decode, rest))
            && Messages(decode, More(f, chunk)) == [v.value] + Messages(decode, More(rest, chunk))
  {
    BodyAhead(f, chunk);
  }

  lemma {:induction false} PrependAhead<V>(v: V, a: seq<V>, b: seq<V>)
    ensures [v] + (a + b) == [v] + a + b
  {}

  /**
   * Pushing two chunks one after the other is pushing them as one: the same
   * messages, the same state, the same error. Only a header that has outgrown
   * the limit can end in the second chunk.
   */
  lemma {:induction false} TwoPushesAreOne<V>(decode: Decode<V>, f: Framer, a: Bytes, b: Bytes)
    ensures var first := PushChunk(decode, f, a);
            var both := PushChunk(decode, f, a + b);
            match first.result
            case Ok(_) => both == Then(first, PushChunk(decode, first.framer, b))
            case Err(error) => both.result == first.result || (error == HeaderTooLong && LongHeader(decode, More(f, a + b)))
  {
    hide Drain, LongHeader;
    assert f.buffer + (a + b) == f.buffer + a + b;
    DrainExtends(decode, More(f, a), b);
    if PushChunk(decode, f, a).result == Err(HeaderTooLong) {
      TooLongMeans(decode, More(f, a), b);
    }
  }

  // ---- where a cut shows -----------------------------------------------------------------

  lemma {:induction false} LongHeaderCut<V>(decode: Decode<V>, f: Framer) returns (n: nat)
    requires LongHeader(decode, f)
    ensures n <= |f.buffer| && Drain(decode, Upto(f, n)).result == Err(HeaderTooLong)
    decreases |f.buffer|, f.expectedBody.Some?
  {
    hide FindHeaderEnd, BodyLength, Lossy;
    match f.expectedBody {
      case None =>
        var end := FindHeaderEnd(f.buffer).value;
        if end + 3 > MAX_HEADER {
          n := end + 3;
          HeaderEndFrom(f.buffer, n);
        } else {
          var next := Framer(f.buffer[end + 4..], Some(BodyLength(Lossy(f.buffer[..end])).value));
          var m := LongHeaderCut(decode, next);
          n := end + 4 + m;
          HeaderEndFrom(f.buffer, n);
          assert f.buffer[..n][..end] == f.buffer[..end] && f.buffer[..n][end + 4..] == next.buffer[..m];
        }
      case Some(expected) =>
        var next := Framer(f.buffer[expected..], None);
        var m := LongHeaderCut(decode, next);
        n := expected + m;
        assert f.buffer[..n][..expected] == f.buffer[..expected] && f.buffer[..n][expected..] == next.buffer[..m];
    }
  }

  /** Right behind the first complete message a cut hands that message out. */
  lemma {:induction false} MessageCut<V>(decode: Decode<V>, f: Framer) returns (n: nat)
    requires Messages(decode, f) != []
    ensures n <= |f.buffer| && Drain(decode, Upto(f, n)).result == Ok([Messages(decode, f)[0]])
    decreases |f.buffer|, f.expectedBody.Some?
  {
    hide FindHeaderEnd, BodyLength, Lossy;
    match f.expectedBody {
      case None =>
        var end := FindHeaderEnd(f.buffer).value;
        var next := Framer(f.buffer[end + 4..], Some(BodyLength(Lossy(f.buffer[..end])).value));
        var m := MessageCut(decode, next);
        n := end + 4 + m;
        HeaderEndFrom(f.buffer, n);
        assert f.buffer[..n][..end] == f.buffer[..end] && f.buffer[..n][end + 4..] == next.buffer[..m];
      case Some(expected) =>
        n := expected;
        var v := decode(f.buffer[..expected]).value;
        assert f.buffer[..n][..expected] == f.buffer[..expected] && f.buffer[..n][expected..] == [];
        assert Drain(decode, FRESH) == Pushed(FRESH, Ok([])) by { NothingFound(); }
        assert [v] + [] == [v];
    }
  }

  lemma {:induction false} NothingFound()
    ensures FindHeaderEnd([]) == None
  {}

  lemma {:induction false} SettledUpto<V>(decode: Decode<V>, f: Framer, n: nat)
    requires Settled(decode, f) && n <= |f.buffer|
    ensures Drain(decode, Upto(f, n)).result == Ok([])
  {
    hide FindHeaderEnd;
    var g := Upto(f, n);
    if f.expectedBody.None? {
      SettledHeader(decode, f);
      assert g.buffer + f.buffer[n..] == f.buffer;
      if FindHeaderEnd(g.buffer).Some? {
        HeaderEndStays(g.buffer, f.buffer[n..]);
      }
    } else {
      SettledBody(decode, f);
    }
  }

  lemma {:induction false} SettledHeader<V>(decode: Decode<V>, f: Framer)
    requires Settled(decode, f) && f.expectedBody.None?
    ensures FindHeaderEnd(f.buffer).None? && |f.buffer| <= MAX_HEADER
  {
    var end := FindHeaderEnd(f.buffer);
    if end.Some? {
      DrainShrinks(decode, Framer(f.buffer[end.value + 4..], Some(BodyLength(Lossy(f.buffer[..end.value])).value)));
    }
  }

  lemma {:induction false} SettledBody<V>(decode: Decode<V>, f: Framer)
    requires Settled(decode, f) && f.expectedBody.Some?
    ensures |f.buffer| < f.expectedBody.value
  {}

  lemma {:induction false} DrainShrinks<V>(decode: Decode<V>, f: Framer)
    ensures |Drain(decode, f).framer.buffer| <= |f.buffer|
    decreases |f.buffer|, f.expectedBody.Some?
  {
    hide FindHeaderEnd, BodyLength, Lossy;
    match f.expectedBody {
      case None =>
        var end := FindHeaderEnd(f.buffer);
        if end.Some? {
          var length := BodyLength(Lossy(f.buffer[..end.value]));
          if length.Ok? {
            DrainShrinks(decode, Framer(f.buffer[end.value + 4..], Some(length.value)));
          }
        }
      case Some(expected) =>
        if |f.buffer| >= expected {
          DrainShrinks(decode, Framer(f.buffer[expected..], None));
        }
    }
  }

  /** Of a cut of everything ahead that shows, the part not yet in the buffer. */
  lemma {:induction false} CutOfStream<V>(decode: Decode<V>, f: Framer, stream: Bytes, n: nat) returns (a: Bytes, b: Bytes)
    requires Settled(decode, f) && n <= |f.buffer + stream|
    requires Drain(decode, Upto(More(f, stream), n)).result != Ok([])
    ensures a + b == stream && More(f, a) == Upto(More(f, stream), n)
  {
    hide Drain, Settled;
    var all := f.buffer + stream;
    if n < |f.buffer| {
      assert all[..n] == f.buffer[..n];
      SettledUpto(decode, f, n);
    }
    a, b := stream[..n - |f.buffer|], stream[n - |f.buffer|..];
    assert f.buffer + a == all[..n];
  }

  // ---- every cut -------------------------------------------------------------------------

  /** The stream as one chunk. */
  function Uncut<V>(decode: Decode<V>, f: Framer, stream: Bytes): Reading<V> {
    Read(decode, f, [stream])
  }

  /** Ends as the other does; if that is no error, has forwarded the same. */
  predicate EndsAlike<V(==)>(r: Reading<V>, other: Reading<V>) {
    r.end == other.end && (r.end.Ok? ==> r == other)
  }

  lemma {:induction false} UncutIsPush<V>(decode: Decode<V>, f: Framer, stream: Bytes)
    ensures var p := PushChunk(decode, f, stream);
            Uncut(decode, f, stream) == (match p.result
                                         case Ok(messages) => Reading(messages, Ok(p.framer))
                                         case Err(error) => Reading([], Err(error)))
  {
    hide Drain;
    var p := PushChunk(decode, f, stream);
    assert [stream][1..] == [];
    assert Read(decode, p.framer, []) == Reading([], Ok(p.framer));
    if p.result.Ok? {
      assert p.result.value + [] == p.result.value;
    }
  }

  lemma {:induction false} EveryCutEndsAlike<V>(decode: Decode<V>, f: Framer, chunks: seq<Bytes>)
    requires Settled(decode, f)
    requires var stream := Joined(chunks);
             LongHeader(decode, More(f, stream)) ==> Uncut(decode, f, stream).end == Err(HeaderTooLong)
    ensures EndsAlike(Read(decode, f, chunks), Uncut(decode, f, Joined(chunks)))
    decreases |chunks|
  {
    hide Drain, LongHeader, Settled, Uncut, Messages;
    var stream := Joined(chunks);
    UncutIsPush(decode, f, stream);
    if chunks == [] {
      SettledPush(decode, f);
    } else {
      var a, b := chunks[0], Joined(chunks[1..]);
      TwoPushesAreOne(decode, f, a, b);
      var first := PushChunk(decode, f, a);
      if first.result.Ok? {
        Onward(decode, f, a, b);
        UncutIsPush(decode, first.framer, b);
        EveryCutEndsAlike(decode, first.framer, chunks[1..]);
      }
    }
  }

  lemma {:induction false} SettledPush<V>(decode: Decode<V>, f: Framer)
    requires Settled(decode, f)
    ensures PushChunk(decode, f, []) == Pushed(f, Ok([]))
  {
    assert f.buffer + [] == f.buffer;
    assert More(f, []) == f;
  }

  lemma {:induction false} Onward<V>(decode: Decode<V>, f: Framer, a: Bytes, b: Bytes)
    requires PushChunk(decode, f, a).result.Ok?
    ensures var first := PushChunk(decode, f, a);
            && Settled(decode, first.framer)
            && (LongHeader(decode, More(first.framer, b)) ==> LongHeader(decode, More(f, a + b)))
            && Messages(decode, More(f, a + b)) == first.result.value + Messages(decode, More(first.framer, b))
  {
    hide Drain, LongHeader, Messages;
    DrainSettles(decode, More(f, a));
    LongAhead(decode, More(f, a), b);
    MessagesAhead(decode, More(f, a), b);
    assert f.buffer + a + b == f.buffer + (a + b);
    assert More(More(f, a), b) == More(f, a + b);
  }

  /**
   * All cuts of a stream end as the uncut stream does — with the same error,
   * or with the same messages and the same state — exactly when no header in
   * it ends after outgrowing the limit, or the last one it reaches has
   * outgrown it and does not end.
   */
  lemma {:induction false} CutsEndAlikeIff<V>(decode: Decode<V>, f: Framer, stream: Bytes)
    requires Settled(decode, f)
    ensures (forall chunks :: Joined(chunks) == stream ==> EndsAlike(Read(decode, f, chunks), Uncut(decode, f, stream)))
            <==> (!LongHeader(decode, More(f, stream)) || Overgrown(decode, More(f, stream)))
  {
    hide Drain, LongHeader, Overgrown, Malformed, Settled, Uncut, Read;
    UncutIsPush(decode, f, stream);
    RefusedIff(decode, More(f, stream));
    if !LongHeader(decode, More(f, stream)) || Overgrown(decode, More(f, stream)) {
      forall chunks | Joined(chunks) == stream
        ensures EndsAlike(Read(decode, f, chunks), Uncut(decode, f, stream))
      {
        EveryCutEndsAlike(decode, f, chunks);
      }
    } else {
      var n := LongHeaderCut(decode, More(f, stream));
      var a, b := CutOfStream(decode, f, stream, n);
      ReadOfTwo(decode, f, a, b);
      assert !EndsAlike(Read(decode, f, [a, b]), Uncut(decode, f, stream));
    }
  }

  lemma {:induction false} ReadOfTwo<V>(decode: Decode<V>, f: Framer, a: Bytes, b: Bytes)
    ensures Joined([a, b]) == a + b
    ensures var first := PushChunk(decode, f, a);
            match first.result
            case Ok(messages) => messages <= Read(decode, f, [a, b]).forwarded
            case Err(error) => Read(decode, f, [a, b]) == Reading([], Err(error))
  {
    hide Drain;
    assert [a, b][1..] == [b] && [b][1..] == [];
    assert Joined([b]) == b + [] == b;
  }

  lemma {:induction false} ForwardsComplete<V>(decode: Decode<V>, f: Framer, chunks: seq<Bytes>)
    ensures Read(decode, f, chunks).forwarded <= Messages(decode, More(f, Joined(chunks)))
    decreases |chunks|
  {
    hide Drain, LongHeader, Settled, Messages;
    if chunks != [] {
      var a, b := chunks[0], Joined(chunks[1..]);
      var first := PushChunk(decode, f, a);
      if first.result.Ok? {
        Onward(decode, f, a, b);
        ForwardsComplete(decode, first.framer, chunks[1..]);
      }
    }
  }

  /**
   * All cuts forward the same messages and end alike exactly when, besides,
   * no message is complete before an error in it: an error drops the messages
   * of its own push.
   */
  lemma {:induction false} CutsReadAlikeIff<V>(decode: Decode<V>, f: Framer, stream: Bytes)
    requires Settled(decode, f)
    ensures (forall chunks :: Joined(chunks) == stream ==> Read(decode, f, chunks) == Uncut(decode, f, stream))
            <==> var all := More(f, stream);
                 && (!LongHeader(decode, all) || Overgrown(decode, all))
                 && (Overgrown(decode, all) || Malformed(decode, all) ==> Messages(decode, all) == [])
  {
    hide Drain, LongHeader, Overgrown, Malformed, Settled, Uncut, Read, Messages;
    RefusedIff(decode, More(f, stream));
    var uncut := Uncut(decode, f, stream);
    CutsEndAlikeIff(decode, f, stream);
    UncutIsPush(decode, f, stream);
    if uncut.end.Err? && Messages(decode, More(f, stream)) != [] {
      var n := MessageCut(decode, More(f, stream));
      var a, b := CutOfStream(decode, f, stream, n);
      ReadOfTwo(decode, f, a, b);
      assert Read(decode, f, [a, b]) != uncut;
    } else {
      forall chunks | Joined(chunks) == stream && EndsAlike(Read(decode, f, chunks), uncut)
        ensures Read(decode, f, chunks) == uncut
      {
        ForwardsComplete(decode, f, chunks);
      }
    }
  }

  // ---- one long header -------------------------------------------------------------------

  /** Such streams exist: a long header fails or not depending on where the pipe cuts it. */
  lemma {:induction false} LongHeaderTellsTheCuts<V>(decode: Decode<V>)
    ensures exists a: Bytes, b: Bytes ::
              && PushChunk(decode, FRESH, a).result == Err(HeaderTooLong)
              && PushChunk(decode, FRESH, a + b).result == Ok([])
  {
    var digits: Bytes := [49];
    var name, filler := Header(digits), Filler(MAX_HEADER);
    var a := name + CrLf() + filler;
    var b := Blankline();
    OneLongHeader(name, filler, digits);
    assert [] + a == a && [] + (a + b) == a + b;
    assert (a + b)[..|a|] == a && (a + b)[|a| + 4..] == [];
    assert Drain(decode, Framer([], Some(1))) == Pushed(Framer([], Some(1)), Ok([]));
    assert PushChunk(decode, FRESH, a).result == Err(HeaderTooLong);
    assert PushChunk(decode, FRESH, a + b).result == Ok([]);
  }

  function Filler(n: nat): Bytes {
    seq(n, i => 120 as byte)
  }

  lemma {:induction false} OneLongHeader(name: Bytes, filler: Bytes, digits: Bytes)
    requires digits == [49] && name == Header(digits) && filler == Filler(MAX_HEADER)
    ensures var a := name + CrLf() + filler;
            && |a| > MAX_HEADER && FindHeaderEnd(a) == None
            && FindHeaderEnd(a + Blankline()) == Some(|a|)
            && BodyLength(Lossy(a)) == Ok(1)
  {
    hide Header, BodyLength, Lossy, FindHeaderEnd, SplitCrLf;
    var a := name + CrLf() + filler;
    HeaderIsPlain(digits);
    assert Plain(filler);
    PlainIsText(a);
    EndOfLong(name, filler);
    SplitLine(name, filler);
    SplitPlain(filler);
    LinesOfLong(name, filler, digits);
    assert [name] + [filler] == [name, filler];
    assert digits[..0] == [] && Value([]) == 0 && Value(digits) == 1;
    OneLengthLine(digits, [name, filler]);
  }

  lemma {:induction false} EndOfLong(name: Bytes, filler: Bytes)
    requires Plain(name) && Plain(filler) && filler != []
    ensures var a := name + CrLf() + filler;
            FindHeaderEnd(a) == None && FindHeaderEnd(a + Blankline()) == Some(|a|)
  {
    var a := name + CrLf() + filler;
    var all := a + Blankline();
    assert forall i :: 0 <= i < |name| ==> a[i] == name[i] && all[i] == name[i];
    assert forall i :: |name| + 2 <= i < |a| ==> a[i] == filler[i - |name| - 2] && all[i] == a[i];
    FirstEnd(a, |a|);
    FirstEnd(all, |a|);
  }

  lemma {:induction false} LinesOfLong(name: Bytes, filler: Bytes, digits: Bytes)
    requires name == Header(digits) && filler == Filler(MAX_HEADER)
    ensures LengthLines([name, filler]) == [name]
  {
    hide Header, IsLengthLine;
    HeaderIsLengthLine(digits);
    FillerIsNoLength(filler);
    assert [name, filler][1..] == [filler] && [filler][1..] == [];
    assert LengthLines([]) == [];
  }

  lemma {:induction false} FillerIsNoLength(filler: Bytes)
    requires filler == Filler(MAX_HEADER)
    ensures !IsLengthLine(filler)
  {
    assert LowerAll(filler)[0] == 120;
    assert Ascii("content-length:")[0] == 99;
  }
}
