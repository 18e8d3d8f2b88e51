/** What the store's commands promise each other, told by their replies alone. */
module RedisLaws {
  import opened Common
  import opened Text
  import opened Decimal
  import opened Redis

  /** A command's first word and its arguments. */
  function Line(word: Bytes, args: seq<Bytes>): (words: seq<Bytes>)
    ensures words != [] && words[0] == word && words[1..] == args
  {
    [word] + args
  }

  /** The reply to `GET key`. */
  function Answer(db: Db, key: Bytes): Reply {
    Execute(db, Get, Line([71, 69, 84], [key])).1
  }

  /** Every key but one is answered as before. */
  ghost predicate OthersStay(before: Db, after: Db, key: Bytes) {
    forall other: Bytes :: other != key ==> Answer(after, other) == Answer(before, other)
  }

  ghost predicate AllStay(before: Db, after: Db) {
    forall key: Bytes :: Answer(after, key) == Answer(before, key)
  }

  /** The words with one space between each two. */
  ghost predicate Spaced(words: seq<Bytes>, text: Bytes)
    decreases |words|
  {
    words != [] &&
    if |words| == 1 then text == words[0]
    else
      var n := |words| - 1;
      exists front: Bytes :: Spaced(words[..n], front) && text == front + [32] + words[n]
  }

  lemma {:induction false} JoinLast(words: seq<Bytes>)
    requires |words| > 1
    ensures var n := |words| - 1;
            JoinWords(words) == JoinWords(words[..n]) + [32] + words[n]
    decreases |words|
  {
    var n := |words| - 1;
    if n == 1 {
      assert JoinWords(words[1..]) == words[1];
      assert JoinWords(words[..n]) == words[0];
    } else {
      JoinLast(words[1..]);
      assert words[1..][..n - 1] == words[..n][1..];
      assert words[0] + [32] + (JoinWords(words[..n][1..]) + [32] + words[n])
          == words[0] + [32] + JoinWords(words[..n][1..]) + [32] + words[n];
    }
  }

  lemma {:induction false} JoinedIsSpaced(words: seq<Bytes>)
    requires words != []
    ensures Spaced(words, JoinWords(words))
    decreases |words|
  {
    if |words| > 1 {
      JoinLast(words);
      JoinedIsSpaced(words[..|words| - 1]);
    }
  }

  // ---- numbers ---------------------------------------------------------------------------------

  /** Decimal digits behind a sign or none, within 64 bits. */
  predicate Integral(text: Bytes, n: int) {
    && -9223372036854775808 <= n <= 9223372036854775807
    && (|| (text != [] && AllDigits(text) && n == Value(text))
        || (|text| > 1 && text[0] == 43 && AllDigits(text[1..]) && n == Value(text[1..]))
        || (|text| > 1 && text[0] == 45 && AllDigits(text[1..]) && n + Value(text[1..]) == 0))
  }

  lemma {:induction false} ParseIff(text: Bytes, n: int)
    ensures ParseI64(text) == Some(n) <==> Integral(text, n)
    ensures ParseI64(text).None? <==> forall m: int :: !Integral(text, m)
  {
    hide Value;
    assert text != [] && !IsDigit(text[0]) ==> !AllDigits(text);
    forall m: int
      ensures ParseI64(text) == Some(m) <==> Integral(text, m)
    {}
  }

  /** A number as it is printed: digits without a zero in front, and a minus sign before those of a negative one. */
  lemma {:induction false} PrintedNumber(n: int)
    requires -9223372036854775808 <= n <= 9223372036854775807
    ensures var text := PrintInt(n);
            && Integral(text, n)
            && (n > 0 ==> AllDigits(text) && text[0] != 48)
            && (n == 0 ==> text == [48])
            && (n < 0 ==> |text| > 1 && text[0] == 45 && text[1] != 48)
  {
    hide Print, Value;
    var size := if n < 0 then -n else n;
    PrintIsCanonical(size);
    ValueOfPrint(size);
    if n < 0 {
      assert PrintInt(n)[1..] == Print(size);
    }
  }

  // ---- the commands ----------------------------------------------------------------------------

  /** SET: the words behind the key come back, and nothing else changes. */
  lemma {:induction false} SetThenGet(db: Db, word: Bytes, key: Bytes, values: seq<Bytes>)
    requires values != []
    ensures var (after, reply) := Execute(db, Set, Line(word, [key] + values));
            && reply == Okay && OthersStay(db, after, key)
            && exists value: Bytes :: Spaced(values, value) && Answer(after, key) == Found(value)
                 && after.log == db.log + [83, 69, 84, 32] + key + [32] + value + [10]
  {
    hide Spaced, JoinWords;
    var args := [key] + values;
    assert args[1..] == values;
    JoinedIsSpaced(values);
    var value := JoinWords(values);
    assert db.log + SetEntry(key, value) + [NEWLINE] == db.log + [83, 69, 84, 32] + key + [32] + value + [10];
  }

  /** DEL: whether there was anything, and nothing is there afterwards. */
  lemma {:induction false} DelThenGet(db: Db, word: Bytes, key: Bytes)
    ensures var (after, reply) := Execute(db, Del, Line(word, [key]));
            && reply == Integer(if Answer(db, key) == Nil then 0 else 1)
            && Answer(after, key) == Nil && OthersStay(db, after, key)
            && after.log == if Answer(db, key) == Nil then db.log else db.log + [68, 69, 76, 32] + key + [10]
  {
    assert db.log + DelEntry(key) + [NEWLINE] == db.log + [68, 69, 76, 32] + key + [10];
  }

  /** EXISTS: whether GET finds anything, and nothing changes. */
  lemma {:induction false} ExistsIff(db: Db, word: Bytes, key: Bytes)
    ensures Execute(db, Exists, Line(word, [key])) == (db, Integer(if Answer(db, key).Found? then 1 else 0))
  {}

  /** What INCR counts from: what GET finds, or 0. */
  ghost predicate Counts(db: Db, key: Bytes, n: int) {
    if Answer(db, key) == Nil then n == 0 else Integral(Answer(db, key).value, n)
  }

  /** INCR: one more than the number there, 0 if nothing is; refused exactly if it is no number or the largest. */
  lemma {:induction false} IncrAddsOne(db: Db, word: Bytes, key: Bytes)
    ensures var (after, reply) := Execute(db, Incr, Line(word, [key]));
            && (forall n: int :: Counts(db, key, n) && n < 9223372036854775807 ==>
                  && reply == Integer(n + 1) && Answer(after, key) == Found(PrintInt(n + 1)) && Counts(after, key, n + 1)
                  && OthersStay(db, after, key)
                  && after.log == db.log + [83, 69, 84, 32] + key + [32] + PrintInt(n + 1) + [10])
            && ((forall n: int :: Counts(db, key, n) ==> n == 9223372036854775807) ==> reply == NotAnInteger && after == db)
  {
    hide Integral, ParseI64, PrintInt;
    var text := if key in db.store then db.store[key] else [48];
    ZeroIsZero();
    forall n: int
      ensures ParseI64(text) == Some(n) <==> Integral(text, n)
    {
      ParseIff(text, n);
    }
    ParseIff(text, 0);
    forall n: int
      ensures Counts(db, key, n) <==> ParseI64(text) == Some(n)
    {}
    if NextNumber(db.store, key).Some? {
      var next := NextNumber(db.store, key).value;
      ParsedInRange(text, next - 1);
      PrintedNumber(next);
      var printed := PrintInt(next);
      assert db.log + SetEntry(key, printed) + [NEWLINE] == db.log + [83, 69, 84, 32] + key + [32] + printed + [10];
    }
  }

  lemma {:induction false} ZeroIsZero()
    ensures forall n: int :: Integral([48], n) <==> n == 0
  {
    ValueOfOne(48);
  }

  lemma {:induction false} ParsedInRange(text: Bytes, n: int)
    requires Integral(text, n)
    ensures -9223372036854775808 <= n <= 9223372036854775807
  {}

  /** DBSIZE and KEYS: the number of keys that GET finds, and those keys. */
  lemma {:induction false} SizeCountsKeys(db: Db, word: Bytes)
    ensures exists keys: set<Bytes> ::
              && (forall key: Bytes :: key in keys <==> Answer(db, key).Found?)
              && Execute(db, DbSize, Line(word, [])) == (db, Integer(|keys|))
              && Execute(db, KeysOf, Line(word, [])) == (db, Keys(keys))
  {
    var keys := db.store.Keys;
    assert forall key: Bytes :: key in keys <==> Answer(db, key).Found?;
    assert |keys| == |db.store|;
  }

  /** FLUSHALL: nothing is found any more. */
  lemma {:induction false} FlushThenGet(db: Db, word: Bytes)
    ensures var (after, reply) := Execute(db, FlushAll, Line(word, []));
            && reply == Okay && (forall key: Bytes :: Answer(after, key) == Nil)
            && Execute(after, DbSize, Line(word, [])).1 == Integer(0)
            && after.log == db.log + [70, 76, 85, 83, 72, 65, 76, 76] + [10]
  {}

  /** How many arguments each command takes. */
  predicate Takes(command: Command, count: nat) {
    match command
    case Set => count >= 2
    case KeysOf => count <= 1
    case DbSize => count == 0
    case FlushAll => count == 0
    case _ => count == 1
  }

  /** The two complaints about a line, exactly when they are made; and what a complaint or a question changes: nothing. */
  lemma {:induction false} ComplaintIff(db: Db, command: Command, words: seq<Bytes>)
    requires words != []
    ensures var (after, reply) := Execute(db, command, words);
            && (reply == Unknown(words[0]) <==> command == NoCommand)
            && (reply == WrongArity(words[0]) <==> command != NoCommand && !Takes(command, |words| - 1))
            && (reply.Unknown? || reply.WrongArity? || reply.NotAnInteger? ==> after == db)
            && (command in {Get, Exists, KeysOf, DbSize} ==> after == db)
  {}

  // ---- the log's lines -----------------------------------------------------------------------------

  /** A line's operation, up to its first space, and what stands behind that space. */
  predicate Divides(line: Bytes, op: Bytes, rest: Bytes) {
    && (forall i :: 0 <= i < |op| ==> op[i] != 32)
    && (line == op + [32] + rest || (line == op && rest == []))
  }

  lemma {:induction false} DividesIff(line: Bytes, op: Bytes, rest: Bytes)
    ensures Divides(line, op, rest) <==> SplitOnce(line) == (op, rest)
  {
    var space := IndexOf(line, SPACE);
    if Divides(line, op, rest) {
      if line == op + [32] + rest {
        SplitAt(op, rest);
      }
    }
    if space.Some? {
      var n := space.value;
      assert line == line[..n] + [32] + line[n + 1..];
    }
  }

  /** What one line of the log does, told without reading it: whichever way it can be divided. */
  lemma {:induction false} ReplayLineIs(store: Store, line: Bytes, op: Bytes, rest: Bytes, key: Bytes, value: Bytes)
    requires Divides(line, op, rest) && Divides(rest, key, value)
    ensures ReplayLine(store, line) ==
            if op == [83, 69, 84] then store[key := value]
            else if op == [68, 69, 76] then map other | other in store && other != rest :: store[other]
            else if op == [70, 76, 85, 83, 72, 65, 76, 76] then map[]
            else store
  {
    DividesIff(line, op, rest);
    DividesIff(rest, key, value);
    assert store - {rest} == map other | other in store && other != rest :: store[other];
  }

  /** A last line without its end is read too. */
  lemma {:induction false} ReplayTail(log: Bytes, entry: Bytes)
    requires EndsLine(log) && NEWLINE !in entry && entry != []
    ensures Replay(log + entry) == ReplayLine(Replay(log), entry)
  {
    hide ReplayLine;
    LinesBoth(log, entry);
    assert IndexOf(entry, NEWLINE).None?;
    assert Lines(entry) == [entry];
    ReplayBoth(map[], Lines(log), [entry]);
    assert [entry][1..] == [];
  }
}
