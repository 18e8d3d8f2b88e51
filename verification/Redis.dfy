/** The demo key-value store: a map in memory, and a log that replays to it. */
module Redis {
  import opened Common
  import opened Text
  import opened Decimal

  type Store = map<Bytes, Bytes>

  // ---- the log as lines --------------------------------------------------------------------

  /** A piece of text without its line ending: a newline, with a carriage return before it if there is one. */
  function WithoutEnd(piece: Bytes): Bytes {
    if piece == [] || piece[|piece| - 1] != NEWLINE then piece
    else WithoutReturn(piece[..|piece| - 1])
  }

  function WithoutReturn(line: Bytes): Bytes {
    if line != [] && line[|line| - 1] == CARRIAGE_RETURN then line[..|line| - 1] else line
  }

  /** What stands before the first space, and what behind it. */
  function SplitOnce(s: Bytes): (Bytes, Bytes) {
    var space := IndexOf(s, SPACE);
    if space.None? then (s, []) else (s[..space.value], s[space.value + 1..])
  }

  function SetWord(): (w: Bytes)
    ensures w == [83, 69, 84]
  {
    [83, 69, 84]
  }

  function DelWord(): (w: Bytes)
    ensures w == [68, 69, 76]
  {
    [68, 69, 76]
  }

  function FlushWord(): (w: Bytes)
    ensures w == [70, 76, 85, 83, 72, 65, 76, 76]
  {
    [70, 76, 85, 83, 72, 65, 76, 76]
  }

  function ReplayLine(store: Store, line: Bytes): Store {
    var (op, rest) := SplitOnce(line);
    if op == SetWord() then
      var (key, value) := SplitOnce(rest);
      store[key := value]
    else if op == DelWord() then store - {rest}
    else if op == FlushWord() then map[]
    else store
  }

  function ReplayLines(store: Store, pieces: seq<Bytes>): Store
    decreases |pieces|
  {
    if pieces == [] then store
    else ReplayLines(ReplayLine(store, WithoutEnd(pieces[0])), pieces[1..])
  }

  function Replay(text: Bytes): Store {
    ReplayLines(map[], Lines(text))
  }

  // ---- entries -----------------------------------------------------------------------------

  function SetEntry(key: Bytes, value: Bytes): Bytes {
    SetWord() + [SPACE] + key + [SPACE] + value
  }

  function DelEntry(key: Bytes): Bytes {
    DelWord() + [SPACE] + key
  }

  /** A log that grows line by line. */
  predicate EndsLine(log: Bytes) {
    log == [] || log[|log| - 1] == NEWLINE
  }

  function Append(log: Bytes, entry: Bytes): Bytes {
    log + entry + [NEWLINE]
  }

  /** The first line of a text that has one stays the first whatever follows. */
  lemma {:induction false} FirstLine(a: Bytes, b: Bytes)
    requires a != [] && EndsLine(a)
    ensures IndexOf(a, NEWLINE).Some? && IndexOf(a + b, NEWLINE) == IndexOf(a, NEWLINE)
    ensures var n := IndexOf(a, NEWLINE).value + 1;
            (a + b)[..n] == a[..n] && (a + b)[n..] == a[n..] + b && EndsLine(a[n..])
  {
    assert a[|a| - 1] == NEWLINE;
    assert forall k :: 0 <= k < |a| ==> (a + b)[k] == a[k];
    var n := IndexOf(a, NEWLINE).value + 1;
    assert a[n..] != [] ==> a[n..][|a[n..]| - 1] == a[|a| - 1];
  }

  lemma {:induction false} LinesOf(text: Bytes, i: nat)
    requires IndexOf(text, NEWLINE) == Some(i)
    ensures i < |text| && Lines(text) == [text[..i + 1]] + Lines(text[i + 1..])
  {
    hide IndexOf;
  }

  lemma {:induction false} NoLines(a: Bytes, b: Bytes)
    requires a == []
    ensures Lines(a + b) == Lines(a) + Lines(b)
  {
    hide IndexOf;
    assert a + b == b && Lines(a) == [];
  }

  lemma {:induction false} LinesBoth(a: Bytes, b: Bytes)
    requires EndsLine(a)
    ensures Lines(a + b) == Lines(a) + Lines(b)
    decreases |a|
  {
    hide EndsLine, Lines;
    if a == [] {
      NoLines(a, b);
    } else {
      FirstLine(a, b);
      var i := IndexOf(a, NEWLINE).value;
      var n := i + 1;
      LinesOf(a, i);
      LinesOf(a + b, i);
      LinesBoth(a[n..], b);
      Regroup(a[..n], Lines(a[n..]), Lines(b));
    }
  }

  lemma {:induction false} Regroup(line: Bytes, a: seq<Bytes>, b: seq<Bytes>)
    ensures [line] + (a + b) == [line] + a + b
  {}

  lemma {:induction false} OneLine(entry: Bytes)
    requires NEWLINE !in entry
    ensures Lines(entry + [NEWLINE]) == [entry + [NEWLINE]]
  {
    var line := entry + [NEWLINE];
    assert line[|entry|] == NEWLINE;
    assert forall k :: 0 <= k < |entry| ==> line[k] == entry[k];
    assert IndexOf(line, NEWLINE) == Some(|entry|);
    assert line[|entry| + 1..] == [] && line[..|entry| + 1] == line;
  }

  lemma {:induction false} ReplayBoth(store: Store, a: seq<Bytes>, b: seq<Bytes>)
    ensures ReplayLines(store, a + b) == ReplayLines(ReplayLines(store, a), b)
    decreases |a|
  {
    if a == [] {
      assert a + b == b;
    } else {
      assert (a + b)[1..] == a[1..] + b;
      ReplayBoth(ReplayLine(store, WithoutEnd(a[0])), a[1..], b);
    }
  }

  /** A line more in the log is a step more in the replay. */
  lemma {:induction false} ReplayAppend(log: Bytes, entry: Bytes)
    requires EndsLine(log) && NEWLINE !in entry
    ensures Replay(Append(log, entry)) == ReplayLine(Replay(log), WithoutReturn(entry)) && EndsLine(Append(log, entry))
  {
    hide ReplayLine, Lines, WithoutReturn;
    var line := entry + [NEWLINE];
    assert log + line == Append(log, entry);
    LinesBoth(log, line);
    OneLine(entry);
    var one: seq<Bytes> := [line];
    ReplayBoth(map[], Lines(log), one);
    assert line[..|line| - 1] == entry;
    assert one[1..] == [];
  }

  lemma {:induction false} SplitAt(a: Bytes, b: Bytes)
    requires SPACE !in a
    ensures SplitOnce(a + [SPACE] + b) == (a, b)
  {
    var s := a + [SPACE] + b;
    assert s[|a|] == SPACE;
    assert forall k :: 0 <= k < |a| ==> s[k] == a[k];
    assert IndexOf(s, SPACE) == Some(|a|);
    assert s[..|a|] == a && s[|a| + 1..] == b;
  }

  lemma {:induction false} ReplaySet(store: Store, key: Bytes, value: Bytes)
    requires SPACE !in key
    ensures ReplayLine(store, SetEntry(key, value)) == store[key := value]
  {
    var rest := key + [SPACE] + value;
    assert SetEntry(key, value) == SetWord() + [SPACE] + rest;
    SplitAt(SetWord(), rest);
    SplitAt(key, value);
  }

  lemma {:induction false} ReplayDel(store: Store, key: Bytes)
    ensures ReplayLine(store, DelEntry(key)) == store - {key}
  {
    SplitAt(DelWord(), key);
  }

  lemma {:induction false} ReplayFlush(store: Store)
    ensures ReplayLine(store, FlushWord()) == map[]
  {
    assert SPACE !in FlushWord();
  }

  /** Of an entry, a last carriage return is the value's and goes with the line ending. */
  lemma {:induction false} SetWithoutReturn(key: Bytes, value: Bytes)
    ensures WithoutReturn(SetEntry(key, value)) == SetEntry(key, WithoutReturn(value))
  {
    var entry := SetEntry(key, value);
    if value != [] {
      assert entry[|entry| - 1] == value[|value| - 1];
      if value[|value| - 1] == CARRIAGE_RETURN {
        assert entry[..|entry| - 1] == SetEntry(key, value[..|value| - 1]);
      }
    } else {
      assert entry[|entry| - 1] == SPACE;
    }
  }

  // ---- stores --------------------------------------------------------------------------------

  /** Keys without spaces, nothing with newlines: what a log can hold. */
  predicate Loggable(store: Store) {
    && (forall k :: k in store ==> SPACE !in k && NEWLINE !in k)
    && (forall k :: k in store ==> NEWLINE !in store[k])
  }

  predicate EndsInReturn(value: Bytes) {
    value != [] && value[|value| - 1] == CARRIAGE_RETURN
  }

  predicate NoReturns(store: Store) {
    forall k :: k in store ==> !EndsInReturn(store[k])
  }

  lemma {:induction false} SplitParts(s: Bytes)
    ensures var (a, b) := SplitOnce(s);
            && SPACE !in a
            && (NEWLINE !in s ==> NEWLINE !in a && NEWLINE !in b)
            && (CARRIAGE_RETURN !in s ==> CARRIAGE_RETURN !in a && CARRIAGE_RETURN !in b)
  {
    var space := IndexOf(s, SPACE);
    if space.Some? {
      var a, b := s[..space.value], s[space.value + 1..];
      assert forall x :: x in a ==> x in s;
      assert forall x :: x in b ==> x in s;
    }
  }

  lemma {:induction false} ReplayLineLoggable(store: Store, line: Bytes)
    requires Loggable(store) && NEWLINE !in line
    ensures Loggable(ReplayLine(store, line))
    ensures NoReturns(store) && CARRIAGE_RETURN !in line ==> NoReturns(ReplayLine(store, line))
  {
    SplitParts(line);
    SplitParts(SplitOnce(line).1);
  }

  /** Every line of a text is free of newlines but for its end. */
  predicate LinePieces(pieces: seq<Bytes>) {
    forall i :: 0 <= i < |pieces| ==> NEWLINE !in WithoutEnd(pieces[i])
  }

  predicate ReturnFreePieces(pieces: seq<Bytes>) {
    forall i :: 0 <= i < |pieces| ==> CARRIAGE_RETURN !in WithoutEnd(pieces[i])
  }

  /** One line of a text, up to and including its newline or to the end. */
  lemma {:induction false} PieceIsClean(piece: Bytes, end: nat)
    requires end <= |piece| && (forall j :: 0 <= j < end ==> piece[j] != NEWLINE)
    requires end == |piece| || (end + 1 == |piece| && piece[end] == NEWLINE)
    ensures NEWLINE !in WithoutEnd(piece)
    ensures CARRIAGE_RETURN !in piece ==> CARRIAGE_RETURN !in WithoutEnd(piece)
  {}

  lemma {:induction false} MorePieces(first: Bytes, rest: seq<Bytes>)
    requires NEWLINE !in WithoutEnd(first) && LinePieces(rest)
    ensures LinePieces([first] + rest)
    ensures CARRIAGE_RETURN !in WithoutEnd(first) && ReturnFreePieces(rest) ==> ReturnFreePieces([first] + rest)
  {
    hide WithoutEnd;
  }

  lemma {:induction false} LinesArePieces(text: Bytes)
    ensures LinePieces(Lines(text))
    ensures CARRIAGE_RETURN !in text ==> ReturnFreePieces(Lines(text))
    decreases |text|
  {
    hide WithoutEnd, LinePieces, ReturnFreePieces;
    if text == [] {
      NoPieces();
    } else {
      var end := IndexOf(text, NEWLINE);
      if end.None? {
        PieceIsClean(text, |text|);
        NoPieces();
        MorePieces(text, []);
        assert [text] + [] == [text];
      } else {
        var n := end.value + 1;
        var first, rest := text[..n], text[n..];
        assert forall x :: x in first || x in rest ==> x in text;
        PieceIsClean(first, end.value);
        LinesArePieces(rest);
        MorePieces(first, Lines(rest));
      }
    }
  }

  lemma {:induction false} NoPieces()
    ensures LinePieces([]) && ReturnFreePieces([])
  {}

  lemma {:induction false} ReplayLinesLoggable(store: Store, pieces: seq<Bytes>)
    requires Loggable(store) && LinePieces(pieces)
    ensures Loggable(ReplayLines(store, pieces))
    ensures NoReturns(store) && ReturnFreePieces(pieces) ==> NoReturns(ReplayLines(store, pieces))
    decreases |pieces|
  {
    hide ReplayLine, WithoutEnd, Loggable, NoReturns;
    if pieces != [] {
      ReplayLineLoggable(store, WithoutEnd(pieces[0]));
      assert forall i :: 0 <= i < |pieces[1..]| ==> pieces[1..][i] == pieces[i + 1];
      ReplayLinesLoggable(ReplayLine(store, WithoutEnd(pieces[0])), pieces[1..]);
    }
  }

  /** Whatever text is replayed, the store can be logged; without carriage returns, none come in. */
  lemma {:induction false} ReplayIsLoggable(text: Bytes)
    ensures Loggable(Replay(text))
    ensures CARRIAGE_RETURN !in text ==> NoReturns(Replay(text))
  {
    hide ReplayLines, Lines;
    LinesArePieces(text);
    ReplayLinesLoggable(map[], Lines(text));
  }

  // ---- compaction ----------------------------------------------------------------------------

  /** Every key once, in whatever order. */
  predicate Enumerates(keys: seq<Bytes>, store: Store) {
    && (forall k :: k in keys ==> k in store)
    && (forall k :: k in store ==> k in keys)
    && (forall i, j :: 0 <= i < j < |keys| ==> keys[i] != keys[j])
  }

  /** One SET per key. */
  function Compact(keys: seq<Bytes>, store: Store): Bytes
    requires forall k :: k in keys ==> k in store
  {
    if keys == [] then []
    else
      var n := |keys| - 1;
      Append(Compact(keys[..n], store), SetEntry(keys[n], store[keys[n]]))
  }

  /** What is left of a store when each value loses a last carriage return. */
  function WithoutReturns(store: Store): Store {
    map k | k in store :: WithoutReturn(store[k])
  }

  lemma {:induction false} CompactReplays(keys: seq<Bytes>, store: Store)
    requires Loggable(store) && forall k :: k in keys ==> k in store
    ensures EndsLine(Compact(keys, store))
    ensures Replay(Compact(keys, store)) == map k | k in keys :: WithoutReturn(store[k])
    decreases |keys|
  {
    hide Replay, ReplayLine, WithoutReturn, Append, SetEntry, EndsLine;
    if keys == [] {
      NothingReplays();
    } else {
      var n := |keys| - 1;
      var key, value := keys[n], store[keys[n]];
      assert key in keys;
      assert forall k :: k in keys[..n] ==> k in keys;
      CompactReplays(keys[..n], store);
      EntryReplays(Compact(keys[..n], store), key, value);
      assert forall k :: k in keys <==> k in keys[..n] || k == key;
    }
  }

  lemma {:induction false} NothingReplays()
    ensures EndsLine([]) && Replay([]) == map[]
  {}

  lemma {:induction false} EntryReplays(log: Bytes, key: Bytes, value: Bytes)
    requires EndsLine(log) && SPACE !in key && NEWLINE !in key && NEWLINE !in value
    ensures EndsLine(Append(log, SetEntry(key, value)))
    ensures Replay(Append(log, SetEntry(key, value))) == Replay(log)[key := WithoutReturn(value)]
  {
    hide Replay, ReplayLine, WithoutReturn, Append, SetEntry, EndsLine;
    EntryIsLine(key, value);
    ReplayAppend(log, SetEntry(key, value));
    SetWithoutReturn(key, value);
    ReplaySet(Replay(log), key, WithoutReturn(value));
  }

  lemma {:induction false} EntryIsLine(key: Bytes, value: Bytes)
    requires NEWLINE !in key && NEWLINE !in value
    ensures NEWLINE !in SetEntry(key, value)
  {}

  /** A compacted log replays to the store, short of the carriage returns its values end in. */
  lemma {:induction false} CompactionLosesReturns(keys: seq<Bytes>, store: Store)
    requires Loggable(store) && Enumerates(keys, store)
    ensures Replay(Compact(keys, store)) == WithoutReturns(store)
  {
    hide WithoutReturn;
    CompactReplays(keys, store);
  }

  /** Compaction preserves the replay exactly when no value ends in a carriage return. */
  lemma {:induction false} CompactionIffNoReturns(keys: seq<Bytes>, store: Store)
    requires Loggable(store) && Enumerates(keys, store)
    ensures Replay(Compact(keys, store)) == store <==> NoReturns(store)
  {
    hide Replay, Compact;
    CompactionLosesReturns(keys, store);
    if NoReturns(store) {
      assert forall k :: k in store ==> WithoutReturn(store[k]) == store[k];
    } else {
      var k :| k in store && EndsInReturn(store[k]);
      assert WithoutReturns(store)[k] != store[k];
    }
  }

  /**
   * Replay, compact, replay is replay exactly for the logs of which no value
   * ends in a carriage return; so for every log without carriage returns.
   */
  lemma {:induction false} RestartIsIdentity(text: Bytes, keys: seq<Bytes>)
    requires Enumerates(keys, Replay(text))
    ensures Replay(Compact(keys, Replay(text))) == Replay(text) <==> NoReturns(Replay(text))
    ensures CARRIAGE_RETURN !in text ==> NoReturns(Replay(text))
  {
    hide Replay, Compact;
    ReplayIsLoggable(text);
    CompactionIffNoReturns(keys, Replay(text));
  }

  /** `SET a b`, two carriage returns and a newline: the value keeps one of them, and the next start loses it. */
  lemma {:induction false} ReturnIsLost()
    ensures var text: Bytes := [83, 69, 84, 32, 97, 32, 98, 13, 13, 10];
            && Replay(text) == map[[97] := [98, 13]]
            && Enumerates([[97]], Replay(text))
            && Replay(Compact([[97]], Replay(text))) == map[[97] := [98]]
  {
    hide Replay, ReplayLine, Compact, Append;
    var key: Bytes, value: Bytes := [97], [98, 13];
    var text: Bytes := [83, 69, 84, 32, 97, 32, 98, 13, 13, 10];
    assert Append([], SetEntry(key, value + [CARRIAGE_RETURN])) == text by {
      AppendToNothing(SetEntry(key, value + [CARRIAGE_RETURN]));
    }
    NothingReplays();
    EntryReplays([], key, value + [CARRIAGE_RETURN]);
    assert WithoutReturn(value + [CARRIAGE_RETURN]) == value && WithoutReturn(value) == [98];
    assert Replay(text) == map[key := value];
    CompactReplays([key], Replay(text));
  }

  lemma {:induction false} AppendToNothing(entry: Bytes)
    ensures Append([], entry) == entry + [NEWLINE]
  {
    assert [] + entry == entry;
  }

  // ---- commands --------------------------------------------------------------------------------

  datatype Db = Db(store: Store, log: Bytes)

  datatype Reply =
    | Okay
    | Found(value: Bytes)
    | Nil
    | Integer(n: int)
    | NotAnInteger
    | Keys(keys: set<Bytes>)
    | WrongArity(command: Bytes)
    | Unknown(command: Bytes)

  datatype Command = Set | Get | Del | Exists | Incr | KeysOf | DbSize | FlushAll | NoCommand

  const MAX_I64: int := 0x7FFF_FFFF_FFFF_FFFF

  /** `str::parse::<i64>` */
  function ParseI64(s: Bytes): Option<int> {
    var signed := s != [] && (s[0] == 43 || s[0] == 45);
    var digits := if signed then s[1..] else s;
    if digits == [] || !AllDigits(digits) then None
    else
      var n := if s[0] == 45 then -(Value(digits) as int) else Value(digits) as int;
      if -MAX_I64 - 1 <= n <= MAX_I64 then Some(n) else None
  }

  function PrintInt(n: int): Bytes {
    if n < 0 then [45] + Print(-n) else Print(n)
  }

  function JoinWords(words: seq<Bytes>): Bytes {
    if words == [] then []
    else if |words| == 1 then words[0]
    else words[0] + [SPACE] + JoinWords(words[1..])
  }

  /** The number after the one stored; a missing key counts as 0. */
  function NextNumber(store: Store, key: Bytes): Option<int> {
    var current := ParseI64(if key in store then store[key] else [48]);
    if current.None? || current.value == MAX_I64 then None else Some(current.value + 1)
  }

  /** `words` are what white space leaves of a line; `command` is what the first of them says in capitals. */
  function Execute(db: Db, command: Command, words: seq<Bytes>): (Db, Reply)
    requires words != []
  {
    var args := words[1..];
    match command
    case Set =>
      if |args| < 2 then (db, WrongArity(words[0]))
      else
        var value := JoinWords(args[1..]);
        (Db(db.store[args[0] := value], Append(db.log, SetEntry(args[0], value))), Okay)
    case Get =>
      if |args| != 1 then (db, WrongArity(words[0]))
      else (db, if args[0] in db.store then Found(db.store[args[0]]) else Nil)
    case Del =>
      if |args| != 1 then (db, WrongArity(words[0]))
      else if args[0] !in db.store then (db, Integer(0))
      else (Db(db.store - {args[0]}, Append(db.log, DelEntry(args[0]))), Integer(1))
    case Exists =>
      if |args| != 1 then (db, WrongArity(words[0]))
      else (db, Integer(if args[0] in db.store then 1 else 0))
    case Incr =>
      if |args| != 1 then (db, WrongArity(words[0]))
      else
        var number := NextNumber(db.store, args[0]);
        if number.None? then (db, NotAnInteger)
        else
          var text := PrintInt(number.value);
          (Db(db.store[args[0] := text], Append(db.log, SetEntry(args[0], text))), Integer(number.value))
    case KeysOf =>
      if |args| > 1 then (db, WrongArity(words[0])) else (db, Keys(db.store.Keys))
    case DbSize =>
      if |args| != 0 then (db, WrongArity(words[0])) else (db, Integer(|db.store|))
    case FlushAll =>
      if |args| != 0 then (db, WrongArity(words[0]))
      else (Db(map[], Append(db.log, FlushWord())), Okay)
    case NoCommand => (db, Unknown(words[0]))
  }

  /** What splitting at white space gives: words without it. */
  predicate Word(w: Bytes) {
    w != [] && SPACE !in w && NEWLINE !in w && CARRIAGE_RETURN !in w
  }

  predicate AllWords(words: seq<Bytes>) {
    forall i :: 0 <= i < |words| ==> Word(words[i])
  }

  /** The log replays to the store, and can be compacted. */
  predicate Consistent(db: Db) {
    Replay(db.log) == db.store && EndsLine(db.log) && Loggable(db.store) && NoReturns(db.store)
  }

  lemma {:induction false} JoinedWords(words: seq<Bytes>)
    requires AllWords(words)
    ensures NEWLINE !in JoinWords(words) && CARRIAGE_RETURN !in JoinWords(words)
    decreases |words|
  {
    if |words| > 1 {
      assert forall i :: 0 <= i < |words[1..]| ==> words[1..][i] == words[i + 1];
      JoinedWords(words[1..]);
    }
  }

  lemma {:induction false} PrintedIsClean(n: int)
    ensures NEWLINE !in PrintInt(n) && CARRIAGE_RETURN !in PrintInt(n)
  {
    hide Print;
    var digits := Print(if n < 0 then -n else n);
    assert forall i :: 0 <= i < |digits| ==> IsDigit(digits[i]);
  }

  /** Setting a key, in the map and in the log. */
  lemma {:induction false} SetKeeps(db: Db, key: Bytes, value: Bytes)
    requires Consistent(db) && Word(key) && NEWLINE !in value && CARRIAGE_RETURN !in value
    ensures Consistent(Db(db.store[key := value], Append(db.log, SetEntry(key, value))))
  {
    hide Replay, ReplayLine;
    EntryIsLine(key, value);
    ReplayAppend(db.log, SetEntry(key, value));
    SetWithoutReturn(key, value);
    assert WithoutReturn(value) == value;
    ReplaySet(Replay(db.log), key, value);
  }

  lemma {:induction false} DelKeeps(db: Db, key: Bytes)
    requires Consistent(db) && Word(key)
    ensures Consistent(Db(db.store - {key}, Append(db.log, DelEntry(key))))
  {
    hide Replay, ReplayLine;
    var entry := DelEntry(key);
    assert entry[|entry| - 1] == key[|key| - 1];
    assert forall x :: x in entry ==> x in DelWord() || x == SPACE || x in key;
    ReplayAppend(db.log, entry);
    ReplayDel(Replay(db.log), key);
  }

  lemma {:induction false} FlushKeeps(db: Db)
    requires Consistent(db)
    ensures Consistent(Db(map[], Append(db.log, FlushWord())))
  {
    hide Replay, ReplayLine;
    ReplayAppend(db.log, FlushWord());
    ReplayFlush(Replay(db.log));
  }

  /** After every command, the log still replays to the store in memory. */
  lemma {:induction false} ExecuteKeeps(db: Db, command: Command, words: seq<Bytes>)
    requires Consistent(db) && words != [] && AllWords(words)
    ensures Consistent(Execute(db, command, words).0)
  {
    hide Consistent, SetEntry, DelEntry, PrintInt, Word;
    var args := words[1..];
    assert forall i :: 0 <= i < |args| ==> args[i] == words[i + 1];
    match command
    case Set =>
      if |args| >= 2 {
        assert forall i :: 0 <= i < |args[1..]| ==> args[1..][i] == words[i + 2];
        JoinedWords(args[1..]);
        SetKeeps(db, args[0], JoinWords(args[1..]));
      }
    case Del =>
      if |args| == 1 {
        DelKeeps(db, args[0]);
      }
    case Incr =>
      if |args| == 1 && NextNumber(db.store, args[0]).Some? {
        var number := NextNumber(db.store, args[0]).value;
        PrintedIsClean(number);
        SetKeeps(db, args[0], PrintInt(number));
      }
    case FlushAll => FlushKeeps(db);
    case _ =>
  }

  /** A program that starts replays its log and rewrites it, one SET per key. */
  function StartFrom(log: Bytes, keys: seq<Bytes>): Db
    requires Enumerates(keys, Replay(log))
  {
    Db(Replay(log), Compact(keys, Replay(log)))
  }

  /** What happens to the store: commands, and restarts that visit the keys in some order. */
  datatype Event = Run(command: Command, words: seq<Bytes>) | Restart(keys: seq<Bytes>)

  predicate Possible(db: Db, event: Event) {
    match event
    case Run(_, words) => words != [] && AllWords(words)
    case Restart(keys) => Enumerates(keys, Replay(db.log))
  }

  function Happen(db: Db, event: Event): Db
    requires Possible(db, event)
  {
    match event
    case Run(command, words) => Execute(db, command, words).0
    case Restart(keys) => StartFrom(db.log, keys)
  }

  lemma {:induction false} RestartKeeps(db: Db, keys: seq<Bytes>)
    requires Consistent(db) && Enumerates(keys, Replay(db.log))
    ensures Consistent(StartFrom(db.log, keys)) && StartFrom(db.log, keys).store == db.store
  {
    hide Replay, Compact;
    CompactReplays(keys, db.store);
    CompactionIffNoReturns(keys, db.store);
  }

  /** A life of the store: events, each possible where it happens. */
  ghost predicate Life(states: seq<Db>, events: seq<Event>) {
    && |states| == |events| + 1
    && forall i :: 0 <= i < |events| ==> Possible(states[i], events[i]) && states[i + 1] == Happen(states[i], events[i])
  }

  /**
   * Over a whole life, started from any log of which no value ends in a
   * carriage return: the log always replays to the store, and restarts change
   * nothing.
   */
  lemma {:induction false} LogEqualsStore(text: Bytes, keys: seq<Bytes>, states: seq<Db>, events: seq<Event>, n: nat)
    requires Enumerates(keys, Replay(text)) && NoReturns(Replay(text))
    requires Life(states, events) && states[0] == StartFrom(text, keys) && n < |states|
    ensures Replay(states[n].log) == states[n].store
    ensures n < |events| && events[n].Restart? ==> states[n + 1].store == states[n].store
    ensures Consistent(states[n])
  {
    hide Replay, Compact, Execute, Loggable, NoReturns, EndsLine;
    if n == 0 {
      ReplayIsLoggable(text);
      CompactReplays(keys, Replay(text));
      CompactionIffNoReturns(keys, Replay(text));
    } else {
      LogEqualsStore(text, keys, states, events, n - 1);
      assert Possible(states[n - 1], events[n - 1]) && states[n - 1 + 1] == Happen(states[n - 1], events[n - 1]);
      match events[n - 1]
      case Run(command, words) => ExecuteKeeps(states[n - 1], command, words);
      case Restart(visited) => RestartKeeps(states[n - 1], visited);
    }
    if n < |events| && events[n].Restart? {
      assert Possible(states[n], events[n]) && states[n + 1] == Happen(states[n], events[n]);
      RestartKeeps(states[n], events[n].keys);
    }
  }

  // ---- as the program runs it --------------------------------------------------------------------

  class Database {
    var store: Store
    var log: Bytes

    ghost function View(): Db
      reads this
    {
      Db(store, log)
    }

    /** Replays the log, then writes it anew with one SET per key. */
    constructor Start(text: Bytes)
      ensures exists keys :: Enumerates(keys, Replay(text)) && View() == StartFrom(text, keys)
    {
      new;
      hide ReplayLine, Lines, Append, SetEntry;
      store := map[];
      var lines := Lines(text);
      var i := 0;
      assert lines[0..] == lines;
      while i < |lines|
        invariant 0 <= i <= |lines|
        invariant ReplayLines(store, lines[i..]) == Replay(text)
      {
        assert lines[i..][0] == lines[i] && lines[i..][1..] == lines[i + 1..];
        store := ReplayLine(store, WithoutEnd(lines[i]));
        i := i + 1;
      }
      log := [];
      ghost var visited: seq<Bytes> := [];
      var left := store.Keys;
      while left != {}
        invariant store == Replay(text)
        invariant left <= store.Keys
        invariant forall k :: k in visited ==> k in store && k !in left
        invariant forall k :: k in store && k !in left ==> k in visited
        invariant forall i, j :: 0 <= i < j < |visited| ==> visited[i] != visited[j]
        invariant log == Compact(visited, store)
        decreases |left|
      {
        var key :| key in left;
        left := left - {key};
        log := Append(log, SetEntry(key, store[key]));
        ghost var before := visited;
        visited := visited + [key];
        assert visited[..|visited| - 1] == before;
      }
      assert Enumerates(visited, store);
    }

    method AppendEntry(entry: Bytes)
      modifies this`log
      ensures log == Append(old(log), entry)
    {
      log := log + entry + [NEWLINE];
    }

    method ExecuteWords(command: Command, words: seq<Bytes>) returns (reply: Reply)
      requires words != []
      modifies this
      ensures (View(), reply) == Execute(old(View()), command, words)
    {
      hide SetEntry, DelEntry, Append, ParseI64, PrintInt;
      var args := words[1..];
      match command {
        case Set =>
          if |args| < 2 {
            return WrongArity(words[0]);
          }
          var value := JoinWords(args[1..]);
          AppendEntry(SetEntry(args[0], value));
          store := store[args[0] := value];
          return Okay;
        case Get =>
          if |args| != 1 {
            return WrongArity(words[0]);
          }
          return if args[0] in store then Found(store[args[0]]) else Nil;
        case Del =>
          if |args| != 1 {
            return WrongArity(words[0]);
          }
          if args[0] !in store {
            return Integer(0);
          }
          store := store - {args[0]};
          AppendEntry(DelEntry(args[0]));
          return Integer(1);
        case Exists =>
          if |args| != 1 {
            return WrongArity(words[0]);
          }
          return Integer(if args[0] in store then 1 else 0);
        case Incr =>
          if |args| != 1 {
            return WrongArity(words[0]);
          }
          var number := NextNumber(store, args[0]);
          if number.None? {
            return NotAnInteger;
          }
          store := store[args[0] := PrintInt(number.value)];
          AppendEntry(SetEntry(args[0], PrintInt(number.value)));
          return Integer(number.value);
        case KeysOf =>
          if |args| > 1 {
            return WrongArity(words[0]);
          }
          return Keys(store.Keys);
        case DbSize =>
          if |args| != 0 {
            return WrongArity(words[0]);
          }
          return Integer(|store|);
        case FlushAll =>
          if |args| != 0 {
            return WrongArity(words[0]);
          }
          store := map[];
          AppendEntry(FlushWord());
          return Okay;
        case NoCommand =>
          return Unknown(words[0]);
      }
    }
  }
}
