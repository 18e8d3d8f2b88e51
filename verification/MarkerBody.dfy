/** What a marker's body says: exactly its decimal fields, in their order. */
module MarkerBody {
  import opened Common
  import opened Text
  import opened Decimal
  import opened Markers

  const COLON: byte := 58

  /** Decimal digits of a number that fits 32 bits, leading zeros allowed. */
  predicate Spells(digits: Bytes, n: nat) {
    digits != [] && AllDigits(digits) && Value(digits) == n < 0x1_0000_0000
  }

  /** A letter or an underscore, then letters, digits and underscores. */
  predicate LegalVariable(v: Bytes) {
    && v != [] && IsLetter(v[0])
    && forall i :: 0 <= i < |v| ==> IsLetter(v[i]) || IsDigit(v[i])
  }

  /** Two fields and the colon between them. */
  function Colon(a: Bytes, b: Bytes): Bytes {
    a + [COLON] + b
  }

  /** A body: file, line, column, and for a loop its line, its column, its variable and the value, which may be anything. */
  ghost predicate Says(body: Bytes, m: Marker) {
    exists file: Bytes, line: Bytes, column: Bytes :: SaysWith(body, m, file, line, column)
  }

  ghost predicate SaysWith(body: Bytes, m: Marker, file: Bytes, line: Bytes, column: Bytes) {
    && Spells(file, m.fileId) && Spells(line, m.line) && Spells(column, m.column)
    && match m.loopInfo
       case None => body == Colon(file, Colon(line, column))
       case Some(info) => exists part: Bytes :: SaysLoop(part, info) && body == Colon(file, Colon(line, Colon(column, part)))
  }

  ghost predicate SaysLoop(part: Bytes, info: LoopInfo) {
    && LegalVariable(info.variable)
    && exists line: Bytes, column: Bytes ::
         Spells(line, info.line) && Spells(column, info.column)
         && part == Colon(line, Colon(column, Colon(info.variable, info.value)))
  }

  // ---- one field ---------------------------------------------------------------------------

  /** A number with a colon behind it. */
  function TakeField(s: Bytes): Option<(nat, Bytes)> {
    var number := TakeNumber(s);
    if number.None? then None
    else
      var rest := SkipColon(number.value.1);
      if rest.None? then None else Some((number.value.0, rest.value))
  }

  lemma {:induction false} NumberOf(digits: Bytes, n: nat, rest: Bytes)
    requires Spells(digits, n) && (rest != [] ==> !IsDigit(rest[0]))
    ensures TakeNumber(digits + rest) == Some((n, rest))
  {
    var s := digits + rest;
    DigitCountOf(digits, rest);
    assert s[..|digits|] == digits && s[|digits|..] == rest;
  }

  lemma {:induction false} NumberIs(s: Bytes) returns (digits: Bytes)
    requires TakeNumber(s).Some?
    ensures var (n, rest) := TakeNumber(s).value;
            Spells(digits, n) && s == digits + rest && (rest != [] ==> !IsDigit(rest[0]))
  {
    var n := DigitCount(s);
    digits := s[..n];
    assert s == s[..n] + s[n..];
  }

  lemma {:induction false} FieldOf(digits: Bytes, n: nat, rest: Bytes)
    requires Spells(digits, n)
    ensures TakeField(Colon(digits, rest)) == Some((n, rest))
  {
    hide TakeNumber, Spells;
    var tail := [COLON] + rest;
    assert Colon(digits, rest) == digits + tail;
    NumberOf(digits, n, tail);
    assert tail[1..] == rest;
  }

  lemma {:induction false} FieldIs(s: Bytes) returns (digits: Bytes)
    requires TakeField(s).Some?
    ensures var (n, rest) := TakeField(s).value;
            Spells(digits, n) && s == Colon(digits, rest)
  {
    hide TakeNumber, Spells;
    digits := NumberIs(s);
    var tail := TakeNumber(s).value.1;
    assert tail == [COLON] + tail[1..];
    assert digits + ([COLON] + tail[1..]) == digits + [COLON] + tail[1..];
  }

  // ---- the loop's part ------------------------------------------------------------------------

  lemma {:induction false} VariableOf(v: Bytes, rest: Bytes)
    requires (forall i :: 0 <= i < |v| ==> IsLetter(v[i]) || IsDigit(v[i]))
    requires rest != [] ==> !IsLetter(rest[0]) && !IsDigit(rest[0])
    ensures VariableLength(v + rest) == |v|
    decreases |v|
  {
    var s := v + rest;
    if v == [] {
      assert s == rest;
    } else {
      assert s[0] == v[0] && s[1..] == v[1..] + rest;
      VariableOf(v[1..], rest);
    }
  }

  lemma {:induction false} VariableIs(s: Bytes)
    ensures var n := VariableLength(s);
            && (forall i :: 0 <= i < n ==> IsLetter(s[i]) || IsDigit(s[i]))
            && (n < |s| ==> !IsLetter(s[n]) && !IsDigit(s[n]))
    decreases |s|
  {
    if s != [] && (IsLetter(s[0]) || IsDigit(s[0])) {
      VariableIs(s[1..]);
      assert forall i :: 1 <= i < |s| ==> s[i] == s[1..][i - 1];
    }
  }

  /** The variable and the value behind its colon. */
  function TakeVariable(s: Bytes): Option<(Bytes, Bytes)> {
    var n := VariableLength(s);
    if n == 0 || !IsLetter(s[0]) then None
    else
      var value := SkipColon(s[n..]);
      if value.None? then None else Some((s[..n], value.value))
  }

  lemma {:induction false} VariableFieldOf(v: Bytes, value: Bytes)
    requires LegalVariable(v)
    ensures TakeVariable(Colon(v, value)) == Some((v, value))
  {
    var tail := [COLON] + value;
    var s := Colon(v, value);
    assert s == v + tail;
    VariableOf(v, tail);
    assert s[|v|..] == tail && tail[1..] == value && s[..|v|] == v && s[0] == v[0];
  }

  lemma {:induction false} VariableFieldIs(s: Bytes)
    requires TakeVariable(s).Some?
    ensures var (v, value) := TakeVariable(s).value;
            LegalVariable(v) && s == Colon(v, value)
  {
    VariableIs(s);
    var n := VariableLength(s);
    assert s == s[..n] + ([COLON] + s[n..][1..]);
    assert s[..n] + ([COLON] + s[n..][1..]) == Colon(s[..n], s[n..][1..]);
  }

  lemma {:induction false} LoopByFields(s: Bytes)
    ensures var line := TakeField(s);
            var column := if line.Some? then TakeField(line.value.1) else None;
            var variable := if column.Some? then TakeVariable(column.value.1) else None;
            ParseLoop(s) == if variable.Some? then Some(LoopInfo(line.value.0, column.value.0, variable.value.0, variable.value.1)) else None
  {
    hide TakeNumber, SkipColon, VariableLength, IsLetter;
  }

  lemma {:induction false} LoopIff(s: Bytes, info: LoopInfo)
    ensures ParseLoop(s) == Some(info) <==> SaysLoop(s, info)
  {
    hide TakeField, TakeVariable, ParseLoop, Spells, LegalVariable, Colon;
    LoopByFields(s);
    if ParseLoop(s) == Some(info) {
      var line := FieldIs(s);
      var column := FieldIs(TakeField(s).value.1);
      VariableFieldIs(TakeField(TakeField(s).value.1).value.1);
    }
    if SaysLoop(s, info) {
      var line: Bytes, column: Bytes :| Spells(line, info.line) && Spells(column, info.column)
        && s == Colon(line, Colon(column, Colon(info.variable, info.value)));
      FieldOf(line, info.line, Colon(column, Colon(info.variable, info.value)));
      FieldOf(column, info.column, Colon(info.variable, info.value));
      VariableFieldOf(info.variable, info.value);
    }
  }

  // ---- the whole body ---------------------------------------------------------------------------

  lemma {:induction false} BodyByFields(s: Bytes)
    ensures var file := TakeField(s);
            var line := if file.Some? then TakeField(file.value.1) else None;
            var column := if line.Some? then TakeNumber(line.value.1) else None;
            ParseBody(s) == if column.None? then None
                            else if column.value.1 == [] then Some(Marker(file.value.0, line.value.0, column.value.0, None))
                            else
                              var part := SkipColon(column.value.1);
                              var info := if part.Some? then ParseLoop(part.value) else None;
                              if info.None? then None else Some(Marker(file.value.0, line.value.0, column.value.0, info))
  {
    hide TakeNumber, SkipColon, ParseLoop;
  }

  lemma {:induction false} BodySays(s: Bytes)
    requires ParseBody(s).Some?
    ensures Says(s, ParseBody(s).value)
  {
    hide TakeField, TakeNumber, ParseLoop, ParseBody, Spells, Colon, SaysLoop;
    BodyByFields(s);
    var m := ParseBody(s).value;
    var file := FieldIs(s);
    var behind := TakeField(s).value.1;
    var line := FieldIs(behind);
    var last := TakeField(behind).value.1;
    var column := NumberIs(last);
    var tail := TakeNumber(last).value.1;
    if tail == [] {
      assert last == column;
    } else {
      assert last == Colon(column, tail[1..]) by { ColonBehind(column, tail); }
      LoopIff(tail[1..], m.loopInfo.value);
    }
    assert SaysWith(s, m, file, line, column);
  }

  lemma {:induction false} ColonBehind(a: Bytes, tail: Bytes)
    requires SkipColon(tail).Some?
    ensures a + tail == Colon(a, tail[1..])
  {
    assert tail == [COLON] + tail[1..];
  }

  lemma {:induction false} SaidIsRead(s: Bytes, m: Marker)
    requires Says(s, m)
    ensures ParseBody(s) == Some(m)
  {
    hide TakeField, TakeNumber, ParseLoop, ParseBody, Spells, SaysLoop;
    BodyByFields(s);
    var file: Bytes, line: Bytes, column: Bytes :| SaysWith(s, m, file, line, column);
    match m.loopInfo
    case None =>
      FieldOf(file, m.fileId, Colon(line, column));
      FieldOf(line, m.line, column);
      NumberOf(column, m.column, []);
      assert column + [] == column;
    case Some(info) =>
      var part: Bytes :| SaysLoop(part, info) && s == Colon(file, Colon(line, Colon(column, part)));
      FieldOf(file, m.fileId, Colon(line, Colon(column, part)));
      FieldOf(line, m.line, Colon(column, part));
      var tail := [COLON] + part;
      assert Colon(column, part) == column + tail && tail[1..] == part;
      NumberOf(column, m.column, tail);
      LoopIff(part, info);
  }

  /** A body is read as a marker exactly when it spells that marker's fields, in their order. */
  lemma {:induction false} BodyIff(body: Bytes, m: Marker)
    ensures ParseBody(body) == Some(m) <==> Says(body, m)
  {
    hide ParseBody, Says;
    if ParseBody(body) == Some(m) {
      BodySays(body);
    }
    if Says(body, m) {
      SaidIsRead(body, m);
    }
  }

  // ---- as the instrumented program prints it ---------------------------------------------------------

  function PrintBody(m: Marker): Bytes {
    var place := Colon(Print(m.fileId), Colon(Print(m.line), Print(m.column)));
    match m.loopInfo
    case None => place
    case Some(info) =>
      Colon(Print(m.fileId), Colon(Print(m.line), Colon(Print(m.column),
        Colon(Print(info.line), Colon(Print(info.column), Colon(info.variable, info.value))))))
  }

  predicate Printable(m: Marker) {
    && m.fileId < 0x1_0000_0000 && m.line < 0x1_0000_0000 && m.column < 0x1_0000_0000
    && match m.loopInfo
       case None => true
       case Some(info) => info.line < 0x1_0000_0000 && info.column < 0x1_0000_0000 && LegalVariable(info.variable)
  }

  lemma {:induction false} PrintSpells(n: nat)
    requires n < 0x1_0000_0000
    ensures Spells(Print(n), n)
  {
    ValueOfPrint(n);
  }

  /** Every marker that can be printed is read back as itself. */
  lemma {:induction false} BodyRoundTrip(m: Marker)
    requires Printable(m)
    ensures ParseBody(PrintBody(m)) == Some(m)
  {
    hide Spells, Print, LegalVariable, Colon, ParseBody;
    PrintSpells(m.fileId);
    PrintSpells(m.line);
    PrintSpells(m.column);
    if m.loopInfo.Some? {
      var info := m.loopInfo.value;
      PrintSpells(info.line);
      PrintSpells(info.column);
      assert SaysLoop(Colon(Print(info.line), Colon(Print(info.column), Colon(info.variable, info.value))), info);
    }
    assert SaysWith(PrintBody(m), m, Print(m.fileId), Print(m.line), Print(m.column));
    BodyIff(PrintBody(m), m);
  }

  /** `ATOMIS_LOG:1:3:5` between its two control characters: file 1, line 3, column 5. */
  lemma {:induction false} OneMarker()
    ensures FirstMarker([30, 65, 84, 79, 77, 73, 83, 95, 76, 79, 71, 58, 49, 58, 51, 58, 53, 31]) == Some(Found(0, 18, Marker(1, 3, 5, None)))
  {
    hide ParseBody;
    var s: Bytes := [30, 65, 84, 79, 77, 73, 83, 95, 76, 79, 71, 58, 49, 58, 51, 58, 53, 31];
    var body: Bytes := [49, 58, 51, 58, 53];
    assert s[12..] == body + [31] && s[12..][5] == MARKER_END;
    assert forall i :: 0 <= i < 5 ==> s[12..][i] == body[i] != MARKER_END;
    assert s[12..17] == body;
    OneBody(body);
    PrefixIs();
    assert s[..12] == Prefix();
  }

  lemma {:induction false} PrefixIs()
    ensures Prefix() == [30, 65, 84, 79, 77, 73, 83, 95, 76, 79, 71, 58]
  {
    var text := "ATOMIS_LOG:";
    assert Ascii(text) == [65, 84, 79, 77, 73, 83, 95, 76, 79, 71, 58];
  }

  lemma {:induction false} OneBody(body: Bytes)
    requires body == [49, 58, 51, 58, 53]
    ensures ParseBody(body) == Some(Marker(1, 3, 5, None))
  {
    hide ParseBody;
    var m := Marker(1, 3, 5, None);
    OneDigit(1);
    OneDigit(3);
    OneDigit(5);
    assert body == Colon([49], Colon([51], [53]));
    assert SaysWith(body, m, [49], [51], [53]);
    BodyIff(body, m);
  }

  lemma {:induction false} OneDigit(n: nat)
    requires n < 10
    ensures Spells([ZERO + n as byte], n)
  {
    var d: Bytes := [ZERO + n as byte];
    assert d[..0] == [] && Value([]) == 0;
  }
}
