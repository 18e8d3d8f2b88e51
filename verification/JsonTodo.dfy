/**
 * The demos' one response body: what either program writes for a todo, the
 * parser reads as an object with its three fields.
 */
module JsonTodo {
  import opened Common
  import opened JsonText
  import opened Json
  import opened Utf8
  import opened Decimal

  const ID: Bytes := [105, 100]
  const TITLE: Bytes := [116, 105, 116, 108, 101]
  const DONE: Bytes := [100, 111, 110, 101]

  function Truth(done: bool): Bytes {
    if done then Word().1 else Word().2
  }

  function FieldText(w: Writer, name: Bytes, value: Bytes, after: byte): Bytes {
    Quote(w, name) + [58] + value + [after]
  }

  function TodoText(w: Writer, id: nat, title: Bytes, done: bool): Bytes {
    [123] + FieldText(w, ID, Print(id), 44) + FieldText(w, TITLE, Quote(w, title), 44) + FieldText(w, DONE, Truth(done), 125)
  }

  lemma {:induction false} NameIsText(name: Bytes)
    requires forall i :: 0 <= i < |name| ==> name[i] < 0x80
    ensures WellFormed(name)
    decreases |name|
  {
    if name != [] {
      assert FrontFrom(name, 1) == Character(1);
      NameIsText(name[1..]);
    }
  }

  /** Laid out at `at`: the name, its colon, the value and what follows. */
  lemma {:induction false} FieldStands(w: Writer, s: Bytes, at: nat, name: Bytes, value: Bytes, after: byte)
    requires StandsAt(s, at, FieldText(w, name, value, after)) && WellFormed(name)
    ensures var start := at + |Quote(w, name)| + 1;
            && start + |value| < |s| && at <= |s|
            && NameAt(s, at) == Got(name, start)
            && StandsAt(s, start, value)
            && s[start + |value|] == after
  {
    hide Quote, WellFormed, StringAt, StandsAt;
    var q := Quote(w, name);
    StandsSplit(s, at, q + [58] + value, [after]);
    StandsSplit(s, at, q + [58], value);
    StandsSplit(s, at, q, [58]);
    StandsFirst(s, at + |q|, 58);
    StandsFirst(s, at + |q| + 1 + |value|, after);
    ReadQuoted(w, s, at, name);
  }

  lemma {:induction false} StandsFirst(s: Bytes, at: nat, b: byte)
    requires StandsAt(s, at, [b])
    ensures at < |s| && s[at] == b
  {
    assert s[at..at + 1][0] == b;
  }

  lemma {:induction false} FieldRead<F>(parseFloat: ParseFloat<F>, w: Writer, s: Bytes, at: nat, name: Bytes, text: Bytes, value: Json<F>, after: byte, fields: seq<Field<F>>)
    requires StandsAt(s, at, FieldText(w, name, text, after)) && WellFormed(name) && (after == 44 || after == 125)
    requires var start := at + |Quote(w, name)| + 1;
             start <= |s| && ValueAt(parseFloat, s, start) == Got(value, start + |text|)
    ensures var end := at + |FieldText(w, name, text, after)|;
            var all := fields + [Field(name, value)];
            && at <= |s| && end <= |s|
            && FieldsFrom(parseFloat, s, at, fields) == if after == 44 then FieldsFrom(parseFloat, s, end, all) else Got(Object(all), end)
  {
    hide Quote, WellFormed, NameAt, ValueAt, StandsAt;
    FieldStands(w, s, at, name, text, after);
  }

  lemma {:induction false} NumberStands<F>(parseFloat: ParseFloat<F>, s: Bytes, at: nat, id: nat, number: F)
    requires StandsAt(s, at, Print(id)) && at + |Print(id)| < |s| && s[at + |Print(id)|] == 44
    requires parseFloat(Print(id)) == Some(number)
    ensures ValueAt(parseFloat, s, at) == Got(Number(number), at + |Print(id)|)
  {
    hide Print;
    var digits := Print(id);
    StandsByte(s, at, digits, 0);
    NumberRun(s, at, digits, 0);
  }

  lemma {:induction false} NumberRun(s: Bytes, at: nat, digits: Bytes, i: nat)
    requires StandsAt(s, at, digits) && AllDigits(digits) && i <= |digits|
    requires at + |digits| < |s| && s[at + |digits|] == 44
    ensures NumberEnd(s, at + i) == at + |digits|
    decreases |digits| - i
  {
    if i < |digits| {
      StandsByte(s, at, digits, i);
      NumberRun(s, at, digits, i + 1);
    }
  }

  lemma {:induction false} TruthStands<F>(parseFloat: ParseFloat<F>, s: Bytes, at: nat, done: bool)
    requires StandsAt(s, at, Truth(done))
    ensures ValueAt(parseFloat, s, at) == Got(Bool(done), at + |Truth(done)|)
  {
    StandsByte(s, at, Truth(done), 0);
  }

  lemma {:induction false} TextStands<F>(parseFloat: ParseFloat<F>, w: Writer, s: Bytes, at: nat, text: Bytes)
    requires StandsAt(s, at, Quote(w, text)) && WellFormed(text)
    ensures ValueAt(parseFloat, s, at) == Got(Text(text), at + |Quote(w, text)|)
  {
    hide Quote, WellFormed, StringAt;
    ReadQuoted(w, s, at, text);
  }

  lemma {:induction false} IdRead<F>(parseFloat: ParseFloat<F>, w: Writer, s: Bytes, at: nat, id: nat, number: F)
    requires StandsAt(s, at, FieldText(w, ID, Print(id), 44)) && parseFloat(Print(id)) == Some(number)
    ensures var end := at + |FieldText(w, ID, Print(id), 44)|;
            at <= |s| && end <= |s| && FieldsFrom(parseFloat, s, at, []) == FieldsFrom(parseFloat, s, end, [Field(ID, Number(number))])
  {
    hide WellFormed, Quote, FieldText, ValueAt, FieldsFrom, StandsAt, Print;
    NameIsText(ID);
    FieldStands(w, s, at, ID, Print(id), 44);
    NumberStands(parseFloat, s, at + |Quote(w, ID)| + 1, id, number);
    FieldRead(parseFloat, w, s, at, ID, Print(id), Number(number), 44, []);
    assert [] + [Field(ID, Number(number))] == [Field(ID, Number(number))];
  }

  lemma {:induction false} TitleRead<F>(parseFloat: ParseFloat<F>, w: Writer, s: Bytes, at: nat, title: Bytes, fields: seq<Field<F>>)
    requires StandsAt(s, at, FieldText(w, TITLE, Quote(w, title), 44)) && WellFormed(title)
    ensures var end := at + |FieldText(w, TITLE, Quote(w, title), 44)|;
            at <= |s| && end <= |s| && FieldsFrom(parseFloat, s, at, fields) == FieldsFrom(parseFloat, s, end, fields + [Field(TITLE, Text(title))])
  {
    hide WellFormed, Quote, FieldText, ValueAt, FieldsFrom, StandsAt;
    NameIsText(TITLE);
    FieldStands(w, s, at, TITLE, Quote(w, title), 44);
    TextStands(parseFloat, w, s, at + |Quote(w, TITLE)| + 1, title);
    FieldRead(parseFloat, w, s, at, TITLE, Quote(w, title), Text(title), 44, fields);
  }

  lemma {:induction false} DoneRead<F>(parseFloat: ParseFloat<F>, w: Writer, s: Bytes, at: nat, done: bool, fields: seq<Field<F>>)
    requires StandsAt(s, at, FieldText(w, DONE, Truth(done), 125))
    ensures var end := at + |FieldText(w, DONE, Truth(done), 125)|;
            at <= |s| && end <= |s| && FieldsFrom(parseFloat, s, at, fields) == Got(Object(fields + [Field(DONE, Bool(done))]), end)
  {
    hide WellFormed, Quote, FieldText, ValueAt, FieldsFrom, StandsAt, Truth;
    NameIsText(DONE);
    FieldStands(w, s, at, DONE, Truth(done), 125);
    TruthStands(parseFloat, s, at + |Quote(w, DONE)| + 1, done);
    FieldRead(parseFloat, w, s, at, DONE, Truth(done), Bool(done), 125, fields);
  }

  /** A todo written by either program is read as an object with exactly its three fields. */
  lemma {:induction false} TodosRoundTrip<F>(parseFloat: ParseFloat<F>, w: Writer, id: nat, title: Bytes, done: bool, number: F)
    requires WellFormed(title) && parseFloat(Print(id)) == Some(number)
    ensures Parse(parseFloat, TodoText(w, id, title, done))
            == Some(Object([Field(ID, Number(number)), Field(TITLE, Text(title)), Field(DONE, Bool(done))]))
  {
    hide WellFormed, Quote, FieldText, ValueAt, FieldsFrom, StandsAt, Print, Truth;
    var s := TodoText(w, id, title, done);
    var a, b, c := FieldText(w, ID, Print(id), 44), FieldText(w, TITLE, Quote(w, title), 44), FieldText(w, DONE, Truth(done), 125);
    WholeStands(s);
    StandsSplit(s, 0, [123] + a + b, c);
    StandsSplit(s, 0, [123] + a, b);
    StandsSplit(s, 0, [123], a);
    OpenObject(parseFloat, w, s, Print(id));
    IdRead(parseFloat, w, s, 1, id, number);
    var f1, f2, f3 := Field(ID, Number(number)), Field(TITLE, Text(title)), Field(DONE, Bool(done));
    TitleRead(parseFloat, w, s, 1 + |a|, title, [f1]);
    DoneRead(parseFloat, w, s, 1 + |a| + |b|, done, [f1] + [f2]);
    assert [f1] + [f2] + [f3] == [f1, f2, f3];
  }

  lemma {:induction false} WholeStands(s: Bytes)
    ensures StandsAt(s, 0, s)
  {
    assert s[0..0 + |s|] == s;
  }

  /** An object's first field starts right behind the brace. */
  lemma {:induction false} OpenObject<F>(parseFloat: ParseFloat<F>, w: Writer, s: Bytes, value: Bytes)
    requires StandsAt(s, 0, [123]) && StandsAt(s, 1, FieldText(w, ID, value, 44))
    ensures |s| >= 1 && ValueAt(parseFloat, s, 0) == FieldsFrom(parseFloat, s, 1, [])
  {
    hide FieldsFrom, QuoteAll;
    StandsByte(s, 0, [123], 0);
    StandsByte(s, 1, FieldText(w, ID, value, 44), 0);
    assert SkipSpace(s, 0) == 0 && SkipSpace(s, 1) == 1;
  }
}
