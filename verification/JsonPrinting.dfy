/** Whole values printed, and read back: lists, objects, numbers and strings at any depth. */
module JsonPrinting {
  import opened Common
  import opened JsonText
  import opened Json
  import opened JsonGrammar
  import opened Unicode
  import opened Utf8

  /** How a number is printed. */
  type PrintFloat<!F> = F -> Bytes

  /** A value without white space, its strings quoted as the program does. */
  function Printed<F>(w: Writer, printFloat: PrintFloat<F>, v: Json<F>): Bytes
    decreases v, 1, 0
  {
    match v
    case Null => [110, 117, 108, 108]
    case Bool(value) => if value then [116, 114, 117, 101] else [102, 97, 108, 115, 101]
    case Number(number) => printFloat(number)
    case Text(text) => Quote(w, text)
    case List(items) => [91] + PrintedItems(w, printFloat, v, 0) + [93]
    case Object(fields) => [123] + PrintedFields(w, printFloat, v, 0) + [125]
  }

  function PrintedItems<F>(w: Writer, printFloat: PrintFloat<F>, v: Json<F>, i: nat): Bytes
    requires v.List? && i <= |v.items|
    decreases v, 0, |v.items| - i
  {
    if i == |v.items| then []
    else
      var item := Printed(w, printFloat, v.items[i]);
      if i + 1 == |v.items| then item else item + [44] + PrintedItems(w, printFloat, v, i + 1)
  }

  function PrintedFields<F>(w: Writer, printFloat: PrintFloat<F>, v: Json<F>, i: nat): Bytes
    requires v.Object? && i <= |v.fields|
    decreases v, 0, |v.fields| - i
  {
    if i == |v.fields| then []
    else
      var field := Quote(w, v.fields[i].name) + [58] + Printed(w, printFloat, v.fields[i].value);
      if i + 1 == |v.fields| then field else field + [44] + PrintedFields(w, printFloat, v, i + 1)
  }

  /** Text that a reader can hold: a Rust string, or a C string. */
  predicate Fits(r: Reader, text: Bytes) {
    if r.RustReader? then WellFormed(text) else 0 !in text
  }

  /** Every number is printed as text that the library reads as that number, and every string can be held. */
  ghost predicate Printable<F>(r: Reader, parseFloat: ParseFloat<F>, printFloat: PrintFloat<F>, v: Json<F>)
    decreases v
  {
    match v
    case Number(number) => NumberText(printFloat(number)) && parseFloat(printFloat(number)) == Some(number)
    case Text(text) => Fits(r, text)
    case List(items) => forall i :: 0 <= i < |items| ==> Printable(r, parseFloat, printFloat, items[i])
    case Object(fields) => forall i :: 0 <= i < |fields| ==>
                                         Fits(r, fields[i].name) && Printable(r, parseFloat, printFloat, fields[i].value)
    case _ => true
  }

  // ---- strings ---------------------------------------------------------------------------------

  lemma {:induction false} EscapeIsUnit(b: byte)
    requires b < 0x20
    ensures HexIs(Escape(b)[2..], b as nat)
    ensures RustHexUnit(Escape(b), [b]) && (b != 0 ==> CHexUnit(Escape(b), [b]))
  {
    var unit := Escape(b);
    var code := b as nat;
    assert unit[2..] == [48, 48, HexDigit(code / 16), HexDigit(code % 16)];
    HexRoundTrip(code / 16);
    HexRoundTrip(code % 16);
    assert HexValue(48) == Some(0);
    HexCode(unit[2..], code);
    assert PlusHexIs(unit[2..], code) && Encode(code) == [b];
  }

  /** However a program writes a byte, either reader takes it for that byte; the C reader takes no NUL. */
  lemma {:induction false} ByteIsUnit(r: Reader, w: Writer, b: byte)
    requires r.CReader? ==> b != 0
    ensures Unit(r, QuoteByte(w, b), [b])
  {
    hide RustHexUnit, CHexUnit, Encode;
    var q := QuoteByte(w, b);
    if q == Escape(b) {
      if b < 0x20 {
        EscapeIsUnit(b);
      }
    } else if |q| == 2 {
      assert Short(q[1], b);
      assert ShortUnit(q, [b]);
    } else {
      assert q == [b];
    }
  }

  lemma {:induction false} TextIsSpelled(r: Reader, w: Writer, text: Bytes)
    requires r.CReader? ==> 0 !in text
    ensures Spells(r, QuoteAll(w, text), text)
    decreases |text|
  {
    hide Unit, QuoteByte, Spells;
    if text == [] {
      NothingSpells(r, text);
    } else {
      ByteIsUnit(r, w, text[0]);
      TextIsSpelled(r, w, text[1..]);
      SpelledMore(QuoteByte(w, text[0]), [text[0]], QuoteAll(w, text[1..]), text[1..], r);
      assert [text[0]] + text[1..] == text;
    }
  }

  lemma {:induction false} TextIsQuoted(r: Reader, w: Writer, text: Bytes)
    requires Fits(r, text)
    ensures Quoted(r, Quote(w, text), text)
  {
    hide QuoteAll, Spells, WellFormed;
    TextIsSpelled(r, w, text);
    var q := Quote(w, text);
    assert q[1..|q| - 1] == QuoteAll(w, text);
  }

  // ---- values ------------------------------------------------------------------------------------

  /** Without white space around it, a value is an item. */
  lemma {:induction false} BareItem<F>(r: Reader, parseFloat: ParseFloat<F>, t: Bytes, v: Json<F>)
    requires Denotes(r, parseFloat, t, v)
    ensures DenotesItem(r, parseFloat, t, v)
  {
    hide Denotes, DenotesItem;
    assert t[0..|t|] == t && t[0..0] == [] && t[|t|..|t|] == [];
    ItemJoins(r, parseFloat, t, 0, 0, |t|, |t|, v);
  }

  lemma {:induction false} BareField<F>(r: Reader, parseFloat: ParseFloat<F>, q: Bytes, t: Bytes, field: Field<F>)
    requires Quoted(r, q, field.name) && Denotes(r, parseFloat, t, field.value)
    ensures DenotesField(r, parseFloat, q + [58] + t, field)
  {
    hide Denotes, DenotesItem, DenotesField, DenotesName, Quoted;
    var s := q + [58] + t;
    assert s[0..|q|] == q && s[|q| + 1..|s|] == t && s[0..|s|] == s && s[0..0] == [] && s[|q|..|q|] == [];
    BareItem(r, parseFloat, t, field.value);
    NameJoins(r, s, 0, 0, |q|, |q|, field.name);
    FieldJoins(r, parseFloat, s, 0, |q|, |s|, field);
  }

  lemma {:induction false} PrintedDenotes<F>(r: Reader, parseFloat: ParseFloat<F>, w: Writer, printFloat: PrintFloat<F>, v: Json<F>)
    requires Printable(r, parseFloat, printFloat, v)
    ensures Denotes(r, parseFloat, Printed(w, printFloat, v), v)
    decreases v, 1, 0
  {
    hide Denotes, DenotesItems, DenotesFields, Quote, Quoted, NumberText;
    var t := Printed(w, printFloat, v);
    assert t[0..|t|] == t;
    match v {
      case List(items) =>
        assert t[1..|t| - 1] == PrintedItems(w, printFloat, v, 0);
        ListInside(r, parseFloat, t, 0, |t|, items);
        if items != [] {
          ItemsDenote(r, parseFloat, w, printFloat, v, 0);
          assert items[0..] == items;
        }
      case Object(fields) =>
        assert t[1..|t| - 1] == PrintedFields(w, printFloat, v, 0);
        ObjectInside(r, parseFloat, t, 0, |t|, fields);
        if fields != [] {
          FieldsDenote(r, parseFloat, w, printFloat, v, 0);
          assert fields[0..] == fields;
        }
      case _ => AtomDenotes(r, parseFloat, w, printFloat, v);
    }
  }

  lemma {:induction false} AtomDenotes<F>(r: Reader, parseFloat: ParseFloat<F>, w: Writer, printFloat: PrintFloat<F>, v: Json<F>)
    requires Printable(r, parseFloat, printFloat, v) && !v.List? && !v.Object?
    ensures Denotes(r, parseFloat, Printed(w, printFloat, v), v)
  {
    hide DenotesItems, DenotesFields, Quote, Quoted, NumberText, Fits;
    if v.Text? {
      TextIsQuoted(r, w, v.text);
    }
  }

  lemma {:induction false} ItemsDenote<F>(r: Reader, parseFloat: ParseFloat<F>, w: Writer, printFloat: PrintFloat<F>, v: Json<F>, i: nat)
    requires v.List? && i < |v.items| && Printable(r, parseFloat, printFloat, v)
    ensures DenotesItems(r, parseFloat, PrintedItems(w, printFloat, v, i), v.items[i..])
    decreases v, 0, |v.items| - i
  {
    hide Denotes, DenotesItem, DenotesItems;
    var items := v.items[i..];
    var item := Printed(w, printFloat, v.items[i]);
    PrintedDenotes(r, parseFloat, w, printFloat, v.items[i]);
    BareItem(r, parseFloat, item, v.items[i]);
    if i + 1 == |v.items| {
      assert items == [v.items[i]];
      OneItem(r, parseFloat, item, items);
    } else {
      ItemsDenote(r, parseFloat, w, printFloat, v, i + 1);
      assert items == [v.items[i]] + v.items[i + 1..];
      PutBefore(r, parseFloat, item, PrintedItems(w, printFloat, v, i + 1), v.items[i], v.items[i + 1..]);
    }
  }

  lemma {:induction false} PutBefore<F>(r: Reader, parseFloat: ParseFloat<F>, item: Bytes, rest: Bytes, v: Json<F>, items: seq<Json<F>>)
    requires DenotesItem(r, parseFloat, item, v) && items != [] && DenotesItems(r, parseFloat, rest, items)
    ensures DenotesItems(r, parseFloat, item + [44] + rest, [v] + items)
  {
    hide DenotesItem, DenotesItems;
    var s := item + [44] + rest;
    assert s[0..|item|] == item && s[|item| + 1..|s|] == rest && s[0..|s|] == s;
    ItemsJoin(r, parseFloat, s, 0, |item|, |s|, v, items);
  }

  lemma {:induction false} FieldsDenote<F>(r: Reader, parseFloat: ParseFloat<F>, w: Writer, printFloat: PrintFloat<F>, v: Json<F>, i: nat)
    requires v.Object? && i < |v.fields| && Printable(r, parseFloat, printFloat, v)
    ensures DenotesFields(r, parseFloat, PrintedFields(w, printFloat, v, i), v.fields[i..])
    decreases v, 0, |v.fields| - i
  {
    hide Denotes, DenotesField, DenotesFields, Quote, Quoted, Fits;
    var fields := v.fields[i..];
    var first := v.fields[i];
    var field := Quote(w, first.name) + [58] + Printed(w, printFloat, first.value);
    PrintedDenotes(r, parseFloat, w, printFloat, first.value);
    TextIsQuoted(r, w, first.name);
    BareField(r, parseFloat, Quote(w, first.name), Printed(w, printFloat, first.value), first);
    if i + 1 == |v.fields| {
      assert fields == [first];
      OneField(r, parseFloat, field, fields);
    } else {
      FieldsDenote(r, parseFloat, w, printFloat, v, i + 1);
      assert fields == [first] + v.fields[i + 1..];
      PutFieldBefore(r, parseFloat, field, PrintedFields(w, printFloat, v, i + 1), first, v.fields[i + 1..]);
    }
  }

  lemma {:induction false} PutFieldBefore<F>(r: Reader, parseFloat: ParseFloat<F>, field: Bytes, rest: Bytes, f: Field<F>, fields: seq<Field<F>>)
    requires DenotesField(r, parseFloat, field, f) && fields != [] && DenotesFields(r, parseFloat, rest, fields)
    ensures DenotesFields(r, parseFloat, field + [44] + rest, [f] + fields)
  {
    hide DenotesField, DenotesFields;
    var s := field + [44] + rest;
    assert s[0..|field|] == field && s[|field| + 1..|s|] == rest && s[0..|s|] == s;
    FieldsJoin(r, parseFloat, s, 0, |field|, |s|, f, fields);
  }

  /** Whole values round-trip, whichever program quotes their strings, with any white space around them. */
  lemma {:induction false} ValuesRoundTrip<F>(
      parseFloat: ParseFloat<F>, w: Writer, printFloat: PrintFloat<F>, v: Json<F>, before: Bytes, behind: Bytes)
    requires NeedsText(parseFloat) && Printable(RustReader, parseFloat, printFloat, v)
    requires Spaces(RustReader, before) && Spaces(RustReader, behind)
    ensures Parse(parseFloat, before + Printed(w, printFloat, v) + behind) == Some(v)
  {
    hide Denotes, DenotesItem, Printed, Printable, Parse, NeedsText, Spaces;
    var t := Printed(w, printFloat, v);
    var s := before + t + behind;
    PrintedDenotes(RustReader, parseFloat, w, printFloat, v);
    assert s[0..|before|] == before && s[|before|..|before| + |t|] == t && s[|before| + |t|..|s|] == behind && s[0..|s|] == s;
    ItemJoins(RustReader, parseFloat, s, 0, |before|, |before| + |t|, |s|, v);
    ParseIff(parseFloat, s, v);
  }
}
