/** JSON strings on the wire (section 7 of RFC 8259): how the two programs write them. */
module JsonText {
  import opened Common

  const QUOTE: byte := 34
  const BACKSLASH: byte := 92

  /** The two programs escape differently: the Rust one has short forms for line breaks and tabs. */
  datatype Writer = RustWriter | CWriter

  function HexDigit(n: nat): byte
    requires n < 16
  {
    if n < 10 then (48 + n) as byte else (87 + n) as byte
  }

  /** Backslash, `u` and four hexadecimal digits. */
  function Escape(b: byte): Bytes {
    [BACKSLASH, 117, 48, 48, HexDigit(b as nat / 16), HexDigit(b as nat % 16)]
  }

  function QuoteByte(w: Writer, b: byte): (q: Bytes)
    ensures 1 <= |q| <= 6
  {
    if b == QUOTE || b == BACKSLASH then [BACKSLASH, b]
    else if w.RustWriter? && b == 10 then [BACKSLASH, 110]
    else if w.RustWriter? && b == 13 then [BACKSLASH, 114]
    else if w.RustWriter? && b == 9 then [BACKSLASH, 116]
    else if b < 0x20 then Escape(b)
    else [b]
  }

  function QuoteAll(w: Writer, text: Bytes): Bytes {
    if text == [] then [] else QuoteByte(w, text[0]) + QuoteAll(w, text[1..])
  }

  function Quote(w: Writer, text: Bytes): Bytes {
    [QUOTE] + QuoteAll(w, text) + [QUOTE]
  }

  /** The value of a hexadecimal digit of either case. */
  function HexValue(b: byte): (digit: Option<nat>)
    ensures digit.Some? ==> digit.value < 16
  {
    if 48 <= b <= 57 then Some(b as nat - 48)
    else if 97 <= b <= 102 then Some(b as nat - 87)
    else if 65 <= b <= 70 then Some(b as nat - 55)
    else None
  }

  lemma {:induction false} HexRoundTrip(n: nat)
    requires n < 16
    ensures HexValue(HexDigit(n)) == Some(n)
  {}

  // ---- text laid out in a buffer ------------------------------------------------------------------

  /** `piece` stands in `s` at `at`. */
  predicate StandsAt(s: Bytes, at: nat, piece: Bytes) {
    at + |piece| <= |s| && s[at..at + |piece|] == piece
  }

  lemma {:induction false} StandsSplit(s: Bytes, at: nat, a: Bytes, b: Bytes)
    requires StandsAt(s, at, a + b)
    ensures StandsAt(s, at, a) && StandsAt(s, at + |a|, b)
  {
    var whole := s[at..at + |a + b|];
    assert s[at..at + |a|] == whole[..|a|] == a;
    assert s[at + |a|..at + |a| + |b|] == whole[|a|..] == b;
  }

  lemma {:induction false} StandsByte(s: Bytes, at: nat, piece: Bytes, i: nat)
    requires StandsAt(s, at, piece) && i < |piece|
    ensures s[at + i] == piece[i]
  {
    assert s[at..at + |piece|][i] == s[at + i];
  }
}
