/** Unicode's characters and their UTF-8 (section 3 of RFC 3629): what the byte-wise reading of text recognises. */
module Unicode {
  import opened Common
  import opened Utf8

  /** A code point that is no surrogate. */
  type Scalar = code: nat | code < 0x110000 && !(0xD800 <= code <= 0xDFFF)

  /** A code point as UTF-8. */
  function Encode(code: nat): Bytes
    requires code < 0x110000
  {
    if code < 0x80 then [code as byte]
    else if code < 0x800 then [(0xC0 + code / 64) as byte, (0x80 + code % 64) as byte]
    else if code < 0x10000 then
      [(0xE0 + code / 4096) as byte, (0x80 + code / 64 % 64) as byte, (0x80 + code % 64) as byte]
    else
      [(0xF0 + code / 262144) as byte, (0x80 + code / 4096 % 64) as byte, (0x80 + code / 64 % 64) as byte, (0x80 + code % 64) as byte]
  }

  function EncodeAll(text: seq<Scalar>): Bytes {
    if text == [] then [] else Encode(text[0]) + EncodeAll(text[1..])
  }

  // ---- the encoding itself ------------------------------------------------------------------------

  /** The payload of a continuation byte: its low six bits. */
  function SixBits(b: byte): int {
    b as int - 0x80
  }

  /** The number a character's bytes spell: the lead's payload, then six bits from each further byte. */
  function Spelled(c: Bytes): int
    requires 1 <= |c| <= 4
  {
    if |c| == 1 then c[0] as int
    else if |c| == 2 then (c[0] as int - 0xC0) * 64 + SixBits(c[1])
    else if |c| == 3 then ((c[0] as int - 0xE0) * 64 + SixBits(c[1])) * 64 + SixBits(c[2])
    else (((c[0] as int - 0xF0) * 64 + SixBits(c[1])) * 64 + SixBits(c[2])) * 64 + SixBits(c[3])
  }

  /** Six bits at a time. */
  lemma {:induction false} Sextets(n: nat)
    ensures n / 4096 == n / 64 / 64 && n / 262144 == n / 64 / 64 / 64
  {}

  lemma {:induction false} Joins(high: nat, low: nat)
    requires low < 64
    ensures (high * 64 + low) / 64 == high && (high * 64 + low) % 64 == low
  {}

  lemma {:induction false} Parts(n: nat)
    ensures n / 64 * 64 + n % 64 == n
  {}

  /** As many bytes as the range asks for, six bits in each but the lead, and together the number. */
  lemma {:induction false} EncodeSpells(code: nat)
    requires code < 0x110000
    ensures var c := Encode(code);
            && |c| == (if code < 0x80 then 1 else if code < 0x800 then 2 else if code < 0x10000 then 3 else 4)
            && (forall i :: 1 <= i < |c| ==> 0x80 <= c[i] <= 0xBF)
            && Spelled(c) == code
  {
    Sextets(code);
    Parts(code);
    Parts(code / 64);
    Parts(code / 64 / 64);
  }

  /** A character's bytes are text. */
  lemma {:induction false} EncodeIsText(code: nat)
    requires code < 0x110000 && !(0xD800 <= code <= 0xDFFF)
    ensures FrontOf(Encode(code)) == Character(|Encode(code)|) && WellFormed(Encode(code))
  {
    var s := Encode(code);
    assert Width(s[0]) == |s|;
    FrontIsWhole(s);
    assert s[|s|..] == [];
  }

  lemma {:induction false} FrontIsWhole(s: Bytes)
    requires s != [] && Width(s[0]) == |s| && forall i :: 1 <= i < |s| ==> Continues(s[0], i, s[i])
    ensures FrontOf(s) == Character(|s|)
  {
    hide Continues, Width;
    AllContinue(s, 1);
  }

  lemma {:induction false} AllContinue(s: Bytes, i: nat)
    requires s != [] && Width(s[0]) == |s| && 1 <= i <= |s| && forall i :: 1 <= i < |s| ==> Continues(s[0], i, s[i])
    ensures FrontFrom(s, i) == Character(|s|)
    decreases |s| - i
  {
    hide Continues, Width;
    if i < |s| {
      AllContinue(s, i + 1);
    }
  }

  // ---- what the front of some bytes is --------------------------------------------------------------

  /** The bytes are all or the beginning of one character's. */
  ghost predicate Begins(s: Bytes) {
    exists code: Scalar :: s <= Encode(code)
  }

  /** One character's bytes stand in front. */
  ghost predicate StartsWith(s: Bytes, code: Scalar) {
    Encode(code) <= s
  }

  /** The bytes passed over continue the lead. */
  lemma {:induction false} Passed(s: Bytes, i: nat)
    requires s != [] && 1 <= i <= Width(s[0]) && i <= |s|
    ensures var f := FrontFrom(s, i);
            var n := match f case Character(w) => w case Partial => |s| case Invalid(n) => n;
            && i <= n <= |s|
            && (forall k :: i <= k < n ==> Continues(s[0], k, s[k]))
            && (f.Invalid? ==> n < |s| && n < Width(s[0]) && !Continues(s[0], n, s[n]))
    decreases |s| - i
  {
    hide Continues, Width;
    if i < |s| && i < Width(s[0]) && Continues(s[0], i, s[i]) {
      Passed(s, i + 1);
    }
  }

  /** Bytes that each continue the lead are a character's, all of them or the first ones. */
  lemma {:induction false} ContinuedBegins(s: Bytes) returns (code: Scalar)
    requires s != [] && |s| <= Width(s[0]) && forall k :: 1 <= k < |s| ==> Continues(s[0], k, s[k])
    ensures s <= Encode(code)
    decreases Width(s[0]) - |s|
  {
    if |s| == Width(s[0]) {
      code := Spelled(s);
      SpelledEncodes(s);
    } else {
      var next := if |s| == 1 then Second(s[0]) else 0x80;
      code := ContinuedBegins(s + [next]);
    }
  }

  /** A second byte that may follow the lead. */
  function Second(lead: byte): (b: byte)
    ensures Continues(lead, 1, b)
  {
    if lead == 0xE0 then 0xA0 else if lead == 0xF0 then 0x90 else 0x80
  }

  lemma {:induction false} SpelledEncodes(s: Bytes)
    requires s != [] && |s| == Width(s[0]) && forall k :: 1 <= k < |s| ==> Continues(s[0], k, s[k])
    ensures 0 <= Spelled(s) < 0x110000 && !(0xD800 <= Spelled(s) <= 0xDFFF) && Encode(Spelled(s)) == s
  {
    if |s| == 2 {
      TwoEncode(s);
    } else if |s| == 3 {
      ThreeEncode(s);
    } else if |s| == 4 {
      FourEncode(s);
    }
  }

  lemma {:induction false} TwoEncode(s: Bytes)
    requires |s| == 2 && 0xC2 <= s[0] <= 0xDF && 0x80 <= s[1] <= 0xBF
    ensures 0x80 <= Spelled(s) < 0x800 && Encode(Spelled(s)) == s
  {
    Joins(s[0] as nat - 0xC0, s[1] as nat - 0x80);
  }

  lemma {:induction false} ThreeEncode(s: Bytes)
    requires |s| == 3 && 0xE0 <= s[0] <= 0xEF && Continues(s[0], 1, s[1]) && Continues(s[0], 2, s[2])
    ensures 0x800 <= Spelled(s) < 0x10000 && !(0xD800 <= Spelled(s) <= 0xDFFF) && Encode(Spelled(s)) == s
  {
    var high := s[0] as nat - 0xE0;
    var mid, low := s[1] as nat - 0x80, s[2] as nat - 0x80;
    Joins(high, mid);
    Joins(high * 64 + mid, low);
    Sextets(Spelled(s));
  }

  lemma {:induction false} FourEncode(s: Bytes)
    requires |s| == 4 && 0xF0 <= s[0] <= 0xF4 && Continues(s[0], 1, s[1]) && Continues(s[0], 2, s[2]) && Continues(s[0], 3, s[3])
    ensures 0x10000 <= Spelled(s) < 0x110000 && Encode(Spelled(s)) == s
  {
    var first := s[0] as nat - 0xF0;
    var second, third, fourth := s[1] as nat - 0x80, s[2] as nat - 0x80, s[3] as nat - 0x80;
    Joins(first, second);
    Joins(first * 64 + second, third);
    Joins((first * 64 + second) * 64 + third, fourth);
    Sextets(Spelled(s));
  }

  lemma {:induction false} CharacterOf(s: Bytes, code: Scalar)
    requires StartsWith(s, code)
    ensures s != [] && FrontOf(s) == Character(|Encode(code)|)
  {
    hide FrontOf, Encode, WellFormed;
    var c := Encode(code);
    EncodeSpells(code);
    EncodeIsText(code);
    assert c[..|c|] == c && c + s[|c|..] == s;
    CharacterFirst(c, s[|c|..], c);
  }

  lemma {:induction false} CharacterIs(s: Bytes) returns (code: Scalar)
    requires s != [] && FrontOf(s).Character?
    ensures StartsWith(s, code) && FrontOf(s) == Character(|Encode(code)|)
  {
    hide Encode, Continues;
    Passed(s, 1);
    var c := s[..FrontOf(s).width];
    code := ContinuedBegins(c);
    EncodeSpells(code);
    CharacterOf(Encode(code), code);
    EncodedFront(c, Encode(code));
  }

  lemma {:induction false} EncodedFront(c: Bytes, whole: Bytes)
    requires c != [] && c <= whole && |c| == Width(c[0]) && FrontOf(whole) == Character(|whole|)
    ensures c == whole
  {}

  /** The beginnings of characters are what the reading calls a character or a part of one. */
  lemma {:induction false} BeginsIff(s: Bytes)
    requires s != []
    ensures Begins(s) <==> FrontOf(s).Partial? || FrontOf(s) == Character(|s|)
  {
    hide Encode, Continues;
    if FrontOf(s).Partial? || FrontOf(s) == Character(|s|) {
      Passed(s, 1);
      var code := ContinuedBegins(s);
    }
    if Begins(s) {
      var code: Scalar :| s <= Encode(code);
      var rest := Encode(code)[|s|..];
      assert Encode(code) == s + rest;
      EncodeSpells(code);
      CharacterOf(Encode(code), code);
      CutFront(s, rest);
    }
  }

  /** The stretch in front that is no character: as much as still began one, or a single byte. */
  ghost predicate Stretch(s: Bytes, n: nat) {
    && 1 <= n <= |s| && (n == 1 || Begins(s[..n]))
    && forall k :: n < k <= |s| ==> !Begins(s[..k])
  }

  lemma {:induction false} InvalidStays(s: Bytes, i: nat, k: nat)
    requires s != [] && 1 <= i <= Width(s[0]) && i <= |s| && FrontFrom(s, i).Invalid? && FrontFrom(s, i).length < k <= |s|
    requires i < k
    ensures FrontFrom(s[..k], i) == FrontFrom(s, i)
    decreases |s| - i
  {
    hide Continues, Width;
    if i < |s| && i < Width(s[0]) && Continues(s[0], i, s[i]) {
      Passed(s, i + 1);
      InvalidStays(s, i + 1, k);
    }
  }

  lemma {:induction false} InvalidIs(s: Bytes, k: nat)
    requires s != [] && FrontOf(s).Invalid? && FrontOf(s).length < k <= |s|
    ensures !Begins(s[..k])
  {
    hide Continues, Begins;
    if Width(s[0]) != 0 {
      InvalidStays(s, 1, k);
    }
    BeginsIff(s[..k]);
  }

  /**
   * What the reading of the front tells: a character exactly if one stands
   * there, the beginning of one exactly if that is all there is, and otherwise
   * the stretch that is none.
   */
  lemma {:induction false} FrontIff(s: Bytes)
    requires s != []
    ensures FrontOf(s).Character? <==> exists code: Scalar :: StartsWith(s, code)
    ensures forall code: Scalar :: StartsWith(s, code) ==> FrontOf(s) == Character(|Encode(code)|)
    ensures FrontOf(s).Partial? <==> Begins(s) && !exists code: Scalar :: StartsWith(s, code)
    ensures FrontOf(s).Invalid? ==> Stretch(s, FrontOf(s).length)
  {
    hide FrontOf, Encode, Begins;
    forall code: Scalar | StartsWith(s, code)
      ensures FrontOf(s) == Character(|Encode(code)|)
    {
      CharacterOf(s, code);
    }
    if FrontOf(s).Character? {
      var code := CharacterIs(s);
    }
    BeginsIff(s);
    if FrontOf(s).Invalid? {
      InvalidStretch(s);
    }
  }

  lemma {:induction false} InvalidStretch(s: Bytes)
    requires s != [] && FrontOf(s).Invalid?
    ensures Stretch(s, FrontOf(s).length)
  {
    hide Continues, Encode;
    var n := FrontOf(s).length;
    if n > 1 {
      Passed(s, 1);
      var code := ContinuedBegins(s[..n]);
    }
    forall k | n < k <= |s|
      ensures !Begins(s[..k])
    {
      InvalidIs(s, k);
    }
  }

  // ---- whole texts ------------------------------------------------------------------------------------

  lemma {:induction false} EncodedIsText(text: seq<Scalar>)
    ensures WellFormed(EncodeAll(text))
    decreases |text|
  {
    hide Encode, WellFormed, FrontOf;
    NothingIsFine();
    if text != [] {
      EncodedIsText(text[1..]);
      EncodeIsText(text[0]);
      EncodeSpells(text[0]);
      var c := Encode(text[0]);
      assert c == c[..|c|];
      CharacterFirst(c, EncodeAll(text[1..]), c);
    }
  }

  lemma {:induction false} TextIsEncoded(s: Bytes) returns (text: seq<Scalar>)
    requires WellFormed(s)
    ensures EncodeAll(text) == s
    decreases |s|
  {
    hide Encode, FrontOf;
    if s == [] {
      text := [];
    } else {
      var code := CharacterIs(s);
      var w := |Encode(code)|;
      var rest := TextIsEncoded(s[w..]);
      text := [code] + rest;
      assert text[1..] == rest && s == s[..w] + s[w..];
    }
  }

  /** Text is exactly what is some characters' UTF-8. */
  lemma {:induction false} TextIff(s: Bytes)
    ensures WellFormed(s) <==> exists text: seq<Scalar> :: EncodeAll(text) == s
  {
    hide Encode, WellFormed;
    if WellFormed(s) {
      var text := TextIsEncoded(s);
    }
    forall text: seq<Scalar> | EncodeAll(text) == s
      ensures WellFormed(s)
    {
      EncodedIsText(text);
    }
  }

  ghost predicate StartsNone(s: Bytes) {
    forall code: Scalar :: !StartsWith(s, code)
  }

  lemma {:induction false} OneStretch(s: Bytes, m: nat, n: nat)
    requires Stretch(s, m) && Stretch(s, n)
    ensures m == n
  {
    hide Begins;
  }

  /** The lossy decoding keeps every character and puts U+FFFD for each stretch that is none. */
  lemma {:induction false} LossyIs(s: Bytes)
    ensures s == [] ==> Lossy(s) == []
    ensures forall code: Scalar :: StartsWith(s, code) ==> Lossy(s) == Encode(code) + Lossy(s[|Encode(code)|..])
    ensures s != [] && StartsNone(s) ==>
              exists n: nat :: Stretch(s, n) && Lossy(s) == [0xEF, 0xBF, 0xBD] + Lossy(s[n..])
  {
    hide FrontOf, Encode, Begins, WellFormed;
    if s != [] {
      FrontIff(s);
      assert StartsNone(s) ==> !FrontOf(s).Character?;
      assert s[..|s|] == s && s[|s|..] == [];
      assert FrontOf(s).Partial? ==> Stretch(s, |s|);
    }
  }

  lemma {:induction false} ValidateIs(s: Bytes)
    ensures var v := Validate(s);
            match v
            case Fine => WellFormed(s)
            case CutShort(k) => k < |s| && WellFormed(s[..k]) && FrontOf(s[k..]).Partial?
            case Broken(k) => k < |s| && WellFormed(s[..k]) && FrontOf(s[k..]).Invalid?
    decreases |s|
  {
    hide FrontOf, WellFormed;
    NothingIsFine();
    if s != [] {
      if FrontOf(s).Character? {
        var w := FrontOf(s).width;
        ValidateIs(s[w..]);
        ValidateShifted(s, w);
      } else {
        assert s[..0] == [] && s[0..] == s;
      }
    }
  }

  lemma {:induction false} ValidateShifted(s: Bytes, w: nat)
    requires s != [] && FrontOf(s) == Character(w) && w <= |s|
    ensures Validate(s) == Shift(Validate(s[w..]), w)
    ensures WellFormed(s[w..]) ==> WellFormed(s)
    ensures forall k: nat :: k < |s[w..]| ==> s[w..][k..] == s[k + w..]
    ensures forall k: nat :: k < |s[w..]| && WellFormed(s[w..][..k]) ==> WellFormed(s[..k + w])
  {
    hide FrontOf, WellFormed;
    assert s == s[..w] + s[w..];
    CharacterFirst(s[..w], s[w..], s);
    forall k: nat | k < |s[w..]| && WellFormed(s[w..][..k])
      ensures WellFormed(s[..k + w])
    {
      assert s[..k + w] == s[..w] + s[w..][..k];
      CharacterFirst(s[..w], s[w..][..k], s);
    }
  }

  /** The verdict behind some text is the verdict on the rest. */
  lemma {:induction false} ValidateBehind(s: Bytes, k: nat)
    requires k <= |s| && WellFormed(s[..k])
    ensures Validate(s) == Shift(Validate(s[k..]), k)
    decreases |s|
  {
    hide FrontOf, WellFormed;
    if k == 0 {
      assert s[0..] == s;
    } else {
      var w := FirstWidth(s, k);
      ValidateBehind(s[w..], k - w);
      assert s[w..][k - w..] == s[k..];
    }
  }

  lemma {:induction false} FirstWidth(s: Bytes, k: nat) returns (w: nat)
    requires 0 < k <= |s| && WellFormed(s[..k])
    ensures 1 <= w <= k && FrontOf(s) == Character(w) && WellFormed(s[w..][..k - w])
  {
    hide FrontOf, WellFormed;
    var head := s[..k];
    TextHasFront(head);
    w := FrontOf(head).width;
    TextTail(head, w);
    CharacterFirst(head[..w], s[w..], head);
    assert s == head[..w] + s[w..];
    assert head[w..] == s[w..][..k - w];
  }

  /**
   * `str::from_utf8`: all of it is text; or the first k bytes are and what is
   * left is the beginning of a character; or they are and nothing begins there.
   */
  lemma {:induction false} ValidateIff(s: Bytes, k: nat)
    ensures Validate(s).Fine? <==> exists text: seq<Scalar> :: EncodeAll(text) == s
    ensures Validate(s) == CutShort(k) <==>
            k < |s| && WellFormed(s[..k]) && StartsNone(s[k..]) && Begins(s[k..])
    ensures Validate(s) == Broken(k) <==>
            k < |s| && WellFormed(s[..k]) && StartsNone(s[k..]) && !Begins(s[k..])
  {
    hide FrontOf, WellFormed, Begins, StartsWith, EncodeAll;
    ValidateIs(s);
    TextIff(s);
    ValidateIsWellFormed(s);
    if k < |s| {
      FrontIff(s[k..]);
      if WellFormed(s[..k]) {
        ValidateBehind(s, k);
      }
    }
  }
}
