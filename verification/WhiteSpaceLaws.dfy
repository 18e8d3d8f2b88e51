/** White space is Unicode's, and trimming takes all of it off both ends and nothing else. */
module WhiteSpaceLaws {
  import opened Common
  import opened Unicode
  import opened WhiteSpace

  /** The property White_Space of the Unicode standard. */
  predicate IsWhite(code: Scalar) {
    || 0x09 <= code <= 0x0D || code == 0x20 || code == 0x85 || code == 0xA0
    || code == 0x1680 || 0x2000 <= code <= 0x200A || code == 0x2028 || code == 0x2029
    || code == 0x202F || code == 0x205F || code == 0x3000
  }

  predicate AllWhite(text: seq<Scalar>) {
    forall i :: 0 <= i < |text| ==> IsWhite(text[i])
  }

  ghost predicate White(s: Bytes) {
    exists text: seq<Scalar> :: AllWhite(text) && EncodeAll(text) == s
  }

  ghost predicate StartsWhite(s: Bytes) {
    exists code: Scalar :: IsWhite(code) && Encode(code) <= s
  }

  predicate EndsIn(s: Bytes, c: Bytes) {
    |c| <= |s| && s[|s| - |c|..] == c
  }

  ghost predicate EndsWhite(s: Bytes) {
    exists code: Scalar :: IsWhite(code) && EndsIn(s, Encode(code))
  }

  /** `core` between white space, and not itself beginning or ending with any. */
  ghost predicate TrimsTo(s: Bytes, core: Bytes) {
    && (exists left: Bytes, right: Bytes :: White(left) && White(right) && s == left + core + right)
    && !StartsWhite(core) && !EndsWhite(core)
  }

  // ---- one character ------------------------------------------------------------------------

  /** The bytes of the white-space characters. */
  predicate IsWhiteBytes(c: Bytes) {
    || (|c| == 1 && IsNarrow(c[0]))
    || (|c| == 2 && c[0] == 0xC2 && (c[1] == 0x85 || c[1] == 0xA0))
    || (|c| == 3 && IsWide(c))
  }

  lemma {:induction false} WhiteBytesOf(code: Scalar)
    requires IsWhite(code)
    ensures IsWhiteBytes(Encode(code))
  {}

  /** The character whose bytes these are. */
  function WhiteOf(c: Bytes): (code: Scalar)
    requires IsWhiteBytes(c)
    ensures IsWhite(code)
  {
    if |c| == 1 then c[0] as nat
    else if |c| == 2 then c[1] as nat
    else if c[0] == 0xE1 then 0x1680
    else if c[0] == 0xE3 then 0x3000
    else if c[1] == 0x81 then 0x205F
    else 0x2000 + (c[2] as nat - 0x80)
  }

  lemma {:induction false} WhiteOfBytes(c: Bytes)
    requires IsWhiteBytes(c)
    ensures Encode(WhiteOf(c)) == c
  {}

  lemma {:induction false} WidthIff(s: Bytes)
    ensures WhiteWidth(s) > 0 <==> StartsWhite(s)
    ensures WhiteWidth(s) > 0 ==> IsWhiteBytes(s[..WhiteWidth(s)])
  {
    hide Encode;
    var w := WhiteWidth(s);
    if w > 0 {
      assert IsWhiteBytes(s[..w]);
      WhiteOfBytes(s[..w]);
      var code := WhiteOf(s[..w]);
      assert IsWhite(code) && Encode(code) <= s;
    }
    forall code: Scalar | IsWhite(code) && Encode(code) <= s
      ensures WhiteWidth(s) > 0
    {
      WhiteBytesOf(code);
      WidthOf(Encode(code), s);
    }
  }

  lemma {:induction false} WidthOf(c: Bytes, s: Bytes)
    requires IsWhiteBytes(c) && c <= s
    ensures WhiteWidth(s) == |c|
  {
    assert s[..|c|] == c;
  }

  lemma {:induction false} TailIff(s: Bytes)
    ensures WhiteTail(s) > 0 <==> EndsWhite(s)
    ensures WhiteTail(s) > 0 ==> IsWhiteBytes(s[|s| - WhiteTail(s)..])
  {
    hide Encode;
    var w := WhiteTail(s);
    if w > 0 {
      var c := s[|s| - w..];
      assert IsWhiteBytes(c);
      WhiteOfBytes(c);
      var code := WhiteOf(c);
      assert IsWhite(code) && EndsIn(s, Encode(code));
    }
    forall code: Scalar | IsWhite(code) && EndsIn(s, Encode(code))
      ensures WhiteTail(s) > 0
    {
      WhiteBytesOf(code);
      TailOf(Encode(code), s);
    }
  }

  lemma {:induction false} TailOf(c: Bytes, s: Bytes)
    requires IsWhiteBytes(c) && EndsIn(s, c)
    ensures WhiteTail(s) == |c|
  {
    assert s[|s| - |c|..] == c;
    assert forall i :: 0 <= i < |c| ==> s[|s| - |c| + i] == c[i];
  }

  // ---- white space at either end --------------------------------------------------------------

  lemma {:induction false} NoneIsWhite()
    ensures White([])
  {
    assert AllWhite([]) && EncodeAll([]) == [];
  }

  lemma {:induction false} WhiteThen(c: Bytes, s: Bytes)
    requires IsWhiteBytes(c) && White(s)
    ensures White(c + s)
  {
    hide Encode, IsWhiteBytes;
    var text: seq<Scalar> :| AllWhite(text) && EncodeAll(text) == s;
    WhiteOfBytes(c);
    var all := [WhiteOf(c)] + text;
    assert all[1..] == text;
    assert AllWhite(all) && EncodeAll(all) == c + s;
  }

  lemma {:induction false} EncodeAllAppend(a: seq<Scalar>, b: seq<Scalar>)
    ensures EncodeAll(a + b) == EncodeAll(a) + EncodeAll(b)
    decreases |a|
  {
    hide Encode;
    if a == [] {
      assert a + b == b;
    } else {
      EncodeAllAppend(a[1..], b);
      assert (a + b)[1..] == a[1..] + b;
    }
  }

  lemma {:induction false} ThenWhite(s: Bytes, c: Bytes)
    requires IsWhiteBytes(c) && White(s)
    ensures White(s + c)
  {
    hide Encode, IsWhiteBytes;
    var text: seq<Scalar> :| AllWhite(text) && EncodeAll(text) == s;
    WhiteOfBytes(c);
    var last: seq<Scalar> := [WhiteOf(c)];
    EncodeAllAppend(text, last);
    assert EncodeAll(last) == c + EncodeAll([]) == c;
    assert AllWhite(text + last) && EncodeAll(text + last) == s + c;
  }

  lemma {:induction false} StartTrims(s: Bytes) returns (left: Bytes)
    ensures White(left) && s == left + TrimStart(s) && WhiteWidth(TrimStart(s)) == 0
    decreases |s|
  {
    hide WhiteWidth, White, IsWhiteBytes;
    var w := WhiteWidth(s);
    NoneIsWhite();
    left := [];
    if w > 0 {
      var rest := StartTrims(s[w..]);
      WidthIff(s);
      left := s[..w] + rest;
      WhiteThen(s[..w], rest);
    }
  }

  lemma {:induction false} EndTrims(s: Bytes) returns (right: Bytes)
    ensures White(right) && s == TrimEnd(s) + right && WhiteTail(TrimEnd(s)) == 0
    decreases |s|
  {
    hide WhiteTail, White, IsWhiteBytes;
    var w := WhiteTail(s);
    NoneIsWhite();
    right := [];
    if w > 0 {
      var k := |s| - w;
      var rest := EndTrims(s[..k]);
      TailIff(s);
      right := rest + s[k..];
      ThenWhite(rest, s[k..]);
      assert s == s[..k] + s[k..];
    }
  }

  /** Cutting at the end brings no white space to the front. */
  lemma {:induction false} FrontStays(s: Bytes, k: nat)
    requires k <= |s| && WhiteWidth(s) == 0
    ensures WhiteWidth(s[..k]) == 0
  {
    hide IsWide;
    if k >= 3 {
      assert s[..k][..3] == s[..3];
    }
  }

  /** Taking white space off the front of something that ends otherwise. */
  lemma {:induction false} StartOf(text: seq<Scalar>, core: Bytes)
    requires AllWhite(text) && WhiteWidth(core) == 0
    ensures TrimStart(EncodeAll(text) + core) == core
    decreases |text|
  {
    hide WhiteWidth, Encode, IsWhiteBytes;
    if text == [] {
      assert EncodeAll(text) + core == core;
    } else {
      var c := Encode(text[0]);
      var s := EncodeAll(text) + core;
      WhiteBytesOf(text[0]);
      assert s == c + (EncodeAll(text[1..]) + core);
      WidthOf(c, s);
      HasBytes(c);
      StartOf(text[1..], core);
    }
  }

  lemma {:induction false} HasBytes(c: Bytes)
    requires IsWhiteBytes(c)
    ensures |c| > 0
  {}

  lemma {:induction false} LastEncoded(text: seq<Scalar>)
    requires text != []
    ensures EncodeAll(text) == EncodeAll(text[..|text| - 1]) + Encode(text[|text| - 1])
  {
    hide Encode;
    var last := [text[|text| - 1]];
    EncodeAllAppend(text[..|text| - 1], last);
    assert text[..|text| - 1] + last == text;
    assert EncodeAll(last) == Encode(last[0]) + EncodeAll([]) == Encode(last[0]);
  }

  lemma {:induction false} EndOf(core: Bytes, text: seq<Scalar>)
    requires AllWhite(text) && WhiteTail(core) == 0
    ensures TrimEnd(core + EncodeAll(text)) == core
    decreases |text|
  {
    hide WhiteTail, Encode, IsWhiteBytes, EncodeAll, IsWhite;
    NothingEncodes(core);
    if text != [] {
      var before, c := text[..|text| - 1], Encode(text[|text| - 1]);
      var s := core + EncodeAll(before);
      WhiteBytesOf(text[|text| - 1]);
      LastEncoded(text);
      assert core + EncodeAll(text) == s + c;
      assert (s + c)[|s|..] == c && (s + c)[..|s|] == s;
      TailOf(c, s + c);
      HasBytes(c);
      EndOf(core, before);
    }
  }

  /** What follows a core that begins with no white space does not complete one. */
  lemma {:induction false} CoreFirst(core: Bytes, right: Bytes)
    requires core != [] && WhiteWidth(core) == 0
    requires right != [] ==> WhiteWidth(right) > 0
    ensures WhiteWidth(core + right) == 0
  {
    var s := core + right;
    assert forall i :: 0 <= i < |core| ==> s[i] == core[i];
    if |core| >= 3 {
      assert s[..3] == core[..3];
    } else if right != [] {
      assert s[|core|] == right[0];
      assert right[0] < 0x80 || right[0] >= 0xC0;
    }
  }

  lemma {:induction false} WhiteStarts(text: seq<Scalar>)
    requires AllWhite(text)
    ensures EncodeAll(text) != [] ==> WhiteWidth(EncodeAll(text)) > 0
  {
    hide WhiteWidth, Encode, IsWhiteBytes;
    if text != [] {
      WhiteBytesOf(text[0]);
      HasBytes(Encode(text[0]));
      WidthOf(Encode(text[0]), EncodeAll(text));
    }
  }

  /** Trimming takes off exactly the white space at both ends. */
  lemma {:induction false} TrimIff(s: Bytes, core: Bytes)
    ensures Trim(s) == core <==> TrimsTo(s, core)
  {
    hide White, StartsWhite, EndsWhite, TrimStart, TrimEnd, WhiteWidth, WhiteTail;
    TrimIs(s);
    if TrimsTo(s, core) {
      TrimOf(s, core);
    }
  }

  lemma {:induction false} TrimIs(s: Bytes)
    ensures TrimsTo(s, Trim(s))
  {
    hide White, StartsWhite, EndsWhite, TrimStart, TrimEnd, WhiteWidth, WhiteTail;
    var left := StartTrims(s);
    var rest := TrimStart(s);
    var right := EndTrims(rest);
    var core := TrimEnd(rest);
    assert rest[..|core|] == core;
    FrontStays(rest, |core|);
    WidthIff(core);
    TailIff(core);
    assert s == left + core + right;
  }

  lemma {:induction false} TrimOf(s: Bytes, core: Bytes)
    requires TrimsTo(s, core)
    ensures Trim(s) == core
  {
    hide StartsWhite, EndsWhite, TrimStart, TrimEnd, WhiteWidth, WhiteTail, Encode, EncodeAll;
    WidthIff(core);
    TailIff(core);
    var left: Bytes, right: Bytes :| White(left) && White(right) && s == left + core + right;
    var before: seq<Scalar> :| AllWhite(before) && EncodeAll(before) == left;
    var behind: seq<Scalar> :| AllWhite(behind) && EncodeAll(behind) == right;
    TrimsAway(before, core, behind);
  }

  lemma {:induction false} TrimsAway(before: seq<Scalar>, core: Bytes, behind: seq<Scalar>)
    requires AllWhite(before) && AllWhite(behind) && WhiteWidth(core) == 0 && WhiteTail(core) == 0
    ensures Trim(EncodeAll(before) + core + EncodeAll(behind)) == core
  {
    hide TrimStart, TrimEnd, WhiteWidth, WhiteTail, Encode, EncodeAll;
    var right := EncodeAll(behind);
    assert EncodeAll(before) + core + right == EncodeAll(before) + (core + right);
    if core == [] {
      EncodeAllAppend(before, behind);
      assert core + right == right;
      assert EncodeAll(before) + core + right == EncodeAll(before + behind) + core;
      StartOf(before + behind, core);
    } else {
      WhiteStarts(behind);
      CoreFirst(core, right);
      StartOf(before, core + right);
      EndOf(core, behind);
    }
    EndOf(core, []);
    NothingEncodes(core);
  }

  lemma {:induction false} NothingEncodes(core: Bytes)
    ensures core + EncodeAll([]) == core
  {}

  /** Nothing is left exactly of white space alone. */
  lemma {:induction false} BlankIff(s: Bytes)
    ensures Blank(s) <==> White(s)
  {
    hide White, StartsWhite, EndsWhite, Trim;
    TrimIff(s, []);
    NoneIsWhite();
    WidthIff([]);
    TailIff([]);
    if White(s) {
      assert s == s + [] + [];
    }
    if TrimsTo(s, []) {
      BetweenNothing(s);
    }
  }

  lemma {:induction false} BetweenNothing(s: Bytes)
    requires TrimsTo(s, [])
    ensures White(s)
  {
    hide StartsWhite, EndsWhite, EncodeAll;
    var left: Bytes, right: Bytes :| White(left) && White(right) && s == left + [] + right;
    var before: seq<Scalar> :| AllWhite(before) && EncodeAll(before) == left;
    var behind: seq<Scalar> :| AllWhite(behind) && EncodeAll(behind) == right;
    EncodeAllAppend(before, behind);
    assert AllWhite(before + behind) && EncodeAll(before + behind) == s;
  }
}
