/** The order in which a project's files are listed. */
module Paths {

  datatype Ordering = Less | Equal | Greater

  /** A character's collation class and its place in it, as one number with the class in front. */
  function Primary(c: char): nat {
    var width := 0x110000;
    match c
    case ' ' => 0
    case '_' => 1
    case '-' => 2
    case '.' => 3
    case '/' => 4
    case _ =>
      if '0' <= c <= '9' then width + c as int
      else if 'a' <= c <= 'z' then 2 * width + (c as int - 'a' as int)
      else if 'A' <= c <= 'Z' then 2 * width + (c as int - 'A' as int)
      else 3 * width + c as int
  }

  /** Lowercase before uppercase. */
  function Tertiary(c: char): nat {
    if 'A' <= c <= 'Z' then 1 else 0
  }

  function Primaries(s: string): (keys: seq<nat>) {
    seq(|s|, i requires 0 <= i < |s| => Primary(s[i]))
  }

  function Tertiaries(s: string): (keys: seq<nat>) {
    seq(|s|, i requires 0 <= i < |s| => Tertiary(s[i]))
  }

  /** Element by element, a proper prefix first. */
  function CompareKeys(a: seq<nat>, b: seq<nat>): Ordering {
    if a == [] && b == [] then Equal
    else if a == [] then Less
    else if b == [] then Greater
    else if a[0] < b[0] then Less
    else if a[0] > b[0] then Greater
    else CompareKeys(a[1..], b[1..])
  }

  function LocaleCompare(left: string, right: string): Ordering {
    var byPrimary := CompareKeys(Primaries(left), Primaries(right));
    if byPrimary != Equal then byPrimary else CompareKeys(Tertiaries(left), Tertiaries(right))
  }

  predicate Before(left: string, right: string) {
    LocaleCompare(left, right) == Less
  }

  function Reversed(o: Ordering): Ordering {
    match o
    case Less => Greater
    case Equal => Equal
    case Greater => Less
  }

  lemma {:induction false} KeysEqual(a: seq<nat>, b: seq<nat>)
    ensures CompareKeys(a, b) == Equal <==> a == b
  {
    if a != [] && b != [] && a[0] == b[0] {
      KeysEqual(a[1..], b[1..]);
      assert a == [a[0]] + a[1..] && b == [b[0]] + b[1..];
    }
  }

  lemma {:induction false} KeysReverse(a: seq<nat>, b: seq<nat>)
    ensures CompareKeys(b, a) == Reversed(CompareKeys(a, b))
  {
    if a != [] && b != [] && a[0] == b[0] {
      KeysReverse(a[1..], b[1..]);
    }
  }

  lemma {:induction false} KeysTransitive(a: seq<nat>, b: seq<nat>, c: seq<nat>)
    requires CompareKeys(a, b) == Less && CompareKeys(b, c) == Less
    ensures CompareKeys(a, c) == Less
  {
    if a != [] && b != [] && c != [] && a[0] == b[0] == c[0] {
      KeysTransitive(a[1..], b[1..], c[1..]);
    }
  }

  lemma {:induction false} SameCharacter(c: char, d: char)
    requires Primary(c) == Primary(d) && Tertiary(c) == Tertiary(d)
    ensures c == d
  {}

  /** Two paths compare equal only if they are the same path. */
  lemma {:induction false} EqualOnlyToItself(left: string, right: string)
    ensures LocaleCompare(left, right) == Equal <==> left == right
  {
    KeysEqual(Primaries(left), Primaries(right));
    KeysEqual(Tertiaries(left), Tertiaries(right));
    if LocaleCompare(left, right) == Equal {
      assert |Primaries(left)| == |left| && |Primaries(right)| == |right|;
      forall i | 0 <= i < |left|
        ensures left[i] == right[i]
      {
        assert Primaries(left)[i] == Primaries(right)[i] && Tertiaries(left)[i] == Tertiaries(right)[i];
        SameCharacter(left[i], right[i]);
      }
    }
  }

  /** `locale_compare` is a strict total order: irreflexive, total and transitive. */
  lemma {:induction false} StrictTotalOrder(a: string, b: string, c: string)
    ensures !Before(a, a)
    ensures a != b ==> Before(a, b) || Before(b, a)
    ensures !(Before(a, b) && Before(b, a))
    ensures Before(a, b) && Before(b, c) ==> Before(a, c)
  {
    EqualOnlyToItself(a, a);
    EqualOnlyToItself(a, b);
    KeysReverse(Primaries(a), Primaries(b));
    KeysReverse(Tertiaries(a), Tertiaries(b));
    if Before(a, b) && Before(b, c) {
      KeysEqual(Primaries(a), Primaries(b));
      KeysEqual(Primaries(b), Primaries(c));
      if Primaries(a) == Primaries(b) == Primaries(c) {
        KeysEqual(Primaries(a), Primaries(c));
        KeysTransitive(Tertiaries(a), Tertiaries(b), Tertiaries(c));
      } else if Primaries(a) != Primaries(b) && Primaries(b) != Primaries(c) {
        KeysTransitive(Primaries(a), Primaries(b), Primaries(c));
      }
    }
  }

  // ---- the order itself ----------------------------------------------------------------

  /** Punctuation, then digits, then letters by the alphabet. */
  const COLLATION: string := " _-./0123456789abcdefghijklmnopqrstuvwxyz"

  function Folded(c: char): char {
    if 'A' <= c <= 'Z' then 'a' + (c - 'A') else c
  }

  /** Listed ones by their place in the list, then all others by their code point; a letter's case does not matter. */
  predicate Sooner(c: char, d: char) {
    var a, b := Folded(c), Folded(d);
    if a in COLLATION then exists i :: 0 <= i < |COLLATION| && COLLATION[i] == a && b !in COLLATION[..i + 1]
    else b !in COLLATION && a < b
  }

  predicate Alike(c: char, d: char) {
    Folded(c) == Folded(d)
  }

  /** What stands at a place of the list. */
  lemma {:induction false} Listed(i: nat)
    requires i < |COLLATION|
    ensures |COLLATION| == 41
    ensures COLLATION[i] as int == if i == 0 then 32 else if i == 1 then 95 else if i == 2 then 45
                                   else if i == 3 then 46 else if i == 4 then 47 else if i < 15 then 48 + i - 5 else 97 + i - 15
  {}

  /** Where a character stands, or that it is not listed. */
  function PlaceOf(c: char): nat {
    if c == ' ' then 0 else if c == '_' then 1 else if c == '-' then 2 else if c == '.' then 3 else if c == '/' then 4
    else if '0' <= c <= '9' then 5 + (c as int - 48)
    else if 'a' <= c <= 'z' then 15 + (c as int - 97)
    else 41
  }

  lemma {:induction false} PlaceIsListed(c: char)
    ensures |COLLATION| == 41
    ensures PlaceOf(c) < 41 ==> COLLATION[PlaceOf(c)] == c
    ensures forall i :: 0 <= i < 41 && COLLATION[i] == c ==> i == PlaceOf(c)
  {
    hide PlaceOf;
    forall i | 0 <= i < |COLLATION| && COLLATION[i] == c
      ensures i == PlaceOf(c)
    {
      Listed(i);
      PlaceAt(i, c);
    }
    Listed(0);
    if PlaceOf(c) < 41 {
      Listed(PlaceOf(c));
      PlaceBack(c);
    }
  }

  lemma {:induction false} PlaceAt(i: nat, c: char)
    requires i < 41
    requires c as int == if i == 0 then 32 else if i == 1 then 95 else if i == 2 then 45
                         else if i == 3 then 46 else if i == 4 then 47 else if i < 15 then 48 + i - 5 else 97 + i - 15
    ensures PlaceOf(c) == i
  {}

  lemma {:induction false} PlaceBack(c: char)
    requires PlaceOf(c) < 41
    ensures var i := PlaceOf(c);
            c as int == if i == 0 then 32 else if i == 1 then 95 else if i == 2 then 45
                        else if i == 3 then 46 else if i == 4 then 47 else if i < 15 then 48 + i - 5 else 97 + i - 15
  {}

  lemma {:induction false} SoonerByPlace(c: char, d: char)
    ensures var a, b := Folded(c), Folded(d);
            Sooner(c, d) <==> PlaceOf(a) < PlaceOf(b) || (PlaceOf(a) == PlaceOf(b) == 41 && a < b)
  {
    hide PlaceOf, Folded;
    var a, b := Folded(c), Folded(d);
    PlaceIsListed(a);
    PlaceIsListed(b);
    PlaceWithin(a);
    PlaceWithin(b);
    assert a in COLLATION <==> PlaceOf(a) < 41;
    assert b in COLLATION <==> PlaceOf(b) < 41;
    if a in COLLATION {
      var i := PlaceOf(a);
      assert forall j :: 0 <= j <= i ==> COLLATION[..i + 1][j] == COLLATION[j];
      assert b in COLLATION[..i + 1] <==> PlaceOf(b) <= i;
    }
  }

  lemma {:induction false} PlaceWithin(c: char)
    ensures PlaceOf(c) <= 41
  {}

  lemma {:induction false} PrimaryOf(c: char)
    ensures var a := Folded(c);
            var i := PlaceOf(a);
            Primary(c) == if i < 5 then i else if i < 15 then 0x110000 + 48 + (i - 5)
                          else if i < 41 then 2 * 0x110000 + (i - 15) else 3 * 0x110000 + a as int
  {}

  lemma {:induction false} PrimaryIsPlace(c: char, d: char)
    ensures var a, b := Folded(c), Folded(d);
            && (Primary(c) < Primary(d) <==> PlaceOf(a) < PlaceOf(b) || (PlaceOf(a) == PlaceOf(b) == 41 && a < b))
            && (Primary(c) == Primary(d) <==> a == b)
  {
    hide Primary, PlaceOf, Folded;
    PrimaryOf(c);
    PrimaryOf(d);
    PlaceWithin(Folded(c));
    PlaceWithin(Folded(d));
    if PlaceOf(Folded(c)) == PlaceOf(Folded(d)) < 41 {
      PlaceBack(Folded(c));
      PlaceBack(Folded(d));
    }
  }

  /** The first place where the paths differ, or where the first ends, decides. */
  predicate SoonerAt(left: string, right: string, i: nat) {
    && i <= |left| && i < |right|
    && (forall j :: 0 <= j < i ==> Alike(left[j], right[j]))
    && (i == |left| || Sooner(left[i], right[i]))
  }

  /** Of paths that differ in case alone, the first such place decides: lowercase first. */
  predicate LowerAt(left: string, right: string, i: nat) {
    && |left| == |right| && i < |left|
    && (forall j :: 0 <= j < |left| ==> Alike(left[j], right[j]))
    && left[..i] == right[..i] && 'a' <= left[i] <= 'z' && 'A' <= right[i] <= 'Z'
  }

  predicate KeysLessAt(a: seq<nat>, b: seq<nat>, i: nat) {
    i <= |a| && i < |b| && a[..i] == b[..i] && (i == |a| || a[i] < b[i])
  }

  lemma {:induction false} KeysLessBehind(a: seq<nat>, b: seq<nat>, i: nat)
    requires a != [] && b != [] && a[0] == b[0]
    ensures KeysLessAt(a, b, i + 1) <==> KeysLessAt(a[1..], b[1..], i)
  {
    if i < |a| && i + 1 < |b| {
      assert a[..i + 1] == [a[0]] + a[1..][..i] && b[..i + 1] == [b[0]] + b[1..][..i];
    }
  }

  lemma {:induction false} PlaceMakesLess(a: seq<nat>, b: seq<nat>, i: nat)
    requires KeysLessAt(a, b, i)
    ensures CompareKeys(a, b) == Less
    decreases i
  {
    if i > 0 {
      assert a[0] == a[..i][0] == b[..i][0] == b[0];
      KeysLessBehind(a, b, i - 1);
      PlaceMakesLess(a[1..], b[1..], i - 1);
    }
  }

  lemma {:induction false} LessHasPlace(a: seq<nat>, b: seq<nat>) returns (i: nat)
    requires CompareKeys(a, b) == Less
    ensures KeysLessAt(a, b, i)
    decreases |a|
  {
    i := 0;
    if a != [] && b != [] && a[0] == b[0] {
      i := LessHasPlace(a[1..], b[1..]);
      KeysLessBehind(a, b, i);
      i := i + 1;
    }
  }

  lemma {:induction false} LessKeys(a: seq<nat>, b: seq<nat>)
    ensures CompareKeys(a, b) == Less <==> exists i :: KeysLessAt(a, b, i)
  {
    hide CompareKeys, KeysLessAt;
    if CompareKeys(a, b) == Less {
      var i := LessHasPlace(a, b);
    }
    forall i | KeysLessAt(a, b, i)
      ensures CompareKeys(a, b) == Less
    {
      PlaceMakesLess(a, b, i);
    }
  }

  lemma {:induction false} PrimariesIff(left: string, right: string)
    ensures CompareKeys(Primaries(left), Primaries(right)) == Less <==> exists i :: SoonerAt(left, right, i)
    ensures Primaries(left) == Primaries(right) <==> |left| == |right| && forall j :: 0 <= j < |left| ==> Alike(left[j], right[j])
  {
    hide Primary, Sooner, Alike, CompareKeys;
    var a, b := Primaries(left), Primaries(right);
    LessKeys(a, b);
    assert |a| == |left| && |b| == |right|;
    forall j, k | 0 <= j < |left| && 0 <= k < |right|
      ensures (a[j] == b[k] <==> Alike(left[j], right[k])) && (a[j] < b[k] <==> Sooner(left[j], right[k]))
    {
      ByCharacter(left[j], right[k]);
    }
    if i: nat :| KeysLessAt(a, b, i) {
      assert forall j :: 0 <= j < i ==> a[..i][j] == a[j] && b[..i][j] == b[j];
      assert SoonerAt(left, right, i);
    }
    if i: nat :| SoonerAt(left, right, i) {
      assert a[..i] == b[..i] && KeysLessAt(a, b, i);
    }
  }

  lemma {:induction false} ByCharacter(c: char, d: char)
    ensures Primary(c) == Primary(d) <==> Alike(c, d)
    ensures Primary(c) < Primary(d) <==> Sooner(c, d)
  {
    hide Sooner, Primary, Folded, PlaceOf;
    PrimaryIsPlace(c, d);
    SoonerByPlace(c, d);
  }

  lemma {:induction false} CaseAlone(c: char, d: char)
    requires Alike(c, d)
    ensures c == d <==> Tertiary(c) == Tertiary(d)
    ensures Tertiary(c) < Tertiary(d) <==> 'a' <= c <= 'z' && 'A' <= d <= 'Z'
  {}

  lemma {:induction false} TertiariesIff(left: string, right: string)
    requires |left| == |right| && forall j :: 0 <= j < |left| ==> Alike(left[j], right[j])
    ensures CompareKeys(Tertiaries(left), Tertiaries(right)) == Less <==> exists i :: LowerAt(left, right, i)
  {
    hide Tertiary, Alike, CompareKeys;
    var a, b := Tertiaries(left), Tertiaries(right);
    LessKeys(a, b);
    assert |a| == |left| && |b| == |right|;
    forall j | 0 <= j < |left|
      ensures a[j] == b[j] <==> left[j] == right[j]
      ensures a[j] < b[j] <==> 'a' <= left[j] <= 'z' && 'A' <= right[j] <= 'Z'
    {
      CaseAlone(left[j], right[j]);
    }
    if i: nat :| KeysLessAt(a, b, i) {
      assert forall j :: 0 <= j < i ==> a[..i][j] == a[j] && b[..i][j] == b[j];
      assert left[..i] == right[..i];
      assert LowerAt(left, right, i);
    }
    if i: nat :| LowerAt(left, right, i) {
      assert forall j :: 0 <= j < i ==> left[..i][j] == left[j] && right[..i][j] == right[j];
      assert a[..i] == b[..i] && KeysLessAt(a, b, i);
    }
  }

  /**
   * The order: punctuation before digits before letters, letters by the
   * alphabet, a prefix first; of paths that differ in case alone, lowercase
   * first.
   */
  lemma {:induction false} BeforeIff(left: string, right: string)
    ensures Before(left, right) <==> (exists i :: SoonerAt(left, right, i)) || (exists i :: LowerAt(left, right, i))
  {
    hide SoonerAt, CompareKeys, Alike, Primary, Tertiary;
    PrimariesIff(left, right);
    KeysEqual(Primaries(left), Primaries(right));
    if Primaries(left) == Primaries(right) {
      TertiariesIff(left, right);
    }
  }
}
