/** Which byte streams decode the same however the pipe cuts them. */
module Utf8Cuts {
  import opened Common
  import opened Utf8

  /** How many bytes the front takes. */
  function FrontLength(s: Bytes): (n: nat)
    requires s != []
    ensures 1 <= n <= |s|
  {
    match FrontOf(s)
    case Character(width) => width
    case Partial => |s|
    case Invalid(length) => length
  }

  /** Nothing in the bytes is longer than a byte: no character, and no piece of one. */
  predicate Narrow(s: Bytes) {
    s == [] || (FrontLength(s) == 1 && Narrow(s[1..]))
  }

  /** Behind the first invalid stretch, if there is one, everything is one byte long. */
  predicate Tame(s: Bytes)
    decreases |s|
  {
    s == [] ||
    match FrontOf(s)
    case Character(width) => Tame(s[width..])
    case Partial => true
    case Invalid(length) => Narrow(s[length..])
  }

  // ---- fronts ------------------------------------------------------------------------------

  /** The front of a beginning of the bytes. */
  lemma {:induction false} FrontFromUpto(s: Bytes, n: nat, i: nat)
    requires s != [] && 1 <= i <= Width(s[0]) && i <= n <= |s|
    ensures var f := FrontFrom(s, i);
            FrontFrom(s[..n], i) == if (f.Character? && f.width <= n) || (f.Invalid? && f.length < n) then f else Partial
    decreases n - i
  {
    var t := s[..n];
    assert t[0] == s[0];
    if i < Width(s[0]) && i < n {
      assert t[i] == s[i];
      if Continues(s[0], i, s[i]) {
        FrontFromUpto(s, n, i + 1);
      }
    } else if i < Width(s[0]) {
      FrontFromReaches(s, i);
    }
  }

  lemma {:induction false} FrontFromReaches(s: Bytes, i: nat)
    requires s != [] && 1 <= i <= Width(s[0]) && i <= |s|
    ensures FrontFrom(s, i).Invalid? ==> FrontFrom(s, i).length >= i
    decreases |s| - i
  {
    if i < Width(s[0]) && i < |s| && Continues(s[0], i, s[i]) {
      FrontFromReaches(s, i + 1);
    }
  }

  lemma {:induction false} FrontUpto(s: Bytes, n: nat)
    requires 1 <= n <= |s|
    ensures var f := FrontOf(s);
            FrontOf(s[..n]) == if Width(s[0]) == 0 || (f.Character? && f.width <= n) || (f.Invalid? && f.length < n) then f else Partial
  {
    hide FrontFrom;
    assert s[..n][0] == s[0];
    if Width(s[0]) > 0 {
      FrontFromUpto(s, n, 1);
    }
  }

  /** All but the first of a front's bytes are continuation bytes. */
  lemma {:induction false} FrontFromBytes(s: Bytes, i: nat, j: nat)
    requires s != [] && 1 <= i <= Width(s[0]) && i <= |s| && FrontFrom(s, i) == FrontFrom(s, 1)
    requires i <= j < FrontLength(s)
    ensures 0x80 <= s[j] <= 0xBF
    decreases |s| - i
  {
    if i < j {
      FrontFromBytes(s, i + 1, j);
    }
  }

  lemma {:induction false} FrontBytes(s: Bytes, j: nat)
    requires s != [] && 1 <= j < FrontLength(s)
    ensures Width(s[0]) >= 2 && Width(s[j]) == 0
  {
    FrontFromBytes(s, 1, j);
  }

  // ---- the decoded length -------------------------------------------------------------------

  /** A stray continuation byte is replaced on its own. */
  lemma {:induction false} StrayBytes(s: Bytes, i: nat, n: nat)
    requires i <= n <= |s| && forall j :: i <= j < n ==> Width(s[j]) == 0
    ensures |Lossy(s[i..])| == 3 * (n - i) + |Lossy(s[n..])|
    decreases n - i
  {
    if i < n {
      var rest := s[i..];
      assert rest[0] == s[i] && FrontOf(rest) == Invalid(1) && rest[1..] == s[i + 1..];
      StrayBytes(s, i + 1, n);
    }
  }

  lemma {:induction false} LossyStep(s: Bytes)
    requires s != []
    ensures var f, n := FrontOf(s), FrontLength(s);
            Lossy(s) == (if f.Character? then s[..n] else REPLACEMENT) + Lossy(s[n..])
  {
    hide FrontOf;
    assert s[|s|..] == [] && Lossy([]) == [];
    assert REPLACEMENT + [] == REPLACEMENT;
  }

  // ---- no cut shows in tame bytes --------------------------------------------------------------

  lemma {:induction false} NarrowCut(a: Bytes, b: Bytes)
    requires Narrow(a + b)
    ensures Narrow(b) && Lossy(a + b) == Lossy(a) + Lossy(b)
    decreases |a|
  {
    hide FrontOf, Lossy;
    if a == [] {
      assert a + b == b;
      LossyOfNothing();
      assert [] + Lossy(b) == Lossy(b);
    } else {
      var all := a + b;
      assert all[..|a|] == a && all[0] == a[0] && all[1..] == a[1..] + b;
      FrontUpto(all, |a|);
      LossyStep(all);
      LossyStep(a);
      NarrowCut(a[1..], b);
      NarrowFront(all, a);
    }
  }

  lemma {:induction false} LossyOfNothing()
    ensures Lossy([]) == []
  {}

  lemma {:induction false} NarrowFront(all: Bytes, a: Bytes)
    requires a != [] && a <= all && FrontLength(all) == 1
    ensures FrontLength(a) == 1 && (FrontOf(a).Character? <==> FrontOf(all).Character?)
  {
    hide FrontFrom;
    assert all[..|a|] == a;
    FrontUpto(all, |a|);
  }

  lemma {:induction false} NarrowIsTame(s: Bytes)
    requires Narrow(s)
    ensures Tame(s)
  {
    hide FrontOf;
    if s != [] && FrontOf(s).Character? {
      NarrowIsTame(s[1..]);
    }
  }

  /** What is valid at the beginning decodes to itself. */
  lemma {:induction false} ValidPart(s: Bytes)
    requires Validate(s).CutShort?
    ensures WellFormed(s[..Validate(s).valid])
    decreases |s|
  {
    hide FrontOf;
    if FrontOf(s).Character? {
      var w := FrontOf(s).width;
      ValidPart(s[w..]);
      var v := Validate(s[w..]).valid;
      CharacterFirst(s[..w], s[w..][..v], s);
      assert s[..w + v] == s[..w] + s[w..][..v];
    }
  }

  /** What a chunk leaves pending, and all that is still to come, decode as before. */
  ghost predicate Carried(a: Bytes, b: Bytes) {
    match Validate(a)
    case Fine => Tame(b) && Lossy(a + b) == a + Lossy(b)
    case CutShort(valid) => Tame(a[valid..] + b) && Lossy(a + b) == a[..valid] + Lossy(a[valid..] + b)
    case Broken(_) => Tame(b) && Lossy(a + b) == Lossy(a) + Lossy(b)
  }

  lemma {:induction false} TameCut(a: Bytes, b: Bytes)
    requires Tame(a + b)
    ensures Carried(a, b)
    decreases |a|
  {
    hide FrontOf, Lossy, Validate, Carried, Narrow;
    var all := a + b;
    if a == [] {
      assert all == b;
      CutOfNothing(b);
    } else {
      assert all[..|a|] == a && all[0] == a[0];
      FrontUpto(all, |a|);
      match FrontOf(a) {
        case Character(w) =>
          SameFront(a, b);
          assert all[w..] == a[w..] + b;
          TameCut(a[w..], b);
          CarriedBehind(a, b);
        case Partial =>
          PartialCarried(a, b);
        case Invalid(n) =>
          SameFront(a, b);
          assert all[n..] == a[n..] + b;
          NarrowCut(a[n..], b);
          NarrowIsTame(b);
          InvalidCarried(a, b);
      }
    }
  }

  lemma {:induction false} SameFront(a: Bytes, b: Bytes)
    requires a != [] && !FrontOf(a).Partial?
    ensures FrontOf(a + b) == FrontOf(a)
  {
    hide FrontFrom;
    var all := a + b;
    assert all[..|a|] == a && all[0] == a[0];
    FrontUpto(all, |a|);
  }

  lemma {:induction false} CutOfNothing(b: Bytes)
    requires Tame(b)
    ensures Carried([], b)
  {
    assert [] + b == b && [] + Lossy(b) == Lossy(b);
  }

  lemma {:induction false} PartialCarried(a: Bytes, b: Bytes)
    requires Tame(a + b) && a != [] && FrontOf(a).Partial?
    ensures Carried(a, b)
  {
    hide FrontOf, Lossy, Tame;
    assert a[0..] == a && a[..0] == [];
    assert [] + Lossy(a + b) == Lossy(a + b);
  }

  lemma {:induction false} InvalidCarried(a: Bytes, b: Bytes)
    requires a != [] && FrontOf(a).Invalid? && FrontOf(a + b) == FrontOf(a)
    requires Tame(b) && Lossy(a[FrontOf(a).length..] + b) == Lossy(a[FrontOf(a).length..]) + Lossy(b)
    ensures Carried(a, b)
  {
    hide FrontOf, Tame;
    var n := FrontOf(a).length;
    assert (a + b)[n..] == a[n..] + b;
    assert REPLACEMENT + (Lossy(a[n..]) + Lossy(b)) == REPLACEMENT + Lossy(a[n..]) + Lossy(b);
  }

  lemma {:induction false} CarriedBehind(a: Bytes, b: Bytes)
    requires a != [] && FrontOf(a).Character? && FrontOf(a + b) == FrontOf(a) && Carried(a[FrontOf(a).width..], b)
    ensures Carried(a, b)
  {
    hide FrontOf, Tame, Lossy, Validate;
    var w := FrontOf(a).width;
    var tail := a[w..];
    var head := a[..w];
    assert (a + b)[..w] == head && (a + b)[w..] == tail + b && a == head + tail;
    LossyStep(a);
    LossyStep(a + b);
    ValidateStep(a);
    match Validate(tail) {
      case Fine => Regroup(head, tail, Lossy(b));
      case CutShort(v) =>
        assert a[v + w..] == tail[v..] && a[..v + w] == head + tail[..v];
        Regroup(head, tail[..v], Lossy(tail[v..] + b));
      case Broken(_) => Regroup(head, Lossy(tail), Lossy(b));
    }
  }

  lemma {:induction false} ValidateStep(s: Bytes)
    requires s != [] && FrontOf(s).Character?
    ensures Validate(s) == Shift(Validate(s[FrontOf(s).width..]), FrontOf(s).width)
  {
    hide FrontOf;
  }

  lemma {:induction false} Regroup(a: Bytes, b: Bytes, c: Bytes)
    ensures a + (b + c) == a + b + c
  {}

  lemma {:induction false} DecodeCarries(pending: Bytes, chunk: Bytes, later: Bytes)
    requires Tame(pending + chunk + later)
    ensures var d := DecodeChunk(pending, chunk);
            Tame(d.pending + later) && Lossy(pending + chunk + later) == d.text + Lossy(d.pending + later)
  {
    hide Tame, Lossy, Validate, WellFormed;
    var bytes := pending + chunk;
    TameCut(bytes, later);
    assert [] + later == later;
    if Validate(bytes).CutShort? {
      ValidPart(bytes);
      LossyKeepsText(bytes[..Validate(bytes).valid]);
    }
  }

  lemma {:induction false} TameDecodes(pending: Bytes, chunks: seq<Bytes>)
    requires Tame(pending + Joined(chunks))
    ensures DecodeAll(pending, chunks) == Lossy(pending + Joined(chunks))
    decreases |chunks|
  {
    hide DecodeChunk, Tame, Lossy;
    if chunks == [] {
      assert pending + [] == pending;
    } else {
      var later := Joined(chunks[1..]);
      assert pending + chunks[0] + later == pending + Joined(chunks);
      DecodeCarries(pending, chunks[0], later);
      TameDecodes(DecodeChunk(pending, chunks[0]).pending, chunks[1..]);
    }
  }

  // ---- and some cut shows in all others ----------------------------------------------------------

  /** A cut behind the first byte of something longer replaces each of its bytes. */
  lemma {:induction false} WideCut(s: Bytes) returns (n: nat)
    requires !Narrow(s)
    ensures 1 <= n <= |s| && |Lossy(s[..n])| + |Lossy(s[n..])| > |Lossy(s)|
  {
    hide FrontOf, Lossy;
    if FrontLength(s) == 1 {
      var m := WideCut(s[1..]);
      n := m + 1;
      assert s[n..] == s[1..][m..] && s[..n][1..] == s[1..][..m];
      LossyStep(s);
      LossyStep(s[..n]);
      NarrowFront(s, s[..n]);
      assert s[..n][..1] == s[..1];
    } else {
      n := 1;
      CutInside(s);
    }
  }

  lemma {:induction false} CutInside(s: Bytes)
    requires s != [] && FrontLength(s) > 1
    ensures |Lossy(s[..1])| + |Lossy(s[1..])| > |Lossy(s)|
  {
    hide FrontOf, Lossy;
    var k := FrontLength(s);
    forall j | 1 <= j < k
      ensures Width(s[j]) == 0
    {
      FrontBytes(s, j);
    }
    FrontBytes(s, 1);
    StrayBytes(s, 1, k);
    LossyStep(s);
    LeadAlone(s[..1]);
  }

  lemma {:induction false} LeadAlone(s: Bytes)
    requires |s| == 1 && Width(s[0]) >= 2
    ensures |Lossy(s)| == 3
  {}

  lemma {:induction false} WildCut(s: Bytes) returns (n: nat)
    requires !Tame(s)
    ensures n <= |s| && Validate(s[..n]).Broken?
    ensures |Lossy(s[..n])| + |Lossy(s[n..])| > |Lossy(s)|
    decreases |s|
  {
    hide FrontOf, Lossy, Validate, Narrow;
    var k := FrontLength(s);
    var m: nat;
    if FrontOf(s).Character? {
      m := WildCut(s[k..]);
    } else {
      m := WideCut(s[k..]);
    }
    n := k + m;
    assert s[n..] == s[k..][m..] && s[..n][k..] == s[k..][..m] && s[..n][..k] == s[..k];
    FrontUpto(s, n);
    LossyStep(s);
    LossyStep(s[..n]);
    BrokenStep(s[..n]);
  }

  lemma {:induction false} BrokenStep(s: Bytes)
    requires s != []
    ensures FrontOf(s).Invalid? ==> Validate(s).Broken?
    ensures FrontOf(s).Character? ==> (Validate(s).Broken? <==> Validate(s[FrontOf(s).width..]).Broken?)
  {
    hide FrontOf;
  }

  lemma {:induction false} DecodeTwo(a: Bytes, b: Bytes)
    requires Validate(a).Broken?
    ensures Joined([a, b]) == a + b && DecodeAll([], [a, b]) == Lossy(a) + Lossy(b)
  {
    hide Lossy, Validate;
    JoinedPair(a, b);
    assert [a, b][1..] == [b] && [] + a == a;
    DecodeOne(b);
  }

  lemma {:induction false} DecodeOne(s: Bytes)
    ensures DecodeAll([], [s]) == Lossy(s)
  {
    hide Lossy, Validate;
    assert [s][1..] == [] && [] + s == s;
    LossyOfNothing();
    ValidateIsWellFormed(s);
    match Validate(s) {
      case Fine => LossyKeepsText(s);
      case CutShort(v) => CutShortIsLossy(s);
      case Broken(_) =>
    }
    assert Lossy(s) + [] == Lossy(s);
  }

  lemma {:induction false} CutShortIsLossy(s: Bytes)
    requires Validate(s).CutShort?
    ensures var v := Validate(s).valid; Lossy(s) == Lossy(s[..v]) + Lossy(s[v..])
    decreases |s|
  {
    hide FrontOf, Lossy;
    if FrontOf(s).Character? {
      var w := FrontOf(s).width;
      CutShortIsLossy(s[w..]);
      var v := Validate(s[w..]).valid;
      var front := s[..w + v];
      assert front == s[..w] + s[w..][..v] && front[w..] == s[w..][..v] && front[..w] == s[..w] && s[w + v..] == s[w..][v..];
      CharacterFirst(s[..w], s[w..][..v], s);
      LossyStep(s);
      LossyStep(front);
      assert s[..w] + (Lossy(s[w..][..v]) + Lossy(s[w + v..])) == s[..w] + Lossy(s[w..][..v]) + Lossy(s[w + v..]);
    } else {
      assert s[..0] == [] && s[0..] == s;
      LossyOfNothing();
      assert [] + Lossy(s) == Lossy(s);
    }
  }

  /**
   * Every cut of a stream decodes as the uncut stream exactly when nothing
   * behind its first invalid stretch is longer than a byte. The uncut stream
   * decodes as the library decodes the whole.
   */
  lemma {:induction false} CutsDecodeAlikeIff(s: Bytes)
    ensures DecodeAll([], [s]) == Lossy(s)
    ensures (forall chunks :: Joined(chunks) == s ==> DecodeAll([], chunks) == DecodeAll([], [s])) <==> Tame(s)
  {
    hide Lossy, Tame, DecodeAll, Validate;
    DecodeOne(s);
    if Tame(s) {
      assert [] + s == s;
      forall chunks | Joined(chunks) == s
        ensures DecodeAll([], chunks) == Lossy(s)
      {
        TameDecodes([], chunks);
      }
    } else {
      var n := WildCut(s);
      var a, b := s[..n], s[n..];
      DecodeTwo(a, b);
      assert a + b == s;
      assert DecodeAll([], [a, b]) != DecodeAll([], [s]);
    }
  }

  /** Such streams exist: a broken byte takes a half-arrived character down with it. */
  lemma {:induction false} BrokenBytesTellTheCuts()
    ensures var whole: Bytes := [0xFF, 0xC3, 0xA9];
            && Joined([whole]) == Joined([[0xFF, 0xC3], [0xA9]])
            && DecodeAll([], [whole]) != DecodeAll([], [[0xFF, 0xC3], [0xA9]])
  {
    var whole: Bytes := [0xFF, 0xC3, 0xA9];
    var a: Bytes, b: Bytes := [0xFF, 0xC3], [0xA9];
    JoinedPair(a, b);
    assert [whole][1..] == [] && Joined([whole]) == whole + [];
    assert Validate(whole) == Broken(0) && Validate(a) == Broken(0) && Validate(b) == Broken(0);
    assert [] + whole == whole && [] + a == a && [] + b == b;
    assert whole[1..] == [0xC3, 0xA9] && whole[1..][2..] == [] && whole[1..][..2] == [0xC3, 0xA9];
    assert FrontFrom(whole[1..], 2) == Character(2);
    assert Lossy(whole[1..]) == [0xC3, 0xA9] + Lossy([]);
    assert Lossy(whole) == REPLACEMENT + [0xC3, 0xA9];
    assert a[1..] == [0xC3];
    assert FrontOf(a[1..]) == Partial;
    assert Lossy(a) == REPLACEMENT + REPLACEMENT;
    assert b[1..] == [];
    assert Lossy(b) == REPLACEMENT + Lossy([]);
    assert [a, b][1..] == [b] && [b][1..] == [];
    assert DecodeAll([], [whole]) == Lossy(whole) + Lossy([]);
    assert DecodeAll([], [b]) == Lossy(b) + Lossy([]);
    assert DecodeAll([], [a, b]) == Lossy(a) + DecodeAll([], [b]);
    assert |DecodeAll([], [whole])| == 5 && |DecodeAll([], [a, b])| == 9;
  }

  lemma {:induction false} JoinedPair(a: Bytes, b: Bytes)
    ensures Joined([a, b]) == a + b
  {
    assert [a, b][1..] == [b] && [b][1..] == [];
    assert Joined([b]) == b + [];
  }
}
