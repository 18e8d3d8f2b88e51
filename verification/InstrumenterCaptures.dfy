/** What is inserted: each shadow once and only if used, each log marked, and what const and test context leave out. */
module InstrumenterCaptures {
  import opened Common
  import opened Instrumenter
  import opened InstrumenterScopes

  // ---- captures and uses ----------------------------------------------------------------------

  ghost predicate Binds(part: seq<Insertion>, shadow: nat) {
    exists i :: i in part && i.piece.Capture? && i.piece.shadow == shadow
  }

  ghost predicate Mentions(part: seq<Insertion>, shadow: nat) {
    exists i :: i in part && i.piece.LoopLogCall? && i.piece.shadow == shadow
  }

  lemma {:induction false} BindsBoth(a: seq<Insertion>, b: seq<Insertion>, shadow: nat)
    ensures Binds(a + b, shadow) <==> Binds(a, shadow) || Binds(b, shadow)
    ensures Mentions(a + b, shadow) <==> Mentions(a, shadow) || Mentions(b, shadow)
  {
    assert forall i :: i in a + b <==> i in a || i in b;
  }

  lemma {:induction false} NothingBound(shadow: nat)
    ensures !Binds([], shadow) && !Mentions([], shadow)
  {}

  lemma {:induction false} ProbeBindsNothing(end: nat, name: string, shadow: nat)
    ensures !Binds([Insertion(end, ProbeCall(name))], shadow) && !Mentions([Insertion(end, ProbeCall(name))], shadow)
  {}

  /** The innermost loop's shadow, if it has one. */
  predicate IsTop(top: Option<Tag>, shadow: nat) {
    top.Some? && top.value.variable.Some? && top.value.shadow == shadow
  }

  /**
   * A construct behind `k` loops binds only shadows of its own loops, and
   * mentions those and the one of the loop around it; its own ones are bound
   * exactly if mentioned, the outer one is mentioned exactly if used.
   */
  ghost predicate Accounts(part: seq<Insertion>, k: nat, count: nat, top: Option<Tag>, used: bool, shadow: nat) {
    if k < shadow <= k + count then Binds(part, shadow) <==> Mentions(part, shadow)
    else !Binds(part, shadow) && (Mentions(part, shadow) <==> IsTop(top, shadow) && used)
  }

  predicate TopBefore(top: Option<Tag>, k: nat) {
    top.Some? ==> 1 <= top.value.shadow <= k
  }

  lemma {:induction false} AllAccount(nodes: seq<Node>, k: nat, top: Option<Tag>, active: bool, shadow: nat)
    requires TopBefore(top, k)
    ensures Accounts(EmitAll(nodes, k, top, active), k, CountAll(nodes), top, UsesAny(nodes, active), shadow)
    decreases nodes, 1
  {
    hide Emit, Uses, Count, Binds, Mentions;
    if nodes == [] {
      NothingBound(shadow);
    } else {
      NodeAccounts(nodes[0], k, top, active, shadow);
      AllAccount(nodes[1..], k + Count(nodes[0]), top, active, shadow);
      BindsBoth(Emit(nodes[0], k, top, active), EmitAll(nodes[1..], k + Count(nodes[0]), top, active), shadow);
    }
  }

  lemma {:induction false} LogAccounts(node: Node, k: nat, top: Option<Tag>, active: bool, shadow: nat)
    requires node.Log? && TopBefore(top, k)
    ensures Accounts(Emit(node, k, top, active), k, 0, top, active, shadow)
  {
    if active {
      assert Insertion(node.end, LogPiece(node.fd, node.place, top)) in Emit(node, k, top, active);
    }
  }

  lemma {:induction false} CaptureBinds(own: nat, variable: Option<string>, bodyStart: nat, used: bool, shadow: nat)
    ensures Binds(Captures(own, variable, bodyStart, used), shadow) <==> used && variable.Some? && shadow == own
    ensures !Mentions(Captures(own, variable, bodyStart, used), shadow)
  {
    if used && variable.Some? {
      assert Insertion(bodyStart, Capture(own, variable.value)) in Captures(own, variable, bodyStart, used);
    }
  }

  lemma {:induction false} LoopAccounts(node: Node, k: nat, top: Option<Tag>, active: bool, shadow: nat)
    requires node.Loop? && TopBefore(top, k)
    ensures Accounts(Emit(node, k, top, active), k, Count(node), top, false, shadow)
    decreases node, 0
  {
    hide EmitAll, UsesAny, CountAll, Binds, Mentions, Captures;
    var Loop(place, variable, header, bodyStart, body) := node;
    var own := Some(Tag(place, variable, k + 1));
    var e1 := EmitAll(header, k + 1, own, active);
    var e2 := EmitAll(body, k + 1 + CountAll(header), own, active);
    var used := UsesAny(header, active) || UsesAny(body, active);
    AllAccount(header, k + 1, own, active, shadow);
    AllAccount(body, k + 1 + CountAll(header), own, active, shadow);
    CaptureBinds(k + 1, variable, bodyStart, used, shadow);
    BindsBoth(e1, e2, shadow);
    BindsBoth(e1 + e2, Captures(k + 1, variable, bodyStart, used), shadow);
  }

  lemma {:induction false} NodeAccounts(node: Node, k: nat, top: Option<Tag>, active: bool, shadow: nat)
    requires TopBefore(top, k)
    ensures Accounts(Emit(node, k, top, active), k, Count(node), top, Uses(node, active), shadow)
    decreases node, 1
  {
    hide EmitAll, UsesAny, CountAll, Binds, Mentions;
    match node
    case Log(_, _, _) => LogAccounts(node, k, top, active, shadow);
    case Let(init, probe, end) =>
      AllAccount(init, k, top, active, shadow);
      NothingBound(shadow);
      if probe.Some? {
        ProbeBindsNothing(end, probe.value, shadow);
      }
      BindsBoth(EmitAll(init, k, top, active), if active && probe.Some? then [Insertion(end, ProbeCall(probe.value))] else [], shadow);
    case Loop(_, _, _, _, _) => LoopAccounts(node, k, top, active, shadow);
    case Closure(children) => AllAccount(children, k, None, active, shadow);
    case Async(children) => AllAccount(children, k, None, active, shadow);
    case Function(isConst, isTest, children) => AllAccount(children, k, None, active && !isConst && !isTest, shadow);
    case Method(isConst, children) => AllAccount(children, k, None, active && !isConst, shadow);
    case Constant(children) =>
      AllAccount(children, k, top, false, shadow);
      InactiveAll(children, k, top);
    case Module(isTest, children) => AllAccount(children, k, top, active && !isTest, shadow);
    case TraitMethod(children) => AllAccount(children, k, top, active, shadow);
    case AnonymousConst(children) => AllAccount(children, k, top, active, shadow);
    case TestOnly(children) => AllAccount(children, k, top, active, shadow);
    case Other(children) => AllAccount(children, k, top, active, shadow);
  }

  /** In a whole file, a shadow is bound exactly if some log statement uses it. */
  lemma {:induction false} BoundIffUsed(file: seq<Node>, shadow: nat)
    ensures Binds(Inserted(file), shadow) <==> Mentions(Inserted(file), shadow)
  {
    hide EmitAll, UsesAny, CountAll, Binds, Mentions;
    InsertedIsEmitted(file);
    AllAccount(file, 0, None, true, shadow);
  }

  // ---- bound once ----------------------------------------------------------------------------

  /** No two captures bind the same shadow. */
  predicate BindsOnce(part: seq<Insertion>) {
    forall i, j :: 0 <= i < j < |part| && part[i].piece.Capture? && part[j].piece.Capture? ==>
      part[i].piece.shadow != part[j].piece.shadow
  }

  /** All captures bind shadows of these loops. */
  predicate BindsOnly(part: seq<Insertion>, k: nat, count: nat) {
    forall i :: 0 <= i < |part| && part[i].piece.Capture? ==> k < part[i].piece.shadow <= k + count
  }

  lemma {:induction false} OnceBoth(a: seq<Insertion>, k: nat, c: nat, b: seq<Insertion>, d: nat)
    requires BindsOnce(a) && BindsOnly(a, k, c) && BindsOnce(b) && BindsOnly(b, k + c, d)
    ensures BindsOnce(a + b) && BindsOnly(a + b, k, c + d)
  {}

  lemma {:induction false} AllBindOnce(nodes: seq<Node>, k: nat, top: Option<Tag>, active: bool)
    ensures BindsOnce(EmitAll(nodes, k, top, active)) && BindsOnly(EmitAll(nodes, k, top, active), k, CountAll(nodes))
    decreases nodes
  {
    if nodes != [] {
      hide Emit, Count, BindsOnce, BindsOnly;
      NodeBindsOnce(nodes[0], k, top, active);
      AllBindOnce(nodes[1..], k + Count(nodes[0]), top, active);
      OnceBoth(Emit(nodes[0], k, top, active), k, Count(nodes[0]),
               EmitAll(nodes[1..], k + Count(nodes[0]), top, active), CountAll(nodes[1..]));
    }
  }

  lemma {:induction false} OneBindsOnce(k: nat, insertion: Insertion)
    ensures BindsOnce([]) && BindsOnly([], k, 0)
    ensures BindsOnce([insertion]) && (!insertion.piece.Capture? ==> BindsOnly([insertion], k, 0))
  {}

  lemma {:induction false} LoopBindsOnce(k: nat, e1: seq<Insertion>, c1: nat, e2: seq<Insertion>, c2: nat,
                                         variable: Option<string>, bodyStart: nat, used: bool)
    requires BindsOnce(e1) && BindsOnly(e1, k + 1, c1) && BindsOnce(e2) && BindsOnly(e2, k + 1 + c1, c2)
    ensures var part := e1 + e2 + Captures(k + 1, variable, bodyStart, used);
            BindsOnce(part) && BindsOnly(part, k, 1 + c1 + c2)
  {
    OnceBoth(e1, k + 1, c1, e2, c2);
    var both := e1 + e2;
    assert BindsOnce(both) && BindsOnly(both, k + 1, c1 + c2);
  }

  lemma {:induction false} NodeBindsOnce(node: Node, k: nat, top: Option<Tag>, active: bool)
    ensures BindsOnce(Emit(node, k, top, active)) && BindsOnly(Emit(node, k, top, active), k, Count(node))
    decreases node
  {
    hide EmitAll, CountAll, UsesAny, BindsOnce, BindsOnly, Captures;
    match node
    case Log(place, fd, end) => OneBindsOnce(k, Insertion(end, LogPiece(fd, place, top)));
    case Let(init, probe, end) =>
      AllBindOnce(init, k, top, active);
      var n := k + CountAll(init);
      OneBindsOnce(n, Insertion(end, ProbeCall(if probe.Some? then probe.value else "")));
      OnceBoth(EmitAll(init, k, top, active), k, CountAll(init),
               if active && probe.Some? then [Insertion(end, ProbeCall(probe.value))] else [], 0);
    case Loop(place, variable, header, bodyStart, body) =>
      var own := Some(Tag(place, variable, k + 1));
      AllBindOnce(header, k + 1, own, active);
      AllBindOnce(body, k + 1 + CountAll(header), own, active);
      LoopBindsOnce(k, EmitAll(header, k + 1, own, active), CountAll(header),
                    EmitAll(body, k + 1 + CountAll(header), own, active), CountAll(body),
                    variable, bodyStart, UsesAny(header, active) || UsesAny(body, active));
    case Closure(children) => AllBindOnce(children, k, None, active);
    case Async(children) => AllBindOnce(children, k, None, active);
    case Function(isConst, isTest, children) => AllBindOnce(children, k, None, active && !isConst && !isTest);
    case Method(isConst, children) => AllBindOnce(children, k, None, active && !isConst);
    case Constant(children) => AllBindOnce(children, k, top, false);
    case Module(isTest, children) => AllBindOnce(children, k, top, active && !isTest);
    case TraitMethod(children) => AllBindOnce(children, k, top, active);
    case AnonymousConst(children) => AllBindOnce(children, k, top, active);
    case TestOnly(children) => AllBindOnce(children, k, top, active);
    case Other(children) => AllBindOnce(children, k, top, active);
  }

  /** In a whole file, each shadow is bound at most once. */
  lemma {:induction false} BoundOnce(file: seq<Node>)
    ensures BindsOnce(Inserted(file))
  {
    hide EmitAll, BindsOnce;
    InsertedIsEmitted(file);
    AllBindOnce(file, 0, None, true);
  }

  // ---- what stands where -------------------------------------------------------------------------

  /** The pieces at one offset, without the numbers of their shadows. */
  function PiecesAt(all: seq<Insertion>, offset: nat): set<Piece> {
    set i | i in all && i.offset == offset :: Unnumbered(i.piece)
  }

  function Unnumbered(piece: Piece): Piece {
    match piece
    case LoopLogCall(fd, place, loopPlace, variable, _) => LoopLogCall(fd, place, loopPlace, variable, 0)
    case Capture(_, variable) => Capture(0, variable)
    case _ => piece
  }

  /**
   * Each live log statement has exactly one call behind it, with its own
   * stream and place and those of its innermost loop; each live probed `let`
   * has its probe; and where the walk's test or const depth is raised there
   * is nothing at all.
   */
  predicate Marked(all: seq<Insertion>, node: Node, active: bool, inner: Option<Tag>)
    decreases node
  {
    match node
    case Log(place, fd, end) =>
      PiecesAt(all, end) == if !active then {}
                            else if inner.Some? && inner.value.variable.Some? then
                              {LoopLogCall(fd, place, inner.value.place, inner.value.variable.value, 0)}
                            else {LogCall(fd, place)}
    case Let(init, probe, end) =>
      && MarkedAll(all, init, active, inner)
      && PiecesAt(all, end) == if active && probe.Some? then {ProbeCall(probe.value)} else {}
    case Loop(place, variable, header, bodyStart, body) =>
      && MarkedAll(all, header, active, Some(Tag(place, variable, 0)))
      && MarkedAll(all, body, active, Some(Tag(place, variable, 0)))
      && PiecesAt(all, bodyStart) <= (if active && variable.Some? then {Capture(0, variable.value)} else {})
    case Closure(children) => MarkedAll(all, children, active, None)
    case Async(children) => MarkedAll(all, children, active, None)
    case Function(isConst, isTest, children) => MarkedAll(all, children, active && !isConst && !isTest, None)
    case Method(isConst, children) => MarkedAll(all, children, active && !isConst, None)
    case Constant(children) => MarkedAll(all, children, false, inner)
    case Module(isTest, children) => MarkedAll(all, children, active && !isTest, inner)
    case TraitMethod(children) => MarkedAll(all, children, active, inner)
    case AnonymousConst(children) => MarkedAll(all, children, active, inner)
    case TestOnly(children) => MarkedAll(all, children, active, inner)
    case Other(children) => MarkedAll(all, children, active, inner)
  }

  predicate MarkedAll(all: seq<Insertion>, nodes: seq<Node>, active: bool, inner: Option<Tag>)
    decreases nodes
  {
    nodes == [] || (Marked(all, nodes[0], active, inner) && MarkedAll(all, nodes[1..], active, inner))
  }

  function WithoutNumber(top: Option<Tag>): Option<Tag> {
    if top.Some? then Some(Tag(top.value.place, top.value.variable, 0)) else None
  }

  lemma {:induction false} AllMarked(all: seq<Insertion>, nodes: seq<Node>, k: nat, top: Option<Tag>, active: bool)
    requires DistinctAll(nodes) && Share(all, OffsetsAll(nodes), EmitAll(nodes, k, top, active))
    ensures MarkedAll(all, nodes, active, WithoutNumber(top))
    decreases nodes, 1
  {
    hide Marked, Share, Emit, EmitAll, Offsets, OffsetsAll, Distinct, Count;
    if nodes != [] {
      ShareFirst(all, nodes, k, top, active);
      NodeMarked(all, nodes[0], k, top, active);
      AllMarked(all, nodes[1..], k + Count(nodes[0]), top, active);
    }
  }

  /** What is at an offset of its own. */
  lemma {:induction false} OneAt(all: seq<Insertion>, offset: nat, part: seq<Insertion>)
    requires Share(all, {offset}, part) && |part| <= 1 && (part != [] ==> part[0].offset == offset)
    ensures PiecesAt(all, offset) == if part == [] then {} else {Unnumbered(part[0].piece)}
  {
    hide Unnumbered;
    if part != [] {
      assert part[0] in all;
    }
  }

  lemma {:induction false} LogMarked(all: seq<Insertion>, node: Node, k: nat, top: Option<Tag>, active: bool)
    requires node.Log? && Share(all, Offsets(node), Emit(node, k, top, active))
    ensures Marked(all, node, active, WithoutNumber(top))
  {
    OneAt(all, node.end, Emit(node, k, top, active));
  }

  lemma {:induction false} LetMarked(all: seq<Insertion>, node: Node, k: nat, top: Option<Tag>, active: bool)
    requires node.Let? && Distinct(node) && Share(all, Offsets(node), Emit(node, k, top, active))
    ensures Marked(all, node, active, WithoutNumber(top))
    decreases node, 0
  {
    hide MarkedAll, EmitAll, OffsetsAll, DistinctAll, Share, PiecesAt;
    ShareLet(all, node, k, top, active);
    AllMarked(all, node.init, k, top, active);
    OneAt(all, node.end, if active && node.probe.Some? then [Insertion(node.end, ProbeCall(node.probe.value))] else []);
  }

  lemma {:induction false} LoopMarked(all: seq<Insertion>, node: Node, k: nat, top: Option<Tag>, active: bool)
    requires node.Loop? && Distinct(node) && Share(all, Offsets(node), Emit(node, k, top, active))
    ensures Marked(all, node, active, WithoutNumber(top))
    decreases node, 0
  {
    hide MarkedAll, EmitAll, OffsetsAll, DistinctAll, UsesAny, CountAll, Share, PiecesAt;
    var Loop(place, variable, header, bodyStart, body) := node;
    var own := Some(Tag(place, variable, k + 1));
    ShareLoop(all, node, k, top, active);
    AllMarked(all, header, k + 1, own, active);
    AllMarked(all, body, k + 1 + CountAll(header), own, active);
    OneAt(all, bodyStart, Captures(k + 1, variable, bodyStart, UsesAny(header, active) || UsesAny(body, active)));
    if !active {
      InactiveAll(header, k + 1, own);
      InactiveAll(body, k + 1 + CountAll(header), own);
    }
  }

  lemma {:induction false} NodeMarked(all: seq<Insertion>, node: Node, k: nat, top: Option<Tag>, active: bool)
    requires Distinct(node) && Share(all, Offsets(node), Emit(node, k, top, active))
    ensures Marked(all, node, active, WithoutNumber(top))
    decreases node, 1
  {
    hide MarkedAll, EmitAll, OffsetsAll, DistinctAll, UsesAny, CountAll, Share, PiecesAt;
    match node
    case Log(_, _, _) => LogMarked(all, node, k, top, active);
    case Let(_, _, _) => LetMarked(all, node, k, top, active);
    case Loop(_, _, _, _, _) => LoopMarked(all, node, k, top, active);
    case Closure(children) => AllMarked(all, children, k, None, active);
    case Async(children) => AllMarked(all, children, k, None, active);
    case Function(isConst, isTest, children) => AllMarked(all, children, k, None, active && !isConst && !isTest);
    case Method(isConst, children) => AllMarked(all, children, k, None, active && !isConst);
    case Constant(children) => AllMarked(all, children, k, top, false);
    case Module(isTest, children) => AllMarked(all, children, k, top, active && !isTest);
    case TraitMethod(children) => AllMarked(all, children, k, top, active);
    case AnonymousConst(children) => AllMarked(all, children, k, top, active);
    case TestOnly(children) => AllMarked(all, children, k, top, active);
    case Other(children) => AllMarked(all, children, k, top, active);
  }

  /** A whole file is marked. */
  lemma {:induction false} EveryLogMarked(file: seq<Node>)
    requires DistinctAll(file)
    ensures MarkedAll(Inserted(file), file, true, None)
  {
    hide MarkedAll, EmitAll, OffsetsAll, DistinctAll, Inserted;
    InsertedIsEmitted(file);
    EmitAllWithin(file, 0, None, true);
    AllMarked(Inserted(file), file, 0, None, true);
  }

  // ---- const and test context ----------------------------------------------------------------------

  /**
   * Nothing is inserted in const context, nor in code that only test builds
   * have. `inConst` says the code around is evaluated at compile time: a
   * constant expression of any kind or the body of a `const fn`, but not the
   * body of another function, a closure or an async block in one. `inTest`
   * says a test function, a test module or any other test-only part is around.
   */
  predicate Quiet(all: seq<Insertion>, node: Node, inConst: bool, inTest: bool)
    decreases node
  {
    match node
    case Log(_, _, end) => inConst || inTest ==> PiecesAt(all, end) == {}
    case Let(init, _, end) => QuietAll(all, init, inConst, inTest) && (inConst || inTest ==> PiecesAt(all, end) == {})
    case Loop(_, _, header, bodyStart, body) =>
      && QuietAll(all, header, inConst, inTest) && QuietAll(all, body, inConst, inTest)
      && (inConst || inTest ==> PiecesAt(all, bodyStart) == {})
    case Closure(children) => QuietAll(all, children, false, inTest)
    case Async(children) => QuietAll(all, children, false, inTest)
    case Function(isConst, isTest, children) => QuietAll(all, children, isConst, inTest || isTest)
    case Method(isConst, children) => QuietAll(all, children, isConst, inTest)
    case Constant(children) => QuietAll(all, children, true, inTest)
    case Module(isTest, children) => QuietAll(all, children, inConst, inTest || isTest)
    case TraitMethod(children) => QuietAll(all, children, false, inTest)
    case AnonymousConst(children) => QuietAll(all, children, true, inTest)
    case TestOnly(children) => QuietAll(all, children, inConst, true)
    case Other(children) => QuietAll(all, children, inConst, inTest)
  }

  predicate QuietAll(all: seq<Insertion>, nodes: seq<Node>, inConst: bool, inTest: bool)
    decreases nodes
  {
    nodes == [] || (Quiet(all, nodes[0], inConst, inTest) && QuietAll(all, nodes[1..], inConst, inTest))
  }

  /**
   * No live log statement and no live probed `let` stands in a constant
   * expression that does not raise the const depth (`anonymous`), nor in a
   * test-only part that does not raise the test depth (`unmarked`); and no
   * loop over a variable there has a log statement of its own further in.
   */
  predicate Unlit(node: Node, active: bool, anonymous: bool, unmarked: bool)
    decreases node
  {
    match node
    case Log(_, _, _) => !(active && (anonymous || unmarked))
    case Let(init, probe, _) => UnlitAll(init, active, anonymous, unmarked) && !(active && (anonymous || unmarked) && probe.Some?)
    case Loop(_, variable, header, _, body) =>
      && UnlitAll(header, active, anonymous, unmarked) && UnlitAll(body, active, anonymous, unmarked)
      && !((anonymous || unmarked) && variable.Some? && (UsesAny(header, active) || UsesAny(body, active)))
    case Closure(children) => UnlitAll(children, active, false, unmarked)
    case Async(children) => UnlitAll(children, active, false, unmarked)
    case Function(isConst, isTest, children) => UnlitAll(children, active && !isConst && !isTest, false, unmarked)
    case Method(isConst, children) => UnlitAll(children, active && !isConst, false, unmarked)
    case Constant(_) => true
    case Module(isTest, children) => UnlitAll(children, active && !isTest, anonymous, unmarked)
    case TraitMethod(children) => UnlitAll(children, active, false, unmarked)
    case AnonymousConst(children) => UnlitAll(children, active, true, unmarked)
    case TestOnly(children) => UnlitAll(children, active, anonymous, true)
    case Other(children) => UnlitAll(children, active, anonymous, unmarked)
  }

  predicate UnlitAll(nodes: seq<Node>, active: bool, anonymous: bool, unmarked: bool)
    decreases nodes
  {
    nodes == [] || (Unlit(nodes[0], active, anonymous, unmarked) && UnlitAll(nodes[1..], active, anonymous, unmarked))
  }

  /** While the walk is active, const and test context are what it does not see of them. */
  predicate Unseen(active: bool, inConst: bool, inTest: bool, anonymous: bool, unmarked: bool) {
    active ==> inConst == anonymous && inTest == unmarked
  }

  lemma {:induction false} AllQuietIff(all: seq<Insertion>, nodes: seq<Node>, k: nat, top: Option<Tag>, active: bool,
                                       inConst: bool, inTest: bool, anonymous: bool, unmarked: bool)
    requires DistinctAll(nodes) && Share(all, OffsetsAll(nodes), EmitAll(nodes, k, top, active))
    requires Unseen(active, inConst, inTest, anonymous, unmarked)
    ensures QuietAll(all, nodes, inConst, inTest) <==> UnlitAll(nodes, active, anonymous, unmarked)
    decreases nodes, 3
  {
    hide Quiet, Unlit, Share, Emit, EmitAll, Offsets, OffsetsAll, Distinct, Count, Unseen;
    if nodes != [] {
      ShareFirst(all, nodes, k, top, active);
      NodeQuietIff(all, nodes[0], k, top, active, inConst, inTest, anonymous, unmarked);
      AllQuietIff(all, nodes[1..], k + Count(nodes[0]), top, active, inConst, inTest, anonymous, unmarked);
    }
  }

  lemma {:induction false} LogQuietIff(all: seq<Insertion>, node: Node, k: nat, top: Option<Tag>, active: bool,
                                       inConst: bool, inTest: bool, anonymous: bool, unmarked: bool)
    requires node.Log? && Share(all, Offsets(node), Emit(node, k, top, active))
    requires Unseen(active, inConst, inTest, anonymous, unmarked)
    ensures Quiet(all, node, inConst, inTest) <==> Unlit(node, active, anonymous, unmarked)
  {
    hide PiecesAt, Share;
    OneAt(all, node.end, Emit(node, k, top, active));
  }

  lemma {:induction false} LetQuietIff(all: seq<Insertion>, node: Node, k: nat, top: Option<Tag>, active: bool,
                                       inConst: bool, inTest: bool, anonymous: bool, unmarked: bool)
    requires node.Let? && Distinct(node) && Share(all, Offsets(node), Emit(node, k, top, active))
    requires Unseen(active, inConst, inTest, anonymous, unmarked)
    ensures Quiet(all, node, inConst, inTest) <==> Unlit(node, active, anonymous, unmarked)
    decreases node, 0
  {
    hide QuietAll, UnlitAll, EmitAll, OffsetsAll, DistinctAll, Share, PiecesAt;
    ShareLet(all, node, k, top, active);
    AllQuietIff(all, node.init, k, top, active, inConst, inTest, anonymous, unmarked);
    OneAt(all, node.end, if active && node.probe.Some? then [Insertion(node.end, ProbeCall(node.probe.value))] else []);
  }

  lemma {:induction false} LoopQuietIff(all: seq<Insertion>, node: Node, k: nat, top: Option<Tag>, active: bool,
                                        inConst: bool, inTest: bool, anonymous: bool, unmarked: bool)
    requires node.Loop? && Distinct(node) && Share(all, Offsets(node), Emit(node, k, top, active))
    requires Unseen(active, inConst, inTest, anonymous, unmarked)
    ensures Quiet(all, node, inConst, inTest) <==> Unlit(node, active, anonymous, unmarked)
    decreases node, 0
  {
    hide QuietAll, UnlitAll, EmitAll, OffsetsAll, DistinctAll, UsesAny, CountAll, Share, PiecesAt;
    var Loop(place, variable, header, bodyStart, body) := node;
    var own := Some(Tag(place, variable, k + 1));
    ShareLoop(all, node, k, top, active);
    AllQuietIff(all, header, k + 1, own, active, inConst, inTest, anonymous, unmarked);
    AllQuietIff(all, body, k + 1 + CountAll(header), own, active, inConst, inTest, anonymous, unmarked);
    OneAt(all, bodyStart, Captures(k + 1, variable, bodyStart, UsesAny(header, active) || UsesAny(body, active)));
    if !active {
      InactiveAll(header, k + 1, own);
      InactiveAll(body, k + 1 + CountAll(header), own);
    }
  }

  lemma {:induction false} NodeQuietIff(all: seq<Insertion>, node: Node, k: nat, top: Option<Tag>, active: bool,
                                        inConst: bool, inTest: bool, anonymous: bool, unmarked: bool)
    requires Distinct(node) && Share(all, Offsets(node), Emit(node, k, top, active))
    requires Unseen(active, inConst, inTest, anonymous, unmarked)
    ensures Quiet(all, node, inConst, inTest) <==> Unlit(node, active, anonymous, unmarked)
    decreases node, 2
  {
    hide Quiet, Unlit, Emit, Offsets, Distinct, Share, Unseen;
    if node.Log? || node.Let? || node.Loop? {
      StatementQuietIff(all, node, k, top, active, inConst, inTest, anonymous, unmarked);
    } else {
      PartQuietIff(all, node, k, top, active, inConst, inTest, anonymous, unmarked);
    }
  }

  lemma {:induction false} StatementQuietIff(all: seq<Insertion>, node: Node, k: nat, top: Option<Tag>, active: bool,
                                             inConst: bool, inTest: bool, anonymous: bool, unmarked: bool)
    requires (node.Log? || node.Let? || node.Loop?) && Distinct(node) && Share(all, Offsets(node), Emit(node, k, top, active))
    requires Unseen(active, inConst, inTest, anonymous, unmarked)
    ensures Quiet(all, node, inConst, inTest) <==> Unlit(node, active, anonymous, unmarked)
    decreases node, 1
  {
    hide Quiet, Unlit, Emit, Offsets, Distinct, Share, Unseen;
    match node
    case Log(_, _, _) => LogQuietIff(all, node, k, top, active, inConst, inTest, anonymous, unmarked);
    case Let(_, _, _) => LetQuietIff(all, node, k, top, active, inConst, inTest, anonymous, unmarked);
    case Loop(_, _, _, _, _) => LoopQuietIff(all, node, k, top, active, inConst, inTest, anonymous, unmarked);
  }

  lemma {:induction false} PartQuietIff(all: seq<Insertion>, node: Node, k: nat, top: Option<Tag>, active: bool,
                                        inConst: bool, inTest: bool, anonymous: bool, unmarked: bool)
    requires !node.Log? && !node.Let? && !node.Loop? && Distinct(node) && Share(all, Offsets(node), Emit(node, k, top, active))
    requires Unseen(active, inConst, inTest, anonymous, unmarked)
    ensures Quiet(all, node, inConst, inTest) <==> Unlit(node, active, anonymous, unmarked)
    decreases node, 1
  {
    hide QuietAll, UnlitAll, EmitAll, OffsetsAll, DistinctAll, UsesAny, CountAll, Share, PiecesAt, Captures, Uses, Count;
    match node
    case Closure(children) => AllQuietIff(all, children, k, None, active, false, inTest, false, unmarked);
    case Async(children) => AllQuietIff(all, children, k, None, active, false, inTest, false, unmarked);
    case Function(isConst, isTest, children) =>
      AllQuietIff(all, children, k, None, active && !isConst && !isTest, isConst, inTest || isTest, false, unmarked);
    case Method(isConst, children) => AllQuietIff(all, children, k, None, active && !isConst, isConst, inTest, false, unmarked);
    case Constant(children) =>
      AllQuietIff(all, children, k, top, false, true, inTest, true, unmarked);
      DarkUnlit(children, true, unmarked);
    case Module(isTest, children) => AllQuietIff(all, children, k, top, active && !isTest, inConst, inTest || isTest, anonymous, unmarked);
    case TraitMethod(children) => AllQuietIff(all, children, k, top, active, false, inTest, false, unmarked);
    case AnonymousConst(children) => AllQuietIff(all, children, k, top, active, true, inTest, true, unmarked);
    case TestOnly(children) => AllQuietIff(all, children, k, top, active, inConst, true, anonymous, true);
    case Other(children) => AllQuietIff(all, children, k, top, active, inConst, inTest, anonymous, unmarked);
  }

  lemma {:induction false} DarkUnlit(nodes: seq<Node>, anonymous: bool, unmarked: bool)
    ensures UnlitAll(nodes, false, anonymous, unmarked)
    decreases nodes
  {
    if nodes != [] {
      DarkNodeUnlit(nodes[0], anonymous, unmarked);
      DarkUnlit(nodes[1..], anonymous, unmarked);
    }
  }

  lemma {:induction false} DarkNodeUnlit(node: Node, anonymous: bool, unmarked: bool)
    ensures Unlit(node, false, anonymous, unmarked)
    decreases node
  {
    match node
    case Log(_, _, _) =>
    case Let(init, _, _) => DarkUnlit(init, anonymous, unmarked);
    case Loop(place, variable, header, _, body) =>
      DarkUnlit(header, anonymous, unmarked);
      DarkUnlit(body, anonymous, unmarked);
      InactiveAll(header, 0, None);
      InactiveAll(body, 0, None);
    case Closure(children) => DarkUnlit(children, false, unmarked);
    case Async(children) => DarkUnlit(children, false, unmarked);
    case Function(_, _, children) => DarkUnlit(children, false, unmarked);
    case Method(_, children) => DarkUnlit(children, false, unmarked);
    case Constant(_) =>
    case Module(_, children) => DarkUnlit(children, anonymous, unmarked);
    case TraitMethod(children) => DarkUnlit(children, false, unmarked);
    case AnonymousConst(children) => DarkUnlit(children, true, unmarked);
    case TestOnly(children) => DarkUnlit(children, anonymous, true);
    case Other(children) => DarkUnlit(children, anonymous, unmarked);
  }

  /**
   * Nothing is inserted in const context and test-only code exactly in the
   * programs that log and probe in none of it which the walk does not see:
   * array lengths, discriminants, const generic arguments and associated
   * constants; impls, traits, their functions, blocks and statements under a
   * `cfg(test)`, and whatever has a `cfg` with `test` inside `all`.
   */
  lemma {:induction false} QuietIffUnlit(file: seq<Node>)
    requires DistinctAll(file)
    ensures QuietAll(Inserted(file), file, false, false) <==> UnlitAll(file, true, false, false)
  {
    hide QuietAll, UnlitAll, EmitAll, OffsetsAll, DistinctAll, Inserted;
    InsertedIsEmitted(file);
    EmitAllWithin(file, 0, None, true);
    AllQuietIff(Inserted(file), file, 0, None, true, false, false, false, false);
  }

  /** `impl C { const N: usize = { let x = 3; x }; }`: the probe goes into a constant. */
  lemma {:induction false} AssociatedConstIsProbed()
    ensures var file := [Other([AnonymousConst([Let([], Some("x"), 9)])])];
            Inserted(file) == [Insertion(9, ProbeCall("x"))] && !QuietAll(Inserted(file), file, false, false)
  {
    hide Inserted;
    var probed := Let([], Some("x"), 9);
    var constant := AnonymousConst([probed]);
    var file := [Other([constant])];
    InsertedIsEmitted(file);
    OneEmitted(probed);
    OneEmitted(constant);
    OneEmitted(file[0]);
    assert EmitAll([], 0, None, true) == [];
    assert PiecesAt(Inserted(file), 9) == {ProbeCall("x")} by {
      assert Inserted(file)[0] in Inserted(file);
    }
    OneQuiet(Inserted(file), probed, true, false);
    OneQuiet(Inserted(file), constant, false, false);
    OneQuiet(Inserted(file), file[0], false, false);
  }

  /** `#[cfg(test)] impl T { fn f() { println!("x"); } }`: the call goes into test-only code. */
  lemma {:induction false} TestImplIsLogged()
    ensures var file := [TestOnly([Method(false, [Log(Place(1, 1), 1, 30)])])];
            Inserted(file) == [Insertion(30, LogCall(1, Place(1, 1)))] && !QuietAll(Inserted(file), file, false, false)
  {
    hide Inserted;
    var log := Log(Place(1, 1), 1, 30);
    var function_ := Method(false, [log]);
    var file := [TestOnly([function_])];
    InsertedIsEmitted(file);
    OneEmitted(log);
    OneEmitted(function_);
    OneEmitted(file[0]);
    assert PiecesAt(Inserted(file), 30) == {LogCall(1, Place(1, 1))} by {
      assert Inserted(file)[0] in Inserted(file);
    }
    OneQuiet(Inserted(file), log, false, true);
    OneQuiet(Inserted(file), function_, false, true);
    OneQuiet(Inserted(file), file[0], false, false);
  }

  lemma {:induction false} OneEmitted(node: Node)
    ensures EmitAll([node], 0, None, true) == Emit(node, 0, None, true)
  {
    hide Emit;
    assert [node][1..] == [] && EmitAll([], Count(node), None, true) == [];
  }

  lemma {:induction false} OneQuiet(all: seq<Insertion>, node: Node, inConst: bool, inTest: bool)
    ensures QuietAll(all, [node], inConst, inTest) <==> Quiet(all, node, inConst, inTest)
  {
    hide Quiet;
    assert [node][1..] == [] && QuietAll(all, [], inConst, inTest);
  }
}
