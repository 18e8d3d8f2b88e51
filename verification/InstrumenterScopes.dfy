/** Where the inserted names are bound, and that they are in scope where they are used. */
module InstrumenterScopes {
  import opened Common
  import opened Instrumenter

  // ---- positions ---------------------------------------------------------------------------

  /** The offsets a construct may insert at. */
  function Offsets(node: Node): set<nat>
    decreases node
  {
    match node
    case Log(_, _, end) => {end}
    case Let(init, _, end) => OffsetsAll(init) + {end}
    case Loop(_, _, header, bodyStart, body) => OffsetsAll(header) + OffsetsAll(body) + {bodyStart}
    case _ => OffsetsAll(node.children)
  }

  function OffsetsAll(nodes: seq<Node>): set<nat>
    decreases nodes
  {
    if nodes == [] then {} else Offsets(nodes[0]) + OffsetsAll(nodes[1..])
  }

  /** Different places in a text have different offsets. */
  predicate Distinct(node: Node)
    decreases node
  {
    match node
    case Log(_, _, _) => true
    case Let(init, _, end) => DistinctAll(init) && end !in OffsetsAll(init)
    case Loop(_, _, header, bodyStart, body) =>
      && DistinctAll(header) && DistinctAll(body) && OffsetsAll(header) !! OffsetsAll(body)
      && bodyStart !in OffsetsAll(header) && bodyStart !in OffsetsAll(body)
    case _ => DistinctAll(node.children)
  }

  predicate DistinctAll(nodes: seq<Node>)
    decreases nodes
  {
    nodes == [] || (Distinct(nodes[0]) && DistinctAll(nodes[1..]) && Offsets(nodes[0]) !! OffsetsAll(nodes[1..]))
  }

  predicate Within(part: seq<Insertion>, offsets: set<nat>) {
    forall i :: i in part ==> i.offset in offsets
  }

  lemma {:induction false} EmitWithin(node: Node, k: nat, top: Option<Tag>, active: bool)
    ensures Within(Emit(node, k, top, active), Offsets(node))
    decreases node
  {
    match node
    case Log(_, _, _) =>
    case Let(init, _, _) => EmitAllWithin(init, k, top, active);
    case Loop(place, variable, header, _, body) =>
      EmitAllWithin(header, k + 1, Some(Tag(place, variable, k + 1)), active);
      EmitAllWithin(body, k + 1 + CountAll(header), Some(Tag(place, variable, k + 1)), active);
    case Closure(children) => EmitAllWithin(children, k, None, active);
    case Async(children) => EmitAllWithin(children, k, None, active);
    case Function(isConst, isTest, children) => EmitAllWithin(children, k, None, active && !isConst && !isTest);
    case Method(isConst, children) => EmitAllWithin(children, k, None, active && !isConst);
    case Constant(children) => EmitAllWithin(children, k, top, false);
    case Module(isTest, children) => EmitAllWithin(children, k, top, active && !isTest);
    case TraitMethod(children) => EmitAllWithin(children, k, top, active);
    case AnonymousConst(children) => EmitAllWithin(children, k, top, active);
    case TestOnly(children) => EmitAllWithin(children, k, top, active);
    case Other(children) => EmitAllWithin(children, k, top, active);
  }

  lemma {:induction false} EmitAllWithin(nodes: seq<Node>, k: nat, top: Option<Tag>, active: bool)
    ensures Within(EmitAll(nodes, k, top, active), OffsetsAll(nodes))
    decreases nodes
  {
    if nodes != [] {
      EmitWithin(nodes[0], k, top, active);
      EmitAllWithin(nodes[1..], k + Count(nodes[0]), top, active);
    }
  }

  // ---- one construct's share of all insertions ------------------------------------------------

  /** Of all insertions, those at these offsets are these. */
  ghost predicate Share(all: seq<Insertion>, offsets: set<nat>, part: seq<Insertion>) {
    && (forall i :: i in part ==> i in all)
    && (forall i :: i in all && i.offset in offsets ==> i in part)
  }

  lemma {:induction false} ShareOut(all: seq<Insertion>, o1: set<nat>, p1: seq<Insertion>, o2: set<nat>, p2: seq<Insertion>)
    requires Share(all, o1 + o2, p1 + p2) && Within(p1, o1) && Within(p2, o2) && o1 !! o2
    ensures Share(all, o1, p1) && Share(all, o2, p2)
  {
    forall i | i in p1 || i in p2
      ensures i in all
    {
      assert i in p1 + p2;
    }
  }

  lemma {:induction false} ShareFirst(all: seq<Insertion>, nodes: seq<Node>, k: nat, top: Option<Tag>, active: bool)
    requires nodes != [] && DistinctAll(nodes) && Share(all, OffsetsAll(nodes), EmitAll(nodes, k, top, active))
    ensures Share(all, Offsets(nodes[0]), Emit(nodes[0], k, top, active))
    ensures Share(all, OffsetsAll(nodes[1..]), EmitAll(nodes[1..], k + Count(nodes[0]), top, active))
  {
    hide Emit, Offsets, Distinct, Share, Within, Count;
    EmitWithin(nodes[0], k, top, active);
    EmitAllWithin(nodes[1..], k + Count(nodes[0]), top, active);
    ShareOut(all, Offsets(nodes[0]), Emit(nodes[0], k, top, active),
             OffsetsAll(nodes[1..]), EmitAll(nodes[1..], k + Count(nodes[0]), top, active));
  }

  lemma {:induction false} ShareLet(all: seq<Insertion>, node: Node, k: nat, top: Option<Tag>, active: bool)
    requires node.Let? && Distinct(node) && Share(all, Offsets(node), Emit(node, k, top, active))
    ensures Share(all, OffsetsAll(node.init), EmitAll(node.init, k, top, active))
    ensures Share(all, {node.end}, if active && node.probe.Some? then [Insertion(node.end, ProbeCall(node.probe.value))] else [])
  {
    hide EmitAll, OffsetsAll, DistinctAll, Share;
    EmitAllWithin(node.init, k, top, active);
    ShareOut(all, OffsetsAll(node.init), EmitAll(node.init, k, top, active), {node.end},
             if active && node.probe.Some? then [Insertion(node.end, ProbeCall(node.probe.value))] else []);
  }

  /** What a loop inserts, part by part. */
  lemma {:induction false} ShareLoop(all: seq<Insertion>, node: Node, k: nat, top: Option<Tag>, active: bool)
    requires node.Loop? && Distinct(node) && Share(all, Offsets(node), Emit(node, k, top, active))
    ensures var own := Some(Tag(node.place, node.variable, k + 1));
            && Share(all, OffsetsAll(node.header), EmitAll(node.header, k + 1, own, active))
            && Share(all, OffsetsAll(node.body), EmitAll(node.body, k + 1 + CountAll(node.header), own, active))
            && Share(all, {node.bodyStart}, Captures(k + 1, node.variable, node.bodyStart, UsesAny(node.header, active) || UsesAny(node.body, active)))
  {
    hide EmitAll, OffsetsAll, DistinctAll, UsesAny, CountAll, Share, Captures;
    var own := Some(Tag(node.place, node.variable, k + 1));
    var e1 := EmitAll(node.header, k + 1, own, active);
    var e2 := EmitAll(node.body, k + 1 + CountAll(node.header), own, active);
    var capture := Captures(k + 1, node.variable, node.bodyStart, UsesAny(node.header, active) || UsesAny(node.body, active));
    EmitAllWithin(node.header, k + 1, own, active);
    EmitAllWithin(node.body, k + 1 + CountAll(node.header), own, active);
    CapturesWithin(k + 1, node.variable, node.bodyStart, UsesAny(node.header, active) || UsesAny(node.body, active));
    var o1, o2 := OffsetsAll(node.header), OffsetsAll(node.body);
    assert Within(e1 + e2, o1 + o2);
    ShareOut(all, o1 + o2, e1 + e2, {node.bodyStart}, capture);
    ShareOut(all, o1, e1, o2, e2);
  }

  lemma {:induction false} CapturesWithin(shadow: nat, variable: Option<string>, bodyStart: nat, used: bool)
    ensures Within(Captures(shadow, variable, bodyStart, used), {bodyStart})
  {}

  // ---- scoping -------------------------------------------------------------------------------

  /** The shadows bound at the start of a loop's body. */
  function BoundAt(all: seq<Insertion>, bodyStart: nat): set<nat> {
    set i | i in all && i.offset == bodyStart && i.piece.Capture? :: i.piece.shadow
  }

  /**
   * Every shadow used at a log statement is visible there: bound at the start
   * of a loop body around it, with no closure, async block, function, item or
   * const expression between.
   */
  predicate Scoped(all: seq<Insertion>, visible: set<nat>, node: Node)
    decreases node
  {
    match node
    case Log(_, _, end) => forall i :: i in all && i.offset == end && i.piece.LoopLogCall? ==> i.piece.shadow in visible
    case Let(init, _, _) => ScopedAll(all, visible, init)
    case Loop(_, _, header, bodyStart, body) =>
      ScopedAll(all, visible, header) && ScopedAll(all, visible + BoundAt(all, bodyStart), body)
    case TestOnly(children) => ScopedAll(all, visible, children)
    case Other(children) => ScopedAll(all, visible, children)
    case _ => ScopedAll(all, {}, node.children)
  }

  predicate ScopedAll(all: seq<Insertion>, visible: set<nat>, nodes: seq<Node>)
    decreases nodes
  {
    nodes == [] || (Scoped(all, visible, nodes[0]) && ScopedAll(all, visible, nodes[1..]))
  }

  /** What a log statement's innermost loop offers it: no variable, a shadow in sight, or one out of sight. */
  datatype Sight = NoShadow | InSight | OutOfSight

  function Leaving(sight: Sight): Sight {
    if sight.InSight? then OutOfSight else sight
  }

  /**
   * No live log statement stands where its innermost loop's shadow is out of
   * sight: in that loop's own header, or across a trait method, a module or a
   * const expression from its body.
   */
  predicate InPlace(node: Node, active: bool, sight: Sight)
    decreases node
  {
    match node
    case Log(_, _, _) => !(active && sight.OutOfSight?)
    case Let(init, _, _) => InPlaceAll(init, active, sight)
    case Loop(_, variable, header, _, body) =>
      && InPlaceAll(header, active, if variable.Some? then OutOfSight else NoShadow)
      && InPlaceAll(body, active, if variable.Some? then InSight else NoShadow)
    case Closure(children) => InPlaceAll(children, active, NoShadow)
    case Async(children) => InPlaceAll(children, active, NoShadow)
    case Function(isConst, isTest, children) => InPlaceAll(children, active && !isConst && !isTest, NoShadow)
    case Method(isConst, children) => InPlaceAll(children, active && !isConst, NoShadow)
    case Constant(children) => true
    case Module(isTest, children) => InPlaceAll(children, active && !isTest, Leaving(sight))
    case TraitMethod(children) => InPlaceAll(children, active, Leaving(sight))
    case AnonymousConst(children) => InPlaceAll(children, active, Leaving(sight))
    case TestOnly(children) => InPlaceAll(children, active, sight)
    case Other(children) => InPlaceAll(children, active, sight)
  }

  predicate InPlaceAll(nodes: seq<Node>, active: bool, sight: Sight)
    decreases nodes
  {
    nodes == [] || (InPlace(nodes[0], active, sight) && InPlaceAll(nodes[1..], active, sight))
  }

  /** How the walk's innermost loop relates to what is visible. */
  ghost predicate Matches(top: Option<Tag>, sight: Sight, visible: set<nat>, k: nat) {
    && (forall n :: n in visible ==> n <= k)
    && (sight.NoShadow? <==> !(top.Some? && top.value.variable.Some?))
    && (top.Some? ==> top.value.shadow <= k)
    && (sight.OutOfSight? ==> top.value.shadow !in visible)
  }

  lemma {:induction false} ScopedAllIff(all: seq<Insertion>, visible: set<nat>, nodes: seq<Node>, k: nat, top: Option<Tag>, sight: Sight, active: bool)
    requires Matches(top, sight, visible, k) && DistinctAll(nodes)
    requires Share(all, OffsetsAll(nodes), EmitAll(nodes, k, top, active))
    requires sight.InSight? && UsesAny(nodes, active) ==> top.value.shadow in visible
    ensures ScopedAll(all, visible, nodes) <==> InPlaceAll(nodes, active, sight)
    decreases nodes, 1
  {
    hide Scoped, InPlace, Share, Emit, EmitAll, Offsets, OffsetsAll, Distinct, Uses, Count;
    if nodes != [] {
      ShareFirst(all, nodes, k, top, active);
      ScopedIff(all, visible, nodes[0], k, top, sight, active);
      ScopedAllIff(all, visible, nodes[1..], k + Count(nodes[0]), top, sight, active);
    }
  }

  lemma {:induction false} LogScopedIff(all: seq<Insertion>, visible: set<nat>, node: Node, k: nat, top: Option<Tag>, sight: Sight, active: bool)
    requires node.Log? && Matches(top, sight, visible, k)
    requires Share(all, Offsets(node), Emit(node, k, top, active))
    requires sight.InSight? && active ==> top.value.shadow in visible
    ensures Scoped(all, visible, node) <==> InPlace(node, active, sight)
  {
    if active && sight.OutOfSight? {
      assert Insertion(node.end, LogPiece(node.fd, node.place, top)) in all;
    }
  }

  lemma {:induction false} LoopScopedIff(all: seq<Insertion>, visible: set<nat>, node: Node, k: nat, top: Option<Tag>, sight: Sight, active: bool)
    requires node.Loop? && Matches(top, sight, visible, k) && Distinct(node)
    requires Share(all, Offsets(node), Emit(node, k, top, active))
    ensures Scoped(all, visible, node) <==> InPlace(node, active, sight)
    decreases node, 0
  {
    hide ScopedAll, InPlaceAll, Share, EmitAll, OffsetsAll, DistinctAll, UsesAny, CountAll, Captures, BoundAt;
    var Loop(place, variable, header, bodyStart, body) := node;
    var own := Some(Tag(place, variable, k + 1));
    ShareLoop(all, node, k, top, active);
    var used := UsesAny(header, active) || UsesAny(body, active);
    BoundHere(all, k + 1, variable, bodyStart, used);
    ScopedAllIff(all, visible, header, k + 1, own, if variable.Some? then OutOfSight else NoShadow, active);
    ScopedAllIff(all, visible + BoundAt(all, bodyStart), body, k + 1 + CountAll(header), own, if variable.Some? then InSight else NoShadow, active);
  }

  /** At a loop's start exactly its own shadow is bound, if it is used. */
  lemma {:induction false} BoundHere(all: seq<Insertion>, shadow: nat, variable: Option<string>, bodyStart: nat, used: bool)
    requires Share(all, {bodyStart}, Captures(shadow, variable, bodyStart, used))
    ensures BoundAt(all, bodyStart) == if used && variable.Some? then {shadow} else {}
  {
    if used && variable.Some? {
      assert Captures(shadow, variable, bodyStart, used)[0] in all;
    }
  }

  lemma {:induction false} ScopedIff(all: seq<Insertion>, visible: set<nat>, node: Node, k: nat, top: Option<Tag>, sight: Sight, active: bool)
    requires Matches(top, sight, visible, k) && Distinct(node)
    requires Share(all, Offsets(node), Emit(node, k, top, active))
    requires sight.InSight? && Uses(node, active) ==> top.value.shadow in visible
    ensures Scoped(all, visible, node) <==> InPlace(node, active, sight)
    decreases node, 1
  {
    hide ScopedAll, InPlaceAll, Share, EmitAll, OffsetsAll, DistinctAll, UsesAny, CountAll;
    match node
    case Log(_, _, _) => LogScopedIff(all, visible, node, k, top, sight, active);
    case Let(init, _, _) =>
      ShareLet(all, node, k, top, active);
      ScopedAllIff(all, visible, init, k, top, sight, active);
    case Loop(_, _, _, _, _) => LoopScopedIff(all, visible, node, k, top, sight, active);
    case Closure(children) => ScopedAllIff(all, {}, children, k, None, NoShadow, active);
    case Async(children) => ScopedAllIff(all, {}, children, k, None, NoShadow, active);
    case Function(isConst, isTest, children) => ScopedAllIff(all, {}, children, k, None, NoShadow, active && !isConst && !isTest);
    case Method(isConst, children) => ScopedAllIff(all, {}, children, k, None, NoShadow, active && !isConst);
    case Constant(children) =>
      ScopedAllIff(all, {}, children, k, top, Leaving(sight), false);
      InactiveInPlaceAll(children, Leaving(sight));
    case Module(isTest, children) => ScopedAllIff(all, {}, children, k, top, Leaving(sight), active && !isTest);
    case TraitMethod(children) => ScopedAllIff(all, {}, children, k, top, Leaving(sight), active);
    case AnonymousConst(children) => ScopedAllIff(all, {}, children, k, top, Leaving(sight), active);
    case TestOnly(children) => ScopedAllIff(all, visible, children, k, top, sight, active);
    case Other(children) => ScopedAllIff(all, visible, children, k, top, sight, active);
  }

  lemma {:induction false} InactiveInPlaceAll(nodes: seq<Node>, sight: Sight)
    ensures InPlaceAll(nodes, false, sight)
    decreases nodes
  {
    if nodes != [] {
      InactiveInPlace(nodes[0], sight);
      InactiveInPlaceAll(nodes[1..], sight);
    }
  }

  lemma {:induction false} InactiveInPlace(node: Node, sight: Sight)
    ensures InPlace(node, false, sight)
    decreases node
  {
    match node
    case Log(_, _, _) =>
    case Let(init, _, _) => InactiveInPlaceAll(init, sight);
    case Loop(_, variable, header, _, body) =>
      InactiveInPlaceAll(header, if variable.Some? then OutOfSight else NoShadow);
      InactiveInPlaceAll(body, if variable.Some? then InSight else NoShadow);
    case Closure(children) => InactiveInPlaceAll(children, NoShadow);
    case Async(children) => InactiveInPlaceAll(children, NoShadow);
    case Function(_, _, children) => InactiveInPlaceAll(children, NoShadow);
    case Method(_, children) => InactiveInPlaceAll(children, NoShadow);
    case Constant(children) =>
    case Module(_, children) => InactiveInPlaceAll(children, Leaving(sight));
    case TraitMethod(children) => InactiveInPlaceAll(children, Leaving(sight));
    case AnonymousConst(children) => InactiveInPlaceAll(children, Leaving(sight));
    case TestOnly(children) => InactiveInPlaceAll(children, sight);
    case Other(children) => InactiveInPlaceAll(children, sight);
  }

  // ---- whole programs ----------------------------------------------------------------------------

  /** What the instrumenter inserts into a file. */
  function Inserted(file: seq<Node>): seq<Insertion> {
    VisitAll(FRESH_WALK, file).insertions
  }

  lemma {:induction false} InsertedIsEmitted(file: seq<Node>)
    ensures Inserted(file) == EmitAll(file, 0, None, true)
  {
    hide EmitAll, CountAll, UsesAny;
    VisitAllComesTo(FRESH_WALK, file);
  }

  /** Every emitted shadow is in scope exactly in the programs whose log statements are in place. */
  lemma {:induction false} ScopedIffInPlace(file: seq<Node>)
    requires DistinctAll(file)
    ensures ScopedAll(Inserted(file), {}, file) <==> InPlaceAll(file, true, NoShadow)
  {
    hide ScopedAll, InPlaceAll, EmitAll, OffsetsAll, DistinctAll, Inserted;
    InsertedIsEmitted(file);
    EmitAllWithin(file, 0, None, true);
    ScopedAllIff(Inserted(file), {}, file, 0, None, NoShadow, true);
  }

  // ---- programs the condition covers ---------------------------------------------------------------

  /**
   * No log statement stands, outside closures, async blocks and functions of
   * its own, in a loop's header, nor inside a loop in a trait method, a
   * module or a const expression. `inLoop` says there is a loop around,
   * `direct` that a log statement may stand here.
   */
  predicate Ordinary(nodes: seq<Node>, inLoop: bool, direct: bool)
    decreases nodes
  {
    nodes == [] || (OrdinaryNode(nodes[0], inLoop, direct) && Ordinary(nodes[1..], inLoop, direct))
  }

  predicate OrdinaryNode(node: Node, inLoop: bool, direct: bool)
    decreases node
  {
    match node
    case Log(_, _, _) => direct
    case Let(init, _, _) => Ordinary(init, inLoop, direct)
    case Loop(_, _, header, _, body) => Ordinary(header, true, false) && Ordinary(body, true, true)
    case Closure(children) => Ordinary(children, false, true)
    case Async(children) => Ordinary(children, false, true)
    case Function(_, _, children) => Ordinary(children, false, true)
    case Method(_, children) => Ordinary(children, false, true)
    case Constant(_) => true
    case Module(_, children) => Ordinary(children, inLoop, !inLoop)
    case TraitMethod(children) => Ordinary(children, inLoop, !inLoop)
    case AnonymousConst(children) => Ordinary(children, inLoop, !inLoop)
    case TestOnly(children) => Ordinary(children, inLoop, direct)
    case Other(children) => Ordinary(children, inLoop, direct)
  }

  /** A shadow is only in question inside a loop, and out of sight only where no log statement may stand. */
  predicate Foreseen(sight: Sight, inLoop: bool, direct: bool) {
    (!sight.NoShadow? ==> inLoop) && (sight.OutOfSight? ==> !direct)
  }

  lemma {:induction false} OrdinaryInPlace(nodes: seq<Node>, inLoop: bool, direct: bool, active: bool, sight: Sight)
    requires Ordinary(nodes, inLoop, direct) && Foreseen(sight, inLoop, direct)
    ensures InPlaceAll(nodes, active, sight)
    decreases nodes
  {
    if nodes != [] {
      OrdinaryNodeInPlace(nodes[0], inLoop, direct, active, sight);
      OrdinaryInPlace(nodes[1..], inLoop, direct, active, sight);
    }
  }

  lemma {:induction false} OrdinaryNodeInPlace(node: Node, inLoop: bool, direct: bool, active: bool, sight: Sight)
    requires OrdinaryNode(node, inLoop, direct) && Foreseen(sight, inLoop, direct)
    ensures InPlace(node, active, sight)
    decreases node
  {
    match node
    case Log(_, _, _) =>
    case Let(init, _, _) => OrdinaryInPlace(init, inLoop, direct, active, sight);
    case Loop(_, variable, header, _, body) =>
      OrdinaryInPlace(header, true, false, active, if variable.Some? then OutOfSight else NoShadow);
      OrdinaryInPlace(body, true, true, active, if variable.Some? then InSight else NoShadow);
    case Closure(children) => OrdinaryInPlace(children, false, true, active, NoShadow);
    case Async(children) => OrdinaryInPlace(children, false, true, active, NoShadow);
    case Function(isConst, isTest, children) => OrdinaryInPlace(children, false, true, active && !isConst && !isTest, NoShadow);
    case Method(isConst, children) => OrdinaryInPlace(children, false, true, active && !isConst, NoShadow);
    case Constant(_) =>
    case Module(isTest, children) => OrdinaryInPlace(children, inLoop, !inLoop, active && !isTest, Leaving(sight));
    case TraitMethod(children) => OrdinaryInPlace(children, inLoop, !inLoop, active, Leaving(sight));
    case AnonymousConst(children) => OrdinaryInPlace(children, inLoop, !inLoop, active, Leaving(sight));
    case TestOnly(children) => OrdinaryInPlace(children, inLoop, direct, active, sight);
    case Other(children) => OrdinaryInPlace(children, inLoop, direct, active, sight);
  }

  /**
   * In a program without log statements in loop headers, and with none in the
   * traits, modules and const expressions inside a loop, everything emitted
   * is in scope.
   */
  lemma {:induction false} OrdinaryProgramsScope(file: seq<Node>)
    requires DistinctAll(file) && Ordinary(file, false, true)
    ensures ScopedAll(Inserted(file), {}, file)
  {
    hide Inserted, ScopedAll, DistinctAll, Ordinary, InPlaceAll;
    OrdinaryInPlace(file, false, true, true, NoShadow);
    ScopedIffInPlace(file);
  }

  lemma {:induction false} Single(node: Node, active: bool, sight: Sight)
    ensures DistinctAll([node]) <==> Distinct(node)
    ensures OffsetsAll([node]) == Offsets(node)
    ensures InPlaceAll([node], active, sight) <==> InPlace(node, active, sight)
  {
    hide Distinct, Offsets, InPlace;
    assert [node][0] == node && [node][1..] == [];
    assert DistinctAll([]) && OffsetsAll([]) == {} && InPlaceAll([], active, sight);
  }

  /** `while { println!("x"); i < 3 } { }`: the header's log names a shadow that only the body has. */
  lemma {:induction false} HeaderLogEscapes()
    ensures var place := Place(1, 1);
            var file := [Function(false, false, [Loop(place, Some("i"), [Log(place, 1, 30)], 40, [])])];
            DistinctAll(file) && !ScopedAll(Inserted(file), {}, file)
  {
    hide Inserted, ScopedAll, DistinctAll, OffsetsAll, InPlaceAll;
    var place := Place(1, 1);
    var log := Log(place, 1, 30);
    var loop := Loop(place, Some("i"), [log], 40, []);
    var file := [Function(false, false, [loop])];
    Nothing(true, InSight);
    Single(log, true, OutOfSight);
    Single(loop, true, NoShadow);
    Single(file[0], true, NoShadow);
    ScopedIffInPlace(file);
  }

  lemma {:induction false} Nothing(active: bool, sight: Sight)
    ensures DistinctAll([]) && OffsetsAll([]) == {} && InPlaceAll([], active, sight)
  {}

  /** A trait declared inside a loop: its default method logs a shadow it cannot name. */
  lemma {:induction false} TraitBodyEscapes()
    ensures var place := Place(1, 1);
            var file := [Function(false, false, [Loop(place, Some("i"), [], 40, [TraitMethod([Log(place, 1, 90)])])])];
            DistinctAll(file) && !ScopedAll(Inserted(file), {}, file)
  {
    hide Inserted, ScopedAll, DistinctAll, OffsetsAll, InPlaceAll;
    var place := Place(1, 1);
    var log := Log(place, 1, 90);
    var method_ := TraitMethod([log]);
    var loop := Loop(place, Some("i"), [], 40, [method_]);
    var file := [Function(false, false, [loop])];
    Nothing(true, OutOfSight);
    Single(log, true, OutOfSight);
    Single(method_, true, InSight);
    Single(loop, true, NoShadow);
    Single(file[0], true, NoShadow);
    ScopedIffInPlace(file);
  }
}
