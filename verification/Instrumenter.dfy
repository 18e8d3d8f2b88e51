/** The Rust instrumenter's walk over a program, and what it inserts where. */
module Instrumenter {
  import opened Common

  // ---- programs ----------------------------------------------------------------------------

  datatype Place = Place(line: nat, column: nat)

  /**
   * What the walk distinguishes in a program. `end` is the offset past a
   * statement, `bodyStart` the offset past a loop's opening brace. A loop's
   * header is a for loop's pattern and iterator or a while loop's condition.
   * `Constant` is what raises the walk's const depth: a `const` or `static`
   * item and a `const` block. `AnonymousConst` is every other constant
   * expression, which the walk enters like any other: an array length in a
   * type or a repeat expression, an enum discriminant, a const generic
   * argument or default, and the value of an associated constant of an impl
   * or a trait.
   *
   * `isTest` is what raises its test depth: an attribute whose path ends in
   * `test`, or a `cfg` that names `test` outright, on a function item or a
   * module; on a `Method`, a function of an impl, the walk does not look for
   * one. `TestOnly` is everything else that an attribute keeps out of all but
   * test builds, which the walk enters like any other: a `cfg(test)` on the
   * file, an impl, a trait, a function of either, a block, a statement or an
   * expression, and on anything a `cfg` that names `test` only inside `all`.
   */
  datatype Node =
    | Log(place: Place, fd: nat, end: nat)
    | Let(init: seq<Node>, probe: Option<string>, end: nat)
    | Loop(place: Place, variable: Option<string>, header: seq<Node>, bodyStart: nat, body: seq<Node>)
    | Closure(children: seq<Node>)
    | Async(children: seq<Node>)
    | Function(isConst: bool, isTest: bool, children: seq<Node>)
    | Method(isConst: bool, children: seq<Node>)
    | Constant(children: seq<Node>)
    | Module(isTest: bool, children: seq<Node>)
    | TraitMethod(children: seq<Node>)
    | AnonymousConst(children: seq<Node>)
    | TestOnly(children: seq<Node>)
    | Other(children: seq<Node>)

  // ---- insertions --------------------------------------------------------------------------

  /** A loop as a log statement in it sees it. */
  datatype Tag = Tag(place: Place, variable: Option<string>, shadow: nat)

  datatype Piece =
    | ProbeCall(name: string)
    | LogCall(fd: nat, place: Place)
    | LoopLogCall(fd: nat, place: Place, loopPlace: Place, variable: string, shadow: nat)
    | Capture(shadow: nat, variable: string)

  datatype Insertion = Insertion(offset: nat, piece: Piece)

  /** The call put behind a log statement whose innermost loop, if any, is `top`. */
  function LogPiece(fd: nat, place: Place, top: Option<Tag>): Piece {
    if top.Some? && top.value.variable.Some? then
      LoopLogCall(fd, place, top.value.place, top.value.variable.value, top.value.shadow)
    else LogCall(fd, place)
  }

  // ---- the walk ----------------------------------------------------------------------------

  datatype LoopMeta = LoopMeta(tag: Tag, bodyStart: nat, used: bool)

  datatype Walk = Walk(insertions: seq<Insertion>, loops: seq<LoopMeta>, loopCounter: nat, testDepth: nat, constDepth: nat)

  const FRESH_WALK: Walk := Walk([], [], 0, 0, 0)

  function PushLoop(w: Walk, place: Place, variable: Option<string>, bodyStart: nat): Walk {
    w.(loopCounter := w.loopCounter + 1,
       loops := w.loops + [LoopMeta(Tag(place, variable, w.loopCounter + 1), bodyStart, false)])
  }

  function PopLoop(w: Walk): Walk {
    if w.loops == [] then w
    else
      var meta := w.loops[|w.loops| - 1];
      var popped := w.(loops := w.loops[..|w.loops| - 1]);
      if meta.used && meta.tag.variable.Some? then
        popped.(insertions := w.insertions + [Insertion(meta.bodyStart, Capture(meta.tag.shadow, meta.tag.variable.value))])
      else popped
  }

  function VisitLog(w: Walk, place: Place, fd: nat, end: nat): Walk {
    if w.testDepth > 0 || w.constDepth > 0 then w
    else if w.loops != [] && w.loops[|w.loops| - 1].tag.variable.Some? then
      var last := |w.loops| - 1;
      w.(loops := w.loops[last := w.loops[last].(used := true)],
         insertions := w.insertions + [Insertion(end, LogPiece(fd, place, Some(w.loops[last].tag)))])
    else w.(insertions := w.insertions + [Insertion(end, LogPiece(fd, place, None))])
  }

  function Visit(w: Walk, node: Node): Walk
    decreases node
  {
    match node
    case Log(place, fd, end) => VisitLog(w, place, fd, end)
    case Let(init, probe, end) =>
      var v := VisitAll(w, init);
      if v.testDepth > 0 || v.constDepth > 0 || probe.None? then v
      else v.(insertions := v.insertions + [Insertion(end, ProbeCall(probe.value))])
    case Loop(place, variable, header, bodyStart, body) =>
      PopLoop(VisitAll(VisitAll(PushLoop(w, place, variable, bodyStart), header), body))
    case Closure(children) => VisitAll(w.(loops := []), children).(loops := w.loops)
    case Async(children) => VisitAll(w.(loops := []), children).(loops := w.loops)
    case Function(isConst, isTest, children) =>
      var v := VisitAll(w.(loops := [], testDepth := w.testDepth + (if isTest then 1 else 0), constDepth := w.constDepth + (if isConst then 1 else 0)), children);
      v.(loops := w.loops, testDepth := w.testDepth, constDepth := w.constDepth)
    case Method(isConst, children) =>
      var v := VisitAll(w.(loops := [], constDepth := w.constDepth + (if isConst then 1 else 0)), children);
      v.(loops := w.loops, constDepth := w.constDepth)
    case Constant(children) => VisitAll(w.(constDepth := w.constDepth + 1), children).(constDepth := w.constDepth)
    case Module(isTest, children) =>
      VisitAll(w.(testDepth := w.testDepth + (if isTest then 1 else 0)), children).(testDepth := w.testDepth)
    case TraitMethod(children) => VisitAll(w, children)
    case AnonymousConst(children) => VisitAll(w, children)
    case TestOnly(children) => VisitAll(w, children)
    case Other(children) => VisitAll(w, children)
  }

  function VisitAll(w: Walk, nodes: seq<Node>): Walk
    decreases nodes
  {
    if nodes == [] then w else VisitAll(Visit(w, nodes[0]), nodes[1..])
  }

  // ---- what the walk comes to, construct by construct ----------------------------------------

  /** The loops in a construct. */
  function Count(node: Node): nat
    decreases node
  {
    match node
    case Log(_, _, _) => 0
    case Let(init, _, _) => CountAll(init)
    case Loop(_, _, header, _, body) => 1 + CountAll(header) + CountAll(body)
    case _ => CountAll(node.children)
  }

  function CountAll(nodes: seq<Node>): nat
    decreases nodes
  {
    if nodes == [] then 0 else Count(nodes[0]) + CountAll(nodes[1..])
  }

  /** Does a construct hold a log statement of the loop around it? `active` is false in const and test context. */
  predicate Uses(node: Node, active: bool)
    decreases node
  {
    match node
    case Log(_, _, _) => active
    case Let(init, _, _) => UsesAny(init, active)
    case Loop(_, _, _, _, _) => false
    case Closure(_) => false
    case Async(_) => false
    case Function(_, _, _) => false
    case Method(_, _) => false
    case Constant(_) => false
    case Module(isTest, children) => UsesAny(children, active && !isTest)
    case TraitMethod(children) => UsesAny(children, active)
    case AnonymousConst(children) => UsesAny(children, active)
    case TestOnly(children) => UsesAny(children, active)
    case Other(children) => UsesAny(children, active)
  }

  predicate UsesAny(nodes: seq<Node>, active: bool)
    decreases nodes
  {
    nodes != [] && (Uses(nodes[0], active) || UsesAny(nodes[1..], active))
  }

  /** The capture at the start of a loop's body: only with a variable, only if a log statement uses it. */
  function Captures(shadow: nat, variable: Option<string>, bodyStart: nat, used: bool): seq<Insertion> {
    if used && variable.Some? then [Insertion(bodyStart, Capture(shadow, variable.value))] else []
  }

  /** What a construct adds, with `k` loops before it, inside the loop `top`. */
  function Emit(node: Node, k: nat, top: Option<Tag>, active: bool): seq<Insertion>
    decreases node
  {
    match node
    case Log(place, fd, end) => if active then [Insertion(end, LogPiece(fd, place, top))] else []
    case Let(init, probe, end) =>
      EmitAll(init, k, top, active) + (if active && probe.Some? then [Insertion(end, ProbeCall(probe.value))] else [])
    case Loop(place, variable, header, bodyStart, body) =>
      var own := Some(Tag(place, variable, k + 1));
      EmitAll(header, k + 1, own, active)
      + EmitAll(body, k + 1 + CountAll(header), own, active)
      + Captures(k + 1, variable, bodyStart, UsesAny(header, active) || UsesAny(body, active))
    case Closure(children) => EmitAll(children, k, None, active)
    case Async(children) => EmitAll(children, k, None, active)
    case Function(isConst, isTest, children) => EmitAll(children, k, None, active && !isConst && !isTest)
    case Method(isConst, children) => EmitAll(children, k, None, active && !isConst)
    case Constant(children) => EmitAll(children, k, top, false)
    case Module(isTest, children) => EmitAll(children, k, top, active && !isTest)
    case TraitMethod(children) => EmitAll(children, k, top, active)
    case AnonymousConst(children) => EmitAll(children, k, top, active)
    case TestOnly(children) => EmitAll(children, k, top, active)
    case Other(children) => EmitAll(children, k, top, active)
  }

  function EmitAll(nodes: seq<Node>, k: nat, top: Option<Tag>, active: bool): seq<Insertion>
    decreases nodes
  {
    if nodes == [] then []
    else Emit(nodes[0], k, top, active) + EmitAll(nodes[1..], k + Count(nodes[0]), top, active)
  }

  // ---- the walk is what it comes to ------------------------------------------------------------

  predicate Active(w: Walk) {
    w.testDepth == 0 && w.constDepth == 0
  }

  function Top(loops: seq<LoopMeta>): Option<Tag> {
    if loops == [] then None else Some(loops[|loops| - 1].tag)
  }

  /** The innermost loop is marked used when it has a variable to capture. */
  function Mark(loops: seq<LoopMeta>, used: bool): seq<LoopMeta> {
    if used && loops != [] && loops[|loops| - 1].tag.variable.Some? then
      loops[|loops| - 1 := loops[|loops| - 1].(used := true)]
    else loops
  }

  /** The walk after a construct, from its parts. */
  function After(w: Walk, emitted: seq<Insertion>, count: nat, used: bool): Walk {
    w.(insertions := w.insertions + emitted, loopCounter := w.loopCounter + count, loops := Mark(w.loops, used))
  }

  lemma {:induction false} AfterTwice(w: Walk, e1: seq<Insertion>, c1: nat, u1: bool, e2: seq<Insertion>, c2: nat, u2: bool)
    ensures After(After(w, e1, c1, u1), e2, c2, u2) == After(w, e1 + e2, c1 + c2, u1 || u2)
  {
    assert w.insertions + e1 + e2 == w.insertions + (e1 + e2);
  }

  lemma {:induction false} AfterSame(w: Walk, emitted: seq<Insertion>, count: nat, used: bool)
    ensures Top(After(w, emitted, count, used).loops) == Top(w.loops)
    ensures Active(After(w, emitted, count, used)) == Active(w)
  {}

  lemma {:induction false} VisitAllComesTo(w: Walk, nodes: seq<Node>)
    ensures VisitAll(w, nodes) == After(w, EmitAll(nodes, w.loopCounter, Top(w.loops), Active(w)), CountAll(nodes), UsesAny(nodes, Active(w)))
    decreases nodes, 1
  {
    if nodes == [] {
      assert w.insertions + [] == w.insertions;
    } else {
      hide Visit, Emit, Uses, Count, After, Active, Top;
      var k, top, active := w.loopCounter, Top(w.loops), Active(w);
      VisitComesTo(w, nodes[0]);
      var e, c, u := Emit(nodes[0], k, top, active), Count(nodes[0]), Uses(nodes[0], active);
      var v := After(w, e, c, u);
      AfterSame(w, e, c, u);
      AfterCounter(w, e, c, u);
      VisitAllComesTo(v, nodes[1..]);
      AfterTwice(w, e, c, u, EmitAll(nodes[1..], k + c, top, active), CountAll(nodes[1..]), UsesAny(nodes[1..], active));
    }
  }

  lemma {:induction false} AfterCounter(w: Walk, emitted: seq<Insertion>, count: nat, used: bool)
    ensures After(w, emitted, count, used).loopCounter == w.loopCounter + count
  {}

  /** Behind a barrier the outer loops are neither seen nor marked. */
  lemma {:induction false} BarrierComesTo(w: Walk, v: Walk, emitted: seq<Insertion>, count: nat, used: bool)
    requires v.insertions == w.insertions && v.loopCounter == w.loopCounter && v.loops == []
    ensures After(v, emitted, count, used).(loops := w.loops, testDepth := w.testDepth, constDepth := w.constDepth)
            == After(w, emitted, count, false)
  {}

  lemma {:induction false} DepthComesTo(w: Walk, v: Walk, emitted: seq<Insertion>, count: nat, used: bool)
    requires v.insertions == w.insertions && v.loopCounter == w.loopCounter && v.loops == w.loops
    ensures After(v, emitted, count, used).(testDepth := w.testDepth, constDepth := w.constDepth) == After(w, emitted, count, used)
  {}

  /** In const and test context nothing is used and nothing inserted. */
  lemma {:induction false} InactiveAll(nodes: seq<Node>, k: nat, top: Option<Tag>)
    ensures EmitAll(nodes, k, top, false) == [] && !UsesAny(nodes, false)
    decreases nodes
  {
    if nodes != [] {
      Inactive(nodes[0], k, top);
      InactiveAll(nodes[1..], k + Count(nodes[0]), top);
    }
  }

  lemma {:induction false} Inactive(node: Node, k: nat, top: Option<Tag>)
    ensures Emit(node, k, top, false) == [] && !Uses(node, false)
    decreases node
  {
    match node
    case Log(_, _, _) =>
    case Let(init, _, _) => InactiveAll(init, k, top);
    case Loop(place, variable, header, _, body) =>
      InactiveAll(header, k + 1, Some(Tag(place, variable, k + 1)));
      InactiveAll(body, k + 1 + CountAll(header), Some(Tag(place, variable, k + 1)));
    case Closure(children) => InactiveAll(children, k, None);
    case Async(children) => InactiveAll(children, k, None);
    case Function(_, _, children) => InactiveAll(children, k, None);
    case Method(_, children) => InactiveAll(children, k, None);
    case Constant(children) => InactiveAll(children, k, top);
    case Module(_, children) => InactiveAll(children, k, top);
    case TraitMethod(children) => InactiveAll(children, k, top);
    case AnonymousConst(children) => InactiveAll(children, k, top);
    case TestOnly(children) => InactiveAll(children, k, top);
    case Other(children) => InactiveAll(children, k, top);
  }

  lemma {:induction false} LogComesTo(w: Walk, place: Place, fd: nat, end: nat)
    ensures VisitLog(w, place, fd, end)
            == After(w, if Active(w) then [Insertion(end, LogPiece(fd, place, Top(w.loops)))] else [], 0, Active(w))
  {
    assert w.insertions + [] == w.insertions;
  }

  /** A loop is pushed, its parts are walked, and it is popped with its capture. */
  lemma {:induction false} LoopComesTo(w: Walk, place: Place, variable: Option<string>, bodyStart: nat,
                                       e1: seq<Insertion>, c1: nat, u1: bool, e2: seq<Insertion>, c2: nat, u2: bool)
    ensures PopLoop(After(After(PushLoop(w, place, variable, bodyStart), e1, c1, u1), e2, c2, u2))
            == After(w, e1 + e2 + Captures(w.loopCounter + 1, variable, bodyStart, u1 || u2), 1 + c1 + c2, false)
  {
    var p := PushLoop(w, place, variable, bodyStart);
    AfterTwice(p, e1, c1, u1, e2, c2, u2);
    var v := After(p, e1 + e2, c1 + c2, u1 || u2);
    assert v.loops[..|v.loops| - 1] == w.loops;
    var capture := Captures(w.loopCounter + 1, variable, bodyStart, u1 || u2);
    assert w.insertions + (e1 + e2) + capture == w.insertions + (e1 + e2 + capture);
    assert e1 + e2 + [] == e1 + e2;
  }

  lemma {:induction false} LoopVisitComesTo(w: Walk, node: Node)
    requires node.Loop?
    ensures Visit(w, node) == After(w, Emit(node, w.loopCounter, Top(w.loops), Active(w)), Count(node), false)
    decreases node, 0
  {
    hide After, Active, Top, PushLoop, PopLoop, VisitAll, EmitAll, CountAll, UsesAny, Captures;
    var Loop(place, variable, header, bodyStart, body) := node;
    var p := PushLoop(w, place, variable, bodyStart);
    var own := Some(Tag(place, variable, w.loopCounter + 1));
    PushedTop(w, place, variable, bodyStart);
    VisitAllComesTo(p, header);
    var e1, c1, u1 := EmitAll(header, w.loopCounter + 1, own, Active(w)), CountAll(header), UsesAny(header, Active(w));
    var v := After(p, e1, c1, u1);
    AfterSame(p, e1, c1, u1);
    AfterCounter(p, e1, c1, u1);
    VisitAllComesTo(v, body);
    LoopComesTo(w, place, variable, bodyStart, e1, c1, u1,
                EmitAll(body, w.loopCounter + 1 + c1, own, Active(w)), CountAll(body), UsesAny(body, Active(w)));
  }

  lemma {:induction false} PushedTop(w: Walk, place: Place, variable: Option<string>, bodyStart: nat)
    ensures var p := PushLoop(w, place, variable, bodyStart);
            && Top(p.loops) == Some(Tag(place, variable, w.loopCounter + 1))
            && p.loopCounter == w.loopCounter + 1 && Active(p) == Active(w)
  {}

  lemma {:induction false} FunctionComesTo(w: Walk, node: Node)
    requires node.Function?
    ensures Visit(w, node) == After(w, Emit(node, w.loopCounter, Top(w.loops), Active(w)), Count(node), false)
    decreases node, 0
  {
    hide After, VisitAll, EmitAll, CountAll, UsesAny;
    var Function(isConst, isTest, children) := node;
    var v := w.(loops := [], testDepth := w.testDepth + (if isTest then 1 else 0), constDepth := w.constDepth + (if isConst then 1 else 0));
    VisitAllComesTo(v, children);
    BarrierComesTo(w, v, EmitAll(children, w.loopCounter, None, Active(v)), CountAll(children), UsesAny(children, Active(v)));
  }

  lemma {:induction false} MethodComesTo(w: Walk, node: Node)
    requires node.Method?
    ensures Visit(w, node) == After(w, Emit(node, w.loopCounter, Top(w.loops), Active(w)), Count(node), false)
    decreases node, 0
  {
    hide After, VisitAll, EmitAll, CountAll, UsesAny;
    var Method(isConst, children) := node;
    var v := w.(loops := [], constDepth := w.constDepth + (if isConst then 1 else 0));
    VisitAllComesTo(v, children);
    BarrierComesTo(w, v, EmitAll(children, w.loopCounter, None, Active(v)), CountAll(children), UsesAny(children, Active(v)));
    AfterDepths(v, EmitAll(children, w.loopCounter, None, Active(v)), CountAll(children), UsesAny(children, Active(v)));
  }

  lemma {:induction false} ClosureComesTo(w: Walk, children: seq<Node>)
    ensures VisitAll(w.(loops := []), children).(loops := w.loops)
            == After(w, EmitAll(children, w.loopCounter, None, Active(w)), CountAll(children), false)
    decreases children, 2
  {
    hide After, VisitAll, EmitAll, CountAll, UsesAny;
    var v := w.(loops := []);
    VisitAllComesTo(v, children);
    BarrierComesTo(w, v, EmitAll(children, w.loopCounter, None, Active(v)), CountAll(children), UsesAny(children, Active(v)));
    AfterDepths(v, EmitAll(children, w.loopCounter, None, Active(v)), CountAll(children), UsesAny(children, Active(v)));
  }

  lemma {:induction false} AfterDepths(w: Walk, emitted: seq<Insertion>, count: nat, used: bool)
    ensures var v := After(w, emitted, count, used);
            v.testDepth == w.testDepth && v.constDepth == w.constDepth
  {}

  lemma {:induction false} ContextComesTo(w: Walk, v: Walk, children: seq<Node>)
    requires v == w.(testDepth := v.testDepth, constDepth := v.constDepth)
    ensures VisitAll(v, children).testDepth == v.testDepth && VisitAll(v, children).constDepth == v.constDepth
    ensures VisitAll(v, children).(testDepth := w.testDepth, constDepth := w.constDepth)
            == After(w, EmitAll(children, w.loopCounter, Top(w.loops), Active(v)), CountAll(children), UsesAny(children, Active(v)))
    decreases children, 2
  {
    hide After, VisitAll, EmitAll, CountAll, UsesAny;
    VisitAllComesTo(v, children);
    DepthComesTo(w, v, EmitAll(children, w.loopCounter, Top(w.loops), Active(v)), CountAll(children), UsesAny(children, Active(v)));
    AfterDepths(v, EmitAll(children, w.loopCounter, Top(w.loops), Active(v)), CountAll(children), UsesAny(children, Active(v)));
  }

  lemma {:induction false} LetComesTo(w: Walk, node: Node)
    requires node.Let?
    ensures Visit(w, node) == After(w, Emit(node, w.loopCounter, Top(w.loops), Active(w)), Count(node), Uses(node, Active(w)))
    decreases node, 0
  {
    hide VisitAll, EmitAll, CountAll, UsesAny;
    VisitAllComesTo(w, node.init);
    var e := EmitAll(node.init, w.loopCounter, Top(w.loops), Active(w));
    assert e + [] == e;
    if node.probe.Some? {
      var call := [Insertion(node.end, ProbeCall(node.probe.value))];
      assert w.insertions + e + call == w.insertions + (e + call);
    }
  }

  /**
   * The walk, with its stack of loops that is pushed, popped and set aside,
   * its counter and its depths, adds exactly what each construct comes to.
   */
  lemma {:induction false} VisitComesTo(w: Walk, node: Node)
    ensures Visit(w, node) == After(w, Emit(node, w.loopCounter, Top(w.loops), Active(w)), Count(node), Uses(node, Active(w)))
    decreases node, 1
  {
    match node {
      case Log(place, fd, end) => LogComesTo(w, place, fd, end);
      case Let(_, _, _) => LetComesTo(w, node);
      case Loop(_, _, _, _, _) => LoopVisitComesTo(w, node);
      case Closure(children) => ClosureComesTo(w, children);
      case Async(children) => ClosureComesTo(w, children);
      case Function(_, _, _) => FunctionComesTo(w, node);
      case Method(_, _) => MethodComesTo(w, node);
      case Constant(children) =>
        ContextComesTo(w, w.(constDepth := w.constDepth + 1), children);
        InactiveAll(children, w.loopCounter, Top(w.loops));
      case Module(isTest, children) =>
        ContextComesTo(w, w.(testDepth := w.testDepth + (if isTest then 1 else 0)), children);
      case TraitMethod(children) => VisitAllComesTo(w, children);
      case AnonymousConst(children) => VisitAllComesTo(w, children);
      case TestOnly(children) => VisitAllComesTo(w, children);
      case Other(children) => VisitAllComesTo(w, children);
    }
  }
}
