/** The collector as the program runs it. */
module InstrumenterCollector {
  import opened Common
  import opened Instrumenter

  class Collector {
    var insertions: seq<Insertion>
    var loops: seq<LoopMeta>
    var loopCounter: nat
    var testDepth: nat
    var constDepth: nat

    ghost function View(): Walk
      reads this
    {
      Walk(insertions, loops, loopCounter, testDepth, constDepth)
    }

    constructor ()
      ensures View() == FRESH_WALK
    {
      insertions := [];
      loops := [];
      loopCounter := 0;
      testDepth := 0;
      constDepth := 0;
    }

    method OpenLoop(place: Place, variable: Option<string>, bodyStart: nat)
      modifies this
      ensures View() == PushLoop(old(View()), place, variable, bodyStart)
      ensures loopCounter == old(loopCounter) + 1 && insertions == old(insertions)
      ensures loops == old(loops) + [LoopMeta(Tag(place, variable, loopCounter), bodyStart, false)]
    {
      loopCounter := loopCounter + 1;
      loops := loops + [LoopMeta(Tag(place, variable, loopCounter), bodyStart, false)];
    }

    method CloseLoop()
      modifies this
      ensures View() == PopLoop(old(View()))
      ensures old(loops) != [] ==>
                var meta := old(loops[|loops| - 1]);
                && loops == old(loops[..|loops| - 1])
                && insertions == old(insertions) + if meta.used && meta.tag.variable.Some? then
                                                     [Insertion(meta.bodyStart, Capture(meta.tag.shadow, meta.tag.variable.value))]
                                                   else []
    {
      if loops == [] {
        return;
      }
      var meta := loops[|loops| - 1];
      loops := loops[..|loops| - 1];
      if !meta.used {
        return;
      }
      if meta.tag.variable.Some? {
        insertions := insertions + [Insertion(meta.bodyStart, Capture(meta.tag.shadow, meta.tag.variable.value))];
      }
    }

    method VisitStatementLog(place: Place, fd: nat, end: nat)
      modifies this
      ensures View() == VisitLog(old(View()), place, fd, end)
      ensures testDepth > 0 || constDepth > 0 ==> insertions == old(insertions) && loops == old(loops)
      ensures testDepth == 0 && constDepth == 0 ==>
                var inLoop := old(loops) != [] && old(loops[|loops| - 1]).tag.variable.Some?;
                && (inLoop ==>
                      var meta := old(loops[|loops| - 1]);
                      && insertions == old(insertions) + [Insertion(end, LoopLogCall(fd, place, meta.tag.place, meta.tag.variable.value, meta.tag.shadow))]
                      && loops == old(loops[..|loops| - 1]) + [meta.(used := true)])
                && (!inLoop ==> insertions == old(insertions) + [Insertion(end, LogCall(fd, place))] && loops == old(loops))
    {
      if testDepth > 0 || constDepth > 0 {
        return;
      }
      var enclosing: Option<Tag> := None;
      if loops != [] {
        var last := |loops| - 1;
        if loops[last].tag.variable.Some? {
          enclosing := Some(loops[last].tag);
          loops := loops[last := loops[last].(used := true)];
        }
      }
      insertions := insertions + [Insertion(end, LogPiece(fd, place, enclosing))];
    }

    method VisitNodes(nodes: seq<Node>)
      modifies this
      ensures View() == VisitAll(old(View()), nodes)
      decreases nodes, 0
    {
      hide Visit;
      var i := 0;
      assert nodes[0..] == nodes;
      while i < |nodes|
        invariant 0 <= i <= |nodes|
        invariant VisitAll(View(), nodes[i..]) == VisitAll(old(View()), nodes)
      {
        assert nodes[i..][0] == nodes[i] && nodes[i..][1..] == nodes[i + 1..];
        VisitNode(nodes[i]);
        i := i + 1;
      }
      assert nodes[i..] == [];
    }

    method VisitNode(node: Node)
      modifies this
      ensures View() == Visit(old(View()), node)
      decreases node
    {
      hide VisitAll, PopLoop, PushLoop, VisitLog;
      match node {
        case Log(place, fd, end) =>
          VisitStatementLog(place, fd, end);
        case Let(init, probe, end) =>
          VisitNodes(init);
          if testDepth > 0 || constDepth > 0 || probe.None? {
            return;
          }
          insertions := insertions + [Insertion(end, ProbeCall(probe.value))];
        case Loop(place, variable, header, bodyStart, body) =>
          OpenLoop(place, variable, bodyStart);
          VisitNodes(header);
          VisitNodes(body);
          CloseLoop();
        case Closure(children) =>
          var saved := loops;
          loops := [];
          VisitNodes(children);
          loops := saved;
        case Async(children) =>
          var saved := loops;
          loops := [];
          VisitNodes(children);
          loops := saved;
        case Function(isConst, isTest, children) =>
          VisitFunction(isConst, isTest, children);
        case Method(isConst, children) =>
          VisitMethod(isConst, children);
        case Constant(children) =>
          constDepth := constDepth + 1;
          VisitNodes(children);
          DepthsKept(old(View()).(constDepth := old(constDepth) + 1), children);
          constDepth := constDepth - 1;
        case Module(isTest, children) =>
          if isTest {
            testDepth := testDepth + 1;
          }
          ghost var before := View();
          VisitNodes(children);
          DepthsKept(before, children);
          if isTest {
            testDepth := testDepth - 1;
          }
        case TraitMethod(children) =>
          VisitNodes(children);
        case AnonymousConst(children) =>
          VisitNodes(children);
        case TestOnly(children) =>
          VisitNodes(children);
        case Other(children) =>
          VisitNodes(children);
      }
    }

    method VisitFunction(isConst: bool, isTest: bool, children: seq<Node>)
      modifies this
      ensures View() == Visit(old(View()), Function(isConst, isTest, children))
      decreases children, 1
    {
      hide VisitAll;
      if isTest {
        testDepth := testDepth + 1;
      }
      if isConst {
        constDepth := constDepth + 1;
      }
      var saved := loops;
      loops := [];
      ghost var before := View();
      VisitNodes(children);
      DepthsKept(before, children);
      loops := saved;
      if isConst {
        constDepth := constDepth - 1;
      }
      if isTest {
        testDepth := testDepth - 1;
      }
    }

    /** A function of an impl: whether it is a test is not asked. */
    method VisitMethod(isConst: bool, children: seq<Node>)
      modifies this
      ensures View() == Visit(old(View()), Method(isConst, children))
      decreases children, 1
    {
      hide VisitAll;
      if isConst {
        constDepth := constDepth + 1;
      }
      var saved := loops;
      loops := [];
      ghost var before := View();
      VisitNodes(children);
      DepthsKept(before, children);
      loops := saved;
      if isConst {
        constDepth := constDepth - 1;
      }
    }
  }

  /** A walk leaves both depths as it found them. */
  lemma {:induction false} DepthsKept(w: Walk, nodes: seq<Node>)
    ensures VisitAll(w, nodes).testDepth == w.testDepth && VisitAll(w, nodes).constDepth == w.constDepth
  {
    hide EmitAll, CountAll, UsesAny;
    VisitAllComesTo(w, nodes);
  }
}
