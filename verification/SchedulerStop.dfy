/** What Stop stops: exactly when a run can still become active after it, though nobody asks for one. */
module SchedulerStop {
  import opened Common
  import opened Scheduler
  import opened SchedulerInvariant

  // ---- going on without a request --------------------------------------------------------------

  /**
   * A run request, or the update that follows an edit and may lead to an auto
   * run. An edit alone is no request: it only moves the document's version.
   */
  predicate Asks(a: Action) {
    a.OfSession? && (a.session.RequestRun? || a.session.RequestUpdate?)
  }

  /** A step that is no request. */
  predicate Leads(s: State, a: Action, t: State) {
    Enabled(s, a) && t == Next(s, a) && !Asks(a)
  }

  /** Steps of any tasks, none of them a request. */
  predicate Path(states: seq<State>, actions: seq<Action>) {
    && |states| == |actions| + 1
    && forall k :: 0 <= k < |actions| ==> Leads(states[k], actions[k], states[k + 1])
  }

  /** Some continuation without requests makes a run active. */
  ghost predicate MayRunAgain(s: State) {
    exists states: seq<State>, actions: seq<Action> ::
      Path(states, actions) && states[0] == s && states[|actions|].cell.activeRun.Some?
  }

  // ---- what is still in the making ----------------------------------------------------------------

  /**
   * A `start_run` that will not give up: past its checks, or with a version the
   * document has not left behind, or about to find no run to wait for and so
   * not to check again.
   */
  predicate StartAhead(s: State, i: TaskId)
    requires i < |s.starters|
  {
    var me := s.starters[i];
    match me.pc
    case AwaitLock => s.version <= me.version
    case CheckVersion => s.version <= me.version
    case ToCancel => s.version <= me.version || s.cell.finished == None
    case ToTakeFinished => s.version <= me.version || s.cell.finished == None
    case AwaitPrevious(_) => s.version <= me.version
    case Recheck => s.version <= me.version
    case ToOpenInput => true
    case ToInstall(_) => true
    case _ => false
  }

  /** A `document_updated` that has yet to put its debounce task into the slot, for a version not left behind. */
  predicate UpdateAhead(s: State, u: nat)
    requires u < |s.updates|
  {
    match s.updates[u]
    case UpdateCancelling => true
    case UpdateReading => true
    case UpdateStoring(version) => s.version <= version
    case UpdateDone => false
  }

  predicate InTheMaking(s: State) {
    || (exists i :: 0 <= i < |s.starters| && StartAhead(s, i))
    || (exists u :: 0 <= u < |s.updates| && UpdateAhead(s, u))
  }

  // ---- nothing in the making: nothing comes --------------------------------------------------------

  /** No active run, nothing in the making, and a pending task, if any, is for a document left behind. */
  ghost predicate Spent(s: State) {
    && s.cell.activeRun == None
    && !InTheMaking(s)
    && (s.cell.debounce.Some? ==>
          var h := s.cell.debounce.value.1;
          h < |s.starters| && s.starters[h].version < s.version)
  }

  lemma {:induction false} SessionKeepsSpent(s: State, a: SessionAction)
    requires Spent(s) && SessionEnabled(s, a) && !Asks(OfSession(a))
    ensures Spent(SessionNext(s, a))
  {
    var t := SessionNext(s, a);
    forall i | 0 <= i < |t.starters|
      ensures !StartAhead(t, i)
    {
      assert !StartAhead(s, i);
    }
    forall u | 0 <= u < |t.updates|
      ensures !UpdateAhead(t, u)
    {
      assert !UpdateAhead(s, u);
    }
  }

  lemma {:induction false} UpdateKeepsSpent(s: State, u: nat, a: UpdateAction)
    requires Spent(s) && u < |s.updates| && UpdateEnabled(s.updates[u], a)
    ensures Spent(UpdateNext(s, u, a))
  {
    assert !UpdateAhead(s, u);
    var t := UpdateNext(s, u, a);
    forall i | 0 <= i < |t.starters|
      ensures !StartAhead(t, i)
    {
      if i < |s.starters| {
        assert !StartAhead(s, i);
      }
    }
    forall v | 0 <= v < |t.updates|
      ensures !UpdateAhead(t, v)
    {
      assert !UpdateAhead(s, v);
    }
  }

  /** Whoever wakes as the pending task is the pending task. */
  lemma {:induction false} WakesPending(s: State, i: TaskId)
    requires TagInv(s) && PendingInv(s) && i < |s.starters| && s.starters[i].origin.Auto?
    requires Pending(s.cell, s.starters[i].origin.tag)
    ensures s.cell.debounce.value.1 == i
  {
    var h := s.cell.debounce.value.1;
    assert s.starters[h].origin == s.starters[i].origin;
  }

  /** One start step: its own counter moves, the other starters stay, and the version stays. */
  lemma {:induction false} StartFrame(s: State, i: TaskId, a: StartAction)
    requires i < |s.starters| && StartEnabled(s, i, a)
    ensures var t := StartNext(s, i, a);
            && |t.starters| == |s.starters| && t.updates == s.updates && t.version == s.version
            && (forall j :: 0 <= j < |s.starters| && j != i ==> t.starters[j] == s.starters[j])
            && (forall j :: 0 <= j < |s.starters| ==> t.starters[j].version == s.starters[j].version)
            && (!a.Install? ==> t.cell.activeRun == s.cell.activeRun || t.cell.activeRun == None)
            && (t.cell.debounce == s.cell.debounce || t.cell.debounce == None)
            && (t.cell.finished == s.cell.finished || a.TakeFinished? || a.Install?)
  {}

  /** A starter with nothing ahead of it gets nowhere by its own step. */
  lemma {:induction false} OwnStepSpent(s: State, i: TaskId, a: StartAction)
    requires Spent(s) && TagInv(s) && PendingInv(s) && i < |s.starters| && StartEnabled(s, i, a)
    ensures !a.Install? && i < |StartNext(s, i, a).starters| && !StartAhead(StartNext(s, i, a), i)
  {
    assert !StartAhead(s, i);
    if a.Wake? && Pending(s.cell, s.starters[i].origin.tag) {
      WakesPending(s, i);
    }
  }

  lemma {:induction false} StartKeepsSpent(s: State, i: TaskId, a: StartAction)
    requires Spent(s) && LockInv(s) && TagInv(s) && PendingInv(s) && i < |s.starters| && StartEnabled(s, i, a)
    ensures Spent(StartNext(s, i, a))
  {
    hide StartNext;
    StartFrame(s, i, a);
    OwnStepSpent(s, i, a);
    var t := StartNext(s, i, a);
    forall j | 0 <= j < |t.starters|
      ensures !StartAhead(t, j)
    {
      assert !StartAhead(s, j);
      if j != i && a.TakeFinished? {
        assert Critical(s.starters[i].pc) && !Critical(s.starters[j].pc);
      }
    }
    forall u | 0 <= u < |t.updates|
      ensures !UpdateAhead(t, u)
    {
      assert !UpdateAhead(s, u);
    }
  }

  /** Run tasks, forwarders and watchdogs do not touch what starts read. */
  ghost predicate SameStarts(s: State, t: State) {
    && t.starters == s.starters && t.updates == s.updates && t.version == s.version
    && t.cell.debounce == s.cell.debounce && t.cell.finished == s.cell.finished
    && (t.cell.activeRun == s.cell.activeRun || t.cell.activeRun == None)
  }

  lemma {:induction false} TaskSameStarts(s: State, r: RunId, a: TaskAction)
    requires r < |s.runs| && TaskEnabled(s, r, a)
    ensures SameStarts(s, TaskNext(s, r, a))
  {}

  lemma {:induction false} ForwardSameStarts(s: State, r: RunId, a: ForwardAction)
    requires r < |s.runs| && ForwardEnabled(s.runs[r], a)
    ensures SameStarts(s, ForwardNext(s, r, a))
  {}

  lemma {:induction false} WatchSameStarts(s: State, r: RunId, a: WatchAction)
    requires r < |s.runs| && WatchEnabled(s.runs[r], a)
    ensures SameStarts(s, WatchNext(s, r, a))
  {}

  lemma {:induction false} SameStartsSpent(s: State, t: State)
    requires Spent(s) && SameStarts(s, t)
    ensures Spent(t)
  {
    forall i | 0 <= i < |t.starters|
      ensures !StartAhead(t, i)
    {
      assert !StartAhead(s, i);
    }
    forall u | 0 <= u < |t.updates|
      ensures !UpdateAhead(t, u)
    {
      assert !UpdateAhead(s, u);
    }
  }

  lemma {:induction false} SpentKeeps(s: State, a: Action)
    requires Inv(s) && Spent(s) && Enabled(s, a) && !Asks(a)
    ensures Spent(Next(s, a))
  {
    hide Spent, SessionNext, UpdateNext, StartNext, TaskNext, ForwardNext, WatchNext;
    match a
    case OfSession(x) => SessionKeepsSpent(s, x);
    case OfUpdate(u, x) => UpdateKeepsSpent(s, u, x);
    case OfStart(i, x) => StartKeepsSpent(s, i, x);
    case OfTask(r, x) =>
      TaskSameStarts(s, r, x);
      SameStartsSpent(s, TaskNext(s, r, x));
    case OfForwarder(r, x) =>
      ForwardSameStarts(s, r, x);
      SameStartsSpent(s, ForwardNext(s, r, x));
    case OfWatchdog(r, x) =>
      WatchSameStarts(s, r, x);
      SameStartsSpent(s, WatchNext(s, r, x));
  }

  lemma {:induction false} PathStaysSpent(states: seq<State>, actions: seq<Action>, k: nat)
    requires Path(states, actions) && k < |states| && Inv(states[0]) && Spent(states[0])
    ensures Inv(states[k]) && Spent(states[k])
  {
    hide Inv, Spent, Next, Enabled;
    if k > 0 {
      PathStaysSpent(states, actions, k - 1);
      assert Leads(states[k - 1], actions[k - 1], states[k - 1 + 1]);
      StepKeeps(states[k - 1], actions[k - 1]);
      SpentKeeps(states[k - 1], actions[k - 1]);
    }
  }

  // ---- something in the making: a run comes ----------------------------------------------------------

  lemma {:induction false} PathFrom(s: State, a: Action, states: seq<State>, actions: seq<Action>)
    requires Path(states, actions) && Leads(s, a, states[0])
    ensures Path([s] + states, [a] + actions)
  {
    hide Leads;
    var before, steps := [s] + states, [a] + actions;
    forall k | 0 <= k < |steps|
      ensures Leads(before[k], steps[k], before[k + 1])
    {
      if k > 0 {
        assert Leads(states[k - 1], actions[k - 1], states[k - 1 + 1]);
      }
    }
  }

  /** A step that is no request, and then more. */
  lemma {:induction false} StepAhead(s: State, a: Action)
    requires Enabled(s, a) && !Asks(a) && MayRunAgain(Next(s, a))
    ensures MayRunAgain(s)
  {
    hide Enabled, Next;
    var states: seq<State>, actions: seq<Action> :|
      Path(states, actions) && states[0] == Next(s, a) && states[|actions|].cell.activeRun.Some?;
    PathFrom(s, a, states, actions);
    var before, steps := [s] + states, [a] + actions;
    assert before[0] == s && before[|steps|] == states[|actions|];
  }

  lemma {:induction false} AlreadyRunning(s: State)
    requires s.cell.activeRun.Some?
    ensures MayRunAgain(s)
  {
    var none: seq<Action> := [];
    assert Path([s], none) && [s][|none|] == s;
  }

  /** How many steps a start that holds the lock is from installing. */
  function Distance(pc: StartPc): nat {
    match pc
    case CheckVersion => 7
    case ToCancel => 6
    case ToTakeFinished => 5
    case AwaitPrevious(_) => 4
    case Recheck => 3
    case ToOpenInput => 2
    case ToInstall(_) => 1
    case _ => 0
  }

  /** The step that brings the holder of the lock nearer to its run. */
  function Forth(s: State, i: TaskId): StartAction
    requires i < |s.starters|
  {
    match s.starters[i].pc
    case CheckVersion => FirstCheck(true)
    case ToCancel => StartCancel
    case ToTakeFinished => TakeFinished
    case AwaitPrevious(previous) => if previous in s.cell.fired then PreviousEnded else GraceExpires
    case Recheck => SecondCheck
    case ToOpenInput => OpenInput
    case _ => Install
  }

  lemma {:induction false} ForthGets(s: State, i: TaskId)
    requires i < |s.starters| && StartAhead(s, i) && Distance(s.starters[i].pc) > 0
    requires s.version < s.starters[i].version ==> false
    ensures StartEnabled(s, i, Forth(s, i))
    ensures var t := StartNext(s, i, Forth(s, i));
            if s.starters[i].pc.ToInstall? then t.cell.activeRun.Some?
            else i < |t.starters| && StartAhead(t, i) && t.version == s.version && t.starters[i].version == s.starters[i].version
                 && 0 < Distance(t.starters[i].pc) < Distance(s.starters[i].pc)
  {}

  /** A start with the lock goes on to its run. */
  lemma {:induction false} HolderComes(s: State, i: TaskId)
    requires i < |s.starters| && StartAhead(s, i) && Distance(s.starters[i].pc) > 0 && s.starters[i].version <= s.version
    ensures MayRunAgain(s)
    decreases Distance(s.starters[i].pc)
  {
    hide StartNext, StartEnabled, StartAhead, MayRunAgain;
    ForthGets(s, i);
    var a := OfStart(i, Forth(s, i));
    if s.starters[i].pc.ToInstall? {
      AlreadyRunning(Next(s, a));
    } else {
      HolderComes(Next(s, a), i);
    }
    StepAhead(s, a);
  }

  /** The step of whoever holds the lock: towards its run, or towards giving the lock back. */
  function Away(s: State, h: TaskId): StartAction
    requires h < |s.starters|
  {
    match s.starters[h].pc
    case CheckVersion => FirstCheck(false)
    case ToAnnounce(_) => Announce
    case ToSpawn(_) => Spawn
    case _ => Forth(s, h)
  }

  function Remaining(pc: StartPc): nat {
    match pc
    case ToAnnounce(_) => 2
    case ToSpawn(_) => 1
    case _ => Distance(pc)
  }

  lemma {:induction false} AwayGets(s: State, h: TaskId)
    requires h < |s.starters| && s.startLock == Some(h) && Critical(s.starters[h].pc) && HolderInv(s)
    ensures StartEnabled(s, h, Away(s, h))
    ensures var t := StartNext(s, h, Away(s, h));
            || t.startLock == None
            || t.cell.activeRun.Some?
            || (t.startLock == Some(h) && |t.starters| == |s.starters| && Remaining(t.starters[h].pc) < Remaining(s.starters[h].pc))
  {}

  /** A start that waits for the lock gets it, unless a run becomes active before that. */
  lemma {:induction false} WaiterComes(s: State, i: TaskId)
    requires Inv(s) && i < |s.starters| && s.starters[i].pc.AwaitLock? && s.starters[i].version == s.version
    ensures MayRunAgain(s)
    decreases if s.startLock.Some? && s.startLock.value < |s.starters| then 1 + Remaining(s.starters[s.startLock.value].pc) else 0
  {
    hide StartNext, MayRunAgain;
    if s.startLock == None {
      WaiterAcquires(s, i);
    } else {
      var h := s.startLock.value;
      LockHeld(s);
      AwayGets(s, h);
      StartFrame(s, h, Away(s, h));
      var a := OfStart(h, Away(s, h));
      StepKeeps(s, a);
      if Next(s, a).cell.activeRun.Some? {
        AlreadyRunning(Next(s, a));
      } else {
        WaiterComes(Next(s, a), i);
      }
      StepAhead(s, a);
    }
  }

  lemma {:induction false} LockHeld(s: State)
    requires LockInv(s) && s.startLock.Some?
    ensures s.startLock.value < |s.starters| && Critical(s.starters[s.startLock.value].pc)
  {}

  lemma {:induction false} WaiterAcquires(s: State, i: TaskId)
    requires i < |s.starters| && s.starters[i].pc.AwaitLock? && s.starters[i].version == s.version && s.startLock == None
    ensures MayRunAgain(s)
  {
    hide MayRunAgain;
    var a := OfStart(i, Acquire);
    HolderComes(Next(s, a), i);
    StepAhead(s, a);
  }

  /** The document catches up with a version ahead of it. */
  lemma {:induction false} CatchUp(s: State, version: nat) returns (t: State)
    requires Inv(s) && s.version <= version
    ensures Inv(t) && t == s.(version := version)
    ensures MayRunAgain(t) ==> MayRunAgain(s)
  {
    hide MayRunAgain, Inv;
    t := s.(version := version);
    if s.version < version {
      var a := OfSession(Edit(version));
      StepKeeps(s, a);
      assert t == Next(s, a);
      if MayRunAgain(t) {
        StepAhead(s, a);
      }
    }
  }

  lemma {:induction false} StartComes(s: State, i: TaskId)
    requires Inv(s) && i < |s.starters| && StartAhead(s, i)
    ensures MayRunAgain(s)
  {
    hide MayRunAgain, Inv;
    var t := s;
    if s.version < s.starters[i].version {
      t := CatchUp(s, s.starters[i].version);
    }
    if t.starters[i].pc.AwaitLock? {
      WaiterComes(t, i);
    } else {
      HolderComes(t, i);
    }
  }

  /** An update under way stores its task, which wakes, finds itself pending and waits for the lock. */
  lemma {:induction false} StoringComes(s: State, u: nat)
    requires Inv(s) && u < |s.updates| && s.updates[u].UpdateStoring? && s.version <= s.updates[u].version
    ensures MayRunAgain(s)
  {
    hide MayRunAgain, Inv, InTheMaking;
    var t := CatchUp(s, s.updates[u].version);
    var i := |t.starters|;
    var a, b := OfUpdate(u, UpdateStore), OfStart(i, Wake);
    var stored := Next(t, a);
    StepKeeps(t, a);
    var woken := Next(stored, b);
    StepKeeps(stored, b);
    WaiterComes(woken, i);
    StepAhead(stored, b);
    StepAhead(t, a);
  }

  lemma {:induction false} ReadingComes(s: State, u: nat)
    requires Inv(s) && u < |s.updates| && s.updates[u].UpdateReading?
    ensures MayRunAgain(s)
  {
    hide MayRunAgain, Inv;
    var a := OfUpdate(u, UpdateRead(true));
    StepKeeps(s, a);
    StoringComes(Next(s, a), u);
    StepAhead(s, a);
  }

  lemma {:induction false} UpdateComes(s: State, u: nat)
    requires Inv(s) && u < |s.updates| && UpdateAhead(s, u)
    ensures MayRunAgain(s)
  {
    hide MayRunAgain, Inv;
    match s.updates[u]
    case UpdateStoring(_) => StoringComes(s, u);
    case UpdateReading => ReadingComes(s, u);
    case UpdateCancelling =>
      var a := OfUpdate(u, UpdateCancel);
      StepKeeps(s, a);
      ReadingComes(Next(s, a), u);
      StepAhead(s, a);
  }

  // ---- the promise -------------------------------------------------------------------------------------

  /** With an empty slot and nothing pending, a run comes unasked exactly if one is in the making. */
  lemma {:induction false} RunsAgainIff(s: State)
    requires Inv(s) && s.cell.activeRun == None && s.cell.debounce == None
    ensures MayRunAgain(s) <==> InTheMaking(s)
  {
    hide Inv, StartAhead, UpdateAhead;
    if InTheMaking(s) {
      if i :| 0 <= i < |s.starters| && StartAhead(s, i) {
        StartComes(s, i);
      } else {
        var u :| 0 <= u < |s.updates| && UpdateAhead(s, u);
        UpdateComes(s, u);
      }
    } else if MayRunAgain(s) {
      var states: seq<State>, actions: seq<Action> :|
        Path(states, actions) && states[0] == s && states[|actions|].cell.activeRun.Some?;
      PathStaysSpent(states, actions, |actions|);
      assert false;
    }
  }

  /**
   * In every execution: after a Stop a run can become active without another
   * request exactly if, when it was pressed, a start was under way that would
   * not give up, or an edit had yet to store its debounce task.
   */
  lemma {:induction false} StopLetsThroughIff(states: seq<State>, actions: seq<Action>, k: nat)
    requires Execution(states, actions) && k < |actions| && actions[k] == OfSession(Stop)
    ensures MayRunAgain(states[k + 1]) <==> InTheMaking(states[k])
  {
    hide MayRunAgain;
    ExecutionKeeps(states, actions, k);
    ExecutionKeeps(states, actions, k + 1);
    var s, t := states[k], states[k + 1];
    assert t == CancelInternal(s);
    RunsAgainIff(t);
    assert forall i :: 0 <= i < |s.starters| ==> (StartAhead(s, i) <==> StartAhead(t, i));
    assert forall u :: 0 <= u < |s.updates| ==> (UpdateAhead(s, u) <==> UpdateAhead(t, u));
  }

  /** With no start and no edit under way when it is pressed, Stop is final until the next request. */
  lemma {:induction false} StopIsFinal(states: seq<State>, actions: seq<Action>, j: nat, k: nat)
    requires Execution(states, actions) && j < k < |states| && actions[j] == OfSession(Stop)
    requires forall n :: j < n < k ==> !Asks(actions[n])
    requires !InTheMaking(states[j])
    ensures states[k].cell.activeRun == None
  {
    hide Enabled, Next, InTheMaking, Inv;
    StopLeavesNothing(states, actions, j);
    ExecutionKeeps(states, actions, j + 1);
    Stretch(states, actions, j + 1, k);
    PathStaysSpent(states[j + 1..k + 1], actions[j + 1..k], k - j - 1);
    SpentIsIdle(states[k]);
  }

  lemma {:induction false} SpentIsIdle(s: State)
    requires Spent(s)
    ensures s.cell.activeRun == None
  {}

  lemma {:induction false} Stretch(states: seq<State>, actions: seq<Action>, j: nat, k: nat)
    requires Execution(states, actions) && j <= k < |states| && forall n :: j <= n < k ==> !Asks(actions[n])
    ensures Path(states[j..k + 1], actions[j..k])
  {
    hide Enabled, Next;
  }

  lemma {:induction false} StopLeavesNothing(states: seq<State>, actions: seq<Action>, j: nat)
    requires Execution(states, actions) && j < |actions| && actions[j] == OfSession(Stop) && !InTheMaking(states[j])
    ensures Spent(states[j + 1])
  {
    var s, t := states[j], states[j + 1];
    assert t == CancelInternal(s);
    assert forall i :: 0 <= i < |s.starters| ==> !StartAhead(s, i) && !StartAhead(t, i);
    assert forall u :: 0 <= u < |s.updates| ==> !UpdateAhead(s, u) && !UpdateAhead(t, u);
  }
}
