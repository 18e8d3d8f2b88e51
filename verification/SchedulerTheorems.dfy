/** What the scheduler promises over whole executions. */
module SchedulerTheorems {
  import opened Common
  import opened Scheduler
  import opened SchedulerInvariant

  // ---- mutual exclusion ---------------------------------------------------------

  /** Its task is spawned and has neither returned nor panicked. */
  predicate Live(s: State, r: RunId) {
    r < |s.runs| && Spawned(s.runs[r].task) && !TaskOver(s.runs[r].task)
  }

  function LiveRuns(s: State): set<RunId> {
    set r | 0 <= r < |s.runs| && Live(s, r)
  }

  /** A run starts only when every other run's task is over, or outlived a grace that expired. */
  lemma {:induction false} StartsAlone(states: seq<State>, actions: seq<Action>, k: nat, i: TaskId, q: RunId)
    requires Execution(states, actions) && k < |actions| && actions[k] == OfStart(i, Spawn)
    requires Live(states[k], q)
    ensures q in states[k].expired
  {
    ExecutionKeeps(states, actions, k);
    var s := states[k];
    assert Critical(s.starters[i].pc) && HolderPc(s) == s.starters[i].pc;
    assert FinishedOf(q) !in s.cell.fired;
  }

  lemma {:induction false} SubsetSize(a: set<RunId>, b: set<RunId>)
    requires a <= b
    ensures |a| <= |b|
  {
    assert b == a + (b - a);
  }

  /** At most one live run task more than graces that expired. */
  lemma {:induction false} LiveRunsBounded(states: seq<State>, actions: seq<Action>, k: nat)
    requires Execution(states, actions) && k < |states|
    ensures |LiveRuns(states[k])| <= 1 + |states[k].expired|
  {
    ExecutionKeeps(states, actions, k);
    var s := states[k];
    if |s.runs| == 0 {
      assert LiveRuns(s) == {};
    } else {
      var bound := s.expired + {|s.runs| - 1};
      forall r | r in LiveRuns(s)
        ensures r in bound
      {
        if r !in s.expired {
          assert Outstanding(s, r);
        }
      }
      SubsetSize(LiveRuns(s), bound);
    }
  }

  // ---- slot ownership -----------------------------------------------------------

  /** `cancel` is set exactly when `active_run` is, to the active run's own token, not yet fired. */
  lemma {:induction false} SlotHoldsOwnToken(states: seq<State>, actions: seq<Action>, k: nat)
    requires Execution(states, actions) && k < |states|
    ensures var c := states[k].cell;
            && (c.cancel.Some? <==> c.activeRun.Some?)
            && (c.activeRun.Some? ==> c.cancel == Some(CancelOf(c.activeRun.value)) && CancelOf(c.activeRun.value) !in c.fired)
  {
    ExecutionKeeps(states, actions, k);
  }

  /** The steps that take the active run out of its slot. */
  predicate Frees(a: Action, r: RunId) {
    || a == OfSession(Stop)
    || (a.OfUpdate? && a.step.UpdateCancel?)
    || (a.OfStart? && a.start.StartCancel?)
    || a == OfTask(r, ReleaseSlot)
    || a == OfWatchdog(r, ResetSlot)
  }

  /**
   * Only a cancel and the active run's own end or reset clear the slot; in
   * particular no superseded run that ends late, and no install.
   */
  lemma {:induction false} OnlyItsOwnerFreesTheSlot(states: seq<State>, actions: seq<Action>, k: nat, r: RunId)
    requires Execution(states, actions) && k < |actions|
    requires states[k].cell.activeRun == Some(r)
    ensures states[k + 1].cell.activeRun == Some(r) <==> !Frees(actions[k], r)
  {
    hide LockInv, HolderInv;
    ExecutionKeeps(states, actions, k);
    FreesExactly(states[k], actions[k], r);
  }

  lemma {:induction false} FreesExactly(s: State, a: Action, r: RunId)
    requires LockInv(s) && HolderInv(s) && Enabled(s, a) && s.cell.activeRun == Some(r)
    ensures Next(s, a).cell.activeRun == Some(r) <==> !Frees(a, r)
  {
    hide LockInv, HolderInv;
    match a
    case OfSession(_) =>
    case OfUpdate(_, _) =>
    case OfStart(i, x) =>
      hide StartNext;
      StartFrees(s, i, x);
    case OfTask(q, x) =>
      hide TaskNext, TaskEnabled;
      TaskFrame(s, q, x);
    case OfForwarder(q, x) =>
      hide ForwardNext;
      ForwardFrame(s, q, x);
    case OfWatchdog(q, x) =>
      hide WatchNext;
      WatchFrame(s, q, x);
  }

  /** A start finds the slot empty when it installs. */
  lemma {:induction false} StartFrees(s: State, i: TaskId, a: StartAction)
    requires LockInv(s) && HolderInv(s) && i < |s.starters| && StartEnabled(s, i, a) && s.cell.activeRun.Some?
    ensures StartNext(s, i, a).cell.activeRun == s.cell.activeRun <==> !a.StartCancel?
  {
    hide StartNext, HolderPc, LockInv;
    StartHolder(s, i, a);
    StartRuns(s, i, a);
  }

  /** No run escapes Stop: afterwards every live run task holds a token that has fired. */
  lemma {:induction false} StopReachesEveryRun(states: seq<State>, actions: seq<Action>, k: nat, r: RunId)
    requires Execution(states, actions) && k < |actions| && actions[k] == OfSession(Stop)
    requires Live(states[k], r)
    ensures CancelOf(r) in states[k + 1].cell.fired
  {
    ExecutionKeeps(states, actions, k);
    if CancelOf(r) !in states[k].cell.fired {
      assert Owning(states[k], r);
    }
  }

  // ---- the stale tail -----------------------------------------------------------

  function CountOf(events: seq<Event>, r: RunId): nat {
    if events == [] then 0
    else CountOf(events[..|events| - 1], r) + (if Carries(events[|events| - 1], r) then 1 else 0)
  }

  lemma {:induction false} CountAppend(events: seq<Event>, e: Event, r: RunId)
    ensures CountOf(events + [e], r) == CountOf(events, r) + (if Carries(e, r) then 1 else 0)
  {
    assert (events + [e])[..|events|] == events;
  }

  /** What a run's own tasks have past their last check and still send. */
  function RunInFlight(run: Run): nat {
    (match run.task
     case CheckDocument(outcome) => if outcome then 2 else 0
     case SendState => 2
     case SendResult => 1
     case _ => 0)
    + (if run.forward.CheckingDocument? || run.forward.Sending? then 1 else 0)
    + (if run.watch.ToSendIdle? then 1 else 0)
  }

  /** Events with r's id that are past their last check and on their way to the outbox. */
  function InFlight(s: State, r: RunId): nat
    requires r < |s.runs|
  {
    (if HolderPc(s) == ToAnnounce(r) then 1 else 0) + RunInFlight(s.runs[r])
  }

  /** Sent or about to be sent. */
  function Tail(s: State, r: RunId): nat
    requires r < |s.runs|
  {
    CountOf(s.outbox, r) + InFlight(s, r)
  }

  /** r's token has fired: `cancel_internal` took r out of the slot. */
  predicate Superseded(s: State, r: RunId) {
    r < |s.runs| && CancelOf(r) in s.cell.fired
  }

  lemma {:induction false} AtMostTwoInFlight(s: State, r: RunId)
    requires Inv(s) && Superseded(s, r)
    ensures InFlight(s, r) <= 2
  {}

  lemma {:induction false} SessionNeverAdds(s: State, a: SessionAction, r: RunId)
    requires Inv(s) && Superseded(s, r) && SessionEnabled(s, a)
    ensures Superseded(SessionNext(s, a), r) && Tail(SessionNext(s, a), r) <= Tail(s, r)
  {}

  lemma {:induction false} UpdateNeverAdds(s: State, u: nat, a: UpdateAction, r: RunId)
    requires Inv(s) && Superseded(s, r) && u < |s.updates| && UpdateEnabled(s.updates[u], a)
    ensures Superseded(UpdateNext(s, u, a), r) && Tail(UpdateNext(s, u, a), r) <= Tail(s, r)
  {
    CountAppend(s.outbox, Notice, r);
  }

  /** What a start step sends. */
  function StartSends(s: State, i: TaskId, a: StartAction): seq<Event>
    requires i < |s.starters| && StartEnabled(s, i, a)
  {
    if a.Announce? then [StdinOpen(s.starters[i].pc.run)]
    else if a.FirstCheck? && s.version == s.starters[i].version && !a.present then [Notice]
    else []
  }

  lemma {:induction false} StartSendsOnly(s: State, i: TaskId, a: StartAction)
    requires i < |s.starters| && StartEnabled(s, i, a)
    ensures StartNext(s, i, a).outbox == s.outbox + StartSends(s, i, a)
  {}

  /** The opening announced was in flight; one about to be announced is a fresh run's. */
  lemma {:induction false} StartLands(s: State, i: TaskId, a: StartAction, r: RunId)
    requires LockInv(s) && AbortInv(s) && HolderInv(s) && Superseded(s, r) && i < |s.starters| && StartEnabled(s, i, a)
    ensures var t, sent := StartNext(s, i, a), StartSends(s, i, a);
            (if HolderPc(t) == ToAnnounce(r) then 1 else 0) + (if sent != [] && Carries(sent[0], r) then 1 else 0)
            <= if HolderPc(s) == ToAnnounce(r) then 1 else 0
  {
    hide StartNext, HolderPc, LockInv, AbortInv;
    StartHolder(s, i, a);
    StartRuns(s, i, a);
    StartAnnounces(s, i, a);
  }

  /** Only an install comes before an announcement. */
  lemma {:induction false} StartAnnounces(s: State, i: TaskId, a: StartAction)
    requires i < |s.starters| && StartEnabled(s, i, a)
    ensures var t := StartNext(s, i, a);
            i < |t.starters| && (t.starters[i].pc.ToAnnounce? ==> a.Install? && t.starters[i].pc.run == s.starters[i].pc.run)
  {}

  lemma {:induction false} StartNeverAdds(s: State, i: TaskId, a: StartAction, r: RunId)
    requires LockInv(s) && AbortInv(s) && HolderInv(s) && Superseded(s, r) && i < |s.starters| && StartEnabled(s, i, a)
    ensures Superseded(StartNext(s, i, a), r) && Tail(StartNext(s, i, a), r) <= Tail(s, r)
  {
    hide StartNext, HolderPc, LockInv, AbortInv, HolderInv, CountOf;
    StartRuns(s, i, a);
    StartSendsOnly(s, i, a);
    StartLands(s, i, a, r);
    var sent := StartSends(s, i, a);
    if sent == [] {
      assert s.outbox + sent == s.outbox;
    } else {
      CountAppend(s.outbox, sent[0], r);
    }
  }

  lemma {:induction false} TaskLeavesSuperseded(s: State, q: RunId, a: TaskAction, r: RunId)
    requires Superseded(s, r) && q < |s.runs| && TaskEnabled(s, q, a)
    ensures Superseded(TaskNext(s, q, a), r) && HolderPc(TaskNext(s, q, a)) == HolderPc(s)
  {}

  /** What a task step sends: at most one event, with the run's own id. */
  function TaskSends(s: State, q: RunId, a: TaskAction): seq<Event>
    requires q < |s.runs| && TaskEnabled(s, q, a)
  {
    if a.SendTerminal? then [TerminalState(q)]
    else if a.SendFinished? then [RunFinished(q)]
    else if a.CheckDocumentNow? && s.version == s.runs[q].version && !s.runs[q].task.outcome then [Notice]
    else []
  }

  lemma {:induction false} TaskSendsOnly(s: State, q: RunId, a: TaskAction)
    requires q < |s.runs| && TaskEnabled(s, q, a)
    ensures var t := TaskNext(s, q, a);
            && t.outbox == s.outbox + TaskSends(s, q, a)
            && |t.runs| == |s.runs| && (forall r :: 0 <= r < |s.runs| && r != q ==> t.runs[r] == s.runs[r])
  {}

  /** Of a superseded run, it was counted as in flight before. */
  lemma {:induction false} TaskLands(s: State, q: RunId, a: TaskAction)
    requires Superseded(s, q) && TaskEnabled(s, q, a)
    ensures var t := TaskNext(s, q, a);
            && |t.runs| == |s.runs|
            && RunInFlight(t.runs[q]) + (if TaskSends(s, q, a) != [] && Carries(TaskSends(s, q, a)[0], q) then 1 else 0) <= RunInFlight(s.runs[q])
  {}

  lemma {:induction false} TaskInFlight(s: State, q: RunId, a: TaskAction, r: RunId)
    requires Superseded(s, r) && q < |s.runs| && TaskEnabled(s, q, a)
    ensures var t := TaskNext(s, q, a);
            && |t.runs| == |s.runs|
            && RunInFlight(t.runs[r]) + CountOf(t.outbox, r) <= RunInFlight(s.runs[r]) + CountOf(s.outbox, r)
  {
    hide TaskNext, RunInFlight, CountOf;
    TaskSendsOnly(s, q, a);
    if q == r {
      TaskLands(s, q, a);
    }
    var sent := TaskSends(s, q, a);
    if sent == [] {
      assert s.outbox + sent == s.outbox;
    } else {
      CountAppend(s.outbox, sent[0], r);
    }
  }

  lemma {:induction false} TaskNeverAdds(s: State, q: RunId, a: TaskAction, r: RunId)
    requires Superseded(s, r) && q < |s.runs| && TaskEnabled(s, q, a)
    ensures Superseded(TaskNext(s, q, a), r) && Tail(TaskNext(s, q, a), r) <= Tail(s, r)
  {
    hide TaskNext, RunInFlight, CountOf;
    TaskLeavesSuperseded(s, q, a, r);
    TaskInFlight(s, q, a, r);
  }

  lemma {:induction false} ForwardNeverAdds(s: State, q: RunId, a: ForwardAction, r: RunId)
    requires Superseded(s, r) && q < |s.runs| && ForwardEnabled(s.runs[q], a)
    ensures Superseded(ForwardNext(s, q, a), r) && Tail(ForwardNext(s, q, a), r) <= Tail(s, r)
  {
    hide CountOf;
    if a.Forward? {
      CountAppend(s.outbox, Forwarded(q), r);
    }
  }

  lemma {:induction false} WatchNeverAdds(s: State, q: RunId, a: WatchAction, r: RunId)
    requires SlotInv(s) && Superseded(s, r) && q < |s.runs| && WatchEnabled(s.runs[q], a)
    ensures Superseded(WatchNext(s, q, a), r) && Tail(WatchNext(s, q, a), r) <= Tail(s, r)
  {
    hide CountOf;
    if a.SendReset? {
      CountAppend(s.outbox, ResetIdle(q), r);
    } else if a.SendCrash? {
      CountAppend(s.outbox, Notice, r);
    }
  }

  /** No step lets a superseded run send more than what was already in flight. */
  lemma {:induction false} NothingJoinsTheTail(s: State, a: Action, r: RunId)
    requires Inv(s) && Enabled(s, a) && Superseded(s, r)
    ensures Superseded(Next(s, a), r) && Tail(Next(s, a), r) <= Tail(s, r)
  {
    match a
    case OfSession(x) => SessionNeverAdds(s, x, r);
    case OfUpdate(u, x) => UpdateNeverAdds(s, u, x, r);
    case OfStart(i, x) => StartNeverAdds(s, i, x, r);
    case OfTask(q, x) => TaskNeverAdds(s, q, x, r);
    case OfForwarder(q, x) => ForwardNeverAdds(s, q, x, r);
    case OfWatchdog(q, x) => WatchNeverAdds(s, q, x, r);
  }

  lemma {:induction false} TailShrinks(states: seq<State>, actions: seq<Action>, j: nat, k: nat, r: RunId)
    requires Execution(states, actions) && j <= k < |states| && Superseded(states[j], r)
    ensures Superseded(states[k], r)
    ensures Tail(states[k], r) <= Tail(states[j], r)
    decreases k
  {
    hide Inv, Init, Enabled, Next, Tail;
    if j < k {
      TailShrinks(states, actions, j, k - 1, r);
      ExecutionKeeps(states, actions, k - 1);
      NothingJoinsTheTail(states[k - 1], actions[k - 1], r);
    }
  }

  /** Once a cancel has removed run r, at most two more events with its id reach the outbox. */
  lemma {:induction false} StaleTailIsBounded(states: seq<State>, actions: seq<Action>, j: nat, k: nat, r: RunId)
    requires Execution(states, actions) && j <= k < |states| && Superseded(states[j], r)
    ensures CountOf(states[k].outbox, r) <= CountOf(states[j].outbox, r) + 2
  {
    TailShrinks(states, actions, j, k, r);
    ExecutionKeeps(states, actions, j);
    AtMostTwoInFlight(states[j], r);
  }

  // ---- typed input --------------------------------------------------------------

  /** While no grace has expired, a receiver is only taken by the interactive run it was made for. */
  lemma {:induction false} InputReachesOnlyItsRun(states: seq<State>, actions: seq<Action>, k: nat, n: nat)
    requires Execution(states, actions) && k < |states|
    requires states[k].expired == {} && n < |states[k].taken|
    ensures states[k].taken[n].receiver == states[k].taken[n].taker
    ensures states[k].taken[n].taker < |states[k].runs| && states[k].runs[states[k].taken[n].taker].interactive
  {
    ExecutionKeeps(states, actions, k);
  }

  /** What `write_stdin` writes to belongs to the active run, or to one that panicked. */
  lemma {:induction false} SenderFollowsTheSlot(states: seq<State>, actions: seq<Action>, k: nat)
    requires Execution(states, actions) && k < |states| && states[k].cell.liveInput.Some?
    ensures var r := states[k].cell.liveInput.value;
            && r < |states[k].runs| && states[k].runs[r].interactive
            && (states[k].cell.activeRun == Some(r) || states[k].runs[r].task.Panicked?)
  {
    ExecutionKeeps(states, actions, k);
  }

  // ---- debounce -----------------------------------------------------------------

  /**
   * An auto run exists only for a debounce task that left the pending slot
   * with nothing — no cancel, no later edit — between being put there and leaving.
   */
  lemma {:induction false} AutoRunWasStillPending(states: seq<State>, actions: seq<Action>, k: nat, r: RunId)
    requires Execution(states, actions) && k < |states|
    requires r < |states[k].runs| && states[k].runs[r].origin.Auto?
    ensures exists n :: 0 < n < |states[k].slotLog|
              && states[k].slotLog[n] == Left(states[k].runs[r].origin.tag)
              && states[k].slotLog[n - 1] == Put(states[k].runs[r].origin.tag)
  {
    ExecutionKeeps(states, actions, k);
    var s := states[k];
    var n :| 0 <= n < |s.slotLog| && s.slotLog[n] == Left(s.runs[r].origin.tag);
    assert 0 < n && s.slotLog[n - 1] == Put(s.runs[r].origin.tag);
  }

  /** Between two auto runs leaving the slot there was an edit that put the second one there. */
  lemma {:induction false} OneAutoRunPerBurst(states: seq<State>, actions: seq<Action>, k: nat, m: nat, n: nat)
    requires Execution(states, actions) && k < |states|
    requires m < n < |states[k].slotLog| && states[k].slotLog[m].Left? && states[k].slotLog[n].Left?
    ensures m < n - 1 && states[k].slotLog[n - 1] == Put(states[k].slotLog[n].tag)
  {
    ExecutionKeeps(states, actions, k);
  }

  /** No debounce task starts two runs. */
  lemma {:induction false} AutoRunsAreDistinct(states: seq<State>, actions: seq<Action>, k: nat, q: RunId, r: RunId)
    requires Execution(states, actions) && k < |states|
    requires q < r < |states[k].runs| && states[k].runs[q].origin.Auto?
    ensures states[k].runs[q].origin != states[k].runs[r].origin
  {
    ExecutionKeeps(states, actions, k);
  }

  /** A task that left the slot is never aborted, so not by the cancel of the start it performs. */
  lemma {:induction false} StartingTaskIsNeverAborted(states: seq<State>, actions: seq<Action>, k: nat, i: TaskId)
    requires Execution(states, actions) && k < |states|
    requires i < |states[k].starters| && PastSlot(states[k].starters[i].pc)
    ensures i !in states[k].cell.aborted
  {
    ExecutionKeeps(states, actions, k);
  }
}
