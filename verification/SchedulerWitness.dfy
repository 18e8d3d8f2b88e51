/** Executions that show where the scheduler's promises stop. */
module SchedulerWitness {
  import opened Common
  import opened Scheduler

  /** `t` can be reached from an idle scheduler. */
  ghost predicate Reachable(t: State) {
    exists states: seq<State>, actions: seq<Action> :: Execution(states, actions) && states[|actions|] == t
  }

  lemma {:induction false} Step(s: State, a: Action) returns (t: State)
    requires Reachable(s) && Enabled(s, a)
    ensures t == Next(s, a) && Reachable(t)
  {
    hide Next, Enabled, Init;
    var states: seq<State>, actions: seq<Action> :| Execution(states, actions) && states[|actions|] == s;
    t := Next(s, a);
    assert Execution(states + [t], actions + [a]) && (states + [t])[|actions + [a]|] == t;
  }

  lemma {:induction false} Idle() returns (s: State)
    ensures Reachable(s) && Init(s) && s.version == 0
  {
    s := State(Cell(None, 0, None, None, None, None, {}, {}), 0, None, [], [], [], None, [], {}, [], []);
    var none: seq<Action> := [];
    assert Execution([s], none) && [s][|none|] == s;
  }

  /** A step of a start, and nothing of what other steps are. */
  lemma {:induction false} StartStep(s: State, i: TaskId, a: StartAction) returns (t: State)
    requires Reachable(s) && i < |s.starters| && StartEnabled(s, i, a)
    ensures t == StartNext(s, i, a) && Reachable(t)
  {
    hide Reachable, StartNext, StartEnabled;
    t := Step(s, OfStart(i, a));
  }

  lemma {:induction false} TaskStep(s: State, r: RunId, a: TaskAction) returns (t: State)
    requires Reachable(s) && r < |s.runs| && TaskEnabled(s, r, a)
    ensures t == TaskNext(s, r, a) && Reachable(t)
  {
    hide Reachable, TaskNext, TaskEnabled;
    t := Step(s, OfTask(r, a));
  }

  lemma {:induction false} SessionStep(s: State, a: SessionAction) returns (t: State)
    requires Reachable(s) && SessionEnabled(s, a)
    ensures t == SessionNext(s, a) && Reachable(t)
  {
    hide Reachable, SessionNext, SessionEnabled;
    t := Step(s, OfSession(a));
  }

  lemma {:induction false} UpdateStep(s: State, u: nat, a: UpdateAction) returns (t: State)
    requires Reachable(s) && u < |s.updates| && UpdateEnabled(s.updates[u], a)
    ensures t == UpdateNext(s, u, a) && Reachable(t)
  {
    hide Reachable, UpdateNext, UpdateEnabled;
    t := Step(s, OfUpdate(u, a));
  }

  // ---- the first run ----------------------------------------------------------------

  /** From a waiting start to the moment it looks for a run to wait for. */
  lemma {:induction false} Acquires(s: State, i: TaskId) returns (t: State)
    requires Reachable(s) && s.startLock == None && s.cell.debounce == None
    requires i < |s.starters| && s.starters[i].pc == AwaitLock && s.starters[i].version == s.version
    ensures Reachable(t)
    ensures t == s.(starters := s.starters[i := s.starters[i].(pc := ToTakeFinished)],
                    startLock := Some(i),
                    cell := Cancelled(s.cell),
                    slotLog := s.slotLog + [Cleared])
  {
    hide Reachable, Cancelled;
    t := StartStep(s, i, Acquire);
    t := StartStep(t, i, FirstCheck(true));
    t := StartStep(t, i, StartCancel);
  }

  lemma {:induction false} Request(s: State, live: bool) returns (t: State)
    requires Reachable(s) && s.startLock == None && s.cell.debounce == None
    ensures Reachable(t)
    ensures t == s.(starters := s.starters + [Starter(Manual, s.version, live, ToTakeFinished)],
                    startLock := Some(|s.starters|),
                    cell := Cancelled(s.cell),
                    slotLog := s.slotLog + [Cleared])
  {
    hide Reachable, Cancelled;
    t := SessionStep(s, RequestRun(s.version, live));
    t := Acquires(t, |s.starters|);
    assert t.starters == s.starters + [Starter(Manual, s.version, live, ToTakeFinished)];
  }

  /** With no run to wait for, a plain start makes its run. */
  lemma {:induction false} Makes(s: State, i: TaskId) returns (t: State)
    requires Reachable(s) && s.cell.finished == None
    requires i < |s.starters| && s.starters[i].pc == ToTakeFinished && !s.starters[i].interactive
    ensures Reachable(t)
    ensures var me := s.starters[i];
            t == s.(starters := s.starters[i := me.(pc := ToInstall(|s.runs|))],
                    runs := s.runs + [Run(me.origin, me.version, false, Unspawned, 0, ForwardPc.Idle, Watching)],
                    liveStdin := None)
  {
    hide Reachable;
    t := StartStep(s, i, TakeFinished);
    t := StartStep(t, i, OpenInput);
  }

  /** The run is installed, spawned and begins to run. */
  lemma {:induction false} Launches(s: State, i: TaskId, r: RunId) returns (t: State)
    requires Reachable(s) && s.startLock == Some(i) && |s.runs| == r + 1 && s.runs[r].task.Unspawned?
    requires i < |s.starters| && s.starters[i].pc == ToInstall(r) && !s.starters[i].interactive
    ensures Reachable(t)
    ensures t == s.(starters := s.starters[i := s.starters[i].(pc := Returned)],
                    startLock := None,
                    runs := s.runs[r := s.runs[r].(task := Running)],
                    cell := Installed(s.cell, r, false))
  {
    hide Reachable, Installed;
    t := StartStep(s, i, Install);
    t := StartStep(t, i, Spawn);
    t := TaskStep(t, r, LeaveQueue);
  }

  /** The first plain run, up to its runner. */
  lemma {:induction false} PlainRun() returns (t: State)
    ensures Reachable(t) && t.version == 0 && t.startLock == None && |t.starters| == 1 && t.starters[0].pc == Returned
    ensures t.runs == [Run(Manual, 0, false, Running, 0, ForwardPc.Idle, Watching)] && t.updates == []
    ensures t.cell == Installed(Cell(None, 0, None, None, None, None, {}, {}), 0, false)
    ensures t.expired == {} && t.taken == [] && t.outbox == [] && t.liveStdin == None
  {
    hide Reachable;
    var s := Idle();
    s := Request(s, false);
    s := Makes(s, 0);
    t := Launches(s, 0, 0);
  }

  // ---- a start that waits for it ----------------------------------------------------------

  /** It finds the first run and waits. */
  lemma {:induction false} Waits(s: State, i: TaskId) returns (t: State)
    requires Reachable(s) && s.cell.finished.Some? && i < |s.starters| && s.starters[i].pc == ToTakeFinished
    ensures Reachable(t)
    ensures t == s.(starters := s.starters[i := s.starters[i].(pc := AwaitPrevious(s.cell.finished.value))],
                    cell := s.cell.(finished := None))
  {
    hide Reachable;
    t := StartStep(s, i, TakeFinished);
  }

  /** It stops waiting and makes the second run. */
  lemma {:induction false} WaitExpires(s: State, i: TaskId) returns (t: State)
    requires Reachable(s) && i < |s.starters| && s.starters[i].version == s.version
    requires s.starters[i].pc == AwaitPrevious(FinishedOf(0)) && FinishedOf(0) !in s.cell.fired
    ensures Reachable(t)
    ensures var me := s.starters[i];
            t == s.(starters := s.starters[i := me.(pc := ToInstall(|s.runs|))],
                    runs := s.runs + [Run(me.origin, me.version, me.interactive, Unspawned, 0, ForwardPc.Idle, Watching)],
                    liveStdin := if me.interactive then Some(|s.runs|) else None,
                    expired := s.expired + {0})
  {
    hide Reachable;
    t := StartStep(s, i, GraceExpires);
    t := StartStep(t, i, SecondCheck);
    t := StartStep(t, i, OpenInput);
  }

  /** After one expired grace a plain run can take an interactive run's input. */
  lemma {:induction false} ExpiredGraceCrossesInput() returns (t: State)
    ensures Reachable(t) && |t.expired| == 1
    ensures t.taken == [Taken(1, 0)] && |t.runs| == 2 && !t.runs[0].interactive && t.runs[1].interactive
  {
    hide Reachable;
    var s := PlainRun();
    s := Request(s, true);
    s := Waits(s, 1);
    s := WaitExpires(s, 1);
    t := TaskStep(s, 0, TakeInput);
    assert t.expired == {0};
  }

  /** An edit of the document: its cancel, and the debounce task it stores. */
  lemma {:induction false} Edits(s: State) returns (t: State)
    requires Reachable(s) && s.updates == [] && s.cell.debounce == None
    ensures Reachable(t)
    ensures var tag, v := s.cell.debounceSeq + 1, s.version + 1;
            t == s.(version := v,
                    starters := s.starters + [Starter(Auto(tag), v, false, Sleeping)],
                    updates := [UpdateDone],
                    cell := Stored(Cancelled(s.cell), |s.starters|),
                    outbox := s.outbox + [Notice],
                    slotLog := s.slotLog + [Cleared] + [Put(tag)])
  {
    hide Reachable;
    t := SessionStep(s, Edit(s.version + 1));
    t := SessionStep(t, RequestUpdate);
    t := UpdateStep(t, 0, UpdateCancel);
    t := UpdateStep(t, 0, UpdateRead(true));
    t := UpdateStep(t, 0, UpdateStore);
  }

  /** The debounce task leaves the slot to start its run. */
  lemma {:induction false} Wakes(s: State, i: TaskId) returns (t: State)
    requires Reachable(s) && i < |s.starters| && s.starters[i].pc == Sleeping && s.starters[i].origin.Auto?
    requires Pending(s.cell, s.starters[i].origin.tag)
    ensures Reachable(t)
    ensures t == s.(starters := s.starters[i := s.starters[i].(pc := AwaitLock)],
                    cell := s.cell.(debounce := None),
                    slotLog := s.slotLog + [Left(s.starters[i].origin.tag)])
  {
    hide Reachable;
    t := StartStep(s, i, Wake);
  }

  /** The auto run of an edit, waiting for the run that the edit cancelled. */
  lemma {:induction false} WaitingAutoStart() returns (t: State)
    ensures Reachable(t) && |t.starters| == 2 && |t.runs| == 1 && t.version == 1
    ensures t.starters[1] == Starter(Auto(1), 1, false, AwaitPrevious(FinishedOf(0)))
    ensures t.cell.fired == {CancelOf(0)} && t.cell.cancel == None && t.cell.activeRun == None && t.cell.debounce == None
  {
    hide Reachable;
    var s := PlainRun();
    s := Edits(s);
    s := Wakes(s, 1);
    s := Acquires(s, 1);
    t := Waits(s, 1);
  }

  /**
   * One connection's execution: a run, an edit whose auto run waits for it,
   * then Stop, which finds no token. The auto run goes on and becomes active.
   */
  lemma {:induction false} StopMissesAWaitingStart() returns (s: State, t: State)
    ensures Reachable(s) && Reachable(Next(s, OfSession(Stop))) && Reachable(t)
    ensures |s.starters| == 2 && s.starters[1] == Starter(Auto(1), s.version, false, AwaitPrevious(FinishedOf(0)))
    ensures s.slotLog + [Cleared] == t.slotLog && |s.starters| == |t.starters|
    ensures t.cell.activeRun == Some(1) && CancelOf(1) !in t.cell.fired
  {
    hide Reachable;
    s := WaitingAutoStart();
    t := SessionStep(s, Stop);
    t := WaitExpires(t, 1);
    t := StartStep(t, 1, Install);
  }

  // ---- the stale tail ---------------------------------------------------------------------

  /** The same run past its last check. */
  lemma {:induction false} PassedChecks() returns (t: State)
    ensures Reachable(t) && t.version == 0 && t.outbox == [] && |t.runs| == 1
    ensures t.runs[0] == Run(Manual, 0, false, CheckDocument(true), 0, Closed, Watching)
    ensures t.cell.cancel == Some(CancelOf(0))
  {
    hide Reachable;
    var s := PlainRun();
    s := TaskStep(s, 0, RunnerEnds(true));
    s := Closes(s);
    s := TaskStep(s, 0, Drained);
    t := TaskStep(s, 0, CheckSlotNow);
  }

  lemma {:induction false} Closes(s: State) returns (t: State)
    requires Reachable(s) && |s.runs| == 1 && s.runs[0].task.Draining? && s.runs[0].forward.Idle? && s.runs[0].queue == 0
    ensures Reachable(t) && t == s.(runs := [s.runs[0].(forward := Closed)])
  {
    hide Reachable;
    t := Step(s, OfForwarder(0, CloseForwarder));
    assert s.runs[0 := s.runs[0].(forward := Closed)] == [s.runs[0].(forward := Closed)];
  }

  /** The bound on the stale tail is exact: both terminal events can follow the cancel. */
  lemma {:induction false} TailOfTwo() returns (s: State, t: State)
    ensures Reachable(s) && Reachable(t)
    ensures CancelOf(0) in s.cell.fired && s.outbox == []
    ensures t.outbox == [TerminalState(0), RunFinished(0)]
  {
    hide Reachable;
    s := PassedChecks();
    s := SessionStep(s, Stop);
    t := TaskStep(s, 0, CheckDocumentNow);
    t := TaskStep(t, 0, SendTerminal);
    t := TaskStep(t, 0, SendFinished);
  }
}
