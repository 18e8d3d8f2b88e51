/** What a run is made from: the request or the edit behind it, the checks before it, and the announcement of its input. */
module SchedulerRequests {
  import opened Common
  import opened Scheduler
  import opened SchedulerInvariant
  import opened SchedulerEvents

  predicate ByStart(a: Action, i: TaskId) {
    a.OfStart? && a.starter == i
  }

  predicate NoStart(actions: seq<Action>, i: TaskId, a: nat, b: nat) {
    forall n :: a < n < b && n < |actions| ==> !ByStart(actions[n], i)
  }

  // ---- one step --------------------------------------------------------------------------------

  /** Starters are only added; each moves by its own steps, and never changes what it was asked for. */
  ghost predicate StarterFrames(s: State, a: Action, t: State, i: TaskId) {
    && i < |s.starters| <= |t.starters|
    && t.starters[i] == s.starters[i].(pc := t.starters[i].pc)
    && (!ByStart(a, i) ==> t.starters[i].pc == s.starters[i].pc)
  }

  lemma {:induction false} SessionStarter(s: State, x: SessionAction, i: TaskId)
    requires SessionEnabled(s, x) && i < |s.starters|
    ensures StarterFrames(s, OfSession(x), SessionNext(s, x), i)
  {}

  lemma {:induction false} UpdateStarter(s: State, u: nat, x: UpdateAction, i: TaskId)
    requires u < |s.updates| && UpdateEnabled(s.updates[u], x) && i < |s.starters|
    ensures StarterFrames(s, OfUpdate(u, x), UpdateNext(s, u, x), i)
  {}

  lemma {:induction false} StartStarter(s: State, j: TaskId, x: StartAction, i: TaskId)
    requires j < |s.starters| && StartEnabled(s, j, x) && i < |s.starters|
    ensures StarterFrames(s, OfStart(j, x), StartNext(s, j, x), i)
  {}

  lemma {:induction false} StepStarter(s: State, a: Action, i: TaskId)
    requires Enabled(s, a) && i < |s.starters|
    ensures StarterFrames(s, a, Next(s, a), i)
  {
    hide SessionNext, UpdateNext, StartNext, TaskNext, ForwardNext, WatchNext, StarterFrames;
    hide SessionEnabled, UpdateEnabled, StartEnabled, TaskEnabled;
    match a
    case OfSession(x) => SessionStarter(s, x, i);
    case OfUpdate(u, x) => UpdateStarter(s, u, x, i);
    case OfStart(j, x) => StartStarter(s, j, x, i);
    case OfTask(q, x) =>
      TaskFrame(s, q, x);
      SameStarters(s, a, i);
    case OfForwarder(q, x) =>
      ForwardFrame(s, q, x);
      SameStarters(s, a, i);
    case OfWatchdog(q, x) =>
      WatchFrame(s, q, x);
      SameStarters(s, a, i);
  }

  lemma {:induction false} SameStarters(s: State, a: Action, i: TaskId)
    requires Enabled(s, a) && i < |s.starters| && Next(s, a).starters == s.starters
    ensures !a.OfStart? ==> StarterFrames(s, a, Next(s, a), i)
  {
    hide Next, Enabled;
  }

  /** The steps that add a starter. */
  ghost predicate Adds(s: State, a: Action, starter: Starter) {
    || (exists v, live :: a == OfSession(RequestRun(v, live)) && starter == Starter(Manual, v, live, AwaitLock))
    || (exists u: nat, v :: u < |s.updates| && a == OfUpdate(u, UpdateStore) && s.updates[u] == UpdateStoring(v)
                            && starter == Starter(Auto(s.cell.debounceSeq + 1), v, false, Sleeping))
  }

  lemma {:induction false} NewStarter(s: State, a: Action, i: TaskId)
    requires Enabled(s, a) && |s.starters| <= i < |Next(s, a).starters|
    ensures i == |s.starters| && Adds(s, a, Next(s, a).starters[i])
  {
    match a
    case OfSession(_) =>
    case OfUpdate(u, x) =>
      assert s.updates[u] == UpdateStoring(s.updates[u].version);
    case OfStart(_, _) =>
    case OfTask(q, x) =>
      hide TaskNext, TaskEnabled;
      TaskFrame(s, q, x);
    case OfForwarder(q, x) =>
      hide ForwardNext;
      ForwardFrame(s, q, x);
    case OfWatchdog(q, x) =>
      hide WatchNext;
      WatchFrame(s, q, x);
  }

  /** What the steps of a start are, in words of its own counter. */
  lemma {:induction false} StartStep(s: State, i: TaskId, x: StartAction)
    requires i < |s.starters| && StartEnabled(s, i, x)
    ensures var t, me := StartNext(s, i, x), s.starters[i];
            var pc := if i < |t.starters| then t.starters[i].pc else Returned;
            && (x.FirstCheck? ==> (pc.ToCancel? <==> x.present && s.version == me.version) && (pc.ToCancel? || pc.Returned?))
            && (x.StartCancel? ==> me.pc.ToCancel? && pc.ToTakeFinished?)
            && (x.TakeFinished? ==> me.pc.ToTakeFinished? && (pc.ToOpenInput? <==> s.cell.finished == None) && (pc.ToOpenInput? || pc.AwaitPrevious?))
            && (x.PreviousEnded? || x.GraceExpires? ==> me.pc.AwaitPrevious? && pc.Recheck?)
            && (x.SecondCheck? ==> me.pc.Recheck? && (pc.ToOpenInput? <==> s.version == me.version) && (pc.ToOpenInput? || pc.Returned?))
            && (x.OpenInput? ==> me.pc.ToOpenInput? && pc == ToInstall(|s.runs|))
            && (x.Install? ==> me.pc.ToInstall? && pc == if me.interactive then ToAnnounce(me.pc.run) else ToSpawn(me.pc.run))
            && (x.Announce? ==> me.pc.ToAnnounce? && pc == ToSpawn(me.pc.run) && t.outbox == s.outbox + [StdinOpen(me.pc.run)])
            && (x.Wake? || x.Die? || x.Acquire? || x.Spawn? ==> pc.AwaitLock? || pc.CheckVersion? || pc.Returned?)
  {}

  lemma {:induction false} StartAt(states: seq<State>, actions: seq<Action>, k: nat, i: TaskId)
    requires Execution(states, actions) && k < |actions| && ByStart(actions[k], i)
    ensures i < |states[k].starters| && StartEnabled(states[k], i, actions[k].start)
    ensures states[k + 1] == StartNext(states[k], i, actions[k].start)
  {
    hide StartNext, StartEnabled;
    At(states, actions, k);
  }

  // ---- what a run was asked for --------------------------------------------------------------------

  /** Every starter comes from a request, or from the storing step of an update. */
  lemma {:induction false} StarterComesFrom(states: seq<State>, actions: seq<Action>, k: nat, i: TaskId) returns (n: nat, first: Starter)
    requires Execution(states, actions) && k < |states| && i < |states[k].starters|
    ensures n < k && Adds(states[n], actions[n], first) && states[k].starters[i] == first.(pc := states[k].starters[i].pc)
    decreases k
  {
    hide Enabled, Next, Adds;
    At(states, actions, k - 1);
    var s, a := states[k - 1], actions[k - 1];
    if i < |s.starters| {
      StepStarter(s, a, i);
      n, first := StarterComesFrom(states, actions, k - 1, i);
    } else {
      NewStarter(s, a, i);
      n, first := k - 1, states[k].starters[i];
    }
  }

  lemma {:induction false} UpdateMoves(s: State, a: Action, u: nat)
    requires Enabled(s, a) && u < |Next(s, a).updates|
    ensures var now := Next(s, a).updates[u];
            if u < |s.updates| && !(a.OfUpdate? && a.update == u) then now == s.updates[u]
            else now.UpdateStoring? ==> a == OfUpdate(u, UpdateRead(true)) && now.version == s.version
  {
    match a
    case OfSession(_) =>
    case OfUpdate(_, _) =>
    case OfStart(i, x) => StartUpdates(s, i, x);
    case OfTask(_, _) =>
    case OfForwarder(_, _) =>
    case OfWatchdog(_, _) =>
  }

  lemma {:induction false} StartUpdates(s: State, i: TaskId, a: StartAction)
    requires i < |s.starters| && StartEnabled(s, i, a)
    ensures StartNext(s, i, a).updates == s.updates
  {}

  /** An update that is about to store its task has read the document's version, asked to run on edits. */
  lemma {:induction false} UpdateHasRead(states: seq<State>, actions: seq<Action>, k: nat, u: nat) returns (q: nat)
    requires Execution(states, actions) && k < |states| && u < |states[k].updates| && states[k].updates[u].UpdateStoring?
    ensures q < k && actions[q] == OfUpdate(u, UpdateRead(true)) && states[q].version == states[k].updates[u].version
    decreases k
  {
    hide Enabled, Next;
    At(states, actions, k - 1);
    UpdateMoves(states[k - 1], actions[k - 1], u);
    if actions[k - 1] == OfUpdate(u, UpdateRead(true)) {
      q := k - 1;
    } else {
      q := UpdateHasRead(states, actions, k - 1, u);
    }
  }

  lemma {:induction false} RunMade(s: State, a: Action, r: RunId)
    requires Enabled(s, a) && |s.runs| <= r < |Next(s, a).runs|
    ensures a.OfStart? && a.start.OpenInput? && a.starter < |s.starters| && r == |s.runs|
    ensures var me, run := s.starters[a.starter], Next(s, a).runs[r];
            run.origin == me.origin && run.version == me.version && run.interactive == me.interactive
  {
    match a
    case OfSession(x) => SessionRuns(s, x);
    case OfUpdate(u, x) => UpdateRuns(s, u, x);
    case OfStart(i, x) =>
      hide StartNext;
      StartRuns(s, i, x);
    case OfTask(q, x) =>
      hide TaskNext, TaskEnabled;
      TaskFrame(s, q, x);
    case OfForwarder(q, x) =>
      hide ForwardNext;
      ForwardFrame(s, q, x);
    case OfWatchdog(q, x) =>
      hide WatchNext;
      WatchFrame(s, q, x);
  }

  lemma {:induction false} RunComesFrom(states: seq<State>, actions: seq<Action>, k: nat, r: RunId) returns (n: nat, i: TaskId)
    requires Execution(states, actions) && k < |states| && r < |states[k].runs|
    ensures n < k && actions[n] == OfStart(i, OpenInput) && |states[n].runs| == r && i < |states[n].starters|
    ensures var me, run := states[n].starters[i], states[k].runs[r];
            run.origin == me.origin && run.version == me.version && run.interactive == me.interactive
    decreases k
  {
    hide Enabled, Next;
    At(states, actions, k - 1);
    var s, a := states[k - 1], actions[k - 1];
    if r < |s.runs| {
      StepFrames(s, a, r);
      n, i := RunComesFrom(states, actions, k - 1, r);
    } else {
      RunMade(s, a, r);
      n, i := k - 1, a.starter;
    }
  }

  /**
   * A manual run is for the version, and with the live input or without it,
   * of some request; an auto run takes no input and is for the version the
   * document had when some update read it.
   */
  lemma {:induction false} RunIsAsAsked(states: seq<State>, actions: seq<Action>, k: nat, r: RunId)
    requires Execution(states, actions) && k < |states| && r < |states[k].runs|
    ensures var run := states[k].runs[r];
            if run.origin.Manual? then
              exists n: nat :: n < k && actions[n] == OfSession(RequestRun(run.version, run.interactive))
            else
              && !run.interactive
              && exists q: nat, u: nat :: q < k && actions[q] == OfUpdate(u, UpdateRead(true)) && states[q].version == run.version
  {
    hide Enabled, Next;
    var n, i := RunComesFrom(states, actions, k, r);
    var m, first := StarterComesFrom(states, actions, n, i);
    if !first.origin.Manual? {
      var u: nat, v :| u < |states[m].updates| && actions[m] == OfUpdate(u, UpdateStore) && states[m].updates[u] == UpdateStoring(v)
                  && first == Starter(Auto(states[m].cell.debounceSeq + 1), v, false, Sleeping);
      var q := UpdateHasRead(states, actions, m, u);
    }
  }

  // ---- the checks before a run -----------------------------------------------------------------------

  predicate PastFirstCheck(pc: StartPc) {
    !pc.Sleeping? && !pc.AwaitLock? && !pc.CheckVersion? && !pc.Returned?
  }

  lemma {:induction false} CheckedFirst(states: seq<State>, actions: seq<Action>, k: nat, i: TaskId) returns (a: nat)
    requires Execution(states, actions) && k < |states| && i < |states[k].starters| && PastFirstCheck(states[k].starters[i].pc)
    ensures a < k && actions[a] == OfStart(i, FirstCheck(true)) && states[a].version == states[k].starters[i].version
    decreases k
  {
    hide Enabled, Next, StartNext, StartEnabled;
    At(states, actions, k - 1);
    var s, b := states[k - 1], actions[k - 1];
    if i >= |s.starters| {
      NewStarter(s, b, i);
    } else {
      StepStarter(s, b, i);
      if ByStart(b, i) {
        StartAt(states, actions, k - 1, i);
        StartStep(s, i, b.start);
      }
      if ByStart(b, i) && b.start.FirstCheck? {
        a := k - 1;
      } else {
        a := CheckedFirst(states, actions, k - 1, i);
      }
    }
  }

  lemma {:induction false} CheckedLast(states: seq<State>, actions: seq<Action>, k: nat, i: TaskId) returns (b: nat)
    requires Execution(states, actions) && k < |states| && i < |states[k].starters| && states[k].starters[i].pc.ToOpenInput?
    ensures b < k && ByStart(actions[b], i) && NoStart(actions, i, b, k)
    ensures if actions[b].start == SecondCheck then states[b].version == states[k].starters[i].version
            else actions[b].start == TakeFinished && states[b].cell.finished == None
    decreases k
  {
    hide Enabled, Next, StartNext, StartEnabled;
    At(states, actions, k - 1);
    var s, a := states[k - 1], actions[k - 1];
    if i >= |s.starters| {
      NewStarter(s, a, i);
    } else {
      StepStarter(s, a, i);
      if ByStart(a, i) {
        StartAt(states, actions, k - 1, i);
        StartStep(s, i, a.start);
        b := k - 1;
      } else {
        b := CheckedLast(states, actions, k - 1, i);
      }
    }
  }

  /**
   * A start makes a run only for the version the document had at its first
   * check, with a language that is there; and again, right before, if it had
   * a run to wait for.
   */
  lemma {:induction false} StartWasCurrent(states: seq<State>, actions: seq<Action>, n: nat, i: TaskId)
    requires Execution(states, actions) && n < |actions| && actions[n] == OfStart(i, OpenInput)
    ensures i < |states[n].starters|
    ensures exists a: nat :: a < n && actions[a] == OfStart(i, FirstCheck(true)) && states[a].version == states[n].starters[i].version
    ensures exists b: nat :: b < n && ByStart(actions[b], i) && NoStart(actions, i, b, n)
              && if actions[b].start == SecondCheck then states[b].version == states[n].starters[i].version
                 else actions[b].start == TakeFinished && states[b].cell.finished == None
  {
    hide Enabled, Next, StartNext, StartEnabled, NoStart;
    StartAt(states, actions, n, i);
    StartStep(states[n], i, OpenInput);
    var a := CheckedFirst(states, actions, n, i);
    var b := CheckedLast(states, actions, n, i);
  }

  /**
   * What lets a start go on, and is all it takes: at the first check the
   * document at its version and a language that is there, at the second the
   * version again; in between it waits exactly if a previous run has left its
   * token. A start that does not go on ends.
   */
  lemma {:induction false} StartGoesOnIff(states: seq<State>, actions: seq<Action>, n: nat, i: TaskId)
    requires Execution(states, actions) && n < |actions| && ByStart(actions[n], i)
    ensures i < |states[n].starters| && i < |states[n + 1].starters|
    ensures var s, x, me, pc := states[n], actions[n].start, states[n].starters[i], states[n + 1].starters[i].pc;
            && (x.FirstCheck? ==> (pc.ToCancel? <==> x.present && s.version == me.version) && (pc.ToCancel? || pc.Returned?))
            && (x.TakeFinished? ==> (pc.AwaitPrevious? <==> s.cell.finished.Some?) && (pc.AwaitPrevious? || pc.ToOpenInput?))
            && (x.SecondCheck? ==> (pc.ToOpenInput? <==> s.version == me.version) && (pc.ToOpenInput? || pc.Returned?))
  {
    hide Enabled, Next, StartNext, StartEnabled;
    StartAt(states, actions, n, i);
    At(states, actions, n);
    StepStarter(states[n], actions[n], i);
    StartStep(states[n], i, actions[n].start);
  }

  // ---- the announcement of typed input -----------------------------------------------------------------

  lemma {:induction false} OutboxGrows(states: seq<State>, actions: seq<Action>, a: nat, b: nat)
    requires Execution(states, actions) && a <= b < |states|
    ensures states[a].outbox <= states[b].outbox
    decreases b
  {
    hide Enabled, Next, Sends, Init;
    if a < b {
      OutboxGrows(states, actions, a, b - 1);
      At(states, actions, b - 1);
      OutboxStep(states[b - 1], actions[b - 1]);
    }
  }

  lemma {:induction false} Announced(states: seq<State>, actions: seq<Action>, k: nat, i: TaskId, r: RunId)
    requires Execution(states, actions) && k < |states| && i < |states[k].starters| && states[k].starters[i].pc == ToSpawn(r)
    requires states[k].starters[i].interactive
    ensures StdinOpen(r) in states[k].outbox
    decreases k
  {
    hide Enabled, Next, StartNext, StartEnabled;
    At(states, actions, k - 1);
    var s, a := states[k - 1], actions[k - 1];
    if i >= |s.starters| {
      NewStarter(s, a, i);
    } else {
      StepStarter(s, a, i);
      if ByStart(a, i) {
        StartAt(states, actions, k - 1, i);
        StartStep(s, i, a.start);
        assert states[k].outbox[|s.outbox|] == StdinOpen(r);
      } else {
        Announced(states, actions, k - 1, i, r);
        OutboxGrows(states, actions, k - 1, k);
        InPrefix(s.outbox, states[k].outbox, StdinOpen(r));
      }
    }
  }

  lemma {:induction false} InPrefix(a: seq<Event>, b: seq<Event>, e: Event)
    requires a <= b && e in a
    ensures e in b
  {
    var i :| 0 <= i < |a| && a[i] == e;
    assert b[i] == e;
  }

  /** When a run is spawned, the client has been told of its input exactly if it takes one. */
  lemma {:induction false} OpenedIffInteractive(states: seq<State>, actions: seq<Action>, n: nat, i: TaskId, r: RunId)
    requires Execution(states, actions) && n < |actions| && actions[n] == OfStart(i, Spawn)
    requires i < |states[n].starters| && states[n].starters[i].pc == ToSpawn(r)
    ensures r < |states[n].runs|
    ensures StdinOpen(r) in states[n].outbox <==> states[n].runs[r].interactive
  {
    hide Enabled, Next, StartNext, Inv;
    StartAt(states, actions, n, i);
    ExecutionKeeps(states, actions, n);
    HolderIsStarter(states[n], i, r);
    if states[n].starters[i].interactive {
      Announced(states, actions, n, i, r);
    } else if StdinOpen(r) in states[n].outbox {
      var e :| 0 <= e < |states[n].outbox| && states[n].outbox[e] == StdinOpen(r);
      var m := SentAt(states, actions, n, e);
      StartAt(states, actions, m, actions[m].starter);
      ExecutionKeeps(states, actions, m);
      AnnouncedIsInteractive(states[m], actions[m].starter, r);
      InteractiveStays(states, actions, m, n, r);
    }
  }

  lemma {:induction false} HolderIsStarter(s: State, i: TaskId, r: RunId)
    requires Inv(s) && i < |s.starters| && s.starters[i].pc == ToSpawn(r)
    ensures r < |s.runs| && s.runs[r].interactive == s.starters[i].interactive
  {
    assert Critical(s.starters[i].pc) && HolderPc(s) == ToSpawn(r);
  }

  lemma {:induction false} AnnouncedIsInteractive(s: State, i: TaskId, r: RunId)
    requires Inv(s) && i < |s.starters| && s.starters[i].pc == ToAnnounce(r)
    ensures r < |s.runs| && s.runs[r].interactive
  {
    assert Critical(s.starters[i].pc) && HolderPc(s) == ToAnnounce(r);
  }

  lemma {:induction false} InteractiveStays(states: seq<State>, actions: seq<Action>, a: nat, b: nat, r: RunId)
    requires Execution(states, actions) && a <= b < |states| && r < |states[a].runs|
    ensures r < |states[b].runs| && states[b].runs[r].interactive == states[a].runs[r].interactive
    decreases b
  {
    hide Enabled, Next, Init;
    if a < b {
      InteractiveStays(states, actions, a, b - 1, r);
      At(states, actions, b - 1);
      StepFrames(states[b - 1], actions[b - 1], r);
    }
  }

  // ---- the end of typed input ----------------------------------------------------------------------------

  predicate NoInstall(actions: seq<Action>, a: nat, b: nat) {
    forall n :: a <= n < b && n < |actions| ==> !(actions[n].OfStart? && actions[n].start.Install?)
  }

  lemma {:induction false} StartInput(s: State, i: TaskId, x: StartAction)
    requires i < |s.starters| && StartEnabled(s, i, x) && !x.Install?
    ensures StartNext(s, i, x).cell.liveInput == s.cell.liveInput || StartNext(s, i, x).cell.liveInput == None
  {}

  lemma {:induction false} TaskInput(s: State, r: RunId, x: TaskAction)
    requires r < |s.runs| && TaskEnabled(s, r, x)
    ensures TaskNext(s, r, x).cell.liveInput == s.cell.liveInput || TaskNext(s, r, x).cell.liveInput == None
  {}

  /** Only the installation of a run gives the session something to write to. */
  lemma {:induction false} StepInput(s: State, a: Action)
    requires Enabled(s, a) && !(a.OfStart? && a.start.Install?)
    ensures Next(s, a).cell.liveInput == s.cell.liveInput || Next(s, a).cell.liveInput == None
  {
    match a
    case OfSession(_) =>
    case OfUpdate(_, _) =>
    case OfStart(i, x) =>
      hide StartNext, StartEnabled;
      StartInput(s, i, x);
    case OfTask(r, x) =>
      hide TaskNext, TaskEnabled;
      TaskInput(s, r, x);
    case OfForwarder(_, _) =>
    case OfWatchdog(_, _) =>
  }

  /** After the end of input nothing can be written until another run is installed. */
  lemma {:induction false} EofClosesInput(states: seq<State>, actions: seq<Action>, a: nat, b: nat)
    requires Execution(states, actions) && a < b < |states| && actions[a] == OfSession(WriteEof) && NoInstall(actions, a, b)
    ensures states[b].cell.liveInput == None
    decreases b
  {
    At(states, actions, b - 1);
    if b > a + 1 {
      hide Enabled, Next;
      EofClosesInput(states, actions, a, b - 1);
      StepInput(states[b - 1], actions[b - 1]);
    }
  }
}
