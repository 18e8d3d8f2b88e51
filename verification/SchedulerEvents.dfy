/** What reaches the client: exactly the events of a run that was current, for the document it was started with. */
module SchedulerEvents {
  import opened Common
  import opened Scheduler
  import opened SchedulerInvariant

  // ---- one step ------------------------------------------------------------------------------

  predicate ByForwarder(a: Action, r: RunId) {
    a.OfForwarder? && a.run == r
  }

  predicate ByTask(a: Action, r: RunId) {
    a.OfTask? && a.run == r
  }

  predicate ByWatchdog(a: Action, r: RunId) {
    a.OfWatchdog? && a.run == r
  }

  /** What a step does to a run that is there: each part of it moves by its own steps only. */
  ghost predicate Frames(s: State, a: Action, t: State, r: RunId) {
    && r < |s.runs| <= |t.runs|
    && t.runs[r].origin == s.runs[r].origin && t.runs[r].version == s.runs[r].version && t.runs[r].interactive == s.runs[r].interactive
    && (!ByForwarder(a, r) ==> t.runs[r].forward == s.runs[r].forward)
    && (!ByTask(a, r) ==> t.runs[r].task == s.runs[r].task || (s.runs[r].task.Unspawned? && t.runs[r].task.Queued?))
    && (!ByWatchdog(a, r) ==> t.runs[r].watch == s.runs[r].watch)
  }

  lemma {:induction false} StepFrames(s: State, a: Action, r: RunId)
    requires Enabled(s, a) && r < |s.runs|
    ensures Frames(s, a, Next(s, a), r)
  {
    match a
    case OfSession(x) => SessionRuns(s, x);
    case OfUpdate(u, x) => UpdateRuns(s, u, x);
    case OfStart(i, x) =>
      hide StartNext;
      StartRuns(s, i, x);
    case OfTask(q, x) =>
      hide TaskNext, TaskEnabled;
      TaskFrame(s, q, x);
    case OfForwarder(q, x) =>
      hide ForwardNext;
      ForwardFrame(s, q, x);
    case OfWatchdog(q, x) =>
      hide WatchNext;
      WatchFrame(s, q, x);
  }

  lemma {:induction false} SessionRuns(s: State, a: SessionAction)
    requires SessionEnabled(s, a)
    ensures SessionNext(s, a).runs == s.runs
  {}

  lemma {:induction false} UpdateRuns(s: State, u: nat, a: UpdateAction)
    requires u < |s.updates| && UpdateEnabled(s.updates[u], a)
    ensures UpdateNext(s, u, a).runs == s.runs
  {}

  /** A run made by this step has not done anything yet. */
  lemma {:induction false} NewRun(s: State, a: Action, r: RunId)
    requires Enabled(s, a) && |s.runs| <= r < |Next(s, a).runs|
    ensures var run := Next(s, a).runs[r];
            run.task.Unspawned? && run.forward.Idle? && run.watch.Watching? && run.queue == 0
  {
    match a
    case OfSession(x) => SessionRuns(s, x);
    case OfUpdate(u, x) => UpdateRuns(s, u, x);
    case OfStart(i, x) =>
      hide StartNext;
      StartRuns(s, i, x);
    case OfTask(q, x) =>
      hide TaskNext, TaskEnabled;
      TaskFrame(s, q, x);
    case OfForwarder(q, x) =>
      hide ForwardNext;
      ForwardFrame(s, q, x);
    case OfWatchdog(q, x) =>
      hide WatchNext;
      WatchFrame(s, q, x);
  }

  /** One step of an execution. */
  lemma {:induction false} At(states: seq<State>, actions: seq<Action>, k: nat)
    requires Execution(states, actions) && k < |actions|
    ensures Enabled(states[k], actions[k]) && states[k + 1] == Next(states[k], actions[k])
  {
    hide Enabled, Next, Init;
  }

  // ---- between a part's own steps --------------------------------------------------------------

  predicate NoForwarder(actions: seq<Action>, r: RunId, a: nat, b: nat) {
    forall n :: a < n < b && n < |actions| ==> !ByForwarder(actions[n], r)
  }

  predicate NoTask(actions: seq<Action>, r: RunId, a: nat, b: nat) {
    forall n :: a < n < b && n < |actions| ==> !ByTask(actions[n], r)
  }

  predicate NoWatchdog(actions: seq<Action>, r: RunId, a: nat, b: nat) {
    forall n :: a < n < b && n < |actions| ==> !ByWatchdog(actions[n], r)
  }

  /** Between its own steps a part of a run stays where it is; what the run was made for never changes. */
  lemma {:induction false} Stays(states: seq<State>, actions: seq<Action>, a: nat, b: nat, r: RunId)
    requires Execution(states, actions) && a < b < |states| && r < |states[a + 1].runs|
    ensures r < |states[b].runs| && states[b].runs[r].version == states[a + 1].runs[r].version
    ensures NoForwarder(actions, r, a, b) ==> states[b].runs[r].forward == states[a + 1].runs[r].forward
    ensures NoTask(actions, r, a, b) && !states[a + 1].runs[r].task.Unspawned? ==> states[b].runs[r].task == states[a + 1].runs[r].task
    ensures NoWatchdog(actions, r, a, b) ==> states[b].runs[r].watch == states[a + 1].runs[r].watch
    decreases b
  {
    hide Enabled, Next, Init;
    if a + 1 < b {
      Stays(states, actions, a, b - 1, r);
      At(states, actions, b - 1);
      StepFrames(states[b - 1], actions[b - 1], r);
    }
  }

  lemma {:induction false} Exists(states: seq<State>, actions: seq<Action>, a: nat, b: nat, r: RunId)
    requires Execution(states, actions) && a <= b < |states| && r < |states[a].runs|
    ensures r < |states[b].runs| && states[b].runs[r].version == states[a].runs[r].version
    decreases b
  {
    hide Enabled, Next, Init;
    if a < b {
      Exists(states, actions, a, b - 1, r);
      At(states, actions, b - 1);
      StepFrames(states[b - 1], actions[b - 1], r);
    }
  }

  // ---- the forwarder -----------------------------------------------------------------------------

  /** What the forwarder's steps are, in words of its own states. */
  lemma {:induction false} ForwarderStep(s: State, r: RunId, x: ForwardAction)
    requires r < |s.runs| && ForwardEnabled(s.runs[r], x)
    ensures var t, was := ForwardNext(s, r, x), s.runs[r].forward;
            && |t.runs| == |s.runs|
            && (x.Receive? ==> was.Idle? && t.runs[r].forward.Received?)
            && (x.ForwardSlot? ==> was.Received? && (if Current(s.cell, r) then t.runs[r].forward.CheckingDocument? else t.runs[r].forward.Idle?))
            && (x.ForwardDocument? ==> was.CheckingDocument?)
            && (x.ForwardDocument? ==> if s.version == s.runs[r].version then t.runs[r].forward.Sending? else t.runs[r].forward.Idle?)
            && (x.Forward? ==> was.Sending? && t.runs[r].forward.Idle?)
            && (x.CloseForwarder? ==> was.Idle? && t.runs[r].forward.Closed?)
            && t.outbox == s.outbox + (if x.Forward? then [Forwarded(r)] else [])
  {}

  /** A step of an execution taken by r's forwarder. */
  lemma {:induction false} ForwarderAt(states: seq<State>, actions: seq<Action>, k: nat, r: RunId)
    requires Execution(states, actions) && k < |actions| && ByForwarder(actions[k], r)
    ensures r < |states[k].runs| && ForwardEnabled(states[k].runs[r], actions[k].forward)
    ensures states[k + 1] == ForwardNext(states[k], r, actions[k].forward)
  {
    hide ForwardNext, ForwardEnabled;
    At(states, actions, k);
  }

  /**
   * Past two checks: r's forwarder saw that r is current at `i` and that the
   * document is the run's at `j`, and took no other step up to `m`.
   */
  ghost predicate LetThrough(states: seq<State>, actions: seq<Action>, r: RunId, i: nat, j: nat, m: nat) {
    && i < j < m <= |actions| < |states|
    && ByForwarder(actions[i], r) && ByForwarder(actions[j], r)
    && NoForwarder(actions, r, i, j) && NoForwarder(actions, r, j, m)
    && actions[i].forward == ForwardSlot && Current(states[i].cell, r)
    && r < |states[j].runs| && states[j].version == states[j].runs[r].version
  }

  lemma {:induction false} CheckedSlot(states: seq<State>, actions: seq<Action>, k: nat, r: RunId) returns (i: nat)
    requires Execution(states, actions) && k < |states| && r < |states[k].runs| && states[k].runs[r].forward.CheckingDocument?
    ensures i < k && ByForwarder(actions[i], r) && actions[i].forward == ForwardSlot
    ensures Current(states[i].cell, r) && NoForwarder(actions, r, i, k)
    decreases k
  {
    hide Enabled, Next, ForwardNext, ForwardEnabled, Current;
    At(states, actions, k - 1);
    var s, a := states[k - 1], actions[k - 1];
    if r >= |s.runs| {
      NewRun(s, a, r);
    } else if ByForwarder(a, r) {
      ForwarderAt(states, actions, k - 1, r);
      ForwarderStep(s, r, a.forward);
      i := k - 1;
    } else {
      StepFrames(s, a, r);
      i := CheckedSlot(states, actions, k - 1, r);
    }
  }

  lemma {:induction false} CheckedDocument(states: seq<State>, actions: seq<Action>, k: nat, r: RunId) returns (i: nat, j: nat)
    requires Execution(states, actions) && k < |states| && r < |states[k].runs| && states[k].runs[r].forward.Sending?
    ensures LetThrough(states, actions, r, i, j, k)
    decreases k
  {
    hide Enabled, Next, ForwardNext, ForwardEnabled, Current;
    At(states, actions, k - 1);
    var s, a := states[k - 1], actions[k - 1];
    if r >= |s.runs| {
      NewRun(s, a, r);
    } else if ByForwarder(a, r) {
      ForwarderAt(states, actions, k - 1, r);
      ForwarderStep(s, r, a.forward);
      j := k - 1;
      i := CheckedSlot(states, actions, j, r);
    } else {
      StepFrames(s, a, r);
      i, j := CheckedDocument(states, actions, k - 1, r);
    }
  }

  /** After both checks, the next step of the forwarder is to send. */
  lemma {:induction false} LetThroughSends(states: seq<State>, actions: seq<Action>, r: RunId, i: nat, j: nat, m: nat)
    requires Execution(states, actions) && LetThrough(states, actions, r, i, j, m)
    ensures r < |states[m].runs| && states[m].runs[r].forward.Sending?
  {
    hide Enabled, Next, ForwardNext, ForwardEnabled, Current, Init;
    ForwarderAt(states, actions, i, r);
    ForwarderStep(states[i], r, actions[i].forward);
    Stays(states, actions, i, j, r);
    ForwarderAt(states, actions, j, r);
    ForwarderStep(states[j], r, actions[j].forward);
    Stays(states, actions, j, m, r);
  }

  /**
   * A step of r's forwarder puts r's event into the outbox exactly when both
   * checks have just been passed, and otherwise nothing.
   */
  lemma {:induction false} ForwardedIff(states: seq<State>, actions: seq<Action>, m: nat, r: RunId)
    requires Execution(states, actions) && m < |actions| && ByForwarder(actions[m], r)
    ensures states[m + 1].outbox
            == states[m].outbox + (if exists i: nat, j: nat :: LetThrough(states, actions, r, i, j, m) then [Forwarded(r)] else [])
  {
    hide Enabled, Next, ForwardNext, ForwardEnabled, LetThrough, Init;
    ForwarderAt(states, actions, m, r);
    ForwarderStep(states[m], r, actions[m].forward);
    if i: nat, j: nat :| LetThrough(states, actions, r, i, j, m) {
      LetThroughSends(states, actions, r, i, j, m);
      SendingSends(states[m], r, actions[m].forward);
    } else if actions[m].forward.Forward? {
      var i, j := CheckedDocument(states, actions, m, r);
    }
  }

  lemma {:induction false} SendingSends(s: State, r: RunId, x: ForwardAction)
    requires r < |s.runs| && s.runs[r].forward.Sending? && ForwardEnabled(s.runs[r], x)
    ensures x.Forward?
  {}

  /**
   * An event that the forwarder receives at `h` reaches the client by the
   * forwarder's third step from there, if r is current at the first and the
   * document is still the run's at the second.
   */
  lemma {:induction false} CurrentEventIsForwarded(states: seq<State>, actions: seq<Action>, h: nat, i: nat, j: nat, m: nat, r: RunId)
    requires Execution(states, actions) && h < i < j < m < |actions|
    requires ByForwarder(actions[h], r) && ByForwarder(actions[i], r) && ByForwarder(actions[j], r) && ByForwarder(actions[m], r)
    requires NoForwarder(actions, r, h, i) && NoForwarder(actions, r, i, j) && NoForwarder(actions, r, j, m)
    requires actions[h].forward == Receive && Current(states[i].cell, r)
    requires r < |states[j].runs| && states[j].version == states[j].runs[r].version
    ensures states[m + 1].outbox == states[m].outbox + [Forwarded(r)]
  {
    hide Enabled, Next, ForwardNext, Current, Init;
    ForwarderAt(states, actions, h, r);
    ForwarderStep(states[h], r, actions[h].forward);
    Stays(states, actions, h, i, r);
    ForwarderAt(states, actions, i, r);
    assert actions[i].forward == ForwardSlot;
    assert LetThrough(states, actions, r, i, j, m);
    ForwardedIff(states, actions, m, r);
  }

  /** The forwarder never waits for anybody with an event in its hands. */
  lemma {:induction false} ForwarderGoesOn(s: State, r: RunId)
    requires r < |s.runs| && !s.runs[r].forward.Idle? && !s.runs[r].forward.Closed?
    ensures exists x: ForwardAction :: ForwardEnabled(s.runs[r], x)
  {
    match s.runs[r].forward
    case Received => assert ForwardEnabled(s.runs[r], ForwardSlot);
    case CheckingDocument => assert ForwardEnabled(s.runs[r], ForwardDocument);
    case Sending => assert ForwardEnabled(s.runs[r], Forward);
  }

  // ---- nothing is lost on the way to it -------------------------------------------------------------

  /** How many of the actions are this one. */
  function Times(actions: seq<Action>, a: Action): nat {
    if actions == [] then 0
    else Times(actions[..|actions| - 1], a) + (if actions[|actions| - 1] == a then 1 else 0)
  }

  lemma {:induction false} QueueStep(s: State, a: Action, r: RunId)
    requires Enabled(s, a)
    ensures var t := Next(s, a);
            var was, now := if r < |s.runs| then s.runs[r].queue else 0, if r < |t.runs| then t.runs[r].queue else 0;
            now + (if a == OfForwarder(r, Receive) then 1 else 0) == was + (if a == OfTask(r, Emit) then 1 else 0)
  {
    match a
    case OfSession(x) => SessionRuns(s, x);
    case OfUpdate(u, x) => UpdateRuns(s, u, x);
    case OfStart(i, x) =>
      hide StartNext;
      StartRuns(s, i, x);
    case OfTask(q, x) =>
    case OfForwarder(q, x) =>
    case OfWatchdog(q, x) =>
      hide WatchNext;
      WatchFrame(s, q, x);
  }

  /** Every event the run emits is received by its forwarder or still queued. */
  lemma {:induction false} EventsAreConserved(states: seq<State>, actions: seq<Action>, k: nat, r: RunId)
    requires Execution(states, actions) && k < |states|
    ensures Times(actions[..k], OfTask(r, Emit))
            == Times(actions[..k], OfForwarder(r, Receive)) + (if r < |states[k].runs| then states[k].runs[r].queue else 0)
    decreases k
  {
    hide Enabled, Next;
    if k > 0 {
      At(states, actions, k - 1);
      QueueStep(states[k - 1], actions[k - 1], r);
      EventsAreConserved(states, actions, k - 1, r);
      assert actions[..k][..k - 1] == actions[..k - 1] && actions[..k][k - 1] == actions[k - 1];
    }
  }

  // ---- the outbox ------------------------------------------------------------------------------------

  /** The step that may send this event. */
  ghost predicate Sends(s: State, a: Action, e: Event) {
    match e
    case StdinOpen(r) => a.OfStart? && a.start.Announce? && a.starter < |s.starters| && s.starters[a.starter].pc == ToAnnounce(r)
    case Forwarded(r) => a == OfForwarder(r, Forward)
    case TerminalState(r) => a == OfTask(r, SendTerminal)
    case RunFinished(r) => a == OfTask(r, SendFinished)
    case ResetIdle(r) => a == OfWatchdog(r, SendReset)
    case Notice => true
  }

  lemma {:induction false} OutboxStep(s: State, a: Action)
    requires Enabled(s, a)
    ensures var t := Next(s, a);
            t.outbox == s.outbox || exists e :: Sends(s, a, e) && t.outbox == s.outbox + [e]
  {
    match a
    case OfSession(x) =>
    case OfUpdate(u, x) => Sent(s, a, Notice);
    case OfStart(i, x) =>
      Sent(s, a, Notice);
      if x.Announce? {
        Sent(s, a, StdinOpen(s.starters[i].pc.run));
      }
    case OfTask(r, x) =>
      Sent(s, a, Notice);
      if x.SendTerminal? {
        Sent(s, a, TerminalState(r));
      } else if x.SendFinished? {
        Sent(s, a, RunFinished(r));
      }
    case OfForwarder(r, x) =>
      if x.Forward? {
        Sent(s, a, Forwarded(r));
      }
    case OfWatchdog(r, x) =>
      Sent(s, a, Notice);
      if x.SendReset? {
        Sent(s, a, ResetIdle(r));
      }
  }

  lemma {:induction false} Sent(s: State, a: Action, e: Event)
    requires Sends(s, a, e)
    ensures exists f :: f == e && Sends(s, a, f)
  {}

  /** What stands in the outbox was sent by a step of its own kind. */
  lemma {:induction false} SentAt(states: seq<State>, actions: seq<Action>, k: nat, n: nat) returns (m: nat)
    requires Execution(states, actions) && k < |states| && n < |states[k].outbox|
    ensures m < k && |states[m].outbox| == n && Sends(states[m], actions[m], states[k].outbox[n])
    ensures states[m + 1].outbox == states[m].outbox + [states[k].outbox[n]]
    decreases k
  {
    hide Enabled, Next, Sends;
    At(states, actions, k - 1);
    OutboxStep(states[k - 1], actions[k - 1]);
    if n < |states[k - 1].outbox| {
      m := SentAt(states, actions, k - 1, n);
    } else {
      m := k - 1;
    }
  }

  /** Every event of a run that reached the client passed both checks. */
  lemma {:induction false} ForwardedWasCurrent(states: seq<State>, actions: seq<Action>, k: nat, n: nat, r: RunId)
    requires Execution(states, actions) && k < |states| && n < |states[k].outbox| && states[k].outbox[n] == Forwarded(r)
    ensures exists i: nat, j: nat, m: nat :: m < k && |states[m].outbox| == n && LetThrough(states, actions, r, i, j, m)
  {
    hide Enabled, Next, LetThrough, ForwardNext, ForwardEnabled;
    var m := SentAt(states, actions, k, n);
    ForwarderAt(states, actions, m, r);
    ForwarderStep(states[m], r, actions[m].forward);
    var i, j := CheckedDocument(states, actions, m, r);
  }

  // ---- the run's end -----------------------------------------------------------------------------------

  /** What the task's last steps are, in words of its own states. */
  lemma {:induction false} TaskStep(s: State, r: RunId, x: TaskAction)
    requires r < |s.runs| && TaskEnabled(s, r, x)
    ensures var t, was := TaskNext(s, r, x), s.runs[r].task;
            var now := if r < |t.runs| then t.runs[r].task else Unspawned;
            && |t.runs| == |s.runs|
            && (x.QuitQueue? ==> was.Queued? && CancelOf(r) in s.cell.fired && now == Draining(false))
            && (x.RunnerEnds? ==> was.Running? && now == Draining(x.outcome))
            && (x.Drained? ==> was.Draining? && now == CheckSlot(was.outcome))
            && (x.CheckSlotNow? ==> was.CheckSlot? && now == if Current(s.cell, r) then CheckDocument(was.outcome) else Release)
            && (x.CheckDocumentNow? ==> was.CheckDocument? && now == if s.version == s.runs[r].version && was.outcome then SendState else Release)
            && (x.SendTerminal? ==> was.SendState? && now == SendResult)
            && (x.SendFinished? ==> was.SendResult? && now == Release)
            && (x.ReleaseSlot? ==> was.Release? && now == Ended)
            && (x.LeaveQueue? ==> was.Queued? && now.Running?)
            && (x.RunnerPanics? ==> was.Running? && now.Panicked?)
            && (x.Emit? || x.TakeInput? ==> now == was && (was.Running? || was.Draining? || was.Panicked?))
            && t.outbox == s.outbox + (if x.SendTerminal? then [TerminalState(r)]
                                       else if x.SendFinished? then [RunFinished(r)]
                                       else if x.CheckDocumentNow? && s.version == s.runs[r].version && !was.outcome then [Notice]
                                       else [])
  {}

  lemma {:induction false} TaskAt(states: seq<State>, actions: seq<Action>, k: nat, r: RunId)
    requires Execution(states, actions) && k < |actions| && ByTask(actions[k], r)
    ensures r < |states[k].runs| && TaskEnabled(states[k], r, actions[k].task)
    ensures states[k + 1] == TaskNext(states[k], r, actions[k].task)
  {
    hide TaskNext, TaskEnabled;
    At(states, actions, k);
  }

  /** The outcome that a run's task carries to its end. */
  predicate Bears(task: TaskPc, outcome: bool) {
    match task
    case Draining(b) => b == outcome
    case CheckSlot(b) => b == outcome
    case CheckDocument(b) => b == outcome
    case SendState => outcome
    case SendResult => outcome
    case _ => false
  }

  /** A run that goes to its end with a result is one whose runner ended with one. */
  lemma {:induction false} RunnerEnded(states: seq<State>, actions: seq<Action>, k: nat, r: RunId) returns (h: nat)
    requires Execution(states, actions) && k < |states| && r < |states[k].runs| && Bears(states[k].runs[r].task, true)
    ensures h < k && actions[h] == OfTask(r, RunnerEnds(true))
    decreases k
  {
    hide Enabled, Next, TaskNext, TaskEnabled, Current;
    At(states, actions, k - 1);
    var s, a := states[k - 1], actions[k - 1];
    if r >= |s.runs| {
      NewRun(s, a, r);
    } else {
      if ByTask(a, r) {
        TaskAt(states, actions, k - 1, r);
        TaskStep(s, r, a.task);
      } else {
        StepFrames(s, a, r);
      }
      if a == OfTask(r, RunnerEnds(true)) {
        h := k - 1;
      } else {
        h := RunnerEnded(states, actions, k - 1, r);
      }
    }
  }

  /** Past two checks at the end: its runner ended with a result at `h`, r was current at `i`, the document the run's at `j`. */
  ghost predicate Concluded(states: seq<State>, actions: seq<Action>, r: RunId, h: nat, i: nat, j: nat, m: nat) {
    && h < i < j < m <= |actions| < |states|
    && actions[h] == OfTask(r, RunnerEnds(true))
    && actions[i] == OfTask(r, CheckSlotNow) && Current(states[i].cell, r)
    && actions[j] == OfTask(r, CheckDocumentNow) && r < |states[j].runs| && states[j].version == states[j].runs[r].version
    && NoTask(actions, r, i, j) && NoTask(actions, r, j, m)
  }

  lemma {:induction false} EndSlot(states: seq<State>, actions: seq<Action>, k: nat, r: RunId) returns (h: nat, i: nat)
    requires Execution(states, actions) && k < |states| && r < |states[k].runs| && states[k].runs[r].task == CheckDocument(true)
    ensures h < i < k && actions[h] == OfTask(r, RunnerEnds(true))
    ensures actions[i] == OfTask(r, CheckSlotNow) && Current(states[i].cell, r) && NoTask(actions, r, i, k)
    decreases k
  {
    hide Enabled, Next, TaskNext, TaskEnabled, Current;
    At(states, actions, k - 1);
    var s, a := states[k - 1], actions[k - 1];
    if r >= |s.runs| {
      NewRun(s, a, r);
    } else if ByTask(a, r) {
      TaskAt(states, actions, k - 1, r);
      TaskStep(s, r, a.task);
      i := k - 1;
      h := RunnerEnded(states, actions, i, r);
    } else {
      StepFrames(s, a, r);
      h, i := EndSlot(states, actions, k - 1, r);
    }
  }

  lemma {:induction false} EndDocument(states: seq<State>, actions: seq<Action>, k: nat, r: RunId) returns (h: nat, i: nat, j: nat)
    requires Execution(states, actions) && k < |states| && r < |states[k].runs| && states[k].runs[r].task.SendState?
    ensures Concluded(states, actions, r, h, i, j, k)
    decreases k
  {
    hide Enabled, Next, TaskNext, TaskEnabled, Current;
    At(states, actions, k - 1);
    var s, a := states[k - 1], actions[k - 1];
    if r >= |s.runs| {
      NewRun(s, a, r);
    } else if ByTask(a, r) {
      TaskAt(states, actions, k - 1, r);
      TaskStep(s, r, a.task);
      j := k - 1;
      h, i := EndSlot(states, actions, j, r);
    } else {
      StepFrames(s, a, r);
      h, i, j := EndDocument(states, actions, k - 1, r);
    }
  }

  /** Every terminal state that reached the client is that of a run that ended with a result and passed both checks. */
  lemma {:induction false} TerminalWasCurrent(states: seq<State>, actions: seq<Action>, k: nat, n: nat, r: RunId)
    requires Execution(states, actions) && k < |states| && n < |states[k].outbox| && states[k].outbox[n] == TerminalState(r)
    ensures exists h: nat, i: nat, j: nat, m: nat :: m < k && |states[m].outbox| == n && Concluded(states, actions, r, h, i, j, m)
  {
    hide Enabled, Next, Concluded, TaskNext, TaskEnabled;
    var m := SentAt(states, actions, k, n);
    TaskAt(states, actions, m, r);
    TaskStep(states[m], r, actions[m].task);
    var h, i, j := EndDocument(states, actions, m, r);
  }

  lemma {:induction false} SentState(states: seq<State>, actions: seq<Action>, k: nat, r: RunId) returns (m: nat)
    requires Execution(states, actions) && k < |states| && r < |states[k].runs| && states[k].runs[r].task.SendResult?
    ensures m < k && actions[m] == OfTask(r, SendTerminal) && NoTask(actions, r, m, k)
    ensures states[m + 1].outbox == states[m].outbox + [TerminalState(r)]
    decreases k
  {
    hide Enabled, Next, TaskNext, TaskEnabled;
    At(states, actions, k - 1);
    var s, a := states[k - 1], actions[k - 1];
    if r >= |s.runs| {
      NewRun(s, a, r);
    } else if ByTask(a, r) {
      TaskAt(states, actions, k - 1, r);
      TaskStep(s, r, a.task);
      m := k - 1;
    } else {
      StepFrames(s, a, r);
      m := SentState(states, actions, k - 1, r);
    }
  }

  /** A result comes right behind the same run's terminal state. */
  lemma {:induction false} FinishedFollowsTerminal(states: seq<State>, actions: seq<Action>, k: nat, n: nat, r: RunId)
    requires Execution(states, actions) && k < |states| && n < |states[k].outbox| && states[k].outbox[n] == RunFinished(r)
    ensures exists l: nat, m: nat :: l < m < k && |states[m].outbox| == n && NoTask(actions, r, l, m)
                           && states[l + 1].outbox == states[l].outbox + [TerminalState(r)]
  {
    hide Enabled, Next, TaskNext, TaskEnabled;
    var m := SentAt(states, actions, k, n);
    TaskAt(states, actions, m, r);
    TaskStep(states[m], r, actions[m].task);
    var l := SentState(states, actions, m, r);
  }

  /** The outcome the runner ended with stays the task's until it lets go. */
  lemma {:induction false} OutcomeStays(states: seq<State>, actions: seq<Action>, h: nat, k: nat, r: RunId, outcome: bool)
    requires Execution(states, actions) && h < k < |states| && actions[h] == OfTask(r, RunnerEnds(outcome))
    ensures r < |states[k].runs|
    ensures var pc := states[k].runs[r].task;
            Bears(pc, outcome) || pc.Release? || pc.Ended?
    decreases k
  {
    hide Enabled, Next, TaskNext, TaskEnabled, Current, Init;
    if k == h + 1 {
      TaskAt(states, actions, h, r);
      TaskStep(states[h], r, actions[h].task);
    } else {
      OutcomeStays(states, actions, h, k - 1, r, outcome);
      At(states, actions, k - 1);
      var s, a := states[k - 1], actions[k - 1];
      if ByTask(a, r) {
        TaskAt(states, actions, k - 1, r);
        TaskStep(s, r, a.task);
        NoMoreSteps(s, r, a.task);
      } else {
        StepFrames(s, a, r);
      }
    }
  }

  lemma {:induction false} NoMoreSteps(s: State, r: RunId, x: TaskAction)
    requires r < |s.runs| && TaskEnabled(s, r, x)
    ensures !s.runs[r].task.Ended? && (s.runs[r].task.Release? ==> x.ReleaseSlot?)
  {}

  /**
   * A run whose runner ended with `outcome`: if r is current at its first
   * check and the document still the run's at its second, its terminal state
   * and its result go out in its next two steps, or, when there is no result,
   * a notice at once.
   */
  lemma {:induction false} CurrentResultIsSent(states: seq<State>, actions: seq<Action>, h: nat, i: nat, j: nat, m: nat, n: nat, r: RunId, outcome: bool)
    requires Execution(states, actions) && h < i < j < m < n < |actions|
    requires actions[h] == OfTask(r, RunnerEnds(outcome)) && actions[i] == OfTask(r, CheckSlotNow)
    requires ByTask(actions[j], r) && ByTask(actions[m], r) && ByTask(actions[n], r)
    requires NoTask(actions, r, i, j) && NoTask(actions, r, j, m) && NoTask(actions, r, m, n)
    requires Current(states[i].cell, r)
    requires r < |states[j].runs| && states[j].version == states[j].runs[r].version
    ensures outcome ==> states[m + 1].outbox == states[m].outbox + [TerminalState(r)]
                        && states[n + 1].outbox == states[n].outbox + [RunFinished(r)]
    ensures !outcome ==> states[j + 1].outbox == states[j].outbox + [Notice] && actions[m] == OfTask(r, ReleaseSlot)
  {
    hide Enabled, Next, TaskNext, TaskEnabled, Current, Init;
    OutcomeStays(states, actions, h, i, r, outcome);
    TaskAt(states, actions, i, r);
    TaskStep(states[i], r, actions[i].task);
    Stays(states, actions, i, j, r);
    TaskAt(states, actions, j, r);
    OnlyStep(states[j], r, actions[j].task);
    TaskStep(states[j], r, actions[j].task);
    Stays(states, actions, j, m, r);
    TaskAt(states, actions, m, r);
    OnlyStep(states[m], r, actions[m].task);
    TaskStep(states[m], r, actions[m].task);
    if outcome {
      Stays(states, actions, m, n, r);
      TaskAt(states, actions, n, r);
      OnlyStep(states[n], r, actions[n].task);
      TaskStep(states[n], r, actions[n].task);
    }
  }

  /** From its last checks on, a task has one way to go. */
  lemma {:induction false} OnlyStep(s: State, r: RunId, x: TaskAction)
    requires r < |s.runs| && TaskEnabled(s, r, x)
    ensures s.runs[r].task.CheckDocument? ==> x == CheckDocumentNow
    ensures s.runs[r].task.SendState? ==> x == SendTerminal
    ensures s.runs[r].task.SendResult? ==> x == SendFinished
    ensures s.runs[r].task.Release? ==> x == ReleaseSlot
  {}

  /** The document check of a run's end sends nothing if the document has changed, and a notice if there is no result. */
  lemma {:induction false} DocumentCheckIff(states: seq<State>, actions: seq<Action>, j: nat, r: RunId)
    requires Execution(states, actions) && j < |actions| && actions[j] == OfTask(r, CheckDocumentNow)
    ensures r < |states[j].runs| && r < |states[j + 1].runs|
    ensures states[j + 1].runs[r].task.SendState? <==> states[j].version == states[j].runs[r].version && states[j].runs[r].task == CheckDocument(true)
    ensures states[j + 1].outbox == states[j].outbox + [Notice] <==>
              states[j].version == states[j].runs[r].version && states[j].runs[r].task == CheckDocument(false)
  {
    hide Enabled, Next, TaskNext, TaskEnabled, Current, Init;
    TaskAt(states, actions, j, r);
    TaskStep(states[j], r, actions[j].task);
    assert states[j].outbox + [] == states[j].outbox;
  }

  // ---- a panic --------------------------------------------------------------------------------------------

  lemma {:induction false} WatchStep(s: State, r: RunId, x: WatchAction)
    requires r < |s.runs| && WatchEnabled(s.runs[r], x)
    ensures var t, was := WatchNext(s, r, x), s.runs[r].watch;
            && |t.runs| == |s.runs|
            && (x.Observe? ==> was.Watching? && (s.runs[r].task.Ended? || s.runs[r].task.Panicked?))
            && (x.Observe? ==> t.runs[r].watch == if s.runs[r].task.Panicked? then ToReset else Retired)
            && (x.ResetSlot? ==> was.ToReset? && t.runs[r].watch == if s.cell.activeRun == Some(r) then ToSendIdle else Retired)
            && (x.SendReset? ==> was.ToSendIdle? && t.runs[r].watch == ToSendCrash)
            && (x.SendCrash? ==> was.ToSendCrash? && t.runs[r].watch == Retired)
            && t.outbox == s.outbox + (if x.SendReset? then [ResetIdle(r)] else if x.SendCrash? then [Notice] else [])
  {}

  lemma {:induction false} WatchAt(states: seq<State>, actions: seq<Action>, k: nat, r: RunId)
    requires Execution(states, actions) && k < |actions| && ByWatchdog(actions[k], r)
    ensures r < |states[k].runs| && WatchEnabled(states[k].runs[r], actions[k].watch)
    ensures states[k + 1] == WatchNext(states[k], r, actions[k].watch)
  {
    hide WatchNext, WatchEnabled;
    At(states, actions, k);
  }

  lemma {:induction false} SawPanic(states: seq<State>, actions: seq<Action>, k: nat, r: RunId) returns (h: nat)
    requires Execution(states, actions) && k < |states| && r < |states[k].runs| && states[k].runs[r].watch.ToReset?
    ensures h < k && ByWatchdog(actions[h], r) && r < |states[h].runs| && states[h].runs[r].task.Panicked?
    decreases k
  {
    hide Enabled, Next, WatchNext, WatchEnabled;
    At(states, actions, k - 1);
    var s, a := states[k - 1], actions[k - 1];
    if r >= |s.runs| {
      NewRun(s, a, r);
    } else if ByWatchdog(a, r) {
      WatchAt(states, actions, k - 1, r);
      WatchStep(s, r, a.watch);
      h := k - 1;
    } else {
      StepFrames(s, a, r);
      h := SawPanic(states, actions, k - 1, r);
    }
  }

  lemma {:induction false} DidReset(states: seq<State>, actions: seq<Action>, k: nat, r: RunId) returns (j: nat)
    requires Execution(states, actions) && k < |states| && r < |states[k].runs| && states[k].runs[r].watch.ToSendIdle?
    ensures j < k && actions[j] == OfWatchdog(r, ResetSlot) && states[j].cell.activeRun == Some(r) && NoWatchdog(actions, r, j, k)
    decreases k
  {
    hide Enabled, Next, WatchNext, WatchEnabled;
    At(states, actions, k - 1);
    var s, a := states[k - 1], actions[k - 1];
    if r >= |s.runs| {
      NewRun(s, a, r);
    } else if ByWatchdog(a, r) {
      WatchAt(states, actions, k - 1, r);
      WatchStep(s, r, a.watch);
      j := k - 1;
    } else {
      StepFrames(s, a, r);
      j := DidReset(states, actions, k - 1, r);
    }
  }

  /** The client hears that a run was reset only if the run panicked and still had the slot. */
  lemma {:induction false} ResetOnlyAfterPanic(states: seq<State>, actions: seq<Action>, k: nat, n: nat, r: RunId)
    requires Execution(states, actions) && k < |states| && n < |states[k].outbox| && states[k].outbox[n] == ResetIdle(r)
    ensures exists h: nat, j: nat :: h < j < k && r < |states[h].runs| && states[h].runs[r].task.Panicked?
                           && actions[j] == OfWatchdog(r, ResetSlot) && states[j].cell.activeRun == Some(r)
  {
    hide Enabled, Next, WatchNext, WatchEnabled;
    var m := SentAt(states, actions, k, n);
    WatchAt(states, actions, m, r);
    WatchStep(states[m], r, actions[m].watch);
    var j := DidReset(states, actions, m, r);
    WatchAt(states, actions, j, r);
    WatchStep(states[j], r, actions[j].watch);
    var h := SawPanic(states, actions, j, r);
  }

  /** A crash of the run that has the slot is told: the reset, then a notice; of another run, nothing. */
  lemma {:induction false} CrashIsTold(states: seq<State>, actions: seq<Action>, i: nat, j: nat, k: nat, r: RunId)
    requires Execution(states, actions) && i < j < |actions| && actions[i] == OfWatchdog(r, ResetSlot)
    requires ByWatchdog(actions[j], r) && NoWatchdog(actions, r, i, j)
    ensures states[i].cell.activeRun == Some(r) && states[j + 1].outbox == states[j].outbox + [ResetIdle(r)]
    ensures j < k < |actions| && ByWatchdog(actions[k], r) && NoWatchdog(actions, r, j, k) ==>
              states[k + 1].outbox == states[k].outbox + [Notice]
  {
    hide Enabled, Next, WatchNext, Init;
    WatchAt(states, actions, i, r);
    WatchStep(states[i], r, actions[i].watch);
    Stays(states, actions, i, j, r);
    WatchAt(states, actions, j, r);
    WatchStep(states[j], r, actions[j].watch);
    if j < k < |actions| && ByWatchdog(actions[k], r) && NoWatchdog(actions, r, j, k) {
      Stays(states, actions, j, k, r);
      WatchAt(states, actions, k, r);
      WatchStep(states[k], r, actions[k].watch);
    }
  }
}
