/**
 * What every step of every task keeps. Each part of the invariant is kept
 * by each kind of step in a lemma of its own; what a step does to the parts
 * of the state is stated once, in the lemmas they share.
 */
module SchedulerInvariant {
  import opened Common
  import opened Scheduler

  /** Between taking the start lock and dropping it. */
  predicate Critical(pc: StartPc) {
    !pc.Sleeping? && !pc.AwaitLock? && !pc.Returned?
  }

  /** The program counter of the task that holds the start lock. */
  function HolderPc(s: State): StartPc {
    if s.startLock.Some? && s.startLock.value < |s.starters| then s.starters[s.startLock.value].pc else Returned
  }

  /** The run whose slot `start_run` is between filling and handing over. */
  predicate HandingOver(pc: StartPc, r: RunId) {
    pc == ToAnnounce(r) || pc == ToSpawn(r)
  }

  predicate Spawned(task: TaskPc) {
    !task.Unspawned?
  }

  predicate TaskOver(task: TaskPc) {
    task.Ended? || task.Panicked?
  }

  predicate Drained(task: TaskPc) {
    task.CheckSlot? || task.CheckDocument? || task.SendState? || task.SendResult? || task.Release? || task.Ended?
  }

  predicate Resetting(watch: WatchPc) {
    watch.ToSendIdle? || watch.ToSendCrash?
  }

  /** Still to be waited for by the next start. */
  predicate Outstanding(s: State, r: RunId) {
    r < |s.runs| && FinishedOf(r) !in s.cell.fired && r !in s.expired
  }

  ghost predicate LockInv(s: State) {
    && (s.startLock.Some? ==> s.startLock.value < |s.starters|)
    && (forall i :: 0 <= i < |s.starters| ==> (Critical(s.starters[i].pc) <==> s.startLock == Some(i)))
  }

  /** Debounce tasks are told apart by their tags. */
  ghost predicate TagInv(s: State) {
    && (forall i :: 0 <= i < |s.starters| && s.starters[i].origin.Auto? ==> s.starters[i].origin.tag <= s.cell.debounceSeq)
    && (forall i, j :: 0 <= i < j < |s.starters| && s.starters[i].origin.Auto? ==> s.starters[i].origin != s.starters[j].origin)
  }

  /** The pending slot holds the handle of a task that still sleeps, the last one put there. */
  ghost predicate PendingInv(s: State) {
    s.cell.debounce.Some? ==>
      var (tag, h) := s.cell.debounce.value;
      && h < |s.starters| && h !in s.cell.aborted
      && s.starters[h].pc.Sleeping? && s.starters[h].origin == Auto(tag)
      && |s.slotLog| > 0 && s.slotLog[|s.slotLog| - 1] == Put(tag)
  }

  /** An abort only ever reaches a task that is still in its pending wait. */
  ghost predicate AbortInv(s: State) {
    forall i :: i in s.cell.aborted ==> i < |s.starters| && (s.starters[i].pc.Sleeping? || s.starters[i].pc.Returned?)
  }

  ghost predicate SlotInv(s: State) {
    && (s.cell.cancel.Some? <==> s.cell.activeRun.Some?)
    && (s.cell.activeRun.Some? ==>
          var r := s.cell.activeRun.value;
          && r == |s.runs| - 1 && s.cell.cancel == Some(CancelOf(r)) && CancelOf(r) !in s.cell.fired
          && !s.runs[r].task.Ended? && (s.runs[r].task.Unspawned? ==> HandingOver(HolderPc(s), r))
          && !s.runs[r].watch.ToSendIdle? && !s.runs[r].watch.ToSendCrash? && !s.runs[r].watch.Retired?)
  }

  /** A finished token is the newest run's. */
  ghost predicate TokenInv(s: State) {
    s.cell.finished.Some? ==> |s.runs| > 0 && s.cell.finished == Some(FinishedOf(|s.runs| - 1))
  }

  /** A run's finished token has fired exactly when its watchdog has seen it end. */
  ghost predicate FiredInv(s: State) {
    && (forall t :: t in s.cell.fired ==> t.run < |s.runs|)
    && (forall r :: 0 <= r < |s.runs| ==> (FinishedOf(r) in s.cell.fired <==> !s.runs[r].watch.Watching?))
    && (forall r :: 0 <= r < |s.runs| && !s.runs[r].watch.Watching? ==> TaskOver(s.runs[r].task))
    && (forall r :: r in s.expired ==> r < |s.runs|)
  }

  ghost predicate FinishedInv(s: State) {
    TokenInv(s) && FiredInv(s)
  }

  /** Only the newest run may be outstanding, and whoever starts next will wait for it. */
  ghost predicate LatestInv(s: State) {
    forall r :: 0 <= r < |s.runs| && Outstanding(s, r) ==>
      && r == |s.runs| - 1
      && (s.cell.finished == Some(FinishedOf(r)) || HolderPc(s) == AwaitPrevious(FinishedOf(r)) || HolderPc(s) == ToInstall(r))
  }

  ghost predicate HolderInv(s: State) {
    var pc := HolderPc(s);
    && (pc.ToTakeFinished? || pc.AwaitPrevious? || pc.Recheck? || pc.ToOpenInput? || pc.ToInstall? ==>
          s.cell.activeRun == None && s.cell.liveInput == None)
    && (pc.AwaitPrevious? || pc.Recheck? || pc.ToOpenInput? || pc.ToInstall? ==> s.cell.finished == None)
    && (pc.AwaitPrevious? ==> |s.runs| > 0 && pc.previous == FinishedOf(|s.runs| - 1))
    && (pc.ToInstall? || pc.ToAnnounce? || pc.ToSpawn? ==>
          && pc.run == |s.runs| - 1 && pc.run >= 0 && s.runs[pc.run].task.Unspawned?
          && s.runs[pc.run].interactive == s.starters[s.startLock.value].interactive)
    && (pc.ToInstall? ==> CancelOf(pc.run) !in s.cell.fired)
    && (pc.ToAnnounce? || pc.ToSpawn? ==> s.cell.finished == Some(FinishedOf(pc.run)))
    && (pc.ToAnnounce? ==> s.runs[pc.run].interactive)
  }

  ghost predicate UnspawnedInv(s: State) {
    forall r :: 0 <= r < |s.runs| && s.runs[r].task.Unspawned? ==>
      && (HolderPc(s) == ToInstall(r) || HandingOver(HolderPc(s), r))
      && s.runs[r].forward.Idle? && s.runs[r].queue == 0
  }

  /** A run task looks at its slot only after its forwarder has drained and closed. */
  ghost predicate DrainInv(s: State) {
    forall r :: 0 <= r < |s.runs| && Drained(s.runs[r].task) ==> s.runs[r].forward.Closed?
  }

  /** The watchdog of a crashed run that owned its slot: nobody cancelled it. */
  ghost predicate CrashInv(s: State) {
    && (forall r :: 0 <= r < |s.runs| && (s.runs[r].watch.ToReset? || Resetting(s.runs[r].watch)) ==> s.runs[r].task.Panicked?)
    && (forall r :: 0 <= r < |s.runs| && Resetting(s.runs[r].watch) ==> CancelOf(r) !in s.cell.fired)
  }

  /** Installed, and nothing has ended it yet. */
  predicate Owning(s: State, r: RunId)
    requires r < |s.runs|
  {
    && CancelOf(r) !in s.cell.fired
    && (Spawned(s.runs[r].task) || HandingOver(HolderPc(s), r))
    && !s.runs[r].task.Ended?
    && (s.runs[r].task.Panicked? ==> s.runs[r].watch.Watching? || s.runs[r].watch.ToReset?)
  }

  /** No run is orphaned: one that is neither cancelled nor over is the active one. */
  ghost predicate OwnerInv(s: State) {
    forall r :: 0 <= r < |s.runs| && Owning(s, r) ==> s.cell.activeRun == Some(r)
  }

  ghost predicate StdinInv(s: State) {
    s.liveStdin.Some? ==>
      |s.runs| > 0 && s.liveStdin.value == |s.runs| - 1 && s.runs[|s.runs| - 1].interactive
  }

  /** A sender outlives its run's slot only when the run panicked. */
  ghost predicate SenderInv(s: State) {
    s.cell.liveInput.Some? ==>
      var r := s.cell.liveInput.value;
      r == |s.runs| - 1 && r >= 0 && s.runs[r].interactive && (s.cell.activeRun == Some(r) || s.runs[r].task.Panicked?)
  }

  ghost predicate TakenInv(s: State) {
    && (forall k :: 0 <= k < |s.taken| ==> s.taken[k].taker < |s.runs|)
    && (s.expired == {} ==>
          forall k :: 0 <= k < |s.taken| ==> s.taken[k].receiver == s.taken[k].taker && s.runs[s.taken[k].taker].interactive)
  }

  /** Has left the pending slot, for an auto run to start. */
  predicate PastSlot(pc: StartPc) {
    pc.AwaitLock? || Critical(pc)
  }

  /** An auto run leaves the slot only right after it was put there. */
  ghost predicate LogInv(s: State) {
    forall k :: 0 <= k < |s.slotLog| && s.slotLog[k].Left? ==> k > 0 && s.slotLog[k - 1] == Put(s.slotLog[k].tag)
  }

  ghost predicate LeftInv(s: State) {
    && (forall i :: 0 <= i < |s.starters| && s.starters[i].origin.Auto? && PastSlot(s.starters[i].pc) ==>
          Left(s.starters[i].origin.tag) in s.slotLog)
    && (forall r :: 0 <= r < |s.runs| && s.runs[r].origin.Auto? ==> Left(s.runs[r].origin.tag) in s.slotLog)
  }

  /** A debounce task that made a run is on its way out. */
  ghost predicate MadeInv(s: State) {
    forall i, r :: 0 <= i < |s.starters| && 0 <= r < |s.runs| && s.runs[r].origin.Auto? && s.starters[i].origin == s.runs[r].origin ==>
      s.starters[i].pc.Returned? || s.starters[i].pc == ToInstall(r) || HandingOver(s.starters[i].pc, r)
  }

  /** One debounce task starts at most one run. */
  ghost predicate OriginInv(s: State) {
    && (forall r :: 0 <= r < |s.runs| && s.runs[r].origin.Auto? ==> s.runs[r].origin.tag <= s.cell.debounceSeq)
    && (forall q, r :: 0 <= q < r < |s.runs| && s.runs[q].origin.Auto? ==> s.runs[q].origin != s.runs[r].origin)
  }

  ghost predicate Inv(s: State) {
    && LockInv(s)
    && TagInv(s)
    && PendingInv(s)
    && AbortInv(s)
    && SlotInv(s)
    && FinishedInv(s)
    && LatestInv(s)
    && HolderInv(s)
    && UnspawnedInv(s)
    && DrainInv(s)
    && CrashInv(s)
    && OwnerInv(s)
    && StdinInv(s)
    && SenderInv(s)
    && TakenInv(s)
    && LogInv(s)
    && LeftInv(s)
    && MadeInv(s)
    && OriginInv(s)
  }

  // ---- what the steps of one kind leave alone -----------------------------------------------

  /** A start step changes runs and cell in few ways. */
  lemma {:induction false} StartRuns(s: State, i: TaskId, a: StartAction)
    requires i < |s.starters| && StartEnabled(s, i, a)
    ensures var t, me := StartNext(s, i, a), s.starters[i];
            && t.runs == (if a.OpenInput? then s.runs + [Run(me.origin, me.version, me.interactive, Unspawned, 0, Idle, Watching)]
                          else if a.Spawn? then s.runs[me.pc.run := s.runs[me.pc.run].(task := Queued)]
                          else s.runs)
            && t.cell == (if a.StartCancel? then Cancelled(s.cell)
                          else if a.TakeFinished? then s.cell.(finished := None)
                          else if a.Install? then Installed(s.cell, me.pc.run, me.interactive)
                          else s.cell.(debounce := t.cell.debounce))
            && t.expired == (if a.GraceExpires? then s.expired + {me.pc.previous.run} else s.expired)
            && t.taken == s.taken
            && (a.TakeFinished? ==> t.starters[i].pc == if s.cell.finished.Some? then AwaitPrevious(s.cell.finished.value) else ToOpenInput)
            && (a.OpenInput? ==> t.starters[i].pc == ToInstall(|s.runs|))
            && (a.Install? ==> HandingOver(t.starters[i].pc, me.pc.run))
            && (a.Announce? ==> t.starters[i].pc == ToSpawn(me.pc.run))
            && (a.Spawn? || a.Die? ==> t.starters[i].pc == Returned)
            && (!a.TakeFinished? && !a.OpenInput? && !a.Install? && !a.Announce? && !a.Spawn? && !a.Die? ==>
                  !me.pc.ToInstall? && !me.pc.ToAnnounce? && !me.pc.ToSpawn?)
  {}

  /** It moves one starter's counter, and neither forgets nor forges where a starter comes from. */
  lemma {:induction false} StartOrigins(s: State, i: TaskId, a: StartAction)
    requires i < |s.starters| && StartEnabled(s, i, a)
    ensures var t := StartNext(s, i, a);
            && |t.starters| == |s.starters| && !s.starters[i].pc.Returned?
            && (forall j :: 0 <= j < |s.starters| ==> t.starters[j].origin == s.starters[j].origin)
            && (forall j :: 0 <= j < |s.starters| && j != i ==> t.starters[j] == s.starters[j])
  {}

  /** A task step changes its own run's task and queue, and gives back its slot at most. */
  lemma {:induction false} TaskFrame(s: State, r: RunId, a: TaskAction)
    requires r < |s.runs| && TaskEnabled(s, r, a)
    ensures var t := TaskNext(s, r, a);
            && t.starters == s.starters && t.startLock == s.startLock && t.expired == s.expired
            && t.slotLog == s.slotLog && HolderPc(t) == HolderPc(s)
            && |t.runs| == |s.runs| && t.runs == s.runs[r := s.runs[r].(task := t.runs[r].task, queue := t.runs[r].queue)]
            && t.cell == (if a.ReleaseSlot? then Released(s.cell, r) else s.cell)
            && (t.runs[r].task.Ended? <==> a.ReleaseSlot?)
            && !s.runs[r].task.Unspawned? && !t.runs[r].task.Unspawned?
            && (s.runs[r].task.Panicked? <==> TaskOver(s.runs[r].task))
            && (s.runs[r].task.Panicked? ==> t.runs[r].task.Panicked?)
            && (if a.TakeInput? && s.liveStdin.Some? then
                  t.taken == s.taken + [Taken(s.liveStdin.value, r)] && t.liveStdin == None && s.runs[r].task.Running?
                else t.taken == s.taken && t.liveStdin == s.liveStdin)
  {}

  lemma {:induction false} ForwardFrame(s: State, r: RunId, a: ForwardAction)
    requires r < |s.runs| && ForwardEnabled(s.runs[r], a)
    ensures var t := ForwardNext(s, r, a);
            && t.starters == s.starters && t.startLock == s.startLock && t.expired == s.expired
            && t.slotLog == s.slotLog && HolderPc(t) == HolderPc(s)
            && |t.runs| == |s.runs| && t.runs == s.runs[r := s.runs[r].(forward := t.runs[r].forward, queue := t.runs[r].queue)]
            && t.cell == s.cell && t.liveStdin == s.liveStdin && t.taken == s.taken
  {}

  lemma {:induction false} WatchFrame(s: State, r: RunId, a: WatchAction)
    requires r < |s.runs| && WatchEnabled(s.runs[r], a)
    ensures var t := WatchNext(s, r, a);
            && t.starters == s.starters && t.startLock == s.startLock && t.expired == s.expired
            && t.slotLog == s.slotLog && HolderPc(t) == HolderPc(s)
            && |t.runs| == |s.runs| && t.runs == s.runs[r := s.runs[r].(watch := t.runs[r].watch)]
            && t.cell == (if a.Observe? then s.cell.(fired := s.cell.fired + {FinishedOf(r)})
                          else if a.ResetSlot? then Reset(s.cell, r) else s.cell)
            && t.liveStdin == s.liveStdin && t.taken == s.taken
  {}

  lemma {:induction false} InitInv(s: State)
    requires Init(s)
    ensures Inv(s)
  {}

  lemma {:induction false} SessionKeepsTasks(s: State, a: SessionAction)
    requires SessionEnabled(s, a)
    requires LockInv(s) && TagInv(s) && PendingInv(s) && AbortInv(s)
    ensures LockInv(SessionNext(s, a)) && TagInv(SessionNext(s, a)) && PendingInv(SessionNext(s, a)) && AbortInv(SessionNext(s, a))
  {}

  lemma {:induction false} SessionKeepsHistory(s: State, a: SessionAction)
    requires SessionEnabled(s, a)
    requires LogInv(s) && PendingInv(s) && LeftInv(s) && MadeInv(s) && OriginInv(s) && TagInv(s)
    ensures LogInv(SessionNext(s, a)) && LeftInv(SessionNext(s, a)) && MadeInv(SessionNext(s, a)) && OriginInv(SessionNext(s, a))
  {}

  lemma {:induction false} SessionKeepsSlot(s: State, a: SessionAction)
    requires SessionEnabled(s, a)
    requires SlotInv(s) && LockInv(s) && AbortInv(s) && HolderInv(s) && FinishedInv(s)
    ensures SlotInv(SessionNext(s, a))
  {}

  lemma {:induction false} SessionKeepsOwner(s: State, a: SessionAction)
    requires SessionEnabled(s, a)
    requires OwnerInv(s) && LockInv(s) && FinishedInv(s) && SlotInv(s)
    ensures OwnerInv(SessionNext(s, a))
  {}

  lemma {:induction false} SessionKeepsFinished(s: State, a: SessionAction)
    requires SessionEnabled(s, a)
    requires FinishedInv(s) && SlotInv(s)
    ensures FinishedInv(SessionNext(s, a))
  {}

  lemma {:induction false} SessionKeepsLatest(s: State, a: SessionAction)
    requires SessionEnabled(s, a)
    requires LatestInv(s) && LockInv(s) && AbortInv(s) && FinishedInv(s)
    ensures LatestInv(SessionNext(s, a))
  {}

  lemma {:induction false} SessionKeepsHolder(s: State, a: SessionAction)
    requires SessionEnabled(s, a)
    requires HolderInv(s) && LockInv(s) && SlotInv(s) && AbortInv(s) && FinishedInv(s)
    ensures HolderInv(SessionNext(s, a))
  {}

  lemma {:induction false} SessionKeepsRuns(s: State, a: SessionAction)
    requires SessionEnabled(s, a)
    requires UnspawnedInv(s) && LockInv(s) && AbortInv(s) && HolderInv(s) && DrainInv(s) && CrashInv(s) && SlotInv(s)
    ensures UnspawnedInv(SessionNext(s, a)) && DrainInv(SessionNext(s, a)) && CrashInv(SessionNext(s, a))
  {}

  lemma {:induction false} SessionKeepsStdin(s: State, a: SessionAction)
    requires SessionEnabled(s, a)
    requires StdinInv(s)
    ensures StdinInv(SessionNext(s, a))
  {}

  lemma {:induction false} SessionKeepsSender(s: State, a: SessionAction)
    requires SessionEnabled(s, a)
    requires SenderInv(s) && SlotInv(s)
    ensures SenderInv(SessionNext(s, a))
  {}

  lemma {:induction false} SessionKeepsTaken(s: State, a: SessionAction)
    requires SessionEnabled(s, a)
    requires TakenInv(s)
    ensures TakenInv(SessionNext(s, a))
  {}

  lemma {:induction false} UpdateKeepsTasks(s: State, u: nat, a: UpdateAction)
    requires u < |s.updates| && UpdateEnabled(s.updates[u], a)
    requires LockInv(s) && TagInv(s) && PendingInv(s) && AbortInv(s)
    ensures LockInv(UpdateNext(s, u, a)) && TagInv(UpdateNext(s, u, a)) && PendingInv(UpdateNext(s, u, a)) && AbortInv(UpdateNext(s, u, a))
  {}

  lemma {:induction false} UpdateKeepsHistory(s: State, u: nat, a: UpdateAction)
    requires u < |s.updates| && UpdateEnabled(s.updates[u], a)
    requires LogInv(s) && PendingInv(s) && LeftInv(s) && MadeInv(s) && OriginInv(s) && TagInv(s)
    ensures LogInv(UpdateNext(s, u, a)) && LeftInv(UpdateNext(s, u, a)) && MadeInv(UpdateNext(s, u, a)) && OriginInv(UpdateNext(s, u, a))
  {}

  lemma {:induction false} UpdateKeepsSlot(s: State, u: nat, a: UpdateAction)
    requires u < |s.updates| && UpdateEnabled(s.updates[u], a)
    requires SlotInv(s) && LockInv(s) && AbortInv(s) && HolderInv(s) && FinishedInv(s)
    ensures SlotInv(UpdateNext(s, u, a))
  {}

  lemma {:induction false} UpdateKeepsOwner(s: State, u: nat, a: UpdateAction)
    requires u < |s.updates| && UpdateEnabled(s.updates[u], a)
    requires OwnerInv(s) && LockInv(s) && FinishedInv(s) && SlotInv(s)
    ensures OwnerInv(UpdateNext(s, u, a))
  {}

  lemma {:induction false} UpdateKeepsFinished(s: State, u: nat, a: UpdateAction)
    requires u < |s.updates| && UpdateEnabled(s.updates[u], a)
    requires FinishedInv(s) && SlotInv(s)
    ensures FinishedInv(UpdateNext(s, u, a))
  {}

  lemma {:induction false} UpdateKeepsLatest(s: State, u: nat, a: UpdateAction)
    requires u < |s.updates| && UpdateEnabled(s.updates[u], a)
    requires LatestInv(s) && LockInv(s) && AbortInv(s) && FinishedInv(s)
    ensures LatestInv(UpdateNext(s, u, a))
  {}

  lemma {:induction false} UpdateKeepsHolder(s: State, u: nat, a: UpdateAction)
    requires u < |s.updates| && UpdateEnabled(s.updates[u], a)
    requires HolderInv(s) && LockInv(s) && SlotInv(s) && AbortInv(s) && FinishedInv(s)
    ensures HolderInv(UpdateNext(s, u, a))
  {}

  lemma {:induction false} UpdateKeepsRuns(s: State, u: nat, a: UpdateAction)
    requires u < |s.updates| && UpdateEnabled(s.updates[u], a)
    requires UnspawnedInv(s) && LockInv(s) && AbortInv(s) && HolderInv(s) && DrainInv(s) && CrashInv(s) && SlotInv(s)
    ensures UnspawnedInv(UpdateNext(s, u, a)) && DrainInv(UpdateNext(s, u, a)) && CrashInv(UpdateNext(s, u, a))
  {}

  lemma {:induction false} UpdateKeepsStdin(s: State, u: nat, a: UpdateAction)
    requires u < |s.updates| && UpdateEnabled(s.updates[u], a)
    requires StdinInv(s)
    ensures StdinInv(UpdateNext(s, u, a))
  {}

  lemma {:induction false} UpdateKeepsSender(s: State, u: nat, a: UpdateAction)
    requires u < |s.updates| && UpdateEnabled(s.updates[u], a)
    requires SenderInv(s) && SlotInv(s)
    ensures SenderInv(UpdateNext(s, u, a))
  {}

  lemma {:induction false} UpdateKeepsTaken(s: State, u: nat, a: UpdateAction)
    requires u < |s.updates| && UpdateEnabled(s.updates[u], a)
    requires TakenInv(s)
    ensures TakenInv(UpdateNext(s, u, a))
  {}

  lemma {:induction false} StartKeepsLock(s: State, i: TaskId, a: StartAction)
    requires i < |s.starters| && StartEnabled(s, i, a)
    requires LockInv(s)
    ensures LockInv(StartNext(s, i, a))
  {}

  lemma {:induction false} StartKeepsTag(s: State, i: TaskId, a: StartAction)
    requires i < |s.starters| && StartEnabled(s, i, a)
    requires TagInv(s)
    ensures TagInv(StartNext(s, i, a))
  {
    hide StartNext;
    StartRuns(s, i, a);
    StartOrigins(s, i, a);
  }

  lemma {:induction false} StartKeepsPending(s: State, i: TaskId, a: StartAction)
    requires i < |s.starters| && StartEnabled(s, i, a)
    requires PendingInv(s) && AbortInv(s)
    ensures PendingInv(StartNext(s, i, a))
  {
    if s.cell.debounce.Some? && s.cell.debounce.value.1 != i {
      var h := s.cell.debounce.value.1;
      assert StartNext(s, i, a).starters[h] == s.starters[h];
    }
  }

  lemma {:induction false} StartKeepsAbort(s: State, i: TaskId, a: StartAction)
    requires i < |s.starters| && StartEnabled(s, i, a)
    requires AbortInv(s) && PendingInv(s) && TagInv(s)
    ensures AbortInv(StartNext(s, i, a))
  {}

  lemma {:induction false} StartKeepsSlot(s: State, i: TaskId, a: StartAction)
    requires i < |s.starters| && StartEnabled(s, i, a)
    requires SlotInv(s) && LockInv(s) && AbortInv(s) && HolderInv(s) && UnspawnedInv(s) && FinishedInv(s)
    ensures SlotInv(StartNext(s, i, a))
  {
    hide StartNext, HolderPc, LockInv;
    StartHolder(s, i, a);
    StartRuns(s, i, a);
  }

  lemma {:induction false} StartKeepsFinished(s: State, i: TaskId, a: StartAction)
    requires i < |s.starters| && StartEnabled(s, i, a)
    requires FinishedInv(s) && LockInv(s) && HolderInv(s) && SlotInv(s)
    ensures FinishedInv(StartNext(s, i, a))
  {
    hide StartNext, TokenInv, FiredInv, LockInv, HolderInv, SlotInv;
    StartKeepsToken(s, i, a);
    StartKeepsFired(s, i, a);
  }

  lemma {:induction false} StartKeepsToken(s: State, i: TaskId, a: StartAction)
    requires i < |s.starters| && StartEnabled(s, i, a)
    requires TokenInv(s) && LockInv(s) && HolderInv(s)
    ensures TokenInv(StartNext(s, i, a))
  {}

  lemma {:induction false} StartKeepsFired(s: State, i: TaskId, a: StartAction)
    requires i < |s.starters| && StartEnabled(s, i, a)
    requires FiredInv(s) && TokenInv(s) && LockInv(s) && HolderInv(s) && SlotInv(s)
    ensures FiredInv(StartNext(s, i, a))
  {
    hide StartNext, HolderPc, LockInv;
    StartHolder(s, i, a);
    StartRuns(s, i, a);
  }

  lemma {:induction false} StartKeepsLatest(s: State, i: TaskId, a: StartAction)
    requires i < |s.starters| && StartEnabled(s, i, a)
    requires LatestInv(s) && LockInv(s) && AbortInv(s) && HolderInv(s) && FinishedInv(s)
    ensures LatestInv(StartNext(s, i, a))
  {
    hide StartNext, HolderPc, LockInv;
    StartHolder(s, i, a);
    StartRuns(s, i, a);
  }

  lemma {:induction false} StartKeepsHolder(s: State, i: TaskId, a: StartAction)
    requires i < |s.starters| && StartEnabled(s, i, a)
    requires HolderInv(s) && LockInv(s) && AbortInv(s) && FinishedInv(s) && LatestInv(s) && SlotInv(s)
    ensures HolderInv(StartNext(s, i, a))
  {
    hide StartNext, HolderPc, LockInv, FinishedInv, LatestInv, SlotInv;
    StartHolder(s, i, a);
    StartRuns(s, i, a);
    StartCounter(s, i, a);
    StartSlots(s, i, a);
  }

  /** Where a start step leaves the counter of the task that takes it. */
  lemma {:induction false} StartCounter(s: State, i: TaskId, a: StartAction)
    requires i < |s.starters| && StartEnabled(s, i, a)
    ensures var pc, me := StartNext(s, i, a).starters[i].pc, s.starters[i];
            && (a.Wake? ==> pc.AwaitLock? || pc.Returned?)
            && (a.Acquire? ==> pc.CheckVersion?)
            && (a.FirstCheck? ==> pc.ToCancel? || pc.Returned?)
            && (a.StartCancel? ==> pc.ToTakeFinished?)
            && (a.PreviousEnded? || a.GraceExpires? ==> pc.Recheck?)
            && (a.SecondCheck? ==> pc.ToOpenInput? || pc.Returned?)
            && (a.Install? ==> pc == if me.interactive then ToAnnounce(me.pc.run) else ToSpawn(me.pc.run))
  {}

  /** What a start step does to the holder of the start lock. */
  lemma {:induction false} StartHolder(s: State, i: TaskId, a: StartAction)
    requires i < |s.starters| && StartEnabled(s, i, a) && LockInv(s)
    ensures var t := StartNext(s, i, a);
            && |t.starters| == |s.starters|
            && (forall j :: 0 <= j < |s.starters| ==> t.starters[j].interactive == s.starters[j].interactive)
            && (if s.startLock.Some? then s.startLock.value < |s.starters| else HolderPc(s) == Returned)
            && (Critical(s.starters[i].pc) ==> s.startLock == Some(i) && HolderPc(s) == s.starters[i].pc)
            && (if a.Acquire? then t.startLock == Some(i) && HolderPc(t) == CheckVersion
                else if !Critical(s.starters[i].pc) then t.startLock == s.startLock && HolderPc(t) == HolderPc(s)
                else if t.starters[i].pc.Returned? then HolderPc(t) == Returned
                else t.startLock == Some(i) && HolderPc(t) == t.starters[i].pc)
  {}

  /** Tokens a start step meets are those of runs already made. */
  lemma {:induction false} StartSlots(s: State, i: TaskId, a: StartAction)
    requires i < |s.starters| && StartEnabled(s, i, a) && FinishedInv(s)
    ensures CancelOf(|s.runs|) !in s.cell.fired
    ensures s.cell.finished.Some? ==> |s.runs| > 0 && s.cell.finished == Some(FinishedOf(|s.runs| - 1))
  {}

  lemma {:induction false} StartKeepsUnspawned(s: State, i: TaskId, a: StartAction)
    requires i < |s.starters| && StartEnabled(s, i, a)
    requires UnspawnedInv(s) && LockInv(s) && AbortInv(s) && HolderInv(s)
    ensures UnspawnedInv(StartNext(s, i, a))
  {
    hide HolderPc, LockInv;
    StartHolder(s, i, a);
  }

  lemma {:induction false} StartKeepsDrain(s: State, i: TaskId, a: StartAction)
    requires i < |s.starters| && StartEnabled(s, i, a)
    requires DrainInv(s)
    ensures DrainInv(StartNext(s, i, a))
  {}

  lemma {:induction false} StartKeepsCrash(s: State, i: TaskId, a: StartAction)
    requires i < |s.starters| && StartEnabled(s, i, a)
    requires CrashInv(s) && SlotInv(s)
    ensures CrashInv(StartNext(s, i, a))
  {}

  lemma {:induction false} StartKeepsOwner(s: State, i: TaskId, a: StartAction)
    requires i < |s.starters| && StartEnabled(s, i, a)
    requires OwnerInv(s) && LockInv(s) && AbortInv(s) && HolderInv(s) && UnspawnedInv(s) && SlotInv(s) && FinishedInv(s)
    ensures OwnerInv(StartNext(s, i, a))
  {
    hide StartNext, HolderPc, LockInv;
    StartHolder(s, i, a);
    StartRuns(s, i, a);
  }

  lemma {:induction false} StartKeepsStdin(s: State, i: TaskId, a: StartAction)
    requires i < |s.starters| && StartEnabled(s, i, a)
    requires StdinInv(s)
    ensures StdinInv(StartNext(s, i, a))
  {}

  lemma {:induction false} StartKeepsSender(s: State, i: TaskId, a: StartAction)
    requires i < |s.starters| && StartEnabled(s, i, a)
    requires SenderInv(s) && LockInv(s) && AbortInv(s) && HolderInv(s) && SlotInv(s) && CrashInv(s)
    ensures SenderInv(StartNext(s, i, a))
  {
    hide StartNext, HolderPc, LockInv;
    StartHolder(s, i, a);
    StartRuns(s, i, a);
  }

  lemma {:induction false} StartKeepsTaken(s: State, i: TaskId, a: StartAction)
    requires i < |s.starters| && StartEnabled(s, i, a)
    requires TakenInv(s) && StdinInv(s) && LatestInv(s) && FinishedInv(s)
    ensures TakenInv(StartNext(s, i, a))
  {}

  lemma {:induction false} StartKeepsLog(s: State, i: TaskId, a: StartAction)
    requires i < |s.starters| && StartEnabled(s, i, a)
    requires LogInv(s) && PendingInv(s)
    ensures LogInv(StartNext(s, i, a))
  {}

  lemma {:induction false} StartKeepsLeft(s: State, i: TaskId, a: StartAction)
    requires i < |s.starters| && StartEnabled(s, i, a)
    requires LeftInv(s)
    ensures LeftInv(StartNext(s, i, a))
  {}

  lemma {:induction false} StartKeepsMade(s: State, i: TaskId, a: StartAction)
    requires i < |s.starters| && StartEnabled(s, i, a)
    requires MadeInv(s) && OriginInv(s) && TagInv(s)
    ensures MadeInv(StartNext(s, i, a))
  {
    hide StartNext;
    StartRuns(s, i, a);
    StartOrigins(s, i, a);
  }

  lemma {:induction false} StartKeepsOrigin(s: State, i: TaskId, a: StartAction)
    requires i < |s.starters| && StartEnabled(s, i, a)
    requires OriginInv(s) && MadeInv(s) && TagInv(s)
    ensures OriginInv(StartNext(s, i, a))
  {
    hide StartNext;
    StartRuns(s, i, a);
    StartOrigins(s, i, a);
  }

  lemma {:induction false} TaskKeepsLock(s: State, r: RunId, a: TaskAction)
    requires r < |s.runs| && TaskEnabled(s, r, a)
    requires LockInv(s) && AbortInv(s)
    ensures LockInv(TaskNext(s, r, a)) && AbortInv(TaskNext(s, r, a))
  {}

  lemma {:induction false} TaskKeepsPending(s: State, r: RunId, a: TaskAction)
    requires r < |s.runs| && TaskEnabled(s, r, a)
    requires TagInv(s) && PendingInv(s)
    ensures TagInv(TaskNext(s, r, a)) && PendingInv(TaskNext(s, r, a))
  {}

  lemma {:induction false} TaskKeepsLog(s: State, r: RunId, a: TaskAction)
    requires r < |s.runs| && TaskEnabled(s, r, a)
    requires LogInv(s)
    ensures LogInv(TaskNext(s, r, a))
  {}

  lemma {:induction false} TaskKeepsLeft(s: State, r: RunId, a: TaskAction)
    requires r < |s.runs| && TaskEnabled(s, r, a)
    requires LeftInv(s)
    ensures LeftInv(TaskNext(s, r, a))
  {}

  lemma {:induction false} TaskKeepsMade(s: State, r: RunId, a: TaskAction)
    requires r < |s.runs| && TaskEnabled(s, r, a)
    requires MadeInv(s)
    ensures MadeInv(TaskNext(s, r, a))
  {}

  lemma {:induction false} TaskKeepsOrigin(s: State, r: RunId, a: TaskAction)
    requires r < |s.runs| && TaskEnabled(s, r, a)
    requires OriginInv(s)
    ensures OriginInv(TaskNext(s, r, a))
  {}

  lemma {:induction false} TaskKeepsSlot(s: State, r: RunId, a: TaskAction)
    requires r < |s.runs| && TaskEnabled(s, r, a)
    requires SlotInv(s) && LockInv(s) && AbortInv(s) && HolderInv(s) && UnspawnedInv(s) && FinishedInv(s)
    ensures SlotInv(TaskNext(s, r, a))
  {
    hide TaskNext, TaskEnabled, HolderPc, SetRun;
    TaskFrame(s, r, a);
  }

  lemma {:induction false} TaskKeepsOwner(s: State, r: RunId, a: TaskAction)
    requires r < |s.runs| && TaskEnabled(s, r, a)
    requires SlotInv(s) && LockInv(s) && HolderInv(s) && UnspawnedInv(s) && FinishedInv(s) && OwnerInv(s)
    ensures OwnerInv(TaskNext(s, r, a))
  {
    hide TaskNext, TaskEnabled, HolderPc, SetRun;
    TaskFrame(s, r, a);
  }

  lemma {:induction false} TaskKeepsFinished(s: State, r: RunId, a: TaskAction)
    requires r < |s.runs| && TaskEnabled(s, r, a)
    requires FinishedInv(s)
    ensures FinishedInv(TaskNext(s, r, a))
  {
    hide TaskNext, TaskEnabled, HolderPc, SetRun;
    TaskFrame(s, r, a);
  }

  lemma {:induction false} TaskKeepsLatest(s: State, r: RunId, a: TaskAction)
    requires r < |s.runs| && TaskEnabled(s, r, a)
    requires LatestInv(s) && FinishedInv(s)
    ensures LatestInv(TaskNext(s, r, a))
  {}

  lemma {:induction false} TaskKeepsUnspawned(s: State, r: RunId, a: TaskAction)
    requires r < |s.runs| && TaskEnabled(s, r, a)
    requires UnspawnedInv(s)
    ensures UnspawnedInv(TaskNext(s, r, a))
  {}

  lemma {:induction false} TaskKeepsDrain(s: State, r: RunId, a: TaskAction)
    requires r < |s.runs| && TaskEnabled(s, r, a)
    requires DrainInv(s)
    ensures DrainInv(TaskNext(s, r, a))
  {}

  lemma {:induction false} TaskKeepsCrash(s: State, r: RunId, a: TaskAction)
    requires r < |s.runs| && TaskEnabled(s, r, a)
    requires CrashInv(s)
    ensures CrashInv(TaskNext(s, r, a))
  {}

  lemma {:induction false} TaskKeepsStdin(s: State, r: RunId, a: TaskAction)
    requires r < |s.runs| && TaskEnabled(s, r, a)
    requires StdinInv(s)
    ensures StdinInv(TaskNext(s, r, a))
  {}

  lemma {:induction false} TaskKeepsSender(s: State, r: RunId, a: TaskAction)
    requires r < |s.runs| && TaskEnabled(s, r, a)
    requires SenderInv(s) && SlotInv(s) && LockInv(s) && HolderInv(s)
    ensures SenderInv(TaskNext(s, r, a))
  {
    hide TaskNext, TaskEnabled, HolderPc, SetRun;
    TaskFrame(s, r, a);
  }

  lemma {:induction false} TaskKeepsTaken(s: State, r: RunId, a: TaskAction)
    requires r < |s.runs| && TaskEnabled(s, r, a)
    requires TakenInv(s) && StdinInv(s) && LatestInv(s) && FinishedInv(s) && UnspawnedInv(s) && HolderInv(s)
    ensures TakenInv(TaskNext(s, r, a))
  {
    hide TaskNext, TaskEnabled, HolderPc, SetRun;
    TaskFrame(s, r, a);
  }

  lemma {:induction false} TaskKeepsHolder(s: State, r: RunId, a: TaskAction)
    requires r < |s.runs| && TaskEnabled(s, r, a)
    requires HolderInv(s) && LockInv(s) && AbortInv(s) && FinishedInv(s) && LatestInv(s) && SlotInv(s)
    ensures HolderInv(TaskNext(s, r, a))
  {
    hide TaskNext, TaskEnabled, HolderPc, SetRun;
    TaskFrame(s, r, a);
  }

  lemma {:induction false} ForwardKeepsTasks(s: State, r: RunId, a: ForwardAction)
    requires r < |s.runs| && ForwardEnabled(s.runs[r], a)
    requires LockInv(s) && TagInv(s) && PendingInv(s) && AbortInv(s)
    ensures LockInv(ForwardNext(s, r, a)) && TagInv(ForwardNext(s, r, a)) && PendingInv(ForwardNext(s, r, a)) && AbortInv(ForwardNext(s, r, a))
  {}

  lemma {:induction false} ForwardKeepsHistory(s: State, r: RunId, a: ForwardAction)
    requires r < |s.runs| && ForwardEnabled(s.runs[r], a)
    requires LogInv(s) && PendingInv(s) && LeftInv(s) && MadeInv(s) && OriginInv(s) && TagInv(s)
    ensures LogInv(ForwardNext(s, r, a)) && LeftInv(ForwardNext(s, r, a)) && MadeInv(ForwardNext(s, r, a)) && OriginInv(ForwardNext(s, r, a))
  {}

  lemma {:induction false} ForwardKeepsSlot(s: State, r: RunId, a: ForwardAction)
    requires r < |s.runs| && ForwardEnabled(s.runs[r], a)
    requires SlotInv(s) && LockInv(s) && AbortInv(s) && HolderInv(s) && UnspawnedInv(s) && FinishedInv(s) && OwnerInv(s)
    ensures SlotInv(ForwardNext(s, r, a)) && OwnerInv(ForwardNext(s, r, a))
  {
    hide ForwardNext, HolderPc, LockInv;
    ForwardFrame(s, r, a);
  }

  lemma {:induction false} ForwardKeepsFinished(s: State, r: RunId, a: ForwardAction)
    requires r < |s.runs| && ForwardEnabled(s.runs[r], a)
    requires FinishedInv(s) && SlotInv(s)
    ensures FinishedInv(ForwardNext(s, r, a))
  {}

  lemma {:induction false} ForwardKeepsLatest(s: State, r: RunId, a: ForwardAction)
    requires r < |s.runs| && ForwardEnabled(s.runs[r], a)
    requires LatestInv(s) && LockInv(s) && AbortInv(s) && FinishedInv(s)
    ensures LatestInv(ForwardNext(s, r, a))
  {}

  lemma {:induction false} ForwardKeepsHolder(s: State, r: RunId, a: ForwardAction)
    requires r < |s.runs| && ForwardEnabled(s.runs[r], a)
    requires HolderInv(s) && LockInv(s) && SlotInv(s) && AbortInv(s) && FinishedInv(s)
    ensures HolderInv(ForwardNext(s, r, a))
  {}

  lemma {:induction false} ForwardKeepsRuns(s: State, r: RunId, a: ForwardAction)
    requires r < |s.runs| && ForwardEnabled(s.runs[r], a)
    requires UnspawnedInv(s) && LockInv(s) && AbortInv(s) && HolderInv(s) && DrainInv(s) && CrashInv(s) && SlotInv(s)
    ensures UnspawnedInv(ForwardNext(s, r, a)) && DrainInv(ForwardNext(s, r, a)) && CrashInv(ForwardNext(s, r, a))
  {}

  lemma {:induction false} ForwardKeepsStdin(s: State, r: RunId, a: ForwardAction)
    requires r < |s.runs| && ForwardEnabled(s.runs[r], a)
    requires StdinInv(s)
    ensures StdinInv(ForwardNext(s, r, a))
  {}

  lemma {:induction false} ForwardKeepsSender(s: State, r: RunId, a: ForwardAction)
    requires r < |s.runs| && ForwardEnabled(s.runs[r], a)
    requires SenderInv(s) && SlotInv(s) && LockInv(s) && HolderInv(s) && CrashInv(s)
    ensures SenderInv(ForwardNext(s, r, a))
  {}

  lemma {:induction false} ForwardKeepsTaken(s: State, r: RunId, a: ForwardAction)
    requires r < |s.runs| && ForwardEnabled(s.runs[r], a)
    requires TakenInv(s)
    ensures TakenInv(ForwardNext(s, r, a))
  {}

  lemma {:induction false} WatchKeepsTasks(s: State, r: RunId, a: WatchAction)
    requires r < |s.runs| && WatchEnabled(s.runs[r], a)
    requires LockInv(s) && TagInv(s) && PendingInv(s) && AbortInv(s)
    ensures LockInv(WatchNext(s, r, a)) && TagInv(WatchNext(s, r, a)) && PendingInv(WatchNext(s, r, a)) && AbortInv(WatchNext(s, r, a))
  {}

  lemma {:induction false} WatchKeepsHistory(s: State, r: RunId, a: WatchAction)
    requires r < |s.runs| && WatchEnabled(s.runs[r], a)
    requires LogInv(s) && PendingInv(s) && LeftInv(s) && MadeInv(s) && OriginInv(s) && TagInv(s)
    ensures LogInv(WatchNext(s, r, a)) && LeftInv(WatchNext(s, r, a)) && MadeInv(WatchNext(s, r, a)) && OriginInv(WatchNext(s, r, a))
  {}

  lemma {:induction false} WatchKeepsSlot(s: State, r: RunId, a: WatchAction)
    requires r < |s.runs| && WatchEnabled(s.runs[r], a)
    requires SlotInv(s) && LockInv(s) && AbortInv(s) && HolderInv(s) && UnspawnedInv(s) && FinishedInv(s) && OwnerInv(s)
    ensures SlotInv(WatchNext(s, r, a)) && OwnerInv(WatchNext(s, r, a))
  {
    hide HolderPc, LockInv;
    WatchFrame(s, r, a);
  }

  lemma {:induction false} WatchKeepsFinished(s: State, r: RunId, a: WatchAction)
    requires r < |s.runs| && WatchEnabled(s.runs[r], a)
    requires FinishedInv(s) && SlotInv(s)
    ensures FinishedInv(WatchNext(s, r, a))
  {}

  lemma {:induction false} WatchKeepsLatest(s: State, r: RunId, a: WatchAction)
    requires r < |s.runs| && WatchEnabled(s.runs[r], a)
    requires LatestInv(s) && LockInv(s) && AbortInv(s) && FinishedInv(s)
    ensures LatestInv(WatchNext(s, r, a))
  {}

  lemma {:induction false} WatchKeepsHolder(s: State, r: RunId, a: WatchAction)
    requires r < |s.runs| && WatchEnabled(s.runs[r], a)
    requires HolderInv(s) && LockInv(s) && SlotInv(s) && AbortInv(s) && FinishedInv(s)
    ensures HolderInv(WatchNext(s, r, a))
  {}

  lemma {:induction false} WatchKeepsRuns(s: State, r: RunId, a: WatchAction)
    requires r < |s.runs| && WatchEnabled(s.runs[r], a)
    requires UnspawnedInv(s) && LockInv(s) && AbortInv(s) && HolderInv(s) && DrainInv(s) && CrashInv(s) && SlotInv(s)
    ensures UnspawnedInv(WatchNext(s, r, a)) && DrainInv(WatchNext(s, r, a)) && CrashInv(WatchNext(s, r, a))
  {}

  lemma {:induction false} WatchKeepsStdin(s: State, r: RunId, a: WatchAction)
    requires r < |s.runs| && WatchEnabled(s.runs[r], a)
    requires StdinInv(s)
    ensures StdinInv(WatchNext(s, r, a))
  {}

  lemma {:induction false} WatchKeepsSender(s: State, r: RunId, a: WatchAction)
    requires r < |s.runs| && WatchEnabled(s.runs[r], a)
    requires SenderInv(s) && SlotInv(s) && LockInv(s) && HolderInv(s) && CrashInv(s)
    ensures SenderInv(WatchNext(s, r, a))
  {}

  lemma {:induction false} WatchKeepsTaken(s: State, r: RunId, a: WatchAction)
    requires r < |s.runs| && WatchEnabled(s.runs[r], a)
    requires TakenInv(s)
    ensures TakenInv(WatchNext(s, r, a))
  {}

  lemma {:induction false} SessionKeeps(s: State, a: SessionAction)
    requires Inv(s) && SessionEnabled(s, a)
    ensures Inv(SessionNext(s, a))
  {
    hide SessionNext, LockInv, TagInv, PendingInv, AbortInv, SlotInv, FinishedInv, LatestInv, HolderInv, UnspawnedInv, DrainInv, CrashInv,
         OwnerInv, StdinInv, SenderInv, TakenInv, LogInv, LeftInv, MadeInv, OriginInv;
    SessionKeepsTasks(s, a);
    SessionKeepsHistory(s, a);
    SessionKeepsSlot(s, a);
    SessionKeepsOwner(s, a);
    SessionKeepsFinished(s, a);
    SessionKeepsLatest(s, a);
    SessionKeepsHolder(s, a);
    SessionKeepsRuns(s, a);
    SessionKeepsStdin(s, a);
    SessionKeepsSender(s, a);
    SessionKeepsTaken(s, a);
  }

  lemma {:induction false} UpdateKeeps(s: State, u: nat, a: UpdateAction)
    requires Inv(s) && u < |s.updates| && UpdateEnabled(s.updates[u], a)
    ensures Inv(UpdateNext(s, u, a))
  {
    hide UpdateNext, LockInv, TagInv, PendingInv, AbortInv, SlotInv, FinishedInv, LatestInv, HolderInv, UnspawnedInv, DrainInv, CrashInv,
         OwnerInv, StdinInv, SenderInv, TakenInv, LogInv, LeftInv, MadeInv, OriginInv;
    UpdateKeepsTasks(s, u, a);
    UpdateKeepsHistory(s, u, a);
    UpdateKeepsSlot(s, u, a);
    UpdateKeepsOwner(s, u, a);
    UpdateKeepsFinished(s, u, a);
    UpdateKeepsLatest(s, u, a);
    UpdateKeepsHolder(s, u, a);
    UpdateKeepsRuns(s, u, a);
    UpdateKeepsStdin(s, u, a);
    UpdateKeepsSender(s, u, a);
    UpdateKeepsTaken(s, u, a);
  }

  lemma {:induction false} StartKeeps(s: State, i: TaskId, a: StartAction)
    requires Inv(s) && i < |s.starters| && StartEnabled(s, i, a)
    ensures Inv(StartNext(s, i, a))
  {
    hide StartNext, LockInv, TagInv, PendingInv, AbortInv, SlotInv, FinishedInv, LatestInv, HolderInv, UnspawnedInv, DrainInv, CrashInv,
         OwnerInv, StdinInv, SenderInv, TakenInv, LogInv, LeftInv, MadeInv, OriginInv;
    StartKeepsLock(s, i, a);
    StartKeepsTag(s, i, a);
    StartKeepsPending(s, i, a);
    StartKeepsAbort(s, i, a);
    StartKeepsSlot(s, i, a);
    StartKeepsFinished(s, i, a);
    StartKeepsLatest(s, i, a);
    StartKeepsHolder(s, i, a);
    StartKeepsUnspawned(s, i, a);
    StartKeepsDrain(s, i, a);
    StartKeepsCrash(s, i, a);
    StartKeepsOwner(s, i, a);
    StartKeepsStdin(s, i, a);
    StartKeepsSender(s, i, a);
    StartKeepsTaken(s, i, a);
    StartKeepsLog(s, i, a);
    StartKeepsLeft(s, i, a);
    StartKeepsMade(s, i, a);
    StartKeepsOrigin(s, i, a);
  }

  lemma {:induction false} TaskKeeps(s: State, r: RunId, a: TaskAction)
    requires Inv(s) && r < |s.runs| && TaskEnabled(s, r, a)
    ensures Inv(TaskNext(s, r, a))
  {
    hide TaskNext, LockInv, TagInv, PendingInv, AbortInv, SlotInv, FinishedInv, LatestInv, HolderInv, UnspawnedInv, DrainInv, CrashInv,
         OwnerInv, StdinInv, SenderInv, TakenInv, LogInv, LeftInv, MadeInv, OriginInv;
    TaskKeepsLock(s, r, a);
    TaskKeepsPending(s, r, a);
    TaskKeepsLog(s, r, a);
    TaskKeepsLeft(s, r, a);
    TaskKeepsMade(s, r, a);
    TaskKeepsOrigin(s, r, a);
    TaskKeepsSlot(s, r, a);
    TaskKeepsOwner(s, r, a);
    TaskKeepsFinished(s, r, a);
    TaskKeepsLatest(s, r, a);
    TaskKeepsUnspawned(s, r, a);
    TaskKeepsDrain(s, r, a);
    TaskKeepsCrash(s, r, a);
    TaskKeepsStdin(s, r, a);
    TaskKeepsSender(s, r, a);
    TaskKeepsTaken(s, r, a);
    TaskKeepsHolder(s, r, a);
  }

  lemma {:induction false} ForwardKeeps(s: State, r: RunId, a: ForwardAction)
    requires Inv(s) && r < |s.runs| && ForwardEnabled(s.runs[r], a)
    ensures Inv(ForwardNext(s, r, a))
  {
    hide ForwardNext, LockInv, TagInv, PendingInv, AbortInv, SlotInv, FinishedInv, LatestInv, HolderInv, UnspawnedInv, DrainInv, CrashInv,
         OwnerInv, StdinInv, SenderInv, TakenInv, LogInv, LeftInv, MadeInv, OriginInv;
    ForwardKeepsTasks(s, r, a);
    ForwardKeepsHistory(s, r, a);
    ForwardKeepsSlot(s, r, a);
    ForwardKeepsFinished(s, r, a);
    ForwardKeepsLatest(s, r, a);
    ForwardKeepsHolder(s, r, a);
    ForwardKeepsRuns(s, r, a);
    ForwardKeepsStdin(s, r, a);
    ForwardKeepsSender(s, r, a);
    ForwardKeepsTaken(s, r, a);
  }

  lemma {:induction false} WatchKeeps(s: State, r: RunId, a: WatchAction)
    requires Inv(s) && r < |s.runs| && WatchEnabled(s.runs[r], a)
    ensures Inv(WatchNext(s, r, a))
  {
    hide WatchNext, LockInv, TagInv, PendingInv, AbortInv, SlotInv, FinishedInv, LatestInv, HolderInv, UnspawnedInv, DrainInv, CrashInv,
         OwnerInv, StdinInv, SenderInv, TakenInv, LogInv, LeftInv, MadeInv, OriginInv;
    WatchKeepsTasks(s, r, a);
    WatchKeepsHistory(s, r, a);
    WatchKeepsSlot(s, r, a);
    WatchKeepsFinished(s, r, a);
    WatchKeepsLatest(s, r, a);
    WatchKeepsHolder(s, r, a);
    WatchKeepsRuns(s, r, a);
    WatchKeepsStdin(s, r, a);
    WatchKeepsSender(s, r, a);
    WatchKeepsTaken(s, r, a);
  }

  lemma {:induction false} StepKeeps(s: State, a: Action)
    requires Inv(s) && Enabled(s, a)
    ensures Inv(Next(s, a))
  {
    hide Inv, SessionNext, UpdateNext, StartNext, TaskNext, ForwardNext, WatchNext;
    match a
    case OfSession(x) => SessionKeeps(s, x);
    case OfUpdate(u, x) => UpdateKeeps(s, u, x);
    case OfStart(i, x) => StartKeeps(s, i, x);
    case OfTask(r, x) => TaskKeeps(s, r, x);
    case OfForwarder(r, x) => ForwardKeeps(s, r, x);
    case OfWatchdog(r, x) => WatchKeeps(s, r, x);
  }

  /** Every state of every execution satisfies the invariant. */
  lemma {:induction false} ExecutionKeeps(states: seq<State>, actions: seq<Action>, k: nat)
    requires Execution(states, actions) && k < |states|
    ensures Inv(states[k])
  {
    if k == 0 {
      InitInv(states[0]);
    } else {
      ExecutionKeeps(states, actions, k - 1);
      StepKeeps(states[k - 1], actions[k - 1]);
    }
  }
}
