/** One turn under the edit lock, from taking it to giving it back: nothing asked for is dropped. */
module EditLockTurns {
  import opened Common
  import opened Collab
  import opened Listing
  import opened Store
  import opened EditLock

  /** What the session works on: the disk's listing, at the session's own version. */
  ghost predicate Ready(s: State, i: Member, view: Snapshot) {
    && i < |s.sessions| && view.version == s.sessions[i].snapshot.version
    && IsListing(view.files, s.disk) && SnapshotOk(s.entry, view)
  }

  /** Nobody else has written since the base, if one was given. */
  ghost predicate BaseGood(s: State, i: Member, base: Option<nat>) {
    base.None? || (base.value <= |s.log| && forall k :: base.value <= k < |s.log| ==> s.log[k].origin == i)
  }

  predicate Unrecorded(s: State, t: State) {
    t.log == s.log && t.revision == s.revision && t.handed == s.handed
  }

  /** From `s`, where the lock was free, to `t`, where it is free again, session `i` has had its turn with this edit. */
  ghost predicate Turned(s: State, t: State, i: Member, m: Mutation, base: Option<nat>) {
    && t.lock == None && |t.sessions| == |s.sessions| && i < |s.sessions| && t.sessions[i].pc == Idle
    && if !BaseGood(s, i, base) then Unrecorded(s, t) && t.disk == s.disk && t.sessions[i].snapshot == s.sessions[i].snapshot
       else exists view: Snapshot, io: bool :: Ready(s, i, view) && Answered(s, t, i, m, Apply(s.entry, view, s.disk, m, io))
  }

  /** The store's answer is what is on the disk and in the session, and recorded if it is a success. */
  predicate Answered(s: State, t: State, i: Member, m: Mutation, out: Outcome)
    requires i < |t.sessions|
  {
    && t.disk == out.disk && t.sessions[i].snapshot == out.snapshot
    && if out.result.Err? then Unrecorded(s, t)
       else t.log == s.log + [Logged(i, m)] && t.revision == s.revision + 1 && t.handed == s.handed + [s.revision + 1]
  }

  /** The edit has been made and waits to be recorded. */
  ghost predicate Made(s: State, t: State, i: Member, m: Mutation) {
    && i < |t.sessions| && t.log == s.log + [Logged(i, m)]
    && exists view: Snapshot, io: bool ::
         && Ready(s, i, view)
         && var out := Apply(s.entry, view, s.disk, m, io);
            out.result.Ok? && t.disk == out.disk && t.sessions[i].snapshot == out.snapshot
  }

  /** Where a turn has got to. */
  ghost predicate Underway(s: State, t: State, i: Member, m: Mutation, base: Option<nat>) {
    && t.lock == Some(i) && |t.sessions| == |s.sessions| && i < |s.sessions| && t.entry == s.entry
    && t.revision == s.revision && t.handed == s.handed && t.suffix == s.suffix
    && var me := t.sessions[i];
       match me.pc
       case Checking(job) => job == Mutate(m, base) && t.log == s.log && t.disk == s.disk && me.snapshot == s.sessions[i].snapshot
       case Refreshing(job) =>
         && job == Mutate(m, base) && t.log == s.log && t.disk == s.disk && me.snapshot == s.sessions[i].snapshot
         && BaseGood(s, i, base)
       case Mutating(mutation, b) =>
         && mutation == m && b == base && t.log == s.log && t.disk == s.disk && Ready(s, i, me.snapshot) && BaseGood(s, i, base)
       case Recording(b) => b == base && BaseGood(s, i, base) && Made(s, t, i, m)
       case _ => false
  }

  /** The lock's holder aside, a session can only wait. */
  lemma {:induction false} OthersWait(s: State, t: State, i: Member, m: Mutation, base: Option<nat>, j: Member, a: Step)
    requires LockInv(t) && Underway(s, t, i, m, base) && Enabled(t, j, a) && j != i
    ensures a.Receive? && Underway(s, Next(t, j, a), i, m, base)
  {
    hide BaseGood, Ready, Apply;
    assert Critical(t.sessions[j].pc) <==> t.lock == Some(j);
    var u := Next(t, j, a);
    assert u.sessions[i] == t.sessions[i];
  }

  lemma {:induction false} BaseIff(s: State, i: Member, base: Option<nat>, initial: Disk)
    requires Inv(s, initial) && s.lock == None
    ensures WriterBaseOk(s.suffix, i, base, s.revision) <==> BaseGood(s, i, base)
  {
    hide DiskInv, BaseInv;
    assert s.log[..s.revision] == s.log;
    BaseIsGoodIff(s.suffix, Origins(s.log), i, base);
    assert forall k :: 0 <= k < |s.log| ==> Origins(s.log)[k] == s.log[k].origin;
  }

  lemma {:induction false} CheckTurns(s: State, t: State, i: Member, m: Mutation, base: Option<nat>, initial: Disk)
    requires Inv(s, initial) && s.lock == None && Underway(s, t, i, m, base) && Enabled(t, i, Check)
    ensures var u := Next(t, i, Check);
            if u.lock == None then Turned(s, u, i, m, base) else Underway(s, u, i, m, base)
  {
    hide BaseGood, Ready, Apply, WriterBaseOk;
    BaseIff(s, i, base, initial);
  }

  lemma {:induction false} RefreshTurns(s: State, t: State, i: Member, m: Mutation, base: Option<nat>, order: seq<string>, initial: Disk)
    requires Inv(t, initial) && Underway(s, t, i, m, base) && Enabled(t, i, Refresh(order))
    ensures Underway(s, Next(t, i, Refresh(order)), i, m, base)
  {
    hide BaseGood, IsListing, SnapshotOk, Refreshed, Fits;
    RefreshIsGood(t, i, order, initial);
    RefreshVersion(t.entry, t.sessions[i].snapshot, order, t.disk);
    var out := Refreshed(t.entry, t.sessions[i].snapshot, order, t.disk);
    assert Ready(s, i, out.snapshot);
  }

  lemma {:induction false} RefusalTurns(s: State, t: State, i: Member, m: Mutation, base: Option<nat>, io: bool)
    requires Underway(s, t, i, m, base) && Enabled(t, i, Change(io))
    requires Apply(s.entry, t.sessions[i].snapshot, s.disk, m, io).result.Err?
    ensures Next(t, i, Change(io)).lock == None && Turned(s, Next(t, i, Change(io)), i, m, base)
  {
    hide BaseGood, Ready, Apply, Made;
    var view := t.sessions[i].snapshot;
    var u := Next(t, i, Change(io));
    assert Ready(s, i, view);
    assert Answered(s, u, i, m, Apply(s.entry, view, s.disk, m, io));
  }

  lemma {:induction false} EditTurns(s: State, t: State, i: Member, m: Mutation, base: Option<nat>, io: bool)
    requires Underway(s, t, i, m, base) && Enabled(t, i, Change(io))
    requires Apply(s.entry, t.sessions[i].snapshot, s.disk, m, io).result.Ok?
    ensures Next(t, i, Change(io)).lock == Some(i) && Underway(s, Next(t, i, Change(io)), i, m, base)
  {
    hide BaseGood, Ready, Apply;
    var view := t.sessions[i].snapshot;
    assert Ready(s, i, view);
    assert Apply(s.entry, view, s.disk, m, io).result.Ok?;
  }

  lemma {:induction false} MadeView(s: State, t: State, i: Member, m: Mutation) returns (view: Snapshot, io: bool)
    requires Made(s, t, i, m)
    ensures Ready(s, i, view)
    ensures var out := Apply(s.entry, view, s.disk, m, io);
            out.result.Ok? && t.disk == out.disk && t.sessions[i].snapshot == out.snapshot
  {
    hide Ready, Apply;
    view, io :| Ready(s, i, view) && var out := Apply(s.entry, view, s.disk, m, io);
                                     out.result.Ok? && t.disk == out.disk && t.sessions[i].snapshot == out.snapshot;
  }

  lemma {:induction false} RecordTurns(s: State, t: State, i: Member, m: Mutation, base: Option<nat>, initial: Disk)
    requires Inv(s, initial) && s.lock == None && Underway(s, t, i, m, base) && Enabled(t, i, Record)
    ensures Next(t, i, Record).lock == None && Turned(s, Next(t, i, Record), i, m, base)
  {
    hide BaseGood, Ready, Apply, WriterBaseOk, NextSuffix, Made, Inv;
    BaseIff(s, i, base, initial);
    var view, io := MadeView(s, t, i, m);
    MadeLog(s, t, i, m);
    var u := Next(t, i, Record);
    assert Answered(s, u, i, m, Apply(s.entry, view, s.disk, m, io));
  }

  lemma {:induction false} MadeLog(s: State, t: State, i: Member, m: Mutation)
    requires Made(s, t, i, m)
    ensures t.log == s.log + [Logged(i, m)]
  {
    hide Ready, Apply;
  }

  lemma {:induction false} StepTurns(s: State, t: State, i: Member, m: Mutation, base: Option<nat>, j: Member, a: Step, initial: Disk)
    requires Inv(s, initial) && s.lock == None && Inv(t, initial) && Underway(s, t, i, m, base) && Enabled(t, j, a)
    ensures var u := Next(t, j, a);
            if u.lock == None then Turned(s, u, i, m, base) else Underway(s, u, i, m, base)
  {
    hide Next, Turned, RevisionInv, BaseInv, DiskInv, BaseGood, Ready, Made, LockInv, Apply;
    if j != i {
      OthersWait(s, t, i, m, base, j, a);
      Held(s, Next(t, j, a), i, m, base);
    } else {
      match a {
        case Check => CheckTurns(s, t, i, m, base, initial);
        case Refresh(order) =>
          RefreshTurns(s, t, i, m, base, order, initial);
          Held(s, Next(t, j, a), i, m, base);
        case Change(io) =>
          if Apply(s.entry, t.sessions[i].snapshot, s.disk, m, io).result.Ok? {
            EditTurns(s, t, i, m, base, io);
          } else {
            RefusalTurns(s, t, i, m, base, io);
          }
        case Record => RecordTurns(s, t, i, m, base, initial);
        case _ =>
      }
    }
  }

  lemma {:induction false} Held(s: State, t: State, i: Member, m: Mutation, base: Option<nat>)
    requires Underway(s, t, i, m, base)
    ensures t.lock == Some(i)
  {}

  lemma {:induction false} TakenUnderway(s: State, i: Member, m: Mutation, base: Option<nat>)
    requires Enabled(s, i, Acquire) && s.sessions[i].pc == AwaitLock(Mutate(m, base))
    ensures Underway(s, Next(s, i, Acquire), i, m, base)
  {}

  lemma {:induction false} StillUnderway(
      states: seq<State>, who: seq<Member>, steps: seq<Step>, a: nat, b: nat, i: Member, m: Mutation, base: Option<nat>)
    requires Execution(states, who, steps) && a < b < |states|
    requires who[a] == i && steps[a] == Acquire && states[a].sessions[i].pc == AwaitLock(Mutate(m, base))
    requires forall k :: a < k <= b ==> states[k].lock == Some(i)
    ensures Underway(states[a], states[b], i, m, base)
    decreases b
  {
    hide Underway, Turned, Inv, Next, Enabled, Init;
    assert Enabled(states[b - 1], who[b - 1], steps[b - 1]) && states[b - 1 + 1] == Next(states[b - 1], who[b - 1], steps[b - 1]);
    if b == a + 1 {
      TakenUnderway(states[a], i, m, base);
    } else {
      StillUnderway(states, who, steps, a, b - 1, i, m, base);
      ExecutionKeeps(states, who, steps, a);
      ExecutionKeeps(states, who, steps, b - 1);
      WasFree(states[a], who[a]);
      assert Enabled(states[a], who[a], steps[a]);
      StepTurns(states[a], states[b - 1], i, m, base, who[b - 1], steps[b - 1], states[0].disk);
    }
  }

  lemma {:induction false} WasFree(s: State, i: Member)
    ensures Enabled(s, i, Acquire) ==> s.lock == None
  {}

  /**
   * Every turn under the lock, however the other sessions interleave: with a
   * base that somebody else has written since, nothing changes; otherwise the
   * store answers for the disk's listing at the session's version, its answer
   * is what the disk and the session then hold, and a success is logged and
   * handed the next revision.
   */
  lemma {:induction false} TurnUnderLock(
      states: seq<State>, who: seq<Member>, steps: seq<Step>, a: nat, b: nat, i: Member, m: Mutation, base: Option<nat>)
    requires Execution(states, who, steps) && a < b < |states|
    requires who[a] == i && steps[a] == Acquire && states[a].sessions[i].pc == AwaitLock(Mutate(m, base))
    requires states[b].lock == None && forall k :: a < k < b ==> states[k].lock == Some(i)
    ensures Turned(states[a], states[b], i, m, base)
  {
    hide Underway, Turned, Inv, Next, Enabled, Init;
    assert Enabled(states[a], who[a], steps[a]) && states[a + 1] == Next(states[a], who[a], steps[a]);
    TakenUnderway(states[a], i, m, base);
    Held(states[a], states[a + 1], i, m, base);
    StillUnderway(states, who, steps, a, b - 1, i, m, base);
    ExecutionKeeps(states, who, steps, a);
    ExecutionKeeps(states, who, steps, b - 1);
    WasFree(states[a], i);
    assert Enabled(states[b - 1], who[b - 1], steps[b - 1]) && states[b - 1 + 1] == Next(states[b - 1], who[b - 1], steps[b - 1]);
    StepTurns(states[a], states[b - 1], i, m, base, who[b - 1], steps[b - 1], states[0].disk);
  }
}
