/** Sessions of one workspace under its edit lock: lock, check the base, refresh, mutate, record. */
module EditLock {
  import opened Common
  import opened Collab
  import opened Paths
  import opened Listing
  import opened Store

  /** A session, by its position among the workspace's sessions. */
  type Member = nat

  /** `Read` is everything else a session does under the lock for itself: a run request, the join. */
  datatype Job = Mutate(mutation: Mutation, base: Option<nat>) | Read

  datatype Pc =
    | Idle
    | AwaitLock(job: Job)
    | Checking(job: Job)
    | Refreshing(job: Job)
    | Mutating(mutation: Mutation, base: Option<nat>)
    | Recording(base: Option<nat>)

  datatype SessionState = SessionState(snapshot: Snapshot, pc: Pc)

  /** One accepted store mutation and who made it. */
  datatype Logged = Logged(origin: Member, mutation: Mutation)

  datatype State = State(
    entry: string,
    disk: Disk,
    revision: nat,
    suffix: Option<Suffix<Member>>,
    lock: Option<Member>,
    sessions: seq<SessionState>,
    log: seq<Logged>,
    handed: seq<nat>,
    lockedConflicts: nat)

  /** The disk fits the store and has the entry file. */
  ghost predicate Fits(entry: string, disk: Disk) {
    entry in disk && exists listing :: IsListing(listing, disk)
  }

  ghost predicate Init(s: State) {
    && Fits(s.entry, s.disk)
    && s.revision == 0 && s.suffix == None && s.lock == None
    && s.log == [] && s.handed == [] && s.lockedConflicts == 0
    && (forall i :: 0 <= i < |s.sessions| ==> s.sessions[i].pc == Idle && SnapshotOk(s.entry, s.sessions[i].snapshot))
  }

  /** `Forward` is a step of the session's forwarder: under the lock, a peer's change makes it refresh. */
  datatype Step =
    | Forward(order: seq<string>)
    | Receive(job: Job)
    | Acquire
    | Check
    | Refresh(order: seq<string>)
    | Change(io: bool)
    | Record

  ghost predicate Enabled(s: State, i: Member, a: Step) {
    && i < |s.sessions|
    && var pc := s.sessions[i].pc;
       match a
       case Forward(order) => s.lock == None && Enumerates(order, s.disk)
       case Receive(_) => pc.Idle?
       case Acquire => pc.AwaitLock? && s.lock == None
       case Check => pc.Checking?
       case Refresh(order) => pc.Refreshing? && Enumerates(order, s.disk)
       case Change(_) => pc.Mutating?
       case Record => pc.Recording?
  }

  function Goto(s: State, i: Member, pc: Pc): State
    requires i < |s.sessions|
  {
    s.(sessions := s.sessions[i := s.sessions[i].(pc := pc)])
  }

  /** The message is done and the guard dropped. */
  function Leave(s: State, i: Member): State
    requires i < |s.sessions|
  {
    Goto(s, i, Idle).(lock := None)
  }

  /** A session's catalog is read back, whatever the session itself waits for. */
  function Reread(s: State, i: Member, out: Outcome): State
    requires i < |s.sessions|
  {
    s.(sessions := s.sessions[i := s.sessions[i].(snapshot := out.snapshot)])
  }

  /** The catalog has been read back. */
  function Shown(s: State, i: Member, out: Outcome): State
    requires i < |s.sessions| && s.sessions[i].pc.Refreshing?
  {
    var me := s.sessions[i];
    var t := Reread(s, i, out);
    if out.result.Err? || me.pc.job.Read? then Leave(t, i)
    else Goto(t, i, Mutating(me.pc.job.mutation, me.pc.job.base))
  }

  /** The store has answered. */
  function Changed(s: State, i: Member, out: Outcome): State
    requires i < |s.sessions| && s.sessions[i].pc.Mutating?
  {
    var me := s.sessions[i];
    var t := Reread(s, i, out).(disk := out.disk);
    if out.result.Err? then Leave(t, i)
    else Goto(t, i, Recording(me.pc.base)).(log := s.log + [Logged(i, me.pc.mutation)])
  }

  ghost function Next(s: State, i: Member, a: Step): State
    requires Enabled(s, i, a)
  {
    var me := s.sessions[i];
    match a
    case Forward(order) => Reread(s, i, Refreshed(s.entry, me.snapshot, order, s.disk))
    case Receive(job) => Goto(s, i, AwaitLock(job))
    case Acquire => Goto(s, i, Checking(me.pc.job)).(lock := Some(i))
    case Check =>
      if me.pc.job.Mutate? && !WriterBaseOk(s.suffix, i, me.pc.job.base, s.revision) then Leave(s, i)
      else Goto(s, i, Refreshing(me.pc.job))
    case Refresh(order) => Shown(s, i, Refreshed(s.entry, me.snapshot, order, s.disk))
    case Change(io) => Changed(s, i, Apply(s.entry, me.snapshot, s.disk, me.pc.mutation, io))
    case Record =>
      if WriterBaseOk(s.suffix, i, me.pc.base, s.revision) then
        Leave(s, i).(revision := s.revision + 1,
                     suffix := NextSuffix(s.suffix, i, s.revision),
                     handed := s.handed + [s.revision + 1])
      else
        Leave(s, i).(lockedConflicts := s.lockedConflicts + 1)
  }

  ghost predicate Execution(states: seq<State>, who: seq<Member>, steps: seq<Step>) {
    && |states| == |steps| + 1 && |who| == |steps|
    && Init(states[0])
    && forall k :: 0 <= k < |steps| ==> Enabled(states[k], who[k], steps[k]) && states[k + 1] == Next(states[k], who[k], steps[k])
  }

  // ---- the invariant ----------------------------------------------------------------

  predicate Critical(pc: Pc) {
    !pc.Idle? && !pc.AwaitLock?
  }

  function HolderPc(s: State): Pc {
    if s.lock.Some? && s.lock.value < |s.sessions| then s.sessions[s.lock.value].pc else Idle
  }

  function Origins(log: seq<Logged>): (origins: seq<Member>)
    ensures |origins| == |log|
  {
    seq(|log|, k requires 0 <= k < |log| => log[k].origin)
  }

  /** What the logged mutations make of a disk, in order. */
  function Fold(disk: Disk, log: seq<Logged>): Disk {
    if log == [] then disk else Effect(Fold(disk, log[..|log| - 1]), log[|log| - 1].mutation)
  }

  lemma {:induction false} FoldAppend(disk: Disk, log: seq<Logged>, entry: Logged)
    ensures Fold(disk, log + [entry]) == Effect(Fold(disk, log), entry.mutation)
  {
    assert (log + [entry])[..|log|] == log;
  }

  ghost predicate LockInv(s: State) {
    && (s.lock.Some? ==> s.lock.value < |s.sessions|)
    && (forall i :: 0 <= i < |s.sessions| ==> (Critical(s.sessions[i].pc) <==> s.lock == Some(i)))
  }

  /** Mutations and revisions go hand in hand; one mutation may be waiting to be recorded. */
  ghost predicate RevisionInv(s: State) {
    && |s.handed| == s.revision
    && (forall k :: 0 <= k < |s.handed| ==> s.handed[k] == k + 1)
    && |s.log| == s.revision + (if HolderPc(s).Recording? then 1 else 0)
    && (HolderPc(s).Recording? ==> s.log[s.revision].origin == s.lock.value)
    && IsMaximalSuffix(s.suffix, Origins(s.log[..s.revision]))
    && s.lockedConflicts == 0
  }

  /** The base checked under the lock is still good when it is recorded. */
  ghost predicate BaseInv(s: State) {
    var pc := HolderPc(s);
    && (pc.Refreshing? && pc.job.Mutate? ==> WriterBaseOk(s.suffix, s.lock.value, pc.job.base, s.revision))
    && (pc.Mutating? || pc.Recording? ==> WriterBaseOk(s.suffix, s.lock.value, pc.base, s.revision))
  }

  ghost predicate DiskInv(s: State, initial: Disk) {
    && Fits(s.entry, s.disk)
    && s.disk == Fold(initial, s.log)
    && (HolderPc(s).Mutating? ==> IsListing(s.sessions[s.lock.value].snapshot.files, s.disk))
    && (forall i :: 0 <= i < |s.sessions| ==> SnapshotOk(s.entry, s.sessions[i].snapshot))
  }

  ghost predicate Inv(s: State, initial: Disk) {
    LockInv(s) && RevisionInv(s) && BaseInv(s) && DiskInv(s, initial)
  }

  /** What a step does to the sessions besides its own: nothing. */
  ghost predicate OthersStay(s: State, t: State, i: Member) {
    && |t.sessions| == |s.sessions| && t.entry == s.entry
    && forall j :: 0 <= j < |s.sessions| && j != i ==> t.sessions[j] == s.sessions[j]
  }

  /** The session that acts takes, keeps or gives back the lock. */
  lemma {:induction false} LockKeeps(s: State, t: State, i: Member)
    requires LockInv(s) && i < |s.sessions| && OthersStay(s, t, i)
    requires s.lock == None || s.lock == Some(i) || t.lock == s.lock
    requires t.lock == s.lock || t.lock == None || t.lock == Some(i)
    requires Critical(t.sessions[i].pc) <==> t.lock == Some(i)
    ensures LockInv(t)
    ensures HolderPc(t) == if t.lock == Some(i) then t.sessions[i].pc else if t.lock == None then Idle else HolderPc(s)
  {}

  lemma {:induction false} RecordKeeps(s: State, i: Member, initial: Disk)
    requires Inv(s, initial) && Enabled(s, i, Record)
    ensures Inv(Next(s, i, Record), initial)
  {
    hide WriterBaseOk, NextSuffix, IsMaximalSuffix, Fits, Fold, SnapshotOk, Origins;
    var t := Next(s, i, Record);
    assert HolderPc(s) == s.sessions[i].pc;
    assert OthersStay(s, t, i);
    LockKeeps(s, t, i);
    OneMoreOrigin(s.log, s.revision);
    AdvanceKeepsMaximal(s.suffix, Origins(s.log[..s.revision]), i);
  }

  lemma {:induction false} OneMoreOrigin(log: seq<Logged>, n: nat)
    requires n < |log|
    ensures Origins(log[..n + 1]) == Origins(log[..n]) + [log[n].origin]
  {}

  lemma {:induction false} RefreshKeeps(s: State, i: Member, out: Outcome, initial: Disk)
    requires Inv(s, initial) && i < |s.sessions| && s.sessions[i].pc.Refreshing?
    requires out.result.Ok? && IsListing(out.snapshot.files, s.disk) && SnapshotOk(s.entry, out.snapshot)
    ensures Inv(Shown(s, i, out), initial)
  {
    hide WriterBaseOk, IsMaximalSuffix, Fits, Fold, SnapshotOk, IsListing, Origins;
    var t := Shown(s, i, out);
    assert HolderPc(s) == s.sessions[i].pc;
    assert OthersStay(s, t, i);
    LockKeeps(s, t, i);
  }

  lemma {:induction false} ForwardKeeps(s: State, i: Member, out: Outcome, initial: Disk)
    requires Inv(s, initial) && i < |s.sessions| && s.lock == None && SnapshotOk(s.entry, out.snapshot)
    ensures Inv(Reread(s, i, out), initial)
  {
    hide WriterBaseOk, IsMaximalSuffix, Fits, Fold, SnapshotOk, IsListing, Origins;
    var t := Reread(s, i, out);
    assert OthersStay(s, t, i);
    LockKeeps(s, t, i);
  }

  lemma {:induction false} ChangeKeeps(s: State, i: Member, out: Outcome, initial: Disk)
    requires Inv(s, initial) && i < |s.sessions| && s.sessions[i].pc.Mutating?
    requires GoodOutcome(s.entry, s.sessions[i].snapshot, s.disk, s.sessions[i].pc.mutation, out)
    ensures Inv(Changed(s, i, out), initial)
  {
    hide WriterBaseOk, IsMaximalSuffix, Fold, IsListing, Origins, Effect, SnapshotOk;
    var t := Changed(s, i, out);
    assert HolderPc(s) == s.sessions[i].pc;
    assert OthersStay(s, t, i);
    LockKeeps(s, t, i);
    if out.result.Ok? {
      FoldAppend(initial, s.log, Logged(i, s.sessions[i].pc.mutation));
      ListingStays(s.entry, s.sessions[i].snapshot, s.disk, s.sessions[i].pc.mutation, out);
      assert t.log[..t.revision] == s.log[..s.revision];
    }
  }

  /** A session that mirrors the disk still does after its mutation, and the disk still fits. */
  lemma {:induction false} ListingStays(entry: string, snapshot: Snapshot, disk: Disk, mutation: Mutation, out: Outcome)
    requires GoodOutcome(entry, snapshot, disk, mutation, out) && out.result.Ok? && IsListing(snapshot.files, disk)
    ensures IsListing(out.snapshot.files, out.disk) && Fits(entry, out.disk)
  {
    hide Mirrors, TextAt, Effect;
    TextAtHas(out.snapshot.files, entry);
    HasIsOnDisk(out.snapshot.files, out.disk, entry);
  }

  lemma {:induction false} HasIsOnDisk(files: seq<File>, disk: Disk, path: string)
    requires Mirrors(files, disk) && Has(files, path)
    ensures path in disk
  {}

  /** The steps that touch no snapshot and record nothing. */
  lemma {:induction false} MoveKeeps(s: State, i: Member, a: Step, initial: Disk)
    requires Inv(s, initial) && Enabled(s, i, a) && (a.Receive? || a.Acquire? || a.Check?)
    ensures Inv(Next(s, i, a), initial)
  {
    hide WriterBaseOk, IsMaximalSuffix, Fits, Fold, SnapshotOk, IsListing, Origins;
    var t := Next(s, i, a);
    assert a.Check? ==> HolderPc(s) == s.sessions[i].pc;
    assert OthersStay(s, t, i);
    LockKeeps(s, t, i);
  }

  lemma {:induction false} StepKeeps(s: State, i: Member, a: Step, initial: Disk)
    requires Inv(s, initial) && Enabled(s, i, a)
    ensures Inv(Next(s, i, a), initial)
  {
    hide LockInv, RevisionInv, BaseInv, SnapshotOk, IsListing, Apply, Refreshed, GoodOutcome, Shown, Changed, Reread;
    var me := s.sessions[i];
    match a
    case Receive(_) => MoveKeeps(s, i, a, initial);
    case Acquire => MoveKeeps(s, i, a, initial);
    case Check => MoveKeeps(s, i, a, initial);
    case Forward(order) =>
      RefreshIsGood(s, i, order, initial);
      ForwardKeeps(s, i, Refreshed(s.entry, me.snapshot, order, s.disk), initial);
    case Refresh(order) =>
      RefreshIsGood(s, i, order, initial);
      RefreshKeeps(s, i, Refreshed(s.entry, me.snapshot, order, s.disk), initial);
    case Change(io) =>
      ChangeIsGood(s, i, io, initial);
      ChangeKeeps(s, i, Apply(s.entry, me.snapshot, s.disk, me.pc.mutation, io), initial);
    case Record => RecordKeeps(s, i, initial);
  }

  lemma {:induction false} RefreshIsGood(s: State, i: Member, order: seq<string>, initial: Disk)
    requires DiskInv(s, initial) && i < |s.sessions| && Enumerates(order, s.disk)
    ensures var out := Refreshed(s.entry, s.sessions[i].snapshot, order, s.disk);
            out.result.Ok? && IsListing(out.snapshot.files, s.disk) && SnapshotOk(s.entry, out.snapshot)
  {
    hide Refreshed, IsListing, Enumerates, SnapshotOk;
    var listing :| IsListing(listing, s.disk);
    RefreshShowsTheDisk(s.entry, s.sessions[i].snapshot, order, s.disk, listing);
  }

  lemma {:induction false} ChangeIsGood(s: State, i: Member, io: bool, initial: Disk)
    requires Inv(s, initial) && i < |s.sessions| && s.sessions[i].pc.Mutating?
    ensures var me := s.sessions[i];
            GoodOutcome(s.entry, me.snapshot, s.disk, me.pc.mutation, Apply(s.entry, me.snapshot, s.disk, me.pc.mutation, io))
  {
    hide Apply, GoodOutcome, SnapshotOk, IsListing, Fold, Fits;
    var me := s.sessions[i];
    assert HolderPc(s) == me.pc;
    ApplyIsGood(s.entry, me.snapshot, s.disk, me.pc.mutation, io);
  }

  lemma {:induction false} ExecutionKeeps(states: seq<State>, who: seq<Member>, steps: seq<Step>, k: nat)
    requires Execution(states, who, steps) && k < |states|
    ensures Inv(states[k], states[0].disk)
  {
    if k > 0 {
      hide Inv, Enabled, Next;
      ExecutionKeeps(states, who, steps, k - 1);
      StepKeeps(states[k - 1], who[k - 1], steps[k - 1], states[0].disk);
    }
  }

  // ---- the promises -------------------------------------------------------------------

  /** "Workspace revision changed while locked" never happens. */
  lemma {:induction false} NoConflictWhileLocked(states: seq<State>, who: seq<Member>, steps: seq<Step>, k: nat)
    requires Execution(states, who, steps) && k < |states|
    ensures states[k].lockedConflicts == 0
  {
    ExecutionKeeps(states, who, steps, k);
  }

  /** Revisions are handed out 1, 2, 3, …, one for each successful store mutation. */
  lemma {:induction false} RevisionsCountMutations(states: seq<State>, who: seq<Member>, steps: seq<Step>, k: nat)
    requires Execution(states, who, steps) && k < |states|
    ensures forall n :: 0 <= n < |states[k].handed| ==> states[k].handed[n] == n + 1
    ensures |states[k].handed| == states[k].revision
    ensures |states[k].log| == states[k].revision + (if HolderPc(states[k]).Recording? then 1 else 0)
  {
    ExecutionKeeps(states, who, steps, k);
  }

  /** The shared disk is the fold of the accepted mutations, and always one the store can read back. */
  lemma {:induction false} DiskIsTheFold(states: seq<State>, who: seq<Member>, steps: seq<Step>, k: nat)
    requires Execution(states, who, steps) && k < |states|
    ensures states[k].disk == Fold(states[0].disk, states[k].log)
    ensures Fits(states[k].entry, states[k].disk)
  {
    ExecutionKeeps(states, who, steps, k);
  }

  /** A write with a known base gets past the check exactly when every later accepted write was its own session's. */
  lemma {:induction false} CheckRefusesExactlyLostUpdates(states: seq<State>, who: seq<Member>, steps: seq<Step>, k: nat)
    requires Execution(states, who, steps) && k < |steps| && steps[k] == Check
    requires states[k].sessions[who[k]].pc.job.Mutate? && states[k].sessions[who[k]].pc.job.base.Some?
    ensures var base := states[k].sessions[who[k]].pc.job.base.value;
            states[k + 1].sessions[who[k]].pc.Refreshing? <==>
              base <= |states[k].log| && forall j :: base <= j < |states[k].log| ==> states[k].log[j].origin == who[k]
  {
    ExecutionKeeps(states, who, steps, k);
    var s, i := states[k], who[k];
    var base := s.sessions[i].pc.job.base.value;
    assert HolderPc(s) == s.sessions[i].pc;
    assert s.log[..s.revision] == s.log;
    AcceptedIffOwnSuffix(s.suffix, Origins(s.log), i, base);
    assert forall j :: 0 <= j < |s.log| ==> Origins(s.log)[j] == s.log[j].origin;
  }

  /** Every session that refreshes, for itself or for a peer's change, sees the same listing: the one of the folded disk. */
  lemma {:induction false} RefreshedViewsAgree(states: seq<State>, who: seq<Member>, steps: seq<Step>, k: nat, listing: seq<File>)
    requires Execution(states, who, steps) && k < |steps| && (steps[k].Refresh? || steps[k].Forward?)
    requires IsListing(listing, Fold(states[0].disk, states[k].log))
    ensures states[k + 1].sessions[who[k]].snapshot.files == listing
    ensures states[k + 1].sessions[who[k]].snapshot.version == states[k].sessions[who[k]].snapshot.version
  {
    hide Refreshed, IsListing, Enumerates, LockInv, RevisionInv, BaseInv, Fold;
    ExecutionKeeps(states, who, steps, k);
    RefreshShowsTheDisk(states[k].entry, states[k].sessions[who[k]].snapshot, steps[k].order, states[k].disk, listing);
  }

  lemma {:induction false} StepVersions(s: State, i: Member, a: Step, j: Member, initial: Disk)
    requires Inv(s, initial) && Enabled(s, i, a) && j < |s.sessions|
    ensures |Next(s, i, a).sessions| == |s.sessions|
    ensures s.sessions[j].snapshot.version <= Next(s, i, a).sessions[j].snapshot.version
  {
    hide Apply, Refreshed, GoodOutcome, LockInv, RevisionInv, BaseInv, Fits, Fold;
    if a.Change? {
      ChangeIsGood(s, i, a.io, initial);
      var me := s.sessions[i];
      var out := Apply(s.entry, me.snapshot, s.disk, me.pc.mutation, a.io);
      GoodVersions(s.entry, me.snapshot, s.disk, me.pc.mutation, out);
      assert Changed(s, i, out).sessions[i].snapshot == out.snapshot;
    } else if a.Refresh? || a.Forward? {
      RefreshVersion(s.entry, s.sessions[i].snapshot, a.order, s.disk);
    }
  }

  lemma {:induction false} GoodVersions(entry: string, before: Snapshot, disk: Disk, mutation: Mutation, out: Outcome)
    requires GoodOutcome(entry, before, disk, mutation, out)
    ensures before.version <= out.snapshot.version
  {}

  lemma {:induction false} RefreshVersion(entry: string, before: Snapshot, order: seq<string>, disk: Disk)
    requires Enumerates(order, disk)
    ensures Refreshed(entry, before, order, disk).snapshot.version == before.version
  {}

  /** No session's document version ever goes down. */
  lemma {:induction false} VersionsNeverGoDown(states: seq<State>, who: seq<Member>, steps: seq<Step>, j: nat, k: nat, i: Member)
    requires Execution(states, who, steps) && j <= k < |states| && i < |states[j].sessions|
    ensures |states[k].sessions| == |states[j].sessions|
    ensures states[j].sessions[i].snapshot.version <= states[k].sessions[i].snapshot.version
    decreases k
  {
    hide Inv, Enabled, Next, Init;
    if j < k {
      VersionsNeverGoDown(states, who, steps, j, k - 1, i);
      ExecutionKeeps(states, who, steps, k - 1);
      StepVersions(states[k - 1], who[k - 1], steps[k - 1], i, states[0].disk);
    }
  }
}
