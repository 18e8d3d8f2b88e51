/**
 * The run scheduler as a step machine: every task has a program counter and
 * every lock region, channel operation and outbox send is one step.
 */
module Scheduler {
  import opened Common

  type RunId = nat
  /** A task that is executing `start_run`, by its position in `starters`. */
  type TaskId = nat
  type Tag = nat

  /** Each run makes two fresh cancellation tokens of its own. */
  datatype Token = CancelOf(run: RunId) | FinishedOf(run: RunId)

  /** The `Inner` record, with the state of the tokens and join handles it hands out. */
  datatype Cell = Cell(
    debounce: Option<(Tag, TaskId)>,
    debounceSeq: Tag,
    cancel: Option<Token>,
    activeRun: Option<RunId>,
    finished: Option<Token>,
    liveInput: Option<RunId>,
    fired: set<Token>,
    aborted: set<TaskId>)

  // ---- lock regions on Inner ------------------------------------------------

  function Cancelled(c: Cell): Cell {
    c.(debounce := None,
       aborted := if c.debounce.Some? then c.aborted + {c.debounce.value.1} else c.aborted,
       cancel := None,
       fired := if c.cancel.Some? then c.fired + {c.cancel.value} else c.fired,
       activeRun := None,
       liveInput := None)
  }

  /** A debounce task looks for its own tag. */
  predicate Pending(c: Cell, tag: Tag) {
    c.debounce.Some? && c.debounce.value.0 == tag
  }

  function Stored(c: Cell, handle: TaskId): Cell {
    c.(debounceSeq := c.debounceSeq + 1, debounce := Some((c.debounceSeq + 1, handle)))
  }

  function Installed(c: Cell, run: RunId, interactive: bool): Cell {
    c.(cancel := Some(CancelOf(run)),
       activeRun := Some(run),
       finished := Some(FinishedOf(run)),
       liveInput := if interactive then Some(run) else None)
  }

  /** The gate before anything is sent on a run's behalf. */
  predicate Current(c: Cell, run: RunId) {
    CancelOf(run) !in c.fired && c.activeRun == Some(run)
  }

  /** A run task that ends gives back the slot, if it is still its own. */
  function Released(c: Cell, run: RunId): Cell {
    if c.activeRun == Some(run) then c.(activeRun := None, cancel := None, liveInput := None) else c
  }

  /** The panic watchdog does the same but leaves `live_input`. */
  function Reset(c: Cell, run: RunId): Cell {
    if c.activeRun == Some(run) then c.(activeRun := None, cancel := None) else c
  }

  // ---- tasks ------------------------------------------------------------------

  datatype Origin = Manual | Auto(tag: Tag)

  datatype StartPc =
    | Sleeping
    | AwaitLock
    | CheckVersion
    | ToCancel
    | ToTakeFinished
    | AwaitPrevious(previous: Token)
    | Recheck
    | ToOpenInput
    | ToInstall(run: RunId)
    | ToAnnounce(run: RunId)
    | ToSpawn(run: RunId)
    | Returned

  datatype Starter = Starter(origin: Origin, version: nat, interactive: bool, pc: StartPc)

  datatype TaskPc =
    | Unspawned
    | Queued
    | Running
    | Draining(outcome: bool)
    | CheckSlot(outcome: bool)
    | CheckDocument(outcome: bool)
    | SendState
    | SendResult
    | Release
    | Ended
    | Panicked

  datatype ForwardPc = Idle | Received | CheckingDocument | Sending | Closed

  datatype WatchPc = Watching | ToReset | ToSendIdle | ToSendCrash | Retired

  /** One run: its task, its event channel and forwarder, and its panic watchdog. */
  datatype Run = Run(
    origin: Origin,
    version: nat,
    interactive: bool,
    task: TaskPc,
    queue: nat,
    forward: ForwardPc,
    watch: WatchPc)

  datatype UpdatePc = UpdateCancelling | UpdateReading | UpdateStoring(version: nat) | UpdateDone

  /** What reaches the client; `Notice` stands for every event without a run id. */
  datatype Event =
    | StdinOpen(run: RunId)
    | Forwarded(run: RunId)
    | TerminalState(run: RunId)
    | RunFinished(run: RunId)
    | ResetIdle(run: RunId)
    | Notice

  predicate Carries(e: Event, r: RunId) {
    !e.Notice? && e.run == r
  }

  /** What happened to the pending slot, in order. */
  datatype SlotEvent = Put(tag: Tag) | Left(tag: Tag) | Cleared

  /** Run `taker` took the receiver made for run `receiver`. */
  datatype Taken = Taken(receiver: RunId, taker: RunId)

  datatype State = State(
    cell: Cell,
    version: nat,
    startLock: Option<TaskId>,
    starters: seq<Starter>,
    updates: seq<UpdatePc>,
    runs: seq<Run>,
    liveStdin: Option<RunId>,
    outbox: seq<Event>,
    expired: set<RunId>,
    taken: seq<Taken>,
    slotLog: seq<SlotEvent>)

  predicate Init(s: State) {
    && s.cell == Cell(None, 0, None, None, None, None, {}, {})
    && s.startLock == None
    && s.starters == [] && s.updates == [] && s.runs == []
    && s.liveStdin == None
    && s.outbox == [] && s.taken == [] && s.slotLog == []
    && s.expired == {}
  }

  // ---- steps ------------------------------------------------------------------

  /** The session, its client, and anything that calls `cancel` or `close`. */
  datatype SessionAction = Edit(newVersion: nat) | RequestRun(version: nat, live: bool) | RequestUpdate | Stop | WriteEof

  /** `document_updated`. */
  datatype UpdateAction = UpdateCancel | UpdateRead(autoRun: bool) | UpdateStore

  /** A debounce task and `start_run`. */
  datatype StartAction =
    | Wake
    | Die
    | Acquire
    | FirstCheck(present: bool)
    | StartCancel
    | TakeFinished
    | PreviousEnded
    | GraceExpires
    | SecondCheck
    | OpenInput
    | Install
    | Announce
    | Spawn

  /** A run's task. */
  datatype TaskAction =
    | LeaveQueue
    | QuitQueue
    | Emit
    | TakeInput
    | RunnerEnds(outcome: bool)
    | RunnerPanics
    | Drained
    | CheckSlotNow
    | CheckDocumentNow
    | SendTerminal
    | SendFinished
    | ReleaseSlot

  /** A run's event forwarder. */
  datatype ForwardAction = Receive | ForwardSlot | ForwardDocument | Forward | CloseForwarder

  /** A run's panic watchdog. */
  datatype WatchAction = Observe | ResetSlot | SendReset | SendCrash

  datatype Action =
    | OfSession(session: SessionAction)
    | OfUpdate(update: nat, step: UpdateAction)
    | OfStart(starter: TaskId, start: StartAction)
    | OfTask(run: RunId, task: TaskAction)
    | OfForwarder(run: RunId, forward: ForwardAction)
    | OfWatchdog(run: RunId, watch: WatchAction)

  function Goto(s: State, i: TaskId, pc: StartPc): State
    requires i < |s.starters|
  {
    s.(starters := s.starters[i := s.starters[i].(pc := pc)])
  }

  /** `start_run` returns: its guard on the start lock is dropped. */
  function Return(s: State, i: TaskId): State
    requires i < |s.starters|
  {
    Goto(s, i, Returned).(startLock := if s.startLock == Some(i) then None else s.startLock)
  }

  function SetRun(s: State, r: RunId, run: Run): State
    requires r < |s.runs|
  {
    s.(runs := s.runs[r := run])
  }

  function Send(s: State, e: Event): State {
    s.(outbox := s.outbox + [e])
  }

  /** `cancel_internal`. */
  function CancelInternal(s: State): State {
    s.(cell := Cancelled(s.cell), slotLog := s.slotLog + [Cleared])
  }

  predicate SessionEnabled(s: State, a: SessionAction) {
    a.Edit? ==> s.version < a.newVersion
  }

  function SessionNext(s: State, a: SessionAction): State {
    match a
    case Edit(v) => s.(version := v)
    case RequestRun(v, live) => s.(starters := s.starters + [Starter(Manual, v, live, AwaitLock)])
    case RequestUpdate => s.(updates := s.updates + [UpdateCancelling])
    case Stop => CancelInternal(s)
    case WriteEof => s.(cell := s.cell.(liveInput := None))
  }

  predicate UpdateEnabled(u: UpdatePc, a: UpdateAction) {
    match a
    case UpdateCancel => u.UpdateCancelling?
    case UpdateRead(_) => u.UpdateReading?
    case UpdateStore => u.UpdateStoring?
  }

  function UpdateNext(s: State, u: nat, a: UpdateAction): State
    requires u < |s.updates| && UpdateEnabled(s.updates[u], a)
  {
    match a
    case UpdateCancel => CancelInternal(s).(updates := s.updates[u := UpdateReading])
    case UpdateRead(autoRun) =>
      Send(s, Notice).(updates := s.updates[u := if autoRun then UpdateStoring(s.version) else UpdateDone])
    case UpdateStore =>
      var tag := s.cell.debounceSeq + 1;
      s.(cell := Stored(s.cell, |s.starters|),
         starters := s.starters + [Starter(Auto(tag), s.updates[u].version, false, Sleeping)],
         slotLog := s.slotLog + [Put(tag)],
         updates := s.updates[u := UpdateDone])
  }

  predicate StartEnabled(s: State, i: TaskId, a: StartAction)
    requires i < |s.starters|
  {
    var pc := s.starters[i].pc;
    match a
    case Wake => pc.Sleeping? && s.starters[i].origin.Auto?
    case Die => i in s.cell.aborted && !pc.Returned?
    case Acquire => pc.AwaitLock? && s.startLock == None
    case FirstCheck(_) => pc.CheckVersion?
    case StartCancel => pc.ToCancel?
    case TakeFinished => pc.ToTakeFinished?
    case PreviousEnded => pc.AwaitPrevious? && pc.previous in s.cell.fired
    case GraceExpires => pc.AwaitPrevious? && pc.previous !in s.cell.fired
    case SecondCheck => pc.Recheck?
    case OpenInput => pc.ToOpenInput?
    case Install => pc.ToInstall?
    case Announce => pc.ToAnnounce?
    case Spawn => pc.ToSpawn? && pc.run < |s.runs| && s.runs[pc.run].task.Unspawned?
  }

  function StartNext(s: State, i: TaskId, a: StartAction): State
    requires i < |s.starters| && StartEnabled(s, i, a)
  {
    var me := s.starters[i];
    match a
    case Wake =>
      if Pending(s.cell, me.origin.tag) then
        Goto(s, i, AwaitLock).(cell := s.cell.(debounce := None), slotLog := s.slotLog + [Left(me.origin.tag)])
      else
        Goto(s, i, Returned)
    case Die => Return(s, i)
    case Acquire => Goto(s, i, CheckVersion).(startLock := Some(i))
    case FirstCheck(present) =>
      if s.version != me.version then Return(s, i)
      else if !present then Send(Return(s, i), Notice)
      else Goto(s, i, ToCancel)
    case StartCancel => Goto(CancelInternal(s), i, ToTakeFinished)
    case TakeFinished =>
      var next := if s.cell.finished.Some? then AwaitPrevious(s.cell.finished.value) else ToOpenInput;
      Goto(s, i, next).(cell := s.cell.(finished := None))
    case PreviousEnded => Goto(s, i, Recheck)
    case GraceExpires => Goto(s, i, Recheck).(expired := s.expired + {me.pc.previous.run})
    case SecondCheck => if s.version != me.version then Return(s, i) else Goto(s, i, ToOpenInput)
    case OpenInput =>
      var r := |s.runs|;
      Goto(s, i, ToInstall(r)).(
        runs := s.runs + [Run(me.origin, me.version, me.interactive, Unspawned, 0, Idle, Watching)],
        liveStdin := if me.interactive then Some(r) else None)
    case Install =>
      var r := me.pc.run;
      Goto(s, i, if me.interactive then ToAnnounce(r) else ToSpawn(r)).(cell := Installed(s.cell, r, me.interactive))
    case Announce => Send(Goto(s, i, ToSpawn(me.pc.run)), StdinOpen(me.pc.run))
    case Spawn => SetRun(Return(s, i), me.pc.run, s.runs[me.pc.run].(task := Queued))
  }

  /** The runner's sender is cloned from the task's and may outlive the runner, until the channel is drained. */
  predicate MaySend(task: TaskPc) {
    task.Running? || task.Draining? || task.Panicked?
  }

  predicate TaskEnabled(s: State, r: RunId, a: TaskAction)
    requires r < |s.runs|
  {
    var pc := s.runs[r].task;
    match a
    case LeaveQueue => pc.Queued?
    case QuitQueue => pc.Queued? && CancelOf(r) in s.cell.fired
    case Emit => MaySend(pc) && !s.runs[r].forward.Closed?
    case TakeInput => pc.Running?
    case RunnerEnds(_) => pc.Running?
    case RunnerPanics => pc.Running?
    case Drained => pc.Draining? && s.runs[r].forward.Closed?
    case CheckSlotNow => pc.CheckSlot?
    case CheckDocumentNow => pc.CheckDocument?
    case SendTerminal => pc.SendState?
    case SendFinished => pc.SendResult?
    case ReleaseSlot => pc.Release?
  }

  function TaskNext(s: State, r: RunId, a: TaskAction): State
    requires r < |s.runs| && TaskEnabled(s, r, a)
  {
    var me := s.runs[r];
    match a
    case LeaveQueue => SetRun(s, r, me.(task := Running))
    case QuitQueue => SetRun(s, r, me.(task := Draining(false)))
    case Emit => SetRun(s, r, me.(queue := me.queue + 1))
    case TakeInput =>
      if s.liveStdin.Some? then s.(liveStdin := None, taken := s.taken + [Taken(s.liveStdin.value, r)]) else s
    case RunnerEnds(outcome) => SetRun(s, r, me.(task := Draining(outcome)))
    case RunnerPanics => SetRun(s, r, me.(task := Panicked))
    case Drained => SetRun(s, r, me.(task := CheckSlot(me.task.outcome)))
    case CheckSlotNow =>
      SetRun(s, r, me.(task := if Current(s.cell, r) then CheckDocument(me.task.outcome) else Release))
    case CheckDocumentNow =>
      if s.version != me.version then SetRun(s, r, me.(task := Release))
      else if me.task.outcome then SetRun(s, r, me.(task := SendState))
      else Send(SetRun(s, r, me.(task := Release)), Notice)
    case SendTerminal => Send(SetRun(s, r, me.(task := SendResult)), TerminalState(r))
    case SendFinished => Send(SetRun(s, r, me.(task := Release)), RunFinished(r))
    case ReleaseSlot => SetRun(s, r, me.(task := Ended)).(cell := Released(s.cell, r))
  }

  /** The task's own sender is gone: once no clone of it is left, the forwarder sees the channel closed. */
  predicate SendersGone(task: TaskPc) {
    !task.Unspawned? && !task.Queued? && !task.Running?
  }

  predicate ForwardEnabled(me: Run, a: ForwardAction) {
    match a
    case Receive => me.forward.Idle? && me.queue > 0
    case ForwardSlot => me.forward.Received?
    case ForwardDocument => me.forward.CheckingDocument?
    case Forward => me.forward.Sending?
    case CloseForwarder => me.forward.Idle? && me.queue == 0 && SendersGone(me.task)
  }

  function ForwardNext(s: State, r: RunId, a: ForwardAction): State
    requires r < |s.runs| && ForwardEnabled(s.runs[r], a)
  {
    var me := s.runs[r];
    match a
    case Receive => SetRun(s, r, me.(queue := me.queue - 1, forward := Received))
    case ForwardSlot => SetRun(s, r, me.(forward := if Current(s.cell, r) then CheckingDocument else Idle))
    case ForwardDocument => SetRun(s, r, me.(forward := if s.version == me.version then Sending else Idle))
    case Forward => Send(SetRun(s, r, me.(forward := Idle)), Forwarded(r))
    case CloseForwarder => SetRun(s, r, me.(forward := Closed))
  }

  predicate WatchEnabled(me: Run, a: WatchAction) {
    match a
    case Observe => me.watch.Watching? && (me.task.Ended? || me.task.Panicked?)
    case ResetSlot => me.watch.ToReset?
    case SendReset => me.watch.ToSendIdle?
    case SendCrash => me.watch.ToSendCrash?
  }

  function WatchNext(s: State, r: RunId, a: WatchAction): State
    requires r < |s.runs| && WatchEnabled(s.runs[r], a)
  {
    var me := s.runs[r];
    match a
    case Observe =>
      SetRun(s, r, me.(watch := if me.task.Panicked? then ToReset else Retired)).(
        cell := s.cell.(fired := s.cell.fired + {FinishedOf(r)}))
    case ResetSlot =>
      SetRun(s, r, me.(watch := if s.cell.activeRun == Some(r) then ToSendIdle else Retired)).(
        cell := Reset(s.cell, r))
    case SendReset => Send(SetRun(s, r, me.(watch := ToSendCrash)), ResetIdle(r))
    case SendCrash => Send(SetRun(s, r, me.(watch := Retired)), Notice)
  }

  predicate Enabled(s: State, a: Action) {
    match a
    case OfSession(x) => SessionEnabled(s, x)
    case OfUpdate(u, x) => u < |s.updates| && UpdateEnabled(s.updates[u], x)
    case OfStart(i, x) => i < |s.starters| && StartEnabled(s, i, x)
    case OfTask(r, x) => r < |s.runs| && TaskEnabled(s, r, x)
    case OfForwarder(r, x) => r < |s.runs| && ForwardEnabled(s.runs[r], x)
    case OfWatchdog(r, x) => r < |s.runs| && WatchEnabled(s.runs[r], x)
  }

  function Next(s: State, a: Action): State
    requires Enabled(s, a)
  {
    match a
    case OfSession(x) => SessionNext(s, x)
    case OfUpdate(u, x) => UpdateNext(s, u, x)
    case OfStart(i, x) => StartNext(s, i, x)
    case OfTask(r, x) => TaskNext(s, r, x)
    case OfForwarder(r, x) => ForwardNext(s, r, x)
    case OfWatchdog(r, x) => WatchNext(s, r, x)
  }

  /** Any interleaving of the tasks, from an idle scheduler. */
  predicate Execution(states: seq<State>, actions: seq<Action>) {
    && |states| == |actions| + 1
    && Init(states[0])
    && forall k :: 0 <= k < |actions| ==> Enabled(states[k], actions[k]) && states[k + 1] == Next(states[k], actions[k])
  }
}
