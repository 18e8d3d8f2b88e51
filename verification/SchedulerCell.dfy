/** The `Inner` record itself: each lock region is one method that updates it in place. */
module SchedulerCell {
  import opened Common
  import opened Scheduler

  /** The slot names a run exactly when it holds that run's own token, not yet fired. */
  predicate SlotAgrees(c: Cell) {
    && (c.cancel.Some? <==> c.activeRun.Some?)
    && (c.activeRun.Some? ==> c.cancel == Some(CancelOf(c.activeRun.value)) && CancelOf(c.activeRun.value) !in c.fired)
  }

  class Inner {
    var debounce: Option<(Tag, TaskId)>
    var debounceSeq: Tag
    var cancel: Option<Token>
    var activeRun: Option<RunId>
    var finished: Option<Token>
    var liveInput: Option<RunId>
    /** Tokens and join handles are shared objects: what has been done to them. */
    var fired: set<Token>
    var aborted: set<TaskId>

    function View(): Cell
      reads this
    {
      Cell(debounce, debounceSeq, cancel, activeRun, finished, liveInput, fired, aborted)
    }

    constructor ()
      ensures View() == Cell(None, 0, None, None, None, None, {}, {})
    {
      debounce, debounceSeq, cancel, activeRun := None, 0, None, None;
      finished, liveInput, fired, aborted := None, None, {}, {};
    }

    method CancelInternal()
      modifies this
      ensures View() == Cancelled(old(View()))
      ensures SlotAgrees(View())
      ensures debounce == None && cancel == None && activeRun == None && liveInput == None
      ensures finished == old(finished) && debounceSeq == old(debounceSeq)
      ensures aborted == old(aborted) + (if old(debounce).Some? then {old(debounce).value.1} else {})
      ensures fired == old(fired) + (if old(cancel).Some? then {old(cancel).value} else {})
    {
      if debounce.Some? {
        aborted := aborted + {debounce.value.1};
        debounce := None;
      }
      if cancel.Some? {
        fired := fired + {cancel.value};
        cancel := None;
      }
      activeRun := None;
      liveInput := None;
    }

    /** A debounce task asks whether it is still the pending one, and leaves the slot if so. */
    method LeavePendingSlot(tag: Tag) returns (mine: bool)
      modifies this`debounce
      ensures mine == Pending(old(View()), tag)
      ensures mine <==> old(debounce).Some? && old(debounce).value.0 == tag
      ensures View() == if mine then old(View()).(debounce := None) else old(View())
      ensures !Pending(View(), tag)
    {
      if debounce.None? || debounce.value.0 != tag {
        return false;
      }
      debounce := None;
      return true;
    }

    method StorePending(handle: TaskId) returns (tag: Tag)
      modifies this`debounce, this`debounceSeq
      ensures View() == Stored(old(View()), handle)
      ensures tag == debounceSeq == old(debounceSeq) + 1 && debounce == Some((tag, handle))
      ensures Pending(View(), tag) && tag > old(debounceSeq)
    {
      debounceSeq := debounceSeq + 1;
      tag := debounceSeq;
      debounce := Some((tag, handle));
    }

    method TakeFinished() returns (previous: Option<Token>)
      modifies this`finished
      ensures previous == old(finished)
      ensures View() == old(View()).(finished := None)
    {
      previous := finished;
      finished := None;
    }

    method Install(run: RunId, interactive: bool)
      modifies this
      ensures View() == Installed(old(View()), run, interactive)
      ensures cancel == Some(CancelOf(run)) && activeRun == Some(run) && finished == Some(FinishedOf(run))
      ensures liveInput == if interactive then Some(run) else None
      ensures debounce == old(debounce) && fired == old(fired) && aborted == old(aborted)
      ensures CancelOf(run) !in old(fired) ==> SlotAgrees(View())
    {
      cancel := Some(CancelOf(run));
      activeRun := Some(run);
      finished := Some(FinishedOf(run));
      liveInput := if interactive then Some(run) else None;
    }

    method IsCurrent(run: RunId) returns (current: bool)
      ensures current == Current(View(), run)
      ensures current <==> activeRun == Some(run) && CancelOf(run) !in fired
    {
      current := CancelOf(run) !in fired && activeRun == Some(run);
    }

    method ReleaseSlot(run: RunId)
      modifies this
      ensures View() == Released(old(View()), run)
      ensures old(activeRun) == Some(run) ==> View() == old(View()).(activeRun := None, cancel := None, liveInput := None)
      ensures old(SlotAgrees(View())) ==> SlotAgrees(View())
      ensures old(activeRun) != Some(run) ==> View() == old(View())
    {
      if activeRun == Some(run) {
        activeRun := None;
        cancel := None;
        liveInput := None;
      }
    }

    method ResetAfterPanic(run: RunId) returns (ours: bool)
      modifies this
      ensures ours <==> old(activeRun) == Some(run)
      ensures View() == Reset(old(View()), run)
      ensures View() == if ours then old(View()).(activeRun := None, cancel := None) else old(View())
      ensures old(SlotAgrees(View())) ==> SlotAgrees(View())
    {
      ours := activeRun == Some(run);
      if ours {
        activeRun := None;
        cancel := None;
      }
    }

    /** `receiving` says whether the receiver at the other end still exists. */
    method WriteStdin(eof: bool, receiving: bool) returns (sent: bool)
      modifies this`liveInput
      ensures sent <==> old(liveInput).Some? && receiving
      ensures View() == if eof then old(View()).(liveInput := None) else old(View())
    {
      sent := liveInput.Some? && receiving;
      if eof {
        liveInput := None;
      }
    }
  }
}
