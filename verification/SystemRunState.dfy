/** The mutable run state of ecs/world.cpp: the participant count and what the last participant does. */
module SystemRunStateClass {
  import opened Wrappers
  import opened RunParticipants

  lemma SubmitStep(s: RunState, fails: bool)
    requires RunInv(s) && s.round == COUNTED
    ensures Enabled(s, SUBMIT(fails)) && s.outstanding > 1 && s.outcome.None?
  {
    ActorsHoldCounts(s, SUBMIT(fails));
  }

  class SystemRunState {
    const total: nat
    var started: bool
    var published: nat
    var outstanding: nat
    var cancelled: bool
    var failed: bool
    var outcome: Option<Outcome>
    // Who holds a count, and how often the run has been finalized.
    ghost var publishing: bool
    ghost var round: Round
    ghost var tasks: set<nat>
    ghost var buffers: set<nat>
    ghost var nextBuffer: nat
    ghost var finalizations: nat

    ghost function View(): RunState
      reads this
    {
      RunState(total, started, publishing, round, published, tasks, buffers, nextBuffer, outstanding, cancelled, failed,
               finalizations, outcome)
    }

    ghost predicate Valid()
      reads this
    {
      RunInv(View())
    }

    constructor (systems: nat)
      ensures View() == InitialRun(systems) && Valid()
    {
      total := systems;
      started, published, outstanding, cancelled, failed, outcome := false, 0, 1, false, false, None;
      publishing, round, tasks, buffers, nextBuffer, finalizations := false, AT_HEAD, {}, {}, 0, 0;
      new;
      InitialRunInv(systems);
    }

    /** Gives up one count; the last to do so finalizes the run. */
    method Retire()
      requires outstanding > 0
      modifies this`outstanding, this`outcome, this`finalizations
      ensures View() == Retired(old(View()))
    {
      outstanding := outstanding - 1;
      if outstanding != 0 {
        return;
      }
      outcome := Some(if failed then FAILED else if cancelled then CANCELLED else COMPLETED);
      finalizations := finalizations + 1;
    }

    method RequestCancel()
      requires Valid()
      modifies this`cancelled
      ensures Valid() && View() == Step(old(View()), CANCEL)
    {
      cancelled := true;
    }

    /** A run that was never started is cancelled and ends at once; otherwise nothing happens. */
    method Abandon()
      requires Valid()
      modifies this
      ensures Valid() && View() == if old(started) then old(View()) else Step(old(View()), ABANDON)
      ensures !old(started) ==> outcome.Some? && outcome != Some(COMPLETED)
    {
      if !started {
        StepKeepsRunInv(View(), ABANDON);
        started, cancelled := true, true;
        Retire();
      }
    }

    /** Claims the start; a second start is refused. */
    method Start() returns (ok: bool)
      requires Valid()
      modifies this
      ensures Valid() && ok == !old(started)
      ensures View() == if ok then Step(old(View()), START) else old(View())
    {
      if started {
        return false;
      }
      StepKeepsRunInv(View(), START);
      started, publishing := true, true;
      ok := true;
    }

    /** The head of the publication loop: it stops behind a failure or a cancellation. */
    method CheckNext() returns (more: bool)
      requires Valid() && publishing && round == AT_HEAD
      modifies this`round
      ensures Valid() && more == (!old(cancelled) && !old(failed) && old(published) < total)
      ensures View() == if more then Step(old(View()), CHECK) else old(View())
    {
      assert published <= total;
      if published == total || cancelled || failed {
        return false;
      }
      StepKeepsRunInv(View(), CHECK);
      round := CHECKED;
      more := true;
    }

    /** The next system is counted before it is submitted, even when the run has been cancelled meanwhile. */
    method CountNext()
      requires Valid() && round == CHECKED
      modifies this`round, this`outstanding
      ensures Valid() && View() == Step(old(View()), COUNT)
    {
      StepKeepsRunInv(View(), COUNT);
      round := COUNTED;
      outstanding := outstanding + 1;
    }

    /** Submits it; a submission that throws fails the run and gives the count back, which is never the last one. */
    method SubmitNext(submitFails: bool)
      requires Valid() && round == COUNTED
      modifies this
      ensures Valid() && View() == Step(old(View()), SUBMIT(submitFails)) && outcome.None?
    {
      hide RunInv, Holders;
      SubmitStep(View(), submitFails);
      StepKeepsRunInv(View(), SUBMIT(submitFails));
      round := AT_HEAD;
      if submitFails {
        failed := true;
        Retire();
        return;
      }
      tasks := tasks + {published};
      published := published + 1;
    }

    method EndPublication()
      requires Valid() && Enabled(View(), END_PUBLICATION)
      modifies this
      ensures Valid() && View() == Step(old(View()), END_PUBLICATION)
    {
      StepKeepsRunInv(View(), END_PUBLICATION);
      publishing := false;
      Retire();
    }

    /** The task of a system ends; after a failure or a cancellation its callback is skipped. */
    method EndTask(task: nat, throws: bool)
      requires Valid() && task in tasks
      modifies this
      ensures Valid() && View() == Step(old(View()), END_TASK(task, throws))
    {
      StepKeepsRunInv(View(), END_TASK(task, throws));
      tasks := tasks - {task};
      failed := failed || throws;
      Retire();
    }

    /** Opens a producer buffer for a running system; admission is closed behind a failure or a cancellation. */
    method OpenBuffer(producer: nat) returns (ok: bool)
      requires Valid() && producer in tasks
      modifies this
      ensures Valid() && ok == (!old(cancelled) && !old(failed))
      ensures View() == if ok then Step(old(View()), OPEN_BUFFER(producer)) else old(View())
    {
      if cancelled || failed {
        return false;
      }
      StepKeepsRunInv(View(), OPEN_BUFFER(producer));
      outstanding := outstanding + 1;
      buffers := buffers + {nextBuffer};
      nextBuffer := nextBuffer + 1;
      ok := true;
    }

    /** A buffer is submitted or dropped; its clean-up may fail the run. */
    method CloseBuffer(buffer: nat, cleanupFails: bool)
      requires Valid() && buffer in buffers
      modifies this
      ensures Valid() && View() == Step(old(View()), CLOSE_BUFFER(buffer, cleanupFails))
    {
      StepKeepsRunInv(View(), CLOSE_BUFFER(buffer, cleanupFails));
      buffers := buffers - {buffer};
      failed := failed || cleanupFails;
      Retire();
    }
  }
}
