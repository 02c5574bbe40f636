/**
 The event loop of one job: which events can happen on a registration, and
 carrying them out by the section each of them stands for.
 */
module JobEventLoop {
  import opened Wrappers
  import opened JobState
  import opened JobRegistration

  method FindRun(reg: Registration, id: nat) returns (run: JobRun?)
    ensures run != null ==> run in reg.runs && run.id == id
    ensures run == null ==> forall i :: 0 <= i < |reg.runs| ==> reg.runs[i].id != id
  {
    for n := 0 to |reg.runs|
      invariant forall i :: 0 <= i < n ==> reg.runs[i].id != id
    {
      if reg.runs[n].id == id {
        return reg.runs[n];
      }
    }
    return null;
  }

  /** Whether a run with this id holds a slot, launched or not. */
  method HasRun(reg: Registration, id: nat, launched: bool) returns (has: bool)
    requires reg.Valid()
    ensures has == HoldsSlot(reg.View(), id, launched)
    ensures has <==> exists r | r in reg.runs :: r.id == id && r.launched == launched
  {
    var run := FindRun(reg, id);
    has := run != null && run.launched == launched;
    assert forall i :: 0 <= i < |reg.runs| ==>
      reg.View().slots[i] == Slot(reg.runs[i].id, reg.runs[i].cancelled, reg.runs[i].launched);
    if run != null {
      ghost var k :| 0 <= k < |reg.runs| && reg.runs[k] == run;
      assert reg.View().slots[k].id == id;
      assert forall i :: 0 <= i < |reg.runs| && reg.runs[i].id == id ==> i == k;
    }
  }

  method NoTimerLeft(reg: Registration) returns (none: bool)
    ensures none == (reg.Live() == {})
    ensures none <==> forall t | t in reg.tasks :: t.cancelled || t.done
  {
    for n := 0 to |reg.tasks|
      invariant forall i :: 0 <= i < n ==> reg.tasks[i].cancelled || reg.tasks[i].done
    {
      if !reg.tasks[n].cancelled && !reg.tasks[n].done {
        assert n in reg.Live();
        return false;
      }
    }
    assert forall i :: i !in reg.Live();
    return true;
  }

  method CanHappen(reg: Registration, e: Event) returns (can: bool)
    requires reg.Valid()
    ensures can == Enabled(reg.View(), e)
    ensures match e
            case TimerFires(timer, _) =>
              can <==> exists t | t in reg.tasks :: t.id == timer && !t.cancelled && !t.done
            case TriggerLaunches(id) => can <==> exists r | r in reg.runs :: r.id == id && !r.launched
            case RunEnded(id) => can <==> exists r | r in reg.runs :: r.id == id && r.launched
            case AttemptTimedOut(id) => can <==> exists r | r in reg.runs :: r.id == id && r.launched
            case AttemptEnded(id, _) => can <==> exists r | r in reg.runs :: r.id == id && r.launched
            case SchedulerStarts(_, _) => can <==> !reg.started && forall t | t in reg.tasks :: t.cancelled || t.done
            case SchedulerStops => can <==> !reg.started
            case _ => can
  {
    match e
    case TimerFires(timer, _) =>
      can := timer < |reg.tasks| && !reg.tasks[timer].cancelled && !reg.tasks[timer].done;
      assert timer < |reg.tasks| ==> reg.tasks[timer] in reg.tasks;
    case TriggerLaunches(id) => can := HasRun(reg, id, false);
    case RunEnded(id) => can := HasRun(reg, id, true);
    case AttemptTimedOut(id) => can := HasRun(reg, id, true);
    case AttemptEnded(id, _) => can := HasRun(reg, id, true);
    case SchedulerStarts(_, _) =>
      can := NoTimerLeft(reg);
      can := can && !reg.started;
    case SchedulerStops => can := !reg.started;
    case _ => can := true;
  }

  /** A run stays in the list unless it is the one that ends. */
  twostate predicate OthersStay(reg: Registration, e: Event)
    reads reg
  {
    && (forall r | r in old(reg.runs) && e != RunEnded(r.id) :: r in reg.runs)
    && fresh(reg.Parts() - old(reg.Parts()))
  }

  method SetCancelled(reg: Registration, run: JobRun)
    requires reg.Valid() && run in reg.runs
    modifies run`cancelled
    ensures reg.Valid() && reg.View() == CancelOne(old(reg.View()), run.id) && run.cancelled
  {
    run.cancelled := true;
    ghost var k :| 0 <= k < |reg.runs| && reg.runs[k] == run;
    assert forall i :: 0 <= i < |reg.runs| && i != k ==> reg.runs[i].id != run.id;
    assert reg.Slots() == CancelOne(old(reg.View()), run.id).slots;
  }

  method ReleaseRun(reg: Registration, run: JobRun)
    requires reg.Valid()
    modifies reg
    ensures reg.Valid() && reg.View() == Release(old(reg.View()), run.id) && OthersStay(reg, RunEnded(run.id))
  {
    hide JobState.Release, StartQueued;
    ghost var left := Registration.Removed(reg.runs, run.id);
    reg.Release(run);
    assert forall r :: r in left ==> r in reg.runs;
  }

  /** An event that concerns one run of the list. */
  method PerformOnRun(reg: Registration, e: Event)
    requires reg.Valid() && Enabled(reg.View(), e)
    requires e.TriggerLaunches? || e.RunEnded? || e.AttemptTimedOut?
    modifies reg, reg.Parts()
    ensures reg.Valid() && reg.View() == Next(old(reg.View()), e) && OthersStay(reg, e)
  {
    hide JobState.Release, CancelOne, JobState.Launch;
    var run := FindRun(reg, e.id);
    match e {
      case TriggerLaunches(_) => reg.Launch(run);
      case RunEnded(_) => ReleaseRun(reg, run);
      case AttemptTimedOut(_) => SetCancelled(reg, run);
    }
  }

  method Perform(reg: Registration, e: Event)
    requires reg.Valid() && Enabled(reg.View(), e)
    modifies reg, reg.Parts()
    ensures reg.Valid() && reg.View() == Next(old(reg.View()), e) && OthersStay(reg, e)
  {
    hide Next;
    if e.TriggerLaunches? || e.RunEnded? || e.AttemptTimedOut? {
      PerformOnRun(reg, e);
    } else if e.AttemptEnded? || e.SchedulerStopping? {
      PerformOnFields(reg, e);
    } else {
      PerformCall(reg, e);
    }
  }

  method PerformOnFields(reg: Registration, e: Event)
    requires reg.Valid() && (e.AttemptEnded? || e.SchedulerStopping?)
    modifies reg
    ensures reg.Valid() && reg.View() == Next(old(reg.View()), e) && OthersStay(reg, e)
  {
    if e.AttemptEnded? {
      reg.lastRunAt := Some(e.startedAt);
    } else {
      reg.started := false;
    }
  }

  method PerformCall(reg: Registration, e: Event)
    requires reg.Valid() && Enabled(reg.View(), e)
    requires !(e.TriggerLaunches? || e.RunEnded? || e.AttemptTimedOut? || e.AttemptEnded? || e.SchedulerStopping?)
    modifies reg, reg.Parts()
    ensures reg.Valid() && reg.View() == Next(old(reg.View()), e) && OthersStay(reg, e)
  {
    hide Next;
    var refused, run;
    match e {
      case TimerFires(timer, now) => reg.TimerFire(reg.tasks[timer], now);
      case TriggerCalled => run, refused := reg.Trigger();
      case PauseCalled => refused := reg.Pause();
      case ResumeCalled(now) => refused := reg.Resume(now);
      case StopCalled => reg.Stop();
      case CancelCalled => refused := reg.CancelCurrent();
      case OptionsUpdated(c, now) => refused := reg.UpdateOptions(c, now);
      case SchedulerStarts(saved, now) => reg.StartScheduler(saved, now);
      case SchedulerStops => reg.StopScheduler();
    }
  }
}
