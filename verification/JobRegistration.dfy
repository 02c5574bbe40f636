/**
 The scheduler's sections on one registration, in place: the runs list, the
 waiting flag, the timer task and the options are fields, runs and timer tasks
 are objects shared with their coroutines.  Each method is proved to do what
 `JobState.Next` says.
 */
module JobRegistration {
  import opened Wrappers
  import opened JobState

  /** One run; its cancellation event is shared with the run's coroutine. */
  class JobRun {
    const id: nat
    var cancelled: bool
    var launched: bool

    constructor (id: nat)
      ensures this.id == id && !cancelled && !launched
    {
      this.id := id;
      cancelled, launched := false, false;
    }
  }

  /** A timer task: it can fire until it is cancelled or done. */
  class TimerTask {
    const id: nat
    var cancelled: bool
    var done: bool

    constructor (id: nat)
      ensures this.id == id && !cancelled && !done
    {
      this.id := id;
      cancelled, done := false, false;
    }
  }

  class Registration {
    var options: Options
    var status: Status
    var started: bool
    var runs: seq<JobRun>
    var queued: bool
    var nextRunAt: Option<Time>
    var lastRunAt: Option<Time>
    var timerTask: TimerTask?
    /** Every timer task created for the job, as the event loop knows them. */
    var tasks: seq<TimerTask>
    /** Runs created so far. */
    var created: nat

    ghost predicate Valid()
      reads this
    {
      && Increasing(runs)
      && (forall i :: 0 <= i < |runs| ==> runs[i].id < created)
      && (forall i :: 0 <= i < |tasks| ==> tasks[i].id == i)
      && (timerTask != null ==> timerTask in tasks)
    }

    ghost function Slots(): seq<Slot>
      reads this`runs, runs
    {
      SlotsOf(runs)
    }

    static ghost function SlotsOf(rs: seq<JobRun>): seq<Slot>
      reads rs
    {
      seq(|rs|, i requires 0 <= i < |rs| reads rs => Slot(rs[i].id, rs[i].cancelled, rs[i].launched))
    }

    ghost function Live(): set<nat>
      reads this`tasks, tasks`cancelled, tasks`done
    {
      set i: nat | i < |tasks| && !tasks[i].cancelled && !tasks[i].done
    }

    ghost function View(): State
      reads this, runs, tasks
    {
      State(options, status, started, Slots(), queued, created, nextRunAt, lastRunAt,
            if timerTask == null then None else Some(timerTask.id), Live(), |tasks|)
    }

    /** Runs and timer tasks of the job. */
    ghost function Parts(): set<object>
      reads this
    {
      (set r | r in runs) + (set t | t in tasks)
    }

    /** Runs stay, and parts that were not there before are new. */
    twostate predicate Grown()
      reads this
    {
      old(runs) <= runs && fresh(Parts() - old(Parts()))
    }

    constructor (options: Options, started: bool)
      requires options.limit >= 1
      ensures Valid() && Registered(View()) && fresh(Parts())
      ensures this.options == options && this.started == started
    {
      this.options, this.started := options, started;
      status := if options.enabled then Active else Stopped;
      runs, queued, tasks, created := [], false, [], 0;
      nextRunAt, lastRunAt, timerTask := None, None, null;
    }

    // -------------------------------------------------------------------
    // Slots
    // -------------------------------------------------------------------

    method TakeSlot() returns (run: JobRun)
      requires Valid()
      modifies this
      ensures Valid() && fresh(run) && runs == old(runs) + [run] && tasks == old(tasks)
      ensures View() == JobState.TakeSlot(old(View()), false)
      ensures !run.launched && run.id == old(created)
    {
      run := new JobRun(created);
      runs := runs + [run];
      created := created + 1;
    }

    method Launch(run: JobRun)
      requires Valid() && run in runs
      modifies run
      ensures Valid() && View() == JobState.Launch(old(View()), run.id)
      ensures run.launched && run.cancelled == old(run.cancelled)
    {
      run.launched := true;
      ghost var k :| 0 <= k < |runs| && runs[k] == run;
      assert forall i :: 0 <= i < |runs| && i != k ==> runs[i].id != run.id;
    }

    /** `_admit`: `run` is null when none took a slot; a manual call may be refused. */
    method Admit(manual: bool) returns (run: JobRun?, outcome: Admission)
      requires Valid()
      modifies this, runs
      ensures Valid() && tasks == old(tasks)
      ensures JobState.Admit(old(View()), manual, false) == Admitted(View(), outcome)
      ensures run != null <==> outcome.Started?
      ensures run != null ==> fresh(run) && runs == old(runs) + [run] && run.id == old(created) && !run.launched
      ensures run == null ==> runs == old(runs)
    {
      var limit := options.limit;
      if |runs| < limit {
        run := TakeSlot();
        outcome := Started;
        return;
      }
      run := null;
      match options.policy {
        case Queue =>
          queued := true;
          outcome := Waiting;
        case Cancel =>
          if !queued && runs != [] {
            runs[0].cancelled := true;
            queued := true;
            assert Slots() == old(Slots())[0 := old(Slots())[0].(cancelled := true)];
          }
          outcome := Waiting;
        case Skip =>
          outcome := if manual then Refused else Dropped;
      }
    }

    method StartQueued()
      requires Valid()
      modifies this
      ensures Valid() && View() == JobState.StartQueued(old(View()))
      ensures Grown() && tasks == old(tasks)
    {
      if queued && |runs| < options.limit {
        queued := false;
        ghost var before := View();
        var run := TakeSlot();
        LaunchNew(run, before);
      }
    }

    /** Launching the run that has just taken a slot. */
    method LaunchNew(run: JobRun, ghost before: State)
      requires Valid() && runs != [] && run == runs[|runs| - 1]
      requires View() == JobState.TakeSlot(before, false)
      modifies run
      ensures Valid() && View() == JobState.TakeSlot(before, true)
    {
      Launch(run);
      assert Slots() == JobState.TakeSlot(before, true).slots;
    }

    /** `_admit` and `_launch` in one section, for a due run that nobody waits for. */
    method AdmitAndLaunch()
      requires Valid()
      modifies this, runs
      ensures Valid() && View() == JobState.Admit(old(View()), false, true).state
      ensures Grown() && tasks == old(tasks)
    {
      ghost var before := View();
      var run, outcome := Admit(false);
      if run != null {
        LaunchNew(run, before);
      }
    }

    method Release(run: JobRun)
      requires Valid()
      modifies this
      ensures Valid() && View() == JobState.Release(old(View()), run.id)
      ensures Removed(old(runs), run.id) <= runs && fresh(Parts() - old(Parts())) && tasks == old(tasks)
    {
      RemoveRun(run);
      ghost var freed := View();
      StartQueued();
      assert View() == JobState.StartQueued(freed);
    }

    method RemoveRun(run: JobRun)
      requires Valid()
      modifies this`runs
      ensures Valid() && View() == old(View()).(slots := Without(old(Slots()), run.id))
      ensures runs == Removed(old(runs), run.id)
    {
      RemovedSlots(runs, run.id);
      RemovedKeepsOrder(runs, run.id);
      ghost var left := Removed(runs, run.id);
      assert forall i :: 0 <= i < |left| ==> left[i] in runs;
      runs := Removed(runs, run.id);
    }

    static function Removed(rs: seq<JobRun>, id: nat): (left: seq<JobRun>)
      ensures forall r | r in rs :: r in left <==> r.id != id
      ensures forall r | r in left :: r in rs
    {
      if rs == [] then []
      else
        assert rs == [rs[0]] + rs[1..];
        (if rs[0].id == id then [] else [rs[0]]) + Removed(rs[1..], id)
    }

    static lemma SlotsCons(run: JobRun, rest: seq<JobRun>)
      ensures SlotsOf([run] + rest) == [Slot(run.id, run.cancelled, run.launched)] + SlotsOf(rest)
    {
    }

    static lemma {:induction false} RemovedSlots(rs: seq<JobRun>, id: nat)
      ensures SlotsOf(Removed(rs, id)) == Without(SlotsOf(rs), id)
    {
      if rs != [] {
        RemovedSlots(rs[1..], id);
        assert rs == [rs[0]] + rs[1..];
        SlotsCons(rs[0], rs[1..]);
        assert SlotsOf(rs)[1..] == SlotsOf(rs[1..]);
        SlotsCons(rs[0], Removed(rs[1..], id));
      }
    }

    static ghost predicate Increasing(rs: seq<JobRun>) {
      forall i, j :: 0 <= i < j < |rs| ==> rs[i].id < rs[j].id
    }

    static lemma {:induction false} RemovedKeepsOrder(rs: seq<JobRun>, id: nat)
      requires Increasing(rs)
      ensures Increasing(Removed(rs, id))
    {
      if rs != [] {
        RemovedKeepsOrder(rs[1..], id);
        var rest := Removed(rs[1..], id);
        forall j | 0 <= j < |rest| ensures rs[0].id < rest[j].id {
          assert rest[j] in rs[1..];
        }
      }
    }

    method CancelRuns()
      requires Valid()
      modifies this`queued, runs`cancelled
      ensures Valid() && Grown() && View() == JobState.CancelRuns(old(View()))
    {
      ghost var before := View();
      queued := false;
      for n := 0 to |runs|
        invariant !queued
        invariant forall i :: 0 <= i < |runs| ==> runs[i].cancelled == (i < n || old(runs[i].cancelled))
      {
        assert forall i :: 0 <= i < |runs| && i != n ==> runs[i].id != runs[n].id;
        runs[n].cancelled := true;
      }
      assert Slots() == AllCancelled(before.slots);
    }

    // -------------------------------------------------------------------
    // The timer
    // -------------------------------------------------------------------

    method CancelTimer()
      requires Valid()
      modifies this`timerTask, this`nextRunAt, tasks`cancelled
      ensures Valid() && Grown() && View() == JobState.CancelTimer(old(View()))
    {
      ghost var live := Live();
      if timerTask != null && !timerTask.done {
        timerTask.cancelled := true;
      }
      assert Live() == live - (if timerTask == null then {} else {timerTask.id});
      timerTask := null;
      nextRunAt := None;
    }

    /** Sets the next run and creates the task that waits for it. */
    method NewTimer(at: Time)
      requires Valid()
      modifies this`nextRunAt, this`timerTask, this`tasks
      ensures Valid() && View() == JobState.NewTimer(old(View()), at)
      ensures Grown()
    {
      ghost var live := Live();
      nextRunAt := Some(at);
      timerTask := new TimerTask(|tasks|);
      tasks := tasks + [timerTask];
      assert Live() == live + {timerTask.id};
    }

    method ScheduleNext(now: Time, runNow: bool, afterFire: bool, firedAt: Option<Time>)
      requires Valid()
      modifies this`nextRunAt, this`timerTask, this`tasks
      ensures Valid() && View() == JobState.ScheduleNext(old(View()), now, runNow, afterFire, firedAt)
      ensures Grown()
    {
      if !started {
        return;
      }
      if options.schedule.Some? {
        var cron := options.schedule.value;
        var next: Option<Time> := None;
        if firedAt.Some? {
          next := Some(cron(firedAt.value));
          if next.value <= now {  // busy, or the clock jumped
            next := None;
          }
        }
        if next.None? {
          next := Some(cron(now));
        }
        NewTimer(next.value);
      } else if options.interval.Some? {
        var due := (if lastRunAt.Some? && !afterFire then lastRunAt.value else now) + options.interval.value;
        if due < now || runNow {
          due := now;
        }
        NewTimer(due);
      } else {
        nextRunAt := None;
      }
    }

    /** `_timer_fire` from the end of its sleep on; a cancelled task only ends. */
    method TimerFire(task: TimerTask, now: Time)
      requires Valid() && task in tasks && !task.done
      modifies this, Parts()
      ensures Valid() && Grown()
      ensures View() == if old(task.id in Live()) then Next(old(View()), TimerFires(task.id, now)) else old(View())
    {
      hide JobState.ScheduleNext;
      ghost var live := Live();
      task.done := true;
      assert Live() == live - {task.id};
      if task.cancelled || !started || status != Active {
        return;
      }
      var firedAt := nextRunAt;
      AdmitAndLaunch();
      if status == Active {
        ScheduleNext(now, false, true, firedAt);
      }
    }

    // -------------------------------------------------------------------
    // Control calls, up to their first await
    // -------------------------------------------------------------------

    /** `trigger`: admits at once; the run is launched after `job:triggered` was published. */
    method Trigger() returns (run: JobRun?, refused: bool)
      requires Valid()
      modifies this, Parts()
      ensures Valid() && Grown() && View() == Next(old(View()), TriggerCalled)
      ensures refused <==> old(|runs| >= options.limit && options.policy == Skip)
      ensures run != null <==> old(|runs| < options.limit)
    {
      var outcome;
      run, outcome := Admit(true);
      refused := outcome.Refused?;
    }

    method Pause() returns (refused: bool)
      requires Valid()
      modifies this, Parts()
      ensures Valid() && Grown() && View() == Next(old(View()), PauseCalled)
      ensures refused <==> old(status == Paused)
    {
      refused := status == Paused;
      if !refused {
        status := Paused;
        CancelTimer();
      }
    }

    method Resume(now: Time) returns (refused: bool)
      requires Valid()
      modifies this, Parts()
      ensures Valid() && Grown() && View() == Next(old(View()), ResumeCalled(now))
      ensures refused <==> old(status != Paused)
    {
      refused := status != Paused;
      if !refused {
        status := Active;
        ghost var active := View();
        ScheduleNext(now, false, false, None);
        assert View() == JobState.ScheduleNext(active, now, false, false, None);
      }
    }

    method Stop()
      requires Valid()
      modifies this, Parts()
      ensures Valid() && Grown() && View() == Next(old(View()), StopCalled)
    {
      hide JobState.CancelRuns, JobState.CancelTimer, SlotsOf, Live, Increasing;
      status := Stopped;
      CancelTimer();
      assert Parts() == old(Parts()) && View() == JobState.CancelTimer(old(View()).(status := Stopped));
      CancelRuns();
    }

    method CancelCurrent() returns (refused: bool)
      requires Valid()
      modifies this, Parts()
      ensures Valid() && Grown() && View() == Next(old(View()), CancelCalled)
      ensures refused <==> old(runs == [] && !queued)
    {
      refused := runs == [] && !queued;
      if !refused {
        CancelRuns();
      }
    }

    /** `update_options`: each value is checked where it is set, so a refused one leaves the earlier ones set. */
    method UpdateOptions(c: Changes, now: Time) returns (refused: bool)
      requires Valid()
      modifies this, Parts()
      ensures Valid() && Grown() && View() == Next(old(View()), OptionsUpdated(c, now))
      ensures refused <==> !ApplyChanges(old(options), c).ok
    {
      hide JobState.ScheduleNext, JobState.StartQueued, ApplyChanges, SlotsOf, Live;
      refused := SetOptions(c);
      if !refused {
        SetLimit(c.limit);
        Reschedule(now);
      }
    }

    /** A higher limit may free a slot for a waiting run. */
    method SetLimit(limit: Option<int>)
      requires Valid()
      modifies this
      ensures var s := old(View());
        View() == if limit.Some? then JobState.StartQueued(s.(options := s.options.(limit := limit.value))) else s
      ensures Valid() && Grown() && tasks == old(tasks)
    {
      if limit.Some? {
        options := options.(limit := limit.value);
        StartQueued();
      }
    }

    method Reschedule(now: Time)
      requires Valid()
      modifies this`nextRunAt, this`timerTask, this`tasks, tasks`cancelled
      ensures Valid() && Grown() && View() == if status.Active?
        then JobState.ScheduleNext(JobState.CancelTimer(old(View())), now, false, false, None) else old(View())
    {
      if status == Active {
        CancelTimer();
        ScheduleNext(now, false, false, None);
      }
    }

    method SetOptions(c: Changes) returns (refused: bool)
      modifies this`options
      ensures Progress(options, !refused) == ApplyChanges(old(options), c)
    {
      refused := SetTiming(c);
      if !refused {
        refused := SetRetrying(c);
        if !refused {
          refused := SetRest(c);
        }
      }
    }

    method SetTiming(c: Changes) returns (refused: bool)
      modifies this`options
      ensures Progress(options, !refused) == SetInterval(SetSchedule(CheckFirst(old(options), c), c), c)
    {
      refused := true;
      if (c.limit.Some? && c.limit.value < 1) || (c.schedule.Some? && c.interval.Some?) {
        return;
      }
      if c.schedule.Some? {
        if c.schedule.value.Invalid? {
          return;
        }
        options := options.(schedule := Some(c.schedule.value.value), interval := None);
      }
      if c.interval.Some? {
        if c.interval.value.Invalid? {
          return;
        }
        options := options.(interval := Some(c.interval.value.value), schedule := None);
      }
      refused := false;
    }

    method SetRetrying(c: Changes) returns (refused: bool)
      modifies this`options
      ensures Progress(options, !refused) ==
        SetStrategy(SetRetryDelay(SetRetries(Progress(old(options), true), c), c), c)
    {
      refused := true;
      if c.maxRetries.Some? {
        options := options.(maxRetries := c.maxRetries.value);
      }
      if c.retryDelay.Some? {
        if c.retryDelay.value.Invalid? {
          return;
        }
        options := options.(retryDelay := c.retryDelay.value.value);
      }
      if c.strategy.Some? {
        if c.strategy.value.Invalid? {
          return;
        }
        options := options.(strategy := c.strategy.value.value);
      }
      refused := false;
    }

    method SetRest(c: Changes) returns (refused: bool)
      modifies this`options
      ensures Progress(options, !refused) == SetPolicy(SetTimeout(Progress(old(options), true), c), c)
    {
      refused := true;
      if c.timeout.Some? {
        if c.timeout.value.Invalid? {
          return;
        }
        options := options.(timeout := Some(c.timeout.value.value));
      }
      if c.policy.Some? {
        if c.policy.value.Invalid? {
          return;
        }
        options := options.(policy := c.policy.value.value);
      }
      refused := false;
    }

    // -------------------------------------------------------------------
    // Start and stop of the scheduler, for this job
    // -------------------------------------------------------------------

    method StartScheduler(saved: Option<Saved>, now: Time)
      requires Valid()
      modifies this, Parts()
      ensures Valid() && Grown() && View() == Next(old(View()), SchedulerStarts(saved, now))
    {
      hide JobState.StartActive, SlotsOf, Live;
      started := true;
      ghost var flagged := View();
      RestoreSaved(saved);
      ghost var restored := Restore(flagged, saved);
      assert View() == restored;
      if status == Active {
        StartActive(now);
      }
    }

    method StartActive(now: Time)
      requires Valid()
      modifies this, Parts()
      ensures Valid() && Grown() && View() == JobState.StartActive(old(View()), now)
    {
      var runNow := options.runOnStart && DueOnStart(options, lastRunAt, now);
      if options.interval.Some? && options.schedule.None? {
        ScheduleNext(now, runNow, false, None);
      } else {
        ScheduleAndRun(now, runNow);
      }
    }

    method RestoreSaved(saved: Option<Saved>)
      requires Valid()
      modifies this`lastRunAt, this`status
      ensures Valid() && View() == Restore(old(View()), saved)
    {
      if saved.Some? {
        lastRunAt := saved.value.lastRunAt;
        if options.enabled {
          status := saved.value.status;
        }
      }
    }

    method ScheduleAndRun(now: Time, runNow: bool)
      requires Valid()
      modifies this, Parts()
      ensures var scheduled := JobState.ScheduleNext(old(View()), now, false, false, None);
        Valid() && Grown() && View() == if runNow then JobState.Admit(scheduled, false, true).state else scheduled
    {
      ScheduleNext(now, false, false, None);
      if runNow {
        AdmitAndLaunch();
      }
    }

    method StopScheduler()
      requires Valid() && !started
      modifies this, Parts()
      ensures Valid() && Grown() && View() == Next(old(View()), SchedulerStops)
    {
      CancelRuns();
      ghost var live := Live();
      if timerTask != null && !timerTask.done {
        timerTask.cancelled := true;
      }
      assert Live() == live - (if timerTask == null then {} else {timerTask.id});
    }
  }
}
