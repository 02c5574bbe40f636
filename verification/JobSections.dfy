/**
 What each section leaves of a job, said on the state alone: which run takes a slot,
 which option has which value, which runs are cancelled, whether a timer is pending.
 And what follows over whole runs: where the last run's start comes from, and that an
 active job is never without its timer.
 */
module JobSections {
  import opened Wrappers
  import opened JobState
  import opened JobSafety
  import opened JobRhythm

  // ---------------------------------------------------------------------
  // Due runs
  // ---------------------------------------------------------------------

  /**
   A due run takes a free slot as the next run, not cancelled.  With every slot taken
   none starts: by policy one waits or not, and the oldest run is cancelled, once.
   */
  ghost predicate DueRun(s: State, t: State, launched: bool) {
    if |s.slots| < s.options.limit then
      && t.slots == s.slots + [Slot(s.nextId, false, launched)]
      && t.nextId == s.nextId + 1 && t.queued == s.queued
    else
      && t.nextId == s.nextId && |t.slots| == |s.slots|
      && (t.queued <==> s.queued || s.options.policy == Queue || s.options.policy == Cancel)
      && forall i :: 0 <= i < |s.slots| ==>
           t.slots[i] == Slot(s.slots[i].id,
                              s.slots[i].cancelled || (i == 0 && s.options.policy == Cancel && !s.queued),
                              s.slots[i].launched)
  }

  /** The fields that neither slots nor timers are. */
  ghost predicate SameRest(s: State, t: State) {
    t.options == s.options && t.status == s.status && t.started == s.started && t.lastRunAt == s.lastRunAt
  }

  /** A timer of its own is pending, and no other. */
  ghost predicate Armed(s: State, t: State) {
    t.live == {s.nextTimer} && t.timer == Some(s.nextTimer) && t.nextTimer == s.nextTimer + 1 && t.nextRunAt.Some?
  }

  /** A schedule or interval sets the next timer; without one none is pending. */
  ghost predicate Rescheduled(s: State, t: State) {
    if s.options.schedule.Some? || s.options.interval.Some? then Armed(s, t) else t.live == {} && t.nextRunAt.None?
  }

  lemma AdmitIsDue(s: State, manual: bool, launched: bool)
    requires SlotsSafe(s)
    ensures var t := Admit(s, manual, launched).state; DueRun(s, t, launched) && SameDue(s, t) && SameRest(s, t)
  {
  }

  lemma ScheduleReschedules(s: State, now: Time, runNow: bool, afterFire: bool, firedAt: Option<Time>)
    requires s.started && s.live == {}
    ensures var t := ScheduleNext(s, now, runNow, afterFire, firedAt);
      Rescheduled(s, t) && SameSlots(s, t) && SameRest(s, t)
  {
  }

  /** A timer that fires starts a run wherever a slot is free, and sets the next timer. */
  lemma FiringRuns(s: State, timer: nat, now: Time)
    requires SlotsSafe(s) && TimersSafe(s) && timer in s.live
    ensures var t := Next(s, TimerFires(timer, now));
      && SameRest(s, t)
      && (s.started ==> DueRun(s, t, true) && Rescheduled(s, t))
      && (!s.started ==> t == s.(live := {}))
  {
    hide ScheduleNext, Admit, DueRun;
    var woken := s.(live := s.live - {timer});
    assert woken.live == {};
    AdmitIsDue(woken, false, true);
    var admitted := Admit(woken, false, true).state;
    if s.started {
      ScheduleReschedules(admitted, now, false, true, s.nextRunAt);
      SameDueRun(s, woken, admitted, Next(s, TimerFires(timer, now)), true);
    }
  }

  lemma SameDueRun(s: State, woken: State, admitted: State, t: State, launched: bool)
    requires SameSlots(s, woken) && DueRun(woken, admitted, launched) && SameSlots(admitted, t)
    ensures DueRun(s, t, launched)
  {
  }

  /** A trigger starts a run wherever a slot is free, still to be launched, and touches nothing else. */
  lemma TriggerRuns(s: State)
    requires SlotsSafe(s)
    ensures var t := Next(s, TriggerCalled);
      DueRun(s, t, false) && t == s.(slots := t.slots, queued := t.queued, nextId := t.nextId)
  {
  }

  /** A launch launches its run and nothing else. */
  lemma LaunchExactly(s: State, id: nat)
    ensures var t := Next(s, TriggerLaunches(id));
      && t == s.(slots := t.slots) && |t.slots| == |s.slots|
      && forall i :: 0 <= i < |s.slots| ==>
           t.slots[i] == Slot(s.slots[i].id, s.slots[i].cancelled, s.slots[i].launched || s.slots[i].id == id)
  {
  }

  /** A time that runs out cancels its own run and nothing else. */
  lemma TimeoutExactly(s: State, id: nat)
    ensures var t := Next(s, AttemptTimedOut(id));
      && t == s.(slots := t.slots) && |t.slots| == |s.slots|
      && forall i :: 0 <= i < |s.slots| ==>
           t.slots[i] == Slot(s.slots[i].id, s.slots[i].cancelled || s.slots[i].id == id, s.slots[i].launched)
  {
  }

  lemma {:induction false} WithoutAbsent(slots: seq<Slot>, id: nat)
    requires forall i :: 0 <= i < |slots| ==> slots[i].id != id
    ensures Without(slots, id) == slots
  {
    if slots != [] {
      WithoutAbsent(slots[1..], id);
    }
  }

  lemma {:induction false} WithoutOne(slots: seq<Slot>, k: nat)
    requires k < |slots| && forall i :: 0 <= i < |slots| && i != k ==> slots[i].id != slots[k].id
    ensures Without(slots, slots[k].id) == slots[..k] + slots[k + 1..]
  {
    if k == 0 {
      WithoutAbsent(slots[1..], slots[0].id);
    } else {
      assert forall i :: 0 <= i < |slots[1..]| ==> slots[1..][i] == slots[i + 1];
      WithoutOne(slots[1..], k - 1);
      assert slots[..k] + slots[k + 1..] == [slots[0]] + (slots[1..][..k - 1] + slots[1..][k..]);
    }
  }

  /** The end of a run frees its slot, which the waiting run takes at once if that leaves room. */
  lemma EndFreesSlot(s: State, k: nat)
    requires SlotsSafe(s) && k < |s.slots|
    ensures var t, left := Next(s, RunEnded(s.slots[k].id)), s.slots[..k] + s.slots[k + 1..];
      var starts := s.queued && |left| < s.options.limit;
      && t == s.(slots := t.slots, queued := t.queued, nextId := t.nextId)
      && t.slots == left + (if starts then [Slot(s.nextId, false, true)] else [])
      && t.nextId == s.nextId + (if starts then 1 else 0)
      && (t.queued <==> s.queued && !starts)
  {
    WithoutOne(s.slots, k);
  }

  // ---------------------------------------------------------------------
  // Control calls
  // ---------------------------------------------------------------------

  /** Every run is cancelled, and none waits any more. */
  ghost predicate AllRunsCancelled(s: State, t: State) {
    && !t.queued && t.nextId == s.nextId && |t.slots| == |s.slots|
    && forall i :: 0 <= i < |s.slots| ==> t.slots[i] == Slot(s.slots[i].id, true, s.slots[i].launched)
  }

  /** Pausing cancels the timer; resuming sets one; stopping cancels the timer and every run. */
  lemma ControlsExactly(s: State, now: Time)
    requires TimersSafe(s)
    ensures var t := Next(s, PauseCalled);
      && t.status == Paused && SameSlots(s, t) && t.started == s.started && t.lastRunAt == s.lastRunAt && t.live == {}
      && (s.status != Paused ==> t.nextRunAt.None?)
    ensures var t := Next(s, ResumeCalled(now));
      && SameSlots(s, t) && t.started == s.started && t.lastRunAt == s.lastRunAt
      && (s.status != Paused ==> t == s)
      && (s.status == Paused ==> t.status == Active && (if s.started then Rescheduled(s, t) else t.live == {}))
    ensures var t := Next(s, StopCalled);
      && t.status == Stopped && AllRunsCancelled(s, t) && t.live == {} && t.nextRunAt.None?
      && t.options == s.options && t.started == s.started && t.lastRunAt == s.lastRunAt
  {
    hide ScheduleNext, CancelTimer;
    CancelLeaves(s);
    PauseLeaves(s);
    if s.status == Paused && s.started {
      ScheduleReschedules(s.(status := Active), now, false, false, None);
    }
    NotScheduled(s.(status := Active), now);
  }

  lemma PauseLeaves(s: State)
    ensures forall status: Status ::
      var t := CancelTimer(s.(status := status));
      && t == CancelTimer(s).(status := status) && t.nextRunAt.None?
      && SameSlots(s, t) && t.started == s.started && t.lastRunAt == s.lastRunAt
  {
  }

  /** A cancel reaches every run and the waiting one; the scheduler's stop also cancels the timer. */
  lemma CancelsExactly(s: State)
    requires TimersSafe(s)
    ensures var t := Next(s, CancelCalled);
      AllRunsCancelled(s, t) && t == s.(slots := t.slots, queued := false)
    ensures var t := Next(s, SchedulerStops);
      AllRunsCancelled(s, t) && t == s.(slots := t.slots, queued := false, live := {})
    ensures Next(s, SchedulerStopping) == s.(started := false)
  {
    assert StopJob(s).live == {};
  }

  /** A start restores what was saved, sets the timer of an active job, and starts at most the run that is due. */
  lemma StartExactly(s: State, saved: Option<Saved>, now: Time)
    requires SlotsSafe(s) && TimersSafe(s) && s.live == {}
    ensures var t := Next(s, SchedulerStarts(saved, now));
      && t.started && t.options == s.options
      && t.lastRunAt == (if saved.Some? then saved.value.lastRunAt else s.lastRunAt)
      && t.status == (if saved.Some? && s.options.enabled then saved.value.status else s.status)
      && (t.status == Active ==> Rescheduled(s, t) && (SameSlots(s, t) || DueRun(s, t, true)))
      && (t.status != Active ==> t.live == {} && SameSlots(s, t))
  {
    hide ScheduleNext, Admit, DueRun, DueOnStart;
    var r := Restore(s.(started := true), saved);
    if r.status.Active? {
      ScheduleReschedules(r, now, true, false, None);
      ScheduleReschedules(r, now, false, false, None);
      var scheduled := ScheduleNext(r, now, false, false, None);
      AdmitIsDue(scheduled, false, true);
      SameDueRun(s, scheduled, Admit(scheduled, false, true).state, Admit(scheduled, false, true).state, true);
    }
  }

  // ---------------------------------------------------------------------
  // Option updates
  // ---------------------------------------------------------------------

  predicate Fine<T>(given: Option<Given<T>>) {
    given.None? || given.value.Valid?
  }

  /** Every given value is valid, the limit is at least 1, and not both a schedule and an interval are given. */
  predicate Acceptable(c: Changes) {
    && !(c.limit.Some? && c.limit.value < 1) && !(c.schedule.Some? && c.interval.Some?)
    && Fine(c.schedule) && Fine(c.interval) && Fine(c.retryDelay) && Fine(c.strategy) && Fine(c.timeout)
    && Fine(c.policy)
  }

  /** The option is as given if it was reached and is valid, else as it was. */
  ghost predicate Takes<T>(now: T, was: T, given: Option<Given<T>>, reached: bool) {
    now == if reached && given.Some? && given.value.Valid? then given.value.value else was
  }

  /** A schedule takes the place of an interval, and an interval that of a schedule. */
  ghost predicate TakesTiming(o: Options, was: Options, c: Changes) {
    if c.schedule.Some? && c.interval.Some? then o.schedule == was.schedule && o.interval == was.interval
    else if c.schedule.Some? && c.schedule.value.Valid? then
      o.schedule == Some(c.schedule.value.value) && o.interval.None?
    else if c.interval.Some? && c.interval.value.Valid? then
      o.interval == Some(c.interval.value.value) && o.schedule.None?
    else o.schedule == was.schedule && o.interval == was.interval
  }

  /**
   The options after an update, one by one.  An accepted one has every given value;
   a refused one those that stand before the first that is refused, and never the limit.
   */
  lemma UpdateSetsExactly(s: State, c: Changes, now: Time)
    ensures var o, was := Next(s, OptionsUpdated(c, now)).options, s.options;
      var timed := !(c.limit.Some? && c.limit.value < 1) && !(c.schedule.Some? && c.interval.Some?);
      var retried := timed && Fine(c.schedule) && Fine(c.interval);
      var rest := retried && Fine(c.retryDelay) && Fine(c.strategy);
      && o.enabled == was.enabled && o.runOnStart == was.runOnStart
      && (if timed then TakesTiming(o, was, c) else o.schedule == was.schedule && o.interval == was.interval)
      && o.maxRetries == (if retried && c.maxRetries.Some? then c.maxRetries.value else was.maxRetries)
      && Takes(o.retryDelay, was.retryDelay, c.retryDelay, retried)
      && Takes(o.strategy, was.strategy, c.strategy, retried && Fine(c.retryDelay))
      && o.timeout == (if rest && c.timeout.Some? && c.timeout.value.Valid? then Some(c.timeout.value.value)
                       else was.timeout)
      && Takes(o.policy, was.policy, c.policy, rest && Fine(c.timeout))
      && o.limit == (if Acceptable(c) && c.limit.Some? then c.limit.value else was.limit)
  {
    hide Next, SetSchedule, SetInterval, SetRetries, SetRetryDelay, SetStrategy, SetTimeout, SetPolicy, CheckFirst;
    UpdateStages(s, c, now);
    AcceptedExactly(s.options, c);
    ApplyKeepsLimit(s.options, c);
    TimingSet(s.options, c);
    var timing := SetInterval(SetSchedule(CheckFirst(s.options, c), c), c);
    RetryingSet(timing, c);
    RestSet(SetStrategy(SetRetryDelay(SetRetries(timing, c), c), c), c);
  }

  lemma TimingSet(o: Options, c: Changes)
    ensures var p := SetInterval(SetSchedule(CheckFirst(o, c), c), c);
      var timed := !(c.limit.Some? && c.limit.value < 1) && !(c.schedule.Some? && c.interval.Some?);
      && (p.ok <==> timed && Fine(c.schedule) && Fine(c.interval))
      && p.options == o.(schedule := p.options.schedule, interval := p.options.interval)
      && if timed then TakesTiming(p.options, o, c) else p.options == o
  {
  }

  lemma RetryingSet(p: Progress, c: Changes)
    ensures var q := SetStrategy(SetRetryDelay(SetRetries(p, c), c), c);
      var o := q.options;
      && (q.ok <==> p.ok && Fine(c.retryDelay) && Fine(c.strategy))
      && o == p.options.(maxRetries := o.maxRetries, retryDelay := o.retryDelay, strategy := o.strategy)
      && o.maxRetries == (if p.ok && c.maxRetries.Some? then c.maxRetries.value else p.options.maxRetries)
      && Takes(o.retryDelay, p.options.retryDelay, c.retryDelay, p.ok)
      && Takes(o.strategy, p.options.strategy, c.strategy, p.ok && Fine(c.retryDelay))
  {
  }

  lemma RestSet(p: Progress, c: Changes)
    ensures var q := SetPolicy(SetTimeout(p, c), c);
      var o := q.options;
      && (q.ok <==> p.ok && Fine(c.timeout) && Fine(c.policy))
      && o == p.options.(timeout := o.timeout, policy := o.policy)
      && o.timeout == (if p.ok && c.timeout.Some? && c.timeout.value.Valid? then Some(c.timeout.value.value)
                       else p.options.timeout)
      && Takes(o.policy, p.options.policy, c.policy, p.ok && Fine(c.timeout))
  {
  }

  /** Options are set by the changes alone, and then only the limit. */
  lemma UpdateStages(s: State, c: Changes, now: Time)
    ensures var p := ApplyChanges(s.options, c);
      Next(s, OptionsUpdated(c, now)).options ==
        if p.ok && c.limit.Some? then p.options.(limit := c.limit.value) else p.options
  {
    hide ScheduleNext, ApplyChanges;
    var changed := s.(options := ApplyChanges(s.options, c).options);
    var raised := changed.(options := changed.options.(limit := if c.limit.Some? then c.limit.value else 1));
    StartQueuedLeaves(raised);
    var limited := if c.limit.Some? then StartQueued(raised) else changed;
    TimersLeaveSlots(limited, now, false, false, None);
    TimersLeaveSlots(CancelTimer(limited), now, false, false, None);
  }

  /**
   A refused update touches nothing but options.  An accepted one starts a waiting run
   if the limit it gives has room, and reschedules an active job.
   */
  lemma UpdateExactly(s: State, c: Changes, now: Time)
    requires SlotsSafe(s) && TimersSafe(s)
    ensures var t := Next(s, OptionsUpdated(c, now));
      && (!Acceptable(c) ==> t == s.(options := t.options))
      && (Acceptable(c) ==>
           && var starts := c.limit.Some? && s.queued && |s.slots| < c.limit.value;
           && t.slots == s.slots + (if starts then [Slot(s.nextId, false, true)] else [])
           && t.nextId == s.nextId + (if starts then 1 else 0) && (t.queued <==> s.queued && !starts)
           && t.status == s.status && t.started == s.started && t.lastRunAt == s.lastRunAt
           && (s.status != Active ==> SameTimers(s, t))
           && (s.status == Active ==>
                 if !s.started then t.live == {} else Rescheduled(s.(options := t.options), t)))
  {
    hide ScheduleNext, ApplyChanges, Acceptable, CancelTimer;
    AcceptedExactly(s.options, c);
    var p := ApplyChanges(s.options, c);
    if p.ok {
      var changed := s.(options := p.options);
      var raised := changed.(options := p.options.(limit := if c.limit.Some? then c.limit.value else 1));
      ApplyKeepsLimit(s.options, c);
      var limited := if c.limit.Some? then StartQueued(raised) else changed;
      StartQueuedLeaves(raised);
      CancelLeaves(limited);
      if s.status == Active && s.started {
        ScheduleReschedules(CancelTimer(limited), now, false, false, None);
      } else {
        NotScheduled(CancelTimer(limited), now);
      }
    }
  }

  lemma CancelLeaves(s: State)
    requires TimersSafe(s)
    ensures var t := CancelTimer(s);
      t.live == {} && t.nextTimer == s.nextTimer && SameSlots(s, t) && SameRest(s, t)
  {
    assert CancelTimer(s).live == {};
  }

  lemma NotScheduled(s: State, now: Time)
    ensures !s.started ==> ScheduleNext(s, now, false, false, None) == s
  {
  }

  lemma AcceptedExactly(o: Options, c: Changes)
    ensures ApplyChanges(o, c).ok <==> Acceptable(c)
  {
  }

  // ---------------------------------------------------------------------
  // Whole runs: the last run on record
  // ---------------------------------------------------------------------

  predicate SetsLastRun(e: Event) {
    e.AttemptEnded? || (e.SchedulerStarts? && e.saved.Some?)
  }

  /** The start that an attempt puts on record, or that was saved. */
  function RunStart(e: Event): Option<Time>
    requires SetsLastRun(e)
  {
    if e.AttemptEnded? then Some(e.startedAt) else e.saved.value.lastRunAt
  }

  lemma StepSetsLastRun(s: State, e: Event)
    ensures Next(s, e).lastRunAt == if SetsLastRun(e) then RunStart(e) else s.lastRunAt
  {
    hide ScheduleNext, Admit, ApplyChanges, StartQueued, DueOnStart, CancelTimer, CancelRuns;
    match e {
      case TimerFires(timer, now) =>
        var woken := s.(live := s.live - {timer});
        SlotsLeaveDue(woken, false, true);
        TimersLeaveLastRun(Admit(woken, false, true).state, now, false, true, s.nextRunAt);
      case TriggerCalled => SlotsLeaveDue(s, true, false);
      case RunEnded(id) => StartQueuedLeaves(s.(slots := Without(s.slots, id)));
      case PauseCalled => TimersLeaveLastRun(s.(status := Paused), 0, false, false, None);
      case ResumeCalled(now) => TimersLeaveLastRun(s.(status := Active), now, false, false, None);
      case StopCalled =>
        TimersLeaveLastRun(s.(status := Stopped), 0, false, false, None);
        SlotsLeaveDue(CancelTimer(s.(status := Stopped)), false, false);
      case CancelCalled => SlotsLeaveDue(s, false, false);
      case OptionsUpdated(c, now) =>
        var changed := s.(options := ApplyChanges(s.options, c).options);
        var raised := changed.(options := changed.options.(limit := if c.limit.Some? then c.limit.value else 1));
        StartQueuedLeaves(raised);
        var limited := if c.limit.Some? then StartQueued(raised) else changed;
        TimersLeaveLastRun(limited, now, false, false, None);
        TimersLeaveLastRun(CancelTimer(limited), now, false, false, None);
      case SchedulerStarts(saved, now) =>
        var r := Restore(s.(started := true), saved);
        TimersLeaveLastRun(r, now, true, false, None);
        TimersLeaveLastRun(r, now, false, false, None);
        SlotsLeaveDue(ScheduleNext(r, now, false, false, None), false, true);
      case SchedulerStops => SlotsLeaveDue(s, false, false);
      case _ =>
    }
  }

  lemma TimersLeaveLastRun(s: State, now: Time, runNow: bool, afterFire: bool, firedAt: Option<Time>)
    ensures ScheduleNext(s, now, runNow, afterFire, firedAt).lastRunAt == s.lastRunAt
    ensures CancelTimer(s).lastRunAt == s.lastRunAt
  {
  }

  /** Which event set the last run on record, -1 when none did. */
  function LastSetting(es: seq<Event>): (k: int)
    ensures -1 <= k < |es| && (k >= 0 ==> SetsLastRun(es[k]))
    ensures forall i :: k < i < |es| ==> !SetsLastRun(es[i])
  {
    if es == [] then -1
    else
      var k := LastSetting(es[1..]);
      assert forall i :: 0 < i < |es| ==> es[i] == es[1..][i - 1];
      if k >= 0 then k + 1 else if SetsLastRun(es[0]) then 0 else -1
  }

  /** The last run on record is the one that was put there last; nothing else changes it. */
  lemma {:induction false} LastRunExactly(s: State, es: seq<Event>)
    ensures After(s, es).lastRunAt ==
      if LastSetting(es) == -1 then s.lastRunAt else RunStart(es[LastSetting(es)])
    decreases |es|
  {
    hide Next;
    if es != [] {
      StepSetsLastRun(s, es[0]);
      LastRunExactly(Next(s, es[0]), es[1..]);
    }
  }

  // ---------------------------------------------------------------------
  // Whole runs: the timer of an active job
  // ---------------------------------------------------------------------

  predicate Scheduled(o: Options) {
    o.schedule.Some? || o.interval.Some?
  }

  /** An active job of a started scheduler has a pending timer exactly when it has a schedule or an interval. */
  ghost predicate Timed(s: State) {
    s.started && s.status == Active ==> (s.live != {} <==> Scheduled(s.options))
  }

  /** A refused update that has already given an unscheduled job a schedule or an interval. */
  ghost predicate Strands(s: State, e: Event) {
    && e.OptionsUpdated? && !Acceptable(e.changes)
    && s.started && s.status == Active && !Scheduled(s.options) && Scheduled(Next(s, e).options)
  }

  /** An update never takes both the schedule and the interval away. */
  lemma UpdateKeepsScheduled(s: State, c: Changes, now: Time)
    requires Scheduled(s.options)
    ensures Scheduled(Next(s, OptionsUpdated(c, now)).options)
  {
    hide Next;
    UpdateSetsExactly(s, c, now);
  }

  /** A section leaves an active job without its timer exactly when it is such a refused update. */
  lemma StepKeepsTimed(s: State, e: Event)
    requires SlotsSafe(s) && TimersSafe(s) && Timed(s) && Enabled(s, e)
    ensures Timed(Next(s, e)) <==> !Strands(s, e)
  {
    hide Next, SlotsSafe, Acceptable, DueRun, AllRunsCancelled;
    match e {
      case TimerFires(timer, now) => FiringRuns(s, timer, now);
      case TriggerCalled => TriggerRuns(s);
      case TriggerLaunches(id) => LaunchExactly(s, id);
      case RunEnded(id) => SlotsLeaveTimed(s, id);
      case AttemptTimedOut(id) => TimeoutExactly(s, id);
      case AttemptEnded(id, startedAt) => SlotsLeaveTimed(s, id);
      case PauseCalled => ControlsExactly(s, 0);
      case ResumeCalled(now) => ControlsExactly(s, now);
      case StopCalled => ControlsExactly(s, 0);
      case CancelCalled => CancelsExactly(s);
      case OptionsUpdated(c, now) =>
        UpdateExactly(s, c, now);
        if Scheduled(s.options) {
          UpdateKeepsScheduled(s, c, now);
        }
      case SchedulerStarts(saved, now) => StartExactly(s, saved, now);
      case SchedulerStopping => CancelsExactly(s);
      case SchedulerStops => CancelsExactly(s);
    }
  }

  lemma SlotsLeaveTimed(s: State, id: nat)
    ensures var t := Next(s, RunEnded(id)); SameTimers(s, t) && t.started == s.started && t.options == s.options
    ensures forall at: Time :: Next(s, AttemptEnded(id, at)) == s.(lastRunAt := Some(at))
  {
  }

  ghost predicate NoneStrands(s: State, es: seq<Event>)
    decreases |es|
  {
    es == [] || (!Strands(s, es[0]) && NoneStrands(Next(s, es[0]), es[1..]))
  }

  /** Over any run without such an update, an active job is never without its timer. */
  lemma {:induction false} AlwaysTimed(s: State, es: seq<Event>)
    requires SlotsSafe(s) && TimersSafe(s) && Timed(s) && Legal(s, es) && NoneStrands(s, es)
    ensures Timed(After(s, es))
    decreases |es|
  {
    hide Next, SlotsSafe, TimersSafe, Timed, Strands, Enabled;
    if es != [] {
      StepKeepsSlots(s, es[0]);
      StepKeepsTimers(s, es[0]);
      StepKeepsTimed(s, es[0]);
      AlwaysTimed(Next(s, es[0]), es[1..]);
    }
  }

  /** From registration that holds unless the job is registered, enabled and scheduled, once the scheduler runs. */
  lemma RegisteredTimedExactly(s: State)
    requires Registered(s)
    ensures SlotsSafe(s) && TimersSafe(s)
    ensures Timed(s) <==> !(s.started && s.options.enabled && Scheduled(s.options))
  {
  }

  /** A refused update can leave an active job with a schedule and no timer: the schedule is set before the refusal. */
  lemma RefusedUpdateStrands()
    ensures var s := Next(NewJob(None, None), SchedulerStarts(None, 0));
      var c := Changes(Some(Valid(TENS)), None, None, Some(Invalid), None, None, None, None);
      var t := Next(s, OptionsUpdated(c, 1));
      && Timed(s) && !Acceptable(c) && !Timed(t)
      && t.options.schedule.Some? && t.status == Active && t.started && t.live == {} && t.nextRunAt.None?
  {
  }
}
