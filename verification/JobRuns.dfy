/** Properties of whole runs of the job machine: limits, waiting, ending, cancellation. */
module JobRuns {
  import opened Wrappers
  import opened JobState
  import opened JobSafety

  // ---------------------------------------------------------------------
  // The limit over a whole run
  // ---------------------------------------------------------------------

  ghost predicate NeverLowered(s: State, es: seq<Event>)
    decreases |es|
  {
    es == [] || (Next(s, es[0]).options.limit >= s.options.limit && NeverLowered(Next(s, es[0]), es[1..]))
  }

  /** With a limit that is never lowered, live runs never exceed it. */
  lemma {:induction false} NeverAboveTheLimit(s: State, es: seq<Event>)
    requires SlotsSafe(s) && Legal(s, es) && NeverLowered(s, es)
    requires |s.slots| <= s.options.limit
    ensures |After(s, es).slots| <= After(s, es).options.limit
    decreases |es|
  {
    if es != [] {
      StepKeepsSlots(s, es[0]);
      NeverAboveTheLimit(Next(s, es[0]), es[1..]);
    }
  }

  ghost predicate LimitKept(s: State, es: seq<Event>)
    decreases |es|
  {
    es == [] || (Next(s, es[0]).options.limit == s.options.limit && LimitKept(Next(s, es[0]), es[1..]))
  }

  /**
   While the limit stays where it is, runs above it only drain: the live count
   never grows past what it was, and no run has started as long as it is still
   above the limit.
   */
  lemma {:induction false} AboveTheLimitDrains(s: State, es: seq<Event>)
    requires SlotsSafe(s) && Legal(s, es) && LimitKept(s, es)
    ensures var t := After(s, es);
      && (|t.slots| <= |s.slots| || |t.slots| <= s.options.limit)
      && (|t.slots| > s.options.limit ==> t.nextId == s.nextId)
    decreases |es|
  {
    if es != [] {
      StepKeepsSlots(s, es[0]);
      AboveTheLimitDrains(Next(s, es[0]), es[1..]);
    }
  }

  // ---------------------------------------------------------------------
  // The waiting run
  // ---------------------------------------------------------------------

  /** While a run waits, a due run (timer or trigger, any policy) neither starts nor changes anything. */
  lemma NoOvertaking(s: State, manual: bool, launched: bool)
    requires SlotsSafe(s) && s.queued
    ensures Admit(s, manual, launched).state == s
    ensures !Admit(s, manual, launched).outcome.Started?
    ensures exists i :: 0 <= i < |s.slots| && s.slots[i].id < s.nextId
  {
    assert s.slots[0].id < s.nextId;
  }

  predicate IsOldest(s: State, id: nat) {
    forall j :: 0 <= j < |s.slots| ==> id <= s.slots[j].id
  }

  /** A due run that finds every slot taken is dropped, waits, or waits having cancelled the oldest run only. */
  lemma DueWhenFull(s: State, manual: bool, launched: bool)
    requires SlotsSafe(s) && !s.queued && |s.slots| >= s.options.limit
    ensures var a := Admit(s, manual, launched);
      && a.state.nextId == s.nextId && |a.state.slots| == |s.slots|
      && (a.state.queued <==> s.options.policy != Skip)
      && (a.outcome == Refused <==> manual && s.options.policy == Skip)
      && (forall i :: 0 <= i < |s.slots| ==>
            && a.state.slots[i].id == s.slots[i].id
            && (a.state.slots[i].cancelled <==>
                  s.slots[i].cancelled || (s.options.policy == Cancel && IsOldest(s, s.slots[i].id))))
  {
    assert forall i :: 0 < i < |s.slots| ==> s.slots[0].id < s.slots[i].id;
  }

  /** The events that drop a waiting run. */
  predicate Drops(e: Event) {
    e.StopCalled? || e.CancelCalled? || e.SchedulerStops?
  }

  /** What one event does to a waiting run when it neither drops it nor changes the limit. */
  ghost predicate WaitStep(s: State, e: Event, t: State) {
    if e.RunEnded? && |s.slots| == s.options.limit then
      && !t.queued && t.nextId == s.nextId + 1 && 0 < |t.slots| == s.options.limit
      && t.slots[|t.slots| - 1] == Slot(s.nextId, false, true)
    else
      && t.queued && t.nextId == s.nextId
      && |t.slots| == |s.slots| - (if e.RunEnded? then 1 else 0)
  }

  lemma FireWhileWaiting(s: State, timer: nat, now: Time)
    requires SlotsSafe(s) && s.queued
    ensures SameSlots(s, Fire(s, timer, now))
  {
    var woken := s.(live := s.live - {timer});
    NoOvertaking(woken, false, true);
    TimersLeaveSlots(woken, now, false, true, s.nextRunAt);
  }

  lemma UpdateWhileWaiting(s: State, c: Changes, now: Time)
    requires SlotsSafe(s) && s.queued && Update(s, c, now).options.limit == s.options.limit
    ensures var t := Update(s, c, now); t.slots == s.slots && t.queued && t.nextId == s.nextId
  {
    ApplyKeepsLimit(s.options, c);
    var p := ApplyChanges(s.options, c);
    if p.ok {
      var changed := s.(options := p.options);
      var raised := changed.(options := p.options.(limit := if c.limit.Some? then c.limit.value else 1));
      var limited := if c.limit.Some? then StartQueued(raised) else changed;
      TimersLeaveSlots(limited, now, false, false, None);
      TimersLeaveSlots(CancelTimer(limited), now, false, false, None);
    }
  }

  lemma StartWhileWaiting(s: State, saved: Option<Saved>, now: Time)
    requires SlotsSafe(s) && s.queued
    ensures SameSlots(s, StartJob(s, saved, now))
  {
    var r := Restore(s.(started := true), saved);
    TimersLeaveSlots(r, now, true, false, None);
    TimersLeaveSlots(r, now, false, false, None);
    NoOvertaking(ScheduleNext(r, now, false, false, None), false, true);
  }

  lemma WaitStepHolds(s: State, e: Event)
    requires SlotsSafe(s) && s.queued && Enabled(s, e)
    requires !Drops(e) && Next(s, e).options.limit == s.options.limit
    ensures WaitStep(s, e, Next(s, e))
  {
    match e {
      case TimerFires(timer, now) => FireWhileWaiting(s, timer, now);
      case TriggerCalled => NoOvertaking(s, true, false);
      case RunEnded(id) => WithoutCount(s.slots, id, s.nextId);
      case ResumeCalled(now) => TimersLeaveSlots(s.(status := Active), now, false, false, None);
      case OptionsUpdated(c, now) => UpdateWhileWaiting(s, c, now);
      case SchedulerStarts(saved, now) => StartWhileWaiting(s, saved, now);
      case _ =>
    }
  }

  function Releases(es: seq<Event>): nat {
    if es == [] then 0 else (if es[0].RunEnded? then 1 else 0) + Releases(es[1..])
  }

  ghost predicate NoneDrops(es: seq<Event>) {
    forall i :: 0 <= i < |es| ==> !Drops(es[i])
  }

  /**
   Bounded wait, first half.  From a waiting run with k live runs and limit L,
   through any events that neither cancel nor change the limit, the run still
   waits and nothing else has started after up to k - L releases.
   */
  lemma {:induction false} WaitsForReleases(s: State, es: seq<Event>)
    requires SlotsSafe(s) && s.queued
    requires Legal(s, es) && LimitKept(s, es) && NoneDrops(es)
    requires Releases(es) <= |s.slots| - s.options.limit
    ensures var t := After(s, es);
      && SlotsSafe(t) && t.queued && t.nextId == s.nextId && t.options.limit == s.options.limit
      && |t.slots| == |s.slots| - Releases(es)
    decreases |es|
  {
    if es != [] {
      StepKeepsSlots(s, es[0]);
      WaitStepHolds(s, es[0]);
      WaitsForReleases(Next(s, es[0]), es[1..]);
    }
  }

  /** Bounded wait, second half: the (k - L + 1)-th release starts it, as the next run, launched at once. */
  lemma StartsAtTheRelease(s: State, es: seq<Event>, id: nat)
    requires SlotsSafe(s) && s.queued
    requires Legal(s, es) && LimitKept(s, es) && NoneDrops(es)
    requires Releases(es) == |s.slots| - s.options.limit
    requires HoldsSlot(After(s, es), id, true)
    ensures var t := Next(After(s, es), RunEnded(id));
      && !t.queued && t.nextId == s.nextId + 1 && |t.slots| == s.options.limit
      && t.slots[|t.slots| - 1] == Slot(s.nextId, false, true)
  {
    WaitsForReleases(s, es);
    WaitStepHolds(After(s, es), RunEnded(id));
  }

  /** A waiting run stops waiting only by being dropped or by starting. */
  lemma WaitingEnds(s: State, e: Event)
    requires SlotsSafe(s) && s.queued && Enabled(s, e) && !Next(s, e).queued
    ensures Drops(e) || (Next(s, e).nextId == s.nextId + 1 && Slot(s.nextId, false, true) in Next(s, e).slots)
  {
    match e {
      case TimerFires(timer, now) => FireWhileWaiting(s, timer, now);
      case TriggerCalled => NoOvertaking(s, true, false);
      case ResumeCalled(now) => TimersLeaveSlots(s.(status := Active), now, false, false, None);
      case OptionsUpdated(c, now) => WaitingEndsByUpdate(s, c, now);
      case SchedulerStarts(saved, now) => StartWhileWaiting(s, saved, now);
      case RunEnded(id) => StartQueuedTakes(s.(slots := Without(s.slots, id)));
      case _ =>
    }
  }

  lemma StartQueuedTakes(s: State)
    requires s.queued && !StartQueued(s).queued
    ensures StartQueued(s).nextId == s.nextId + 1 && Slot(s.nextId, false, true) in StartQueued(s).slots
  {
    assert StartQueued(s).slots[|s.slots|] == Slot(s.nextId, false, true);
  }

  lemma WaitingEndsByUpdate(s: State, c: Changes, now: Time)
    requires SlotsSafe(s) && s.queued && !Update(s, c, now).queued
    ensures Update(s, c, now).nextId == s.nextId + 1 && Slot(s.nextId, false, true) in Update(s, c, now).slots
  {
    var p := ApplyChanges(s.options, c);
    var changed := s.(options := p.options);
    var raised := changed.(options := p.options.(limit := if c.limit.Some? then c.limit.value else 1));
    var limited := if c.limit.Some? then StartQueued(raised) else changed;
    TimersLeaveSlots(CancelTimer(limited), now, false, false, None);
    StartQueuedTakes(raised);
  }

  // ---------------------------------------------------------------------
  // Every run ends once
  // ---------------------------------------------------------------------

  function TimesEnded(es: seq<Event>, id: nat): nat {
    if es == [] then 0 else (if es[0] == RunEnded(id) then 1 else 0) + TimesEnded(es[1..], id)
  }

  /** The run started and has given its slot back. */
  ghost predicate Gone(s: State, id: nat) {
    id < s.nextId && !Holds(s.slots, id)
  }

  /** The runs of `t` are those of `s` and the new ones. */
  ghost predicate KeepsRuns(s: State, t: State) {
    forall id: nat :: Holds(t.slots, id) <==> Holds(s.slots, id) || s.nextId <= id < t.nextId
  }

  lemma SameIdsKeepRuns(s: State, t: State)
    requires s.nextId == t.nextId && |s.slots| == |t.slots|
    requires forall i :: 0 <= i < |s.slots| ==> t.slots[i].id == s.slots[i].id
    ensures KeepsRuns(s, t)
  {
  }

  lemma TakeKeepsRuns(s: State, launched: bool)
    ensures KeepsRuns(s, TakeSlot(s, launched))
  {
    var t := TakeSlot(s, launched);
    assert t.slots[|s.slots|].id == s.nextId;
    forall id: nat | Holds(s.slots, id) ensures Holds(t.slots, id) {
      var i :| 0 <= i < |s.slots| && s.slots[i].id == id;
      assert t.slots[i].id == id;
    }
  }

  lemma AdmitKeepsRuns(s: State, manual: bool, launched: bool)
    ensures KeepsRuns(s, Admit(s, manual, launched).state)
  {
    if |s.slots| < s.options.limit {
      TakeKeepsRuns(s, launched);
    } else {
      SameIdsKeepRuns(s, Admit(s, manual, launched).state);
    }
  }

  lemma StartQueuedKeepsRuns(s: State)
    ensures KeepsRuns(s, StartQueued(s))
  {
    if s.queued && |s.slots| < s.options.limit {
      TakeKeepsRuns(s.(queued := false), true);
    }
  }

  lemma StepKeepsRuns(s: State, e: Event)
    requires !e.RunEnded?
    ensures KeepsRuns(s, Next(s, e))
  {
    hide ScheduleNext, Admit, StartQueued;
    match e {
      case TimerFires(timer, now) =>
        var woken := s.(live := s.live - {timer});
        AdmitKeepsRuns(woken, false, true);
        TimersLeaveSlots(Admit(woken, false, true).state, now, false, true, s.nextRunAt);
      case TriggerCalled => AdmitKeepsRuns(s, true, false);
      case ResumeCalled(now) =>
        TimersLeaveSlots(s.(status := Active), now, false, false, None);
      case OptionsUpdated(c, now) =>
        var changed := s.(options := ApplyChanges(s.options, c).options);
        var raised := changed.(options := changed.options.(limit := if c.limit.Some? then c.limit.value else 1));
        StartQueuedKeepsRuns(raised);
        var limited := if c.limit.Some? then StartQueued(raised) else changed;
        TimersLeaveSlots(CancelTimer(limited), now, false, false, None);
      case SchedulerStarts(saved, now) =>
        var r := Restore(s.(started := true), saved);
        TimersLeaveSlots(r, now, true, false, None);
        TimersLeaveSlots(r, now, false, false, None);
        AdmitKeepsRuns(ScheduleNext(r, now, false, false, None), false, true);
      case _ => SameIdsKeepRuns(s, Next(s, e));
    }
  }

  /** A release takes out exactly its run. */
  lemma ReleaseTakesOut(s: State, run: nat, id: nat)
    requires SlotsSafe(s) && HoldsSlot(s, run, true)
    ensures Gone(Release(s, run), id) <==> Gone(s, id) || id == run
  {
    var freed := s.(slots := Without(s.slots, run));
    WithoutMembers(s.slots, run);
    StartQueuedKeepsRuns(freed);
    assert Holds(freed.slots, id) <==> Holds(s.slots, id) && id != run by {
      if Holds(freed.slots, id) {
        var i :| 0 <= i < |freed.slots| && freed.slots[i].id == id;
        assert freed.slots[i] in s.slots;
      }
      if Holds(s.slots, id) && id != run {
        var i :| 0 <= i < |s.slots| && s.slots[i].id == id;
        assert s.slots[i] in freed.slots;
      }
    }
    assert run < s.nextId;
  }

  /** A run that gave its slot back never holds one again, and ends exactly once: when it gives it back. */
  lemma {:induction false} EndsExactlyOnce(s: State, es: seq<Event>, id: nat)
    requires SlotsSafe(s) && Legal(s, es)
    ensures TimesEnded(es, id) == (if Gone(After(s, es), id) && !Gone(s, id) then 1 else 0)
    ensures Gone(s, id) ==> Gone(After(s, es), id)
    decreases |es|
  {
    if es != [] {
      var t := Next(s, es[0]);
      StepKeepsSlots(s, es[0]);
      EndsExactlyOnce(t, es[1..], id);
      if es[0].RunEnded? {
        ReleaseTakesOut(s, es[0].id, id);
        assert Holds(s.slots, es[0].id);
      } else {
        StepKeepsRuns(s, es[0]);
      }
    }
  }

  /** Conservation: from registration on, every run ever started is either live or ended. */
  lemma {:induction false} StartedIsLivePlusEnded(s: State, es: seq<Event>)
    requires SlotsSafe(s) && Legal(s, es)
    ensures After(s, es).nextId - s.nextId == |After(s, es).slots| - |s.slots| + Releases(es)
    decreases |es|
  {
    hide ScheduleNext, Update, StartJob;
    if es != [] {
      var e := es[0];
      StepKeepsSlots(s, e);
      StartedIsLivePlusEnded(Next(s, e), es[1..]);
      match e {
        case RunEnded(id) => WithoutCount(s.slots, id, s.nextId);
        case TimerFires(timer, now) =>
          var woken := s.(live := s.live - {timer});
          TimersLeaveSlots(Admit(woken, false, true).state, now, false, true, s.nextRunAt);
        case ResumeCalled(now) => TimersLeaveSlots(s.(status := Active), now, false, false, None);
        case OptionsUpdated(c, now) => UpdateCounts(s, c, now);
        case SchedulerStarts(saved, now) => StartCounts(s, saved, now);
        case _ =>
      }
    }
  }

  lemma UpdateCounts(s: State, c: Changes, now: Time)
    ensures Update(s, c, now).nextId - s.nextId == |Update(s, c, now).slots| - |s.slots|
  {
    var changed := s.(options := ApplyChanges(s.options, c).options);
    var raised := changed.(options := changed.options.(limit := if c.limit.Some? then c.limit.value else 1));
    var limited := if c.limit.Some? then StartQueued(raised) else changed;
    TimersLeaveSlots(CancelTimer(limited), now, false, false, None);
  }

  lemma StartCounts(s: State, saved: Option<Saved>, now: Time)
    ensures StartJob(s, saved, now).nextId - s.nextId == |StartJob(s, saved, now).slots| - |s.slots|
  {
    var r := Restore(s.(started := true), saved);
    TimersLeaveSlots(r, now, true, false, None);
    TimersLeaveSlots(r, now, false, false, None);
  }

  // ---------------------------------------------------------------------
  // Cancellation
  // ---------------------------------------------------------------------

  /** Run `id` started and, while it holds a slot, its cancellation is set. */
  ghost predicate CancelledWhileHeld(s: State, id: nat) {
    id < s.nextId && forall i :: 0 <= i < |s.slots| && s.slots[i].id == id ==> s.slots[i].cancelled
  }

  lemma TakeKeepsCancelled(s: State, launched: bool, id: nat)
    requires CancelledWhileHeld(s, id)
    ensures CancelledWhileHeld(TakeSlot(s, launched), id)
  {
  }

  lemma AdmitKeepsCancelled(s: State, manual: bool, launched: bool, id: nat)
    requires CancelledWhileHeld(s, id)
    ensures CancelledWhileHeld(Admit(s, manual, launched).state, id)
  {
  }

  lemma StepKeepsCancelled(s: State, e: Event, id: nat)
    requires CancelledWhileHeld(s, id)
    ensures CancelledWhileHeld(Next(s, e), id)
  {
    hide ScheduleNext, Admit;
    match e {
      case TimerFires(timer, now) =>
        var woken := s.(live := s.live - {timer});
        AdmitKeepsCancelled(woken, false, true, id);
        TimersLeaveSlots(Admit(woken, false, true).state, now, false, true, s.nextRunAt);
      case TriggerCalled => AdmitKeepsCancelled(s, true, false, id);
      case RunEnded(run) =>
        var freed := s.(slots := Without(s.slots, run));
        WithoutMembers(s.slots, run);
        forall i | 0 <= i < |freed.slots| && freed.slots[i].id == id ensures freed.slots[i].cancelled {
          assert freed.slots[i] in s.slots;
        }
        TakeKeepsCancelled(freed.(queued := false), true, id);
      case ResumeCalled(now) => TimersLeaveSlots(s.(status := Active), now, false, false, None);
      case OptionsUpdated(c, now) =>
        var changed := s.(options := ApplyChanges(s.options, c).options);
        var raised := changed.(options := changed.options.(limit := if c.limit.Some? then c.limit.value else 1));
        TakeKeepsCancelled(raised.(queued := false), true, id);
        var limited := if c.limit.Some? then StartQueued(raised) else changed;
        TimersLeaveSlots(CancelTimer(limited), now, false, false, None);
      case SchedulerStarts(saved, now) =>
        var r := Restore(s.(started := true), saved);
        TimersLeaveSlots(r, now, true, false, None);
        TimersLeaveSlots(r, now, false, false, None);
        AdmitKeepsCancelled(ScheduleNext(r, now, false, false, None), false, true, id);
      case _ =>
    }
  }

  /** Cancelling, stopping the job and stopping the scheduler reach every run started so far, for good. */
  lemma CancelReachesEveryRun(s: State, stop: Event, es: seq<Event>, id: nat)
    requires Drops(stop) && id < s.nextId
    ensures CancelledWhileHeld(After(Next(s, stop), es), id)
  {
    CancelSticks(Next(s, stop), es, id);
  }

  lemma {:induction false} CancelSticks(s: State, es: seq<Event>, id: nat)
    requires CancelledWhileHeld(s, id)
    ensures CancelledWhileHeld(After(s, es), id)
    decreases |es|
  {
    if es != [] {
      StepKeepsCancelled(s, es[0], id);
      CancelSticks(Next(s, es[0]), es[1..], id);
    }
  }
}
