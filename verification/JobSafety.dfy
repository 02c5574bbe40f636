/** What every interleaving of a job's events keeps. */
module JobSafety {
  import opened Wrappers
  import opened JobState

  // ---------------------------------------------------------------------
  // Slots and the waiting run
  // ---------------------------------------------------------------------

  /** Slots are held oldest first, each by another run. */
  ghost predicate Ordered(slots: seq<Slot>, nextId: nat) {
    && (forall i, j :: 0 <= i < j < |slots| ==> slots[i].id < slots[j].id)
    && (forall i :: 0 <= i < |slots| ==> slots[i].id < nextId)
  }

  /** A run waits only while every slot is taken: somebody's release will start it. */
  ghost predicate SlotsSafe(s: State) {
    && s.options.limit >= 1
    && (s.queued ==> |s.slots| >= s.options.limit)
    && Ordered(s.slots, s.nextId)
  }

  /** At most one timer can still fire, it is the registration's, and only an active job has one. */
  ghost predicate TimersSafe(s: State) {
    && (s.live == {} || (s.timer.Some? && s.live == {s.timer.value} && s.status.Active?))
    && (s.timer.Some? ==> s.timer.value < s.nextTimer)
  }

  ghost predicate Holds(slots: seq<Slot>, id: nat) {
    exists i :: 0 <= i < |slots| && slots[i].id == id
  }

  lemma {:induction false} WithoutMembers(slots: seq<Slot>, id: nat)
    ensures forall t :: t in Without(slots, id) <==> t in slots && t.id != id
  {
    if slots != [] {
      WithoutMembers(slots[1..], id);
      forall t ensures t in Without(slots, id) <==> t in slots && t.id != id {
        assert t in slots <==> t == slots[0] || t in slots[1..];
      }
    }
  }

  lemma FirstIsLeast(slots: seq<Slot>, nextId: nat)
    requires Ordered(slots, nextId) && slots != []
    ensures forall x | x in slots[1..] :: slots[0].id < x.id
  {
  }

  lemma {:induction false} WithoutKeepsOrder(slots: seq<Slot>, id: nat, nextId: nat)
    requires Ordered(slots, nextId)
    ensures Ordered(Without(slots, id), nextId)
  {
    if slots != [] {
      WithoutMembers(slots[1..], id);
      WithoutKeepsOrder(slots[1..], id, nextId);
      var rest := Without(slots[1..], id);
      FirstIsLeast(slots, nextId);
      forall j | 0 <= j < |rest| ensures slots[0].id < rest[j].id {
        assert rest[j] in rest;
      }
    }
  }

  lemma {:induction false} WithoutCount(slots: seq<Slot>, id: nat, nextId: nat)
    requires Ordered(slots, nextId)
    ensures |Without(slots, id)| == |slots| - (if Holds(slots, id) then 1 else 0)
  {
    if slots != [] {
      WithoutCount(slots[1..], id, nextId);
      assert Holds(slots, id) <==> slots[0].id == id || Holds(slots[1..], id) by {
        if Holds(slots, id) && slots[0].id != id {
          var i :| 0 <= i < |slots| && slots[i].id == id;
          assert slots[1..][i - 1].id == id;
        }
        if Holds(slots[1..], id) {
          var i :| 0 <= i < |slots[1..]| && slots[1..][i].id == id;
          assert slots[i + 1].id == id;
        }
      }
    }
  }

  lemma ApplyKeepsLimit(o: Options, c: Changes)
    ensures ApplyChanges(o, c).options.limit == o.limit
    ensures ApplyChanges(o, c).ok ==> (c.limit.Some? ==> c.limit.value >= 1)
  {
  }

  /** The number of slots after a section, and who got a new one. */
  ghost predicate TakesBelowLimit(s: State, t: State) {
    && s.nextId <= t.nextId <= s.nextId + 1
    && (t.nextId > s.nextId ==>
         && 0 < |t.slots| <= t.options.limit
         && t.slots[|t.slots| - 1].id == s.nextId
         && !t.slots[|t.slots| - 1].cancelled)
    && (t.nextId == s.nextId ==> |t.slots| <= |s.slots|)
  }

  lemma StartQueuedIsSafe(s: State)
    requires s.options.limit >= 1 && Ordered(s.slots, s.nextId)
    requires s.queued ==> |s.slots| >= s.options.limit - 1
    ensures var t := StartQueued(s); SlotsSafe(t) && TakesBelowLimit(s, t)
  {
  }

  lemma ReleaseIsSafe(s: State, id: nat)
    requires SlotsSafe(s) && HoldsSlot(s, id, true)
    ensures SlotsSafe(Release(s, id)) && TakesBelowLimit(s, Release(s, id))
  {
    WithoutKeepsOrder(s.slots, id, s.nextId);
    WithoutCount(s.slots, id, s.nextId);
    StartQueuedIsSafe(s.(slots := Without(s.slots, id)));
  }

  lemma AdmitIsSafe(s: State, manual: bool, launched: bool)
    requires SlotsSafe(s)
    ensures var t := Admit(s, manual, launched).state; SlotsSafe(t) && TakesBelowLimit(s, t)
  {
  }

  /** Sections that only mark slots, or drop the waiting run. */
  lemma MarkingIsSafe(s: State, t: State)
    requires SlotsSafe(s) && t.options == s.options && t.nextId == s.nextId && (t.queued ==> s.queued)
    requires |t.slots| == |s.slots| && forall i :: 0 <= i < |s.slots| ==> t.slots[i].id == s.slots[i].id
    ensures SlotsSafe(t) && TakesBelowLimit(s, t)
  {
  }

  /** The slot side of a state, which timers do not touch. */
  ghost predicate SameSlots(s: State, t: State) {
    t.options == s.options && t.slots == s.slots && t.queued == s.queued && t.nextId == s.nextId
  }

  /** The timer side of a state, which slots do not touch. */
  ghost predicate SameTimers(s: State, t: State) {
    t.status == s.status && t.timer == s.timer && t.live == s.live && t.nextTimer == s.nextTimer
  }

  lemma TimersLeaveSlots(s: State, now: Time, runNow: bool, afterFire: bool, firedAt: Option<Time>)
    ensures SameSlots(s, ScheduleNext(s, now, runNow, afterFire, firedAt))
    ensures SameSlots(s, CancelTimer(s))
  {
  }

  lemma SlotsLeaveTimers(s: State, manual: bool, launched: bool, id: nat)
    ensures SameTimers(s, Admit(s, manual, launched).state) && SameTimers(s, Release(s, id))
    ensures SameTimers(s, StartQueued(s)) && SameTimers(s, CancelRuns(s)) && SameTimers(s, Launch(s, id))
  {
  }

  lemma StartIsSafe(s: State, saved: Option<Saved>, now: Time)
    requires SlotsSafe(s)
    ensures SlotsSafe(StartJob(s, saved, now)) && TakesBelowLimit(s, StartJob(s, saved, now))
  {
    hide ScheduleNext, Admit;
    var r := Restore(s.(started := true), saved);
    TimersLeaveSlots(r, now, true, false, None);
    TimersLeaveSlots(r, now, false, false, None);
    AdmitIsSafe(ScheduleNext(r, now, false, false, None), false, true);
  }

  lemma UpdateIsSafe(s: State, c: Changes, now: Time)
    requires SlotsSafe(s)
    ensures SlotsSafe(Update(s, c, now)) && TakesBelowLimit(s, Update(s, c, now))
  {
    hide ScheduleNext, ApplyChanges;
    ApplyKeepsLimit(s.options, c);
    var p := ApplyChanges(s.options, c);
    if p.ok {
      var changed := s.(options := p.options);
      var limited :=
        if c.limit.Some? then StartQueued(changed.(options := p.options.(limit := c.limit.value))) else changed;
      assert SlotsSafe(limited) && TakesBelowLimit(s, limited);
      TimersLeaveSlots(CancelTimer(limited), now, false, false, None);
    }
  }

  /** A run takes a slot only below the limit in force, at most one per section, and always a new run. */
  lemma StepKeepsSlots(s: State, e: Event)
    requires SlotsSafe(s) && Enabled(s, e)
    ensures SlotsSafe(Next(s, e))
    ensures TakesBelowLimit(s, Next(s, e))
  {
    hide ScheduleNext, Admit, Update, Release, StartJob;
    match e {
      case TimerFires(timer, now) =>
        var woken := s.(live := s.live - {timer});
        AdmitIsSafe(woken, false, true);
        TimersLeaveSlots(Admit(woken, false, true).state, now, false, true, s.nextRunAt);
      case TriggerCalled => AdmitIsSafe(s, true, false);
      case TriggerLaunches(_) => MarkingIsSafe(s, Next(s, e));
      case AttemptTimedOut(_) => MarkingIsSafe(s, Next(s, e));
      case RunEnded(id) => ReleaseIsSafe(s, id);
      case StopCalled => MarkingIsSafe(s, Next(s, e));
      case CancelCalled => MarkingIsSafe(s, Next(s, e));
      case SchedulerStops => MarkingIsSafe(s, Next(s, e));
      case ResumeCalled(now) => TimersLeaveSlots(s.(status := Active), now, false, false, None);
      case OptionsUpdated(changes, now) => UpdateIsSafe(s, changes, now);
      case SchedulerStarts(saved, now) => StartIsSafe(s, saved, now);
      case _ =>
    }
  }

  lemma ScheduleIsSafe(s: State, now: Time, runNow: bool, afterFire: bool, firedAt: Option<Time>)
    requires TimersSafe(s) && s.live == {} && s.status.Active?
    ensures TimersSafe(ScheduleNext(s, now, runNow, afterFire, firedAt))
  {
  }

  lemma FireKeepsTimers(s: State, timer: nat, now: Time)
    requires TimersSafe(s) && timer in s.live
    ensures TimersSafe(Fire(s, timer, now))
  {
    var woken := s.(live := s.live - {timer});
    SlotsLeaveTimers(woken, false, true, 0);
    assert woken.live == {};
    if s.started {
      ScheduleIsSafe(Admit(woken, false, true).state, now, false, true, s.nextRunAt);
    }
  }

  lemma CancelKeepsTimers(s: State)
    requires TimersSafe(s)
    ensures TimersSafe(CancelTimer(s)) && CancelTimer(s).live == {}
    ensures TimersSafe(CancelTimer(s.(status := Paused))) && TimersSafe(CancelTimer(s.(status := Stopped)))
  {
    assert CancelTimer(s).live == {};
    assert CancelTimer(s.(status := Paused)).live == {} && CancelTimer(s.(status := Stopped)).live == {};
  }

  lemma UpdateKeepsTimers(s: State, c: Changes, now: Time)
    requires TimersSafe(s)
    ensures TimersSafe(Update(s, c, now))
  {
    var p := ApplyChanges(s.options, c);
    var changed := s.(options := p.options);
    if p.ok {
      var limited := changed;
      if c.limit.Some? {
        limited := changed.(options := p.options.(limit := c.limit.value));
        SlotsLeaveTimers(limited, false, false, 0);
        limited := StartQueued(limited);
      }
      CancelKeepsTimers(limited);
      if limited.status.Active? {
        ScheduleIsSafe(CancelTimer(limited), now, false, false, None);
      }
    }
  }

  lemma StartKeepsTimers(s: State, saved: Option<Saved>, now: Time)
    requires TimersSafe(s) && s.live == {}
    ensures TimersSafe(StartJob(s, saved, now))
  {
    var r := Restore(s.(started := true), saved);
    if r.status.Active? {
      var runNow := r.options.runOnStart && DueOnStart(r.options, r.lastRunAt, now);
      ScheduleIsSafe(r, now, runNow, false, None);
      ScheduleIsSafe(r, now, false, false, None);
      SlotsLeaveTimers(ScheduleNext(r, now, false, false, None), false, true, 0);
    }
  }

  /** No section leaves two timers that can fire, or one that can for a job that is not active. */
  lemma StepKeepsTimers(s: State, e: Event)
    requires TimersSafe(s) && Enabled(s, e)
    ensures TimersSafe(Next(s, e))
  {
    match e {
      case TimerFires(timer, now) => FireKeepsTimers(s, timer, now);
      case TriggerCalled => SlotsLeaveTimers(s, true, false, 0);
      case TriggerLaunches(id) => SlotsLeaveTimers(s, false, false, id);
      case RunEnded(id) => SlotsLeaveTimers(s, false, false, id);
      case AttemptTimedOut(_) =>
      case AttemptEnded(_, _) =>
      case PauseCalled => CancelKeepsTimers(s);
      case ResumeCalled(now) =>
        if s.status.Paused? {
          ScheduleIsSafe(s.(status := Active), now, false, false, None);
        }
      case StopCalled =>
        CancelKeepsTimers(s);
        SlotsLeaveTimers(CancelTimer(s.(status := Stopped)), false, false, 0);
      case CancelCalled => SlotsLeaveTimers(s, false, false, 0);
      case OptionsUpdated(c, now) => UpdateKeepsTimers(s, c, now);
      case SchedulerStarts(saved, now) => StartKeepsTimers(s, saved, now);
      case SchedulerStopping =>
      case SchedulerStops =>
        SlotsLeaveTimers(s, false, false, 0);
        assert StopJob(s).live == {};
    }
  }

  /** Both invariants hold in every state any interleaving reaches. */
  lemma {:induction false} AlwaysSafe(s: State, es: seq<Event>)
    requires SlotsSafe(s) && TimersSafe(s) && Legal(s, es)
    ensures SlotsSafe(After(s, es)) && TimersSafe(After(s, es))
    decreases |es|
  {
    if es != [] {
      StepKeepsSlots(s, es[0]);
      StepKeepsTimers(s, es[0]);
      AlwaysSafe(Next(s, es[0]), es[1..]);
    }
  }

  /** A job just registered satisfies both, so they hold over every run from its registration. */
  lemma SafeFromRegistration(s: State, es: seq<Event>)
    requires Registered(s) && Legal(s, es)
    ensures SlotsSafe(After(s, es)) && TimersSafe(After(s, es))
  {
    AlwaysSafe(s, es);
  }
}
