/**
 When a job's timer fires over whole runs: one timer at a time, the rhythm of cron
 and interval jobs, and what a start catches up on.  A firing follows either the
 firing before it or a rescheduling: an option update, a resume or a start.
 */
module JobRhythm {
  import opened Wrappers
  import opened JobState
  import opened JobSafety

  // ---------------------------------------------------------------------
  // Firings of a run
  // ---------------------------------------------------------------------

  /** How a job is due: by a cron schedule, at an interval, or never. */
  datatype Rule = ByCron(cron: Cron) | Every(interval: nat) | Unscheduled

  function RuleOf(o: Options): Rule {
    if o.schedule.Some? then ByCron(o.schedule.value)
    else if o.interval.Some? then Every(o.interval.value)
    else Unscheduled
  }

  /**
   A rescheduling: the rule in force from then on, the clock, the last run on record
   then (the clock when there is none), and whether a start asks for a run at once.
   */
  datatype Reset = Reset(rule: Rule, now: Time, base: Time, atOnce: bool)

  /** What the section reschedules the job by, if it does. */
  function ResetBy(s: State, e: Event): Option<Reset> {
    match e
    case ResumeCalled(now) =>
      if s.started && s.status.Paused? then Some(Reset(RuleOf(s.options), now, BaseOf(s.lastRunAt, now), false))
      else None
    case OptionsUpdated(c, now) =>
      var p := ApplyChanges(s.options, c);
      if s.started && s.status.Active? && p.ok then
        Some(Reset(RuleOf(p.options), now, BaseOf(s.lastRunAt, now), false))
      else None
    case SchedulerStarts(saved, now) =>
      var r := Restore(s.(started := true), saved);
      var atOnce := r.options.runOnStart && DueOnStart(r.options, r.lastRunAt, now);
      if r.status.Active? then Some(Reset(RuleOf(r.options), now, BaseOf(r.lastRunAt, now), atOnce)) else None
    case _ => None
  }

  function BaseOf(lastRunAt: Option<Time>, now: Time): Time {
    if lastRunAt.Some? then lastRunAt.value else now
  }

  /** A timer that wakes for a job it may run. */
  predicate Fires(s: State, e: Event) {
    e.TimerFires? && s.started && s.status.Active? && s.nextRunAt.Some?
  }

  /**
   A firing: the rule in force, the time it was scheduled for, the clock, and the
   rescheduling that set its timer if one did.
   */
  datatype Firing = Firing(rule: Rule, at: Time, now: Time, reset: Option<Reset>)

  /** The pending timer's rescheduling, once the section is over. */
  function NextReset(s: State, reset: Option<Reset>, e: Event): Option<Reset> {
    if Fires(s, e) then None else if ResetBy(s, e).Some? then ResetBy(s, e) else reset
  }

  function FiringOf(s: State, reset: Option<Reset>, e: Event): seq<Firing> {
    if Fires(s, e) then [Firing(RuleOf(s.options), s.nextRunAt.value, e.now, reset)] else []
  }

  ghost function Firings(s: State, reset: Option<Reset>, es: seq<Event>): seq<Firing>
    decreases |es|
  {
    if es == [] then []
    else FiringOf(s, reset, es[0]) + Firings(Next(s, es[0]), NextReset(s, reset, es[0]), es[1..])
  }

  ghost function ResetAfter(s: State, reset: Option<Reset>, es: seq<Event>): Option<Reset>
    decreases |es|
  {
    if es == [] then reset else ResetAfter(Next(s, es[0]), NextReset(s, reset, es[0]), es[1..])
  }

  function LastOf(last: Option<Firing>, fs: seq<Firing>): Option<Firing> {
    if fs == [] then last else Some(fs[|fs| - 1])
  }

  // ---------------------------------------------------------------------
  // The pending timer
  // ---------------------------------------------------------------------

  /** `cron` gives the least of its occurrences above a time. */
  ghost predicate NextOf(cron: Cron, occurs: (Cron, Time) -> bool) {
    forall t: Time ::
      t < cron(t) && occurs(cron, cron(t)) && (forall u: Time :: t < u < cron(t) ==> !occurs(cron, u))
  }

  function Max(a: Time, b: Time): Time {
    if a < b then b else a
  }

  /** When a rescheduling makes the job due. */
  function DueBy(reset: Reset): Time {
    match reset.rule
    case ByCron(cron) => cron(reset.now)
    case Every(interval) => if reset.atOnce then reset.now else Max(reset.now, reset.base + interval)
    case Unscheduled => reset.now
  }

  /** When the firing before makes the job due. */
  function DueAfter(f: Firing): Time {
    match f.rule
    case ByCron(cron) => if cron(f.at) > f.now then cron(f.at) else cron(f.now)
    case Every(interval) => f.now + interval
    case Unscheduled => f.now
  }

  /** The rescheduling that set a timer, else the last firing, makes the job due at `at`. */
  predicate DueAt(last: Option<Firing>, reset: Option<Reset>, at: Time) {
    match reset
    case Some(r) => !r.rule.Unscheduled? && at == DueBy(r)
    case None => last.Some? && !last.value.rule.Unscheduled? && at == DueAfter(last.value)
  }

  /** A timer that can still fire is due by the rescheduling that set it, else by the last firing. */
  ghost predicate Pending(s: State, last: Option<Firing>, reset: Option<Reset>) {
    TimersSafe(s) && (s.live != {} ==> s.nextRunAt.Some? && DueAt(last, reset, s.nextRunAt.value))
  }

  /** What the timer side of a state reads. */
  ghost predicate SameDue(s: State, t: State) {
    SameTimers(s, t) && t.started == s.started && t.nextRunAt == s.nextRunAt && t.lastRunAt == s.lastRunAt
  }

  lemma SlotsLeaveDue(s: State, manual: bool, launched: bool)
    ensures SameDue(s, Admit(s, manual, launched).state) && SameDue(s, StartQueued(s)) && SameDue(s, CancelRuns(s))
    ensures Admit(s, manual, launched).state.options == s.options
  {
  }

  lemma FirePending(s: State, last: Option<Firing>, reset: Option<Reset>, timer: nat, now: Time)
    requires Pending(s, last, reset) && timer in s.live
    ensures var e := TimerFires(timer, now);
      Pending(Next(s, e), LastOf(last, FiringOf(s, reset, e)), NextReset(s, reset, e))
  {
    hide Admit;
    FireKeepsTimers(s, timer, now);
    var woken := s.(live := s.live - {timer});
    assert woken.live == {};
    SlotsLeaveDue(woken, false, true);
    TimersLeaveSlots(Admit(woken, false, true).state, now, false, true, s.nextRunAt);
  }

  lemma ResumePending(s: State, last: Option<Firing>, reset: Option<Reset>, now: Time)
    requires Pending(s, last, reset) && s.status.Paused?
    ensures Pending(Next(s, ResumeCalled(now)), last, NextReset(s, reset, ResumeCalled(now)))
  {
    var active := s.(status := Active);
    ScheduleIsSafe(active, now, false, false, None);
    TimersLeaveSlots(active, now, false, false, None);
  }

  lemma UpdatePending(s: State, last: Option<Firing>, reset: Option<Reset>, c: Changes, now: Time)
    requires Pending(s, last, reset)
    ensures Pending(Update(s, c, now), last, NextReset(s, reset, OptionsUpdated(c, now)))
  {
    hide ApplyChanges, StartQueued, ScheduleNext, DueBy, DueAfter, CancelTimer;
    UpdateKeepsTimers(s, c, now);
    var p := ApplyChanges(s.options, c);
    if p.ok {
      var changed := s.(options := p.options);
      var raised := changed.(options := p.options.(limit := if c.limit.Some? then c.limit.value else 1));
      StartQueuedLeaves(raised);
      var limited := if c.limit.Some? then StartQueued(raised) else changed;
      if limited.status.Active? {
        RescheduledPending(limited, last, reset, now);
      }
    }
  }

  lemma RescheduledPending(s: State, last: Option<Firing>, reset: Option<Reset>, now: Time)
    requires TimersSafe(s) && s.status.Active?
    ensures Pending(ScheduleNext(CancelTimer(s), now, false, false, None), last,
                    if s.started then Some(Reset(RuleOf(s.options), now, BaseOf(s.lastRunAt, now), false)) else reset)
  {
    CancelKeepsTimers(s);
    ScheduleIsSafe(CancelTimer(s), now, false, false, None);
  }

  lemma StartQueuedLeaves(s: State)
    ensures SameDue(s, StartQueued(s)) && StartQueued(s).options == s.options
  {
  }

  lemma StartPending(s: State, last: Option<Firing>, reset: Option<Reset>, saved: Option<Saved>, now: Time)
    requires Pending(s, last, reset) && s.live == {}
    ensures Pending(StartJob(s, saved, now), last, NextReset(s, reset, SchedulerStarts(saved, now)))
  {
    hide Admit, DueOnStart;
    StartKeepsTimers(s, saved, now);
    var r := Restore(s.(started := true), saved);
    SlotsLeaveDue(ScheduleNext(r, now, false, false, None), false, true);
    TimersLeaveSlots(r, now, true, false, None);
    TimersLeaveSlots(r, now, false, false, None);
  }

  /** Every section keeps the pending timer due as it should be. */
  lemma StepKeepsPending(s: State, last: Option<Firing>, reset: Option<Reset>, e: Event)
    requires Pending(s, last, reset) && Enabled(s, e)
    ensures Pending(Next(s, e), LastOf(last, FiringOf(s, reset, e)), NextReset(s, reset, e))
  {
    hide ScheduleNext, Update, StartJob, Fire, Admit, Release, DueBy, DueAfter;
    StepKeepsTimers(s, e);
    match e {
      case TimerFires(timer, now) => FirePending(s, last, reset, timer, now);
      case TriggerCalled => SlotsLeaveDue(s, true, false);
      case RunEnded(id) => ReleaseLeaves(s, id);
      case PauseCalled => CancelKeepsTimers(s);
      case ResumeCalled(now) =>
        if s.status.Paused? {
          ResumePending(s, last, reset, now);
        }
      case StopCalled =>
        CancelKeepsTimers(s);
        SlotsLeaveDue(CancelTimer(s.(status := Stopped)), false, true);
      case OptionsUpdated(c, now) => UpdatePending(s, last, reset, c, now);
      case SchedulerStarts(saved, now) => StartPending(s, last, reset, saved, now);
      case SchedulerStops => assert StopJob(s).live == {};
      case _ =>
    }
  }

  lemma ReleaseLeaves(s: State, id: nat)
    ensures SameDue(s, Release(s, id)) && Release(s, id).options == s.options
  {
  }

  ghost predicate AllDue(last: Option<Firing>, fs: seq<Firing>)
    decreases |fs|
  {
    fs == [] || (DueAt(last, fs[0].reset, fs[0].at) && AllDue(Some(fs[0]), fs[1..]))
  }

  /** Over any run every firing is due by its rescheduling or by the firing before it. */
  lemma {:induction false} RunKeepsDue(s: State, last: Option<Firing>, reset: Option<Reset>, es: seq<Event>)
    requires Pending(s, last, reset) && Legal(s, es)
    ensures AllDue(last, Firings(s, reset, es))
    ensures Pending(After(s, es), LastOf(last, Firings(s, reset, es)), ResetAfter(s, reset, es))
    decreases |es|
  {
    hide Next, Enabled, NextReset, DueAt, ResetBy;
    if es != [] {
      var f := FiringOf(s, reset, es[0]);
      StepKeepsPending(s, last, reset, es[0]);
      RunKeepsDue(Next(s, es[0]), LastOf(last, f), NextReset(s, reset, es[0]), es[1..]);
      var rest := Firings(Next(s, es[0]), NextReset(s, reset, es[0]), es[1..]);
      if f != [] {
        FiresDue(s, last, reset, es[0]);
        assert (f + rest)[0] == f[0] && (f + rest)[1..] == rest;
      } else {
        assert f + rest == rest;
      }
    }
  }

  lemma FiresDue(s: State, last: Option<Firing>, reset: Option<Reset>, e: Event)
    requires Pending(s, last, reset) && Enabled(s, e) && Fires(s, e)
    ensures var f := FiringOf(s, reset, e)[0]; f.reset == reset && DueAt(last, reset, f.at)
  {
  }

  lemma {:induction false} AllDueEach(last: Option<Firing>, fs: seq<Firing>, i: nat)
    requires AllDue(last, fs) && i < |fs|
    ensures DueAt(if i == 0 then last else Some(fs[i - 1]), fs[i].reset, fs[i].at)
    decreases i
  {
    if i > 0 {
      AllDueEach(Some(fs[0]), fs[1..], i - 1);
    }
  }

  /** A run of a job from its registration: whatever is paused, updated, stopped and started again. */
  ghost predicate RunOfJob(s: State, es: seq<Event>) {
    Registered(s) && Legal(s, es)
  }

  /** The rule that set a firing's timer: the rescheduling's, else the one in force at the firing before. */
  function RuleAt(fs: seq<Firing>, i: nat): Rule
    requires 0 <= i < |fs|
  {
    if fs[i].reset.Some? then fs[i].reset.value.rule else if i > 0 then fs[i - 1].rule else Unscheduled
  }

  lemma FiringIsDue(s: State, es: seq<Event>, i: nat)
    requires RunOfJob(s, es) && i < |Firings(s, None, es)|
    ensures var fs := Firings(s, None, es); DueAt(if i == 0 then None else Some(fs[i - 1]), fs[i].reset, fs[i].at)
  {
    RegisteredIsPending(s);
    RunKeepsDue(s, None, None, es);
    AllDueEach(None, Firings(s, None, es), i);
  }

  lemma RegisteredIsPending(s: State)
    requires Registered(s)
    ensures Pending(s, None, None)
  {
  }

  /** After a run and a rescheduling that gives the job a timer, the job is due by that. */
  lemma RescheduledAfter(s: State, es: seq<Event>, e: Event)
    requires RunOfJob(s, es) && Enabled(After(s, es), e)
    requires ResetBy(After(s, es), e).Some? && !ResetBy(After(s, es), e).value.rule.Unscheduled?
    ensures Next(After(s, es), e).nextRunAt == Some(DueBy(ResetBy(After(s, es), e).value))
  {
    hide Next, Firings, After, ResetAfter;
    RegisteredIsPending(s);
    RunKeepsDue(s, None, None, es);
    var t, fs, reset := After(s, es), Firings(s, None, es), ResetAfter(s, None, es);
    StepKeepsPending(t, LastOf(None, fs), reset, e);
    ResetMakesTimer(t, e);
  }

  lemma ResetMakesTimer(s: State, e: Event)
    requires TimersSafe(s) && ResetBy(s, e).Some? && !ResetBy(s, e).value.rule.Unscheduled?
    ensures Next(s, e).live != {} && !Fires(s, e)
  {
    hide Admit, ApplyChanges, StartQueued, DueOnStart;
    match e {
      case ResumeCalled(now) => assert s.nextTimer in Next(s, e).live;
      case OptionsUpdated(c, now) =>
        var changed := s.(options := ApplyChanges(s.options, c).options);
        var raised := changed.(options := changed.options.(limit := if c.limit.Some? then c.limit.value else 1));
        StartQueuedLeaves(raised);
        assert s.nextTimer in Next(s, e).live;
      case SchedulerStarts(saved, now) =>
        var r := Restore(s.(started := true), saved);
        SlotsLeaveDue(ScheduleNext(r, now, false, false, None), false, true);
        assert s.nextTimer in Next(s, e).live;
      case _ =>
    }
  }

  // ---------------------------------------------------------------------
  // Cron
  // ---------------------------------------------------------------------

  /** An active cron job of a started scheduler, with an occurrence scheduled. */
  ghost predicate OnCron(s: State, occurs: (Cron, Time) -> bool) {
    && s.started && s.status.Active?
    && s.options.schedule.Some? && NextOf(s.options.schedule.value, occurs)
    && s.nextRunAt.Some? && occurs(s.options.schedule.value, s.nextRunAt.value)
  }

  /** Whatever the clock reads, firing moves on to a later occurrence and passes over only occurrences already due. */
  lemma FireMovesOn(s: State, timer: nat, now: Time, occurs: (Cron, Time) -> bool)
    requires OnCron(s, occurs)
    ensures var t := Fire(s, timer, now);
      && OnCron(t, occurs)
      && s.nextRunAt.value < t.nextRunAt.value
      && now < t.nextRunAt.value
      && (forall u: Time ::
            s.nextRunAt.value < u < t.nextRunAt.value && occurs(s.options.schedule.value, u) ==> u <= now)
  {
    var cron := s.options.schedule.value;
    assert s.nextRunAt.value < cron(s.nextRunAt.value) && occurs(cron, cron(s.nextRunAt.value));
    assert now < cron(now) && occurs(cron, cron(now));
  }

  /** The clock of a rescheduling is on time for what fired last: no occurrence lies between, up to that one. */
  ghost predicate NoneBetween(cron: Cron, occurs: (Cron, Time) -> bool, now: Time, fired: Time) {
    forall u: Time :: now < u <= fired ==> !occurs(cron, u)
  }

  /** A cron job is rescheduled past a time if and only if no occurrence lies between the clock and that time. */
  lemma CronMovesPast(cron: Cron, occurs: (Cron, Time) -> bool, at: Time, now: Time)
    requires NextOf(cron, occurs)
    ensures at < cron(now) <==> NoneBetween(cron, occurs, now, at)
    ensures occurs(cron, at) ==> (NoneBetween(cron, occurs, now, at) <==> at <= now)
    ensures cron(now) == at <==> now < at && occurs(cron, at) && NoneBetween(cron, occurs, now, at - 1)
    ensures forall u: Time :: at < u < cron(now) && occurs(cron, u) ==> u <= now
  {
    assert now < cron(now) && occurs(cron, cron(now));
  }

  /** Over any run every firing that a cron schedule set is of one of its occurrences. */
  lemma CronFiresOccurrences(s: State, es: seq<Event>, i: nat, occurs: (Cron, Time) -> bool)
    requires RunOfJob(s, es) && i < |Firings(s, None, es)|
    requires RuleAt(Firings(s, None, es), i).ByCron? && NextOf(RuleAt(Firings(s, None, es), i).cron, occurs)
    ensures var fs := Firings(s, None, es); occurs(RuleAt(fs, i).cron, fs[i].at)
  {
    hide Firings;
    FiringIsDue(s, es, i);
    var cron := RuleAt(Firings(s, None, es), i).cron;
    assert forall t: Time :: occurs(cron, cron(t));
  }

  /** A rescheduling in between, if any, is on time for the firing before. */
  ghost predicate OnTime(fs: seq<Firing>, i: nat, occurs: (Cron, Time) -> bool)
    requires 0 < i < |fs| && RuleAt(fs, i).ByCron?
  {
    fs[i].reset.Some? ==> NoneBetween(RuleAt(fs, i).cron, occurs, fs[i].reset.value.now, fs[i - 1].at)
  }

  /** The clock at which a firing was scheduled: the rescheduling's, else the firing before's. */
  function ScheduledAt(fs: seq<Firing>, i: nat): Time
    requires 0 < i < |fs|
  {
    if fs[i].reset.Some? then fs[i].reset.value.now else fs[i - 1].now
  }

  /**
   In any run, a firing that a cron schedule set is of a later time than the firing
   before if and only if no update, resume or start in between read a clock with an
   occurrence after it up to what fired before; that is, when this was an occurrence
   too, a clock before it.  Every occurrence passed over was due already when it was.
   */
  lemma CronKeepsRhythm(s: State, es: seq<Event>, i: nat, occurs: (Cron, Time) -> bool)
    requires RunOfJob(s, es) && 0 < i < |Firings(s, None, es)|
    requires RuleAt(Firings(s, None, es), i).ByCron? && NextOf(RuleAt(Firings(s, None, es), i).cron, occurs)
    ensures var fs := Firings(s, None, es);
      var cron, before, f := RuleAt(fs, i).cron, fs[i - 1], fs[i];
      && (before.at < f.at <==> OnTime(fs, i, occurs))
      && (occurs(cron, before.at) ==>
            (OnTime(fs, i, occurs) <==> f.reset.None? || before.at <= f.reset.value.now))
      && (forall u: Time :: occurs(cron, u) && before.at < u < f.at ==> u <= ScheduledAt(fs, i))
  {
    hide Firings;
    var fs := Firings(s, None, es);
    var cron := RuleAt(fs, i).cron;
    FiringIsDue(s, es, i);
    CronMovesPast(cron, occurs, fs[i - 1].at, ScheduledAt(fs, i));
    if fs[i].reset.None? {
      assert fs[i - 1].at < cron(fs[i - 1].at);
      assert forall u: Time :: fs[i - 1].at < u < cron(fs[i - 1].at) ==> !occurs(cron, u);
    }
  }

  ghost predicate Ascending(fs: seq<Firing>) {
    forall i, j :: 0 <= i < j < |fs| ==> fs[i].at < fs[j].at
  }

  /** Every firing but the first is set by a cron schedule; an update may replace it by another. */
  ghost predicate AllByCron(fs: seq<Firing>, occurs: (Cron, Time) -> bool) {
    forall i: nat :: 0 < i < |fs| ==> RuleAt(fs, i).ByCron? && NextOf(RuleAt(fs, i).cron, occurs)
  }

  /** So nothing is fired twice in a run, and all in order, if and only if every rescheduling is on time. */
  lemma CronAscendsExactly(s: State, es: seq<Event>, occurs: (Cron, Time) -> bool)
    requires RunOfJob(s, es) && AllByCron(Firings(s, None, es), occurs)
    ensures var fs := Firings(s, None, es);
      Ascending(fs) <==> forall i: nat :: 0 < i < |fs| ==> OnTime(fs, i, occurs)
  {
    hide Firings, NextOf, OnTime;
    var fs := Firings(s, None, es);
    forall i: nat | 0 < i < |fs| ensures fs[i - 1].at < fs[i].at <==> OnTime(fs, i, occurs) {
      CronKeepsRhythm(s, es, i, occurs);
    }
    if forall i: nat :: 0 < i < |fs| ==> OnTime(fs, i, occurs) {
      forall i, j | 0 <= i < j < |fs| ensures fs[i].at < fs[j].at {
        StepsAscend(fs, i, j);
      }
    }
    if Ascending(fs) {
      forall i: nat | 0 < i < |fs| ensures OnTime(fs, i, occurs) {
        assert fs[i - 1].at < fs[i].at;
      }
    }
  }

  lemma {:induction false} StepsAscend(fs: seq<Firing>, i: nat, j: nat)
    requires i < j < |fs| && forall k: nat :: 0 < k < |fs| ==> fs[k - 1].at < fs[k].at
    ensures fs[i].at < fs[j].at
    decreases j
  {
    assert fs[j - 1].at < fs[j].at;
    if i < j - 1 {
      StepsAscend(fs, i, j - 1);
    }
  }

  /**
   An update, a resume or a start that leaves the job a cron schedule makes it due no
   later than it fired last if and only if an occurrence lies after the clock up to
   that time, and due at that very time if and only if it is the first of them.
   */
  lemma RescheduleRepeatsExactly(s: State, es: seq<Event>, e: Event, cron: Cron, occurs: (Cron, Time) -> bool)
    requires RunOfJob(s, es) && Enabled(After(s, es), e) && Firings(s, None, es) != []
    requires ResetBy(After(s, es), e).Some? && ResetBy(After(s, es), e).value.rule == ByCron(cron)
    requires NextOf(cron, occurs)
    ensures var t, fs, now := Next(After(s, es), e), Firings(s, None, es), ResetBy(After(s, es), e).value.now;
      var fired := fs[|fs| - 1].at;
      && t.nextRunAt.Some?
      && (t.nextRunAt.value <= fired <==> !NoneBetween(cron, occurs, now, fired))
      && (occurs(cron, fired) ==> (t.nextRunAt.value <= fired <==> now < fired))
      && (t.nextRunAt.value == fired <==>
            now < fired && occurs(cron, fired) && NoneBetween(cron, occurs, now, fired - 1))
  {
    hide Firings, After, Next, ResetBy;
    RescheduledAfter(s, es, e);
    var fs := Firings(s, None, es);
    CronMovesPast(cron, occurs, fs[|fs| - 1].at, ResetBy(After(s, es), e).value.now);
  }

  // ---------------------------------------------------------------------
  // Intervals
  // ---------------------------------------------------------------------

  /**
   The interval since a firing is over at the rescheduling, or the last run on
   record is no older than that firing and none is asked for at once.
   */
  predicate KeepsDistance(reset: Reset, fired: Time, every: nat) {
    reset.now >= fired + every || (!reset.atOnce && reset.base >= fired)
  }

  /**
   In any run, a firing that an interval set is due exactly one interval after the
   firing before; when something reschedules the job in between, at least one interval
   after it if and only if the interval is over by then, or the run on record is the
   fired one and no run is asked for at once: while the fired run's first attempt is
   under way the record is older.  It is never due in the past.
   */
  lemma IntervalsKeptExactly(s: State, es: seq<Event>, i: nat, every: nat)
    requires RunOfJob(s, es) && 0 < i < |Firings(s, None, es)|
    requires RuleAt(Firings(s, None, es), i) == Every(every)
    ensures var fs := Firings(s, None, es);
      && (fs[i].reset.None? ==> fs[i].at == fs[i - 1].now + every)
      && (fs[i].reset.Some? ==>
           && fs[i].at >= fs[i].reset.value.now
           && (fs[i].at >= fs[i - 1].now + every <==> KeepsDistance(fs[i].reset.value, fs[i - 1].now, every)))
  {
    hide Firings;
    FiringIsDue(s, es, i);
  }

  /** The same of the rescheduling itself: an update, a resume or a start. */
  lemma RescheduleKeepsIntervalExactly(s: State, es: seq<Event>, e: Event, every: nat)
    requires RunOfJob(s, es) && Enabled(After(s, es), e) && Firings(s, None, es) != []
    requires ResetBy(After(s, es), e).Some? && ResetBy(After(s, es), e).value.rule == Every(every)
    ensures var t, fs, reset := Next(After(s, es), e), Firings(s, None, es), ResetBy(After(s, es), e).value;
      var fired := fs[|fs| - 1].now;
      && t.nextRunAt.Some? && t.nextRunAt.value >= reset.now
      && (t.nextRunAt.value >= fired + every <==> KeepsDistance(reset, fired, every))
  {
    hide Firings, After, Next, ResetBy;
    RescheduledAfter(s, es, e);
  }

  // ---------------------------------------------------------------------
  // Starting
  // ---------------------------------------------------------------------

  /**
   Starting the scheduler leaves a job at most one timer if and only if none could
   still fire, or it makes none because the job is active without a schedule.
   */
  lemma StartLeavesOneTimer(s: State, saved: Option<Saved>, now: Time)
    requires TimersSafe(s)
    ensures var r := Restore(s.(started := true), saved);
      TimersSafe(StartJob(s, saved, now)) <==>
        s.live == {} || (r.status.Active? && s.options.schedule.None? && s.options.interval.None?)
  {
    hide Admit, DueOnStart;
    var r := Restore(s.(started := true), saved);
    var t := StartJob(s, saved, now);
    SlotsLeaveDue(ScheduleNext(r, now, false, false, None), false, true);
    if s.live == {} {
      StartKeepsTimers(s, saved, now);
    } else if r.status.Active? && (s.options.schedule.Some? || s.options.interval.Some?) {
      assert t.live == s.live + {s.nextTimer};
      assert s.timer.value in t.live && s.timer.value != s.nextTimer && s.nextTimer in t.live;
    }
  }

  /** A run is owed at the start: there was none yet, an occurrence was missed, or the interval has passed. */
  ghost predicate Owed(o: Options, lastRunAt: Option<Time>, now: Time, occurs: (Cron, Time) -> bool) {
    || lastRunAt.None?
    || (o.schedule.Some? && exists u: Time :: lastRunAt.value < u <= now && occurs(o.schedule.value, u))
    || (o.schedule.None? && o.interval.Some? && lastRunAt.value + o.interval.value <= now)
    || (o.schedule.None? && o.interval.None?)
  }

  /** The start's own check decides exactly that. */
  lemma OwedExactly(o: Options, lastRunAt: Option<Time>, now: Time, occurs: (Cron, Time) -> bool)
    requires o.schedule.Some? ==> NextOf(o.schedule.value, occurs)
    ensures DueOnStart(o, lastRunAt, now) <==> Owed(o, lastRunAt, now, occurs)
  {
    if o.schedule.Some? && lastRunAt.Some? {
      var cron, last := o.schedule.value, lastRunAt.value;
      assert last < cron(last) && occurs(cron, cron(last));
      assert forall u: Time :: last < u < cron(last) ==> !occurs(cron, u);
    }
  }

  lemma AdmitCounts(s: State)
    ensures Admit(s, false, true).state.nextId == s.nextId + (if |s.slots| < s.options.limit then 1 else 0)
    ensures SameDue(s, Admit(s, false, true).state)
  {
  }

  /**
   A start keeps a saved pause or stop, unless the code disables the job; an active
   job that runs on start is run once if and only if a run is owed: in a slot when one
   is free, or, an interval job, by its timer at once.
   */
  lemma StartCatchesUpExactly(s: State, saved: Option<Saved>, now: Time, occurs: (Cron, Time) -> bool)
    requires s.options.schedule.Some? ==> NextOf(s.options.schedule.value, occurs)
    ensures var o, t := s.options, StartJob(s, saved, now);
      var last := if saved.Some? then saved.value.lastRunAt else s.lastRunAt;
      var runs := o.runOnStart && Owed(o, last, now, occurs);
      && t.status == (if o.enabled && saved.Some? then saved.value.status else s.status)
      && (!t.status.Active? ==> t.nextId == s.nextId && t.slots == s.slots && t.live == s.live)
      && (t.status.Active? && (o.schedule.Some? || o.interval.None?) ==>
            t.nextId == s.nextId + (if runs && |s.slots| < o.limit then 1 else 0))
      && (t.status.Active? && o.schedule.None? && o.interval.Some? ==>
            && t.nextId == s.nextId && t.slots == s.slots
            && t.nextRunAt.Some? && t.nextRunAt.value >= now
            && (t.nextRunAt.value == now <==> runs || BaseOf(last, now) + o.interval.value <= now))
  {
    hide Admit, DueOnStart, Owed;
    var r := Restore(s.(started := true), saved);
    AdmitCounts(ScheduleNext(r, now, false, false, None));
    OwedExactly(s.options, if saved.Some? then saved.value.lastRunAt else s.lastRunAt, now, occurs);
  }

  // ---------------------------------------------------------------------
  // Runs that break the rhythm
  // ---------------------------------------------------------------------

  lemma FirstStep(s: State, reset: Option<Reset>, e: Event, es: seq<Event>)
    requires es != [] && es[0] == e
    ensures Legal(s, es) <==> Enabled(s, e) && Legal(Next(s, e), es[1..])
    ensures Firings(s, reset, es) ==
      FiringOf(s, reset, e) + Firings(Next(s, e), NextReset(s, reset, e), es[1..])
  {
  }

  const TENS: Cron := (t: Time) => (t / 10 + 1) * 10

  /** A job just registered that runs every ten units, or every `interval`. */
  function NewJob(schedule: Option<Cron>, interval: Option<nat>): State {
    State(Options(schedule, interval, true, false, 0, 0, Fixed, None, Skip, 1),
          Active, false, [], false, 0, None, None, None, {}, 0)
  }

  lemma TensAreNext()
    ensures NextOf(TENS, (_, t) => t % 10 == 0)
  {
    forall t: Time ensures t < TENS(t) && TENS(t) % 10 == 0 && forall u: Time :: t < u < TENS(t) ==> u % 10 != 0 {
      TenIsNext(t / 10, t);
    }
  }

  lemma TenIsNext(q: int, t: Time)
    requires 10 * q <= t < 10 * q + 10
    ensures t < (q + 1) * 10 && ((q + 1) * 10) % 10 == 0
    ensures forall u: Time :: t < u < (q + 1) * 10 ==> u % 10 != 0
  {
    forall u: Time | t < u < (q + 1) * 10 ensures u % 10 != 0 {
      assert u == 10 * (u / 10) + u % 10;
    }
  }

  /** A started job with its timer pending and a run in its slot, or none. */
  ghost predicate At(s: State, job: State, slots: seq<Slot>, timer: nat, due: Time, lastRunAt: Option<Time>) {
    && s.options == job.options && s.started && s.status == Active && !s.queued && s.slots == slots
    && s.live == {timer} && s.timer == Some(timer) && s.nextTimer == timer + 1
    && s.nextRunAt == Some(due) && s.lastRunAt == lastRunAt
  }

  lemma FiresEarly(rest: seq<Event>) returns (t: State)
    ensures At(t, NewJob(Some(TENS), None), [Slot(0, false, true)], 1, 20, None)
    ensures var s, es := NewJob(Some(TENS), None), [SchedulerStarts(None, 5), TimerFires(0, 9)] + rest;
      && (Legal(s, es) <==> Legal(t, rest))
      && Firings(s, None, es) ==
         [Firing(ByCron(TENS), 10, 9, Some(Reset(ByCron(TENS), 5, 5, false)))] + Firings(t, None, rest)
  {
    hide Legal, Firings;
    var s, es := NewJob(Some(TENS), None), [SchedulerStarts(None, 5), TimerFires(0, 9)] + rest;
    var s1 := Next(s, es[0]);
    assert At(s1, s, [], 0, 10, None);
    t := Next(s1, es[1]);
    FirstStep(s, None, es[0], es);
    FirstStep(s1, Some(Reset(ByCron(TENS), 5, 5, false)), es[1], es[1..]);
    assert es[1..][1..] == rest;
  }

  lemma FiresAgain(s: State)
    requires At(s, NewJob(Some(TENS), None), [Slot(0, false, true)], 1, 20, None)
    ensures var es := [PauseCalled, ResumeCalled(9), TimerFires(2, 10)];
      Legal(s, es) && Firings(s, None, es) == [Firing(ByCron(TENS), 10, 10, Some(Reset(ByCron(TENS), 9, 9, false)))]
  {
    var es := [PauseCalled, ResumeCalled(9), TimerFires(2, 10)];
    var s1 := Next(s, es[0]);
    assert s1.live == {} && s1.started && s1.status == Paused && s1.lastRunAt == None && s1.nextTimer == 2;
    var s2 := Next(s1, es[1]);
    assert At(s2, NewJob(Some(TENS), None), [Slot(0, false, true)], 2, 10, None);
    FirstStep(s, None, es[0], es);
    FirstStep(s1, None, es[1], es[1..]);
    FirstStep(s2, Some(Reset(ByCron(TENS), 9, 9, false)), es[2], es[2..]);
  }

  /** A timer that fires early, a pause and a resume before the occurrence: it is fired twice. */
  lemma ResumeRepeatsAnOccurrence()
    ensures var s := NewJob(Some(TENS), None);
      var es := [SchedulerStarts(None, 5), TimerFires(0, 9)] + [PauseCalled, ResumeCalled(9), TimerFires(2, 10)];
      && RunOfJob(s, es) && NextOf(TENS, (_, t) => t % 10 == 0)
      && var fs := Firings(s, None, es);
         |fs| == 2 && fs[0].at == 10 && fs[1].at == 10 && fs[1].reset == Some(Reset(ByCron(TENS), 9, 9, false))
  {
    hide Next, Enabled, Legal, Firings;
    TensAreNext();
    var t := FiresEarly([PauseCalled, ResumeCalled(9), TimerFires(2, 10)]);
    FiresAgain(t);
  }

  lemma FirstRunStarts(rest: seq<Event>) returns (t: State)
    ensures At(t, NewJob(None, Some(100)), [Slot(0, false, true)], 1, 200, None)
    ensures var s, es := NewJob(None, Some(100)), [SchedulerStarts(None, 0), TimerFires(0, 100)] + rest;
      && (Legal(s, es) <==> Legal(t, rest))
      && Firings(s, None, es) ==
         [Firing(Every(100), 100, 100, Some(Reset(Every(100), 0, 0, false)))] + Firings(t, None, rest)
  {
    hide Legal, Firings;
    var s, es := NewJob(None, Some(100)), [SchedulerStarts(None, 0), TimerFires(0, 100)] + rest;
    var s1 := Next(s, es[0]);
    assert At(s1, s, [], 0, 100, None);
    t := Next(s1, es[1]);
    FirstStep(s, None, es[0], es);
    FirstStep(s1, Some(Reset(Every(100), 0, 0, false)), es[1], es[1..]);
    assert es[1..][1..] == rest;
  }

  lemma FirstRunEnds(s: State, rest: seq<Event>) returns (t: State)
    requires At(s, NewJob(None, Some(100)), [Slot(0, false, true)], 1, 200, None)
    ensures At(t, NewJob(None, Some(100)), [], 1, 200, Some(100))
    ensures var es := [AttemptEnded(0, 100), RunEnded(0)] + rest;
      (Legal(s, es) <==> Legal(t, rest)) && Firings(s, None, es) == Firings(t, None, rest)
  {
    hide Legal, Firings;
    var es := [AttemptEnded(0, 100), RunEnded(0)] + rest;
    var s1 := Next(s, es[0]);
    assert s1.slots[0] == Slot(0, false, true);
    t := Next(s1, es[1]);
    assert Without(s1.slots[1..], 0) == [];
    FirstStep(s, None, es[0], es);
    FirstStep(s1, None, es[1], es[1..]);
    assert es[1..][1..] == rest;
  }

  lemma SecondRunInterrupted(s: State)
    requires At(s, NewJob(None, Some(100)), [], 1, 200, Some(100))
    ensures var es := [TimerFires(1, 200), PauseCalled, ResumeCalled(250), TimerFires(3, 250)];
      && Legal(s, es)
      && Firings(s, None, es) ==
         [Firing(Every(100), 200, 200, None), Firing(Every(100), 250, 250, Some(Reset(Every(100), 250, 100, false)))]
  {
    hide Legal, Firings;
    var es := [TimerFires(1, 200), PauseCalled, ResumeCalled(250), TimerFires(3, 250)];
    var s1 := Next(s, es[0]);
    assert s1.live == {2} && s1.started && s1.status == Active && s1.lastRunAt == Some(100);
    var s2 := Next(s1, es[1]);
    assert s2.live == {} && s2.started && s2.status == Paused && s2.lastRunAt == Some(100);
    var s3 := Next(s2, es[2]);
    assert s3.live == {3} && s3.nextRunAt == Some(250) && s3.started && s3.status == Active;
    NoStep(Next(s3, es[3]), None, es[4..]);
    FirstStep(s, None, es[0], es);
    FirstStep(s1, None, es[1], es[1..]);
    FirstStep(s2, None, es[2], es[2..]);
    FirstStep(s3, Some(Reset(Every(100), 250, 100, false)), es[3], es[3..]);
  }

  lemma NoStep(s: State, reset: Option<Reset>, es: seq<Event>)
    requires es == []
    ensures Legal(s, es) && Firings(s, reset, es) == []
  {
  }

  /** A resume while the fired run's first attempt is under way: the job is due again at once. */
  lemma ResumeShortensAnInterval()
    ensures var s := NewJob(None, Some(100));
      var es := [SchedulerStarts(None, 0), TimerFires(0, 100)] + ([AttemptEnded(0, 100), RunEnded(0)]
                + [TimerFires(1, 200), PauseCalled, ResumeCalled(250), TimerFires(3, 250)]);
      && RunOfJob(s, es)
      && var fs := Firings(s, None, es);
         |fs| == 3 && fs[1].now == 200 && fs[2].at == 250 && fs[2].reset == Some(Reset(Every(100), 250, 100, false))
         && !KeepsDistance(fs[2].reset.value, fs[1].now, 100)
  {
    hide Next, Enabled, Legal, Firings;
    var last := [TimerFires(1, 200), PauseCalled, ResumeCalled(250), TimerFires(3, 250)];
    var t := FirstRunStarts([AttemptEnded(0, 100), RunEnded(0)] + last);
    var u := FirstRunEnds(t, last);
    SecondRunInterrupted(u);
  }

  /** A start before the stop under way has cancelled the job's timer: two timers can fire. */
  lemma StartDuringStopLeavesTwoTimers()
    ensures var s := Next(Next(NewJob(Some(TENS), None), SchedulerStarts(None, 5)), SchedulerStopping);
      TimersSafe(s) && s.live == {0} && StartJob(s, None, 7).live == {0, 1}
  {
    var s := Next(NewJob(Some(TENS), None), SchedulerStarts(None, 5));
    assert s.live == {0};
  }
}
