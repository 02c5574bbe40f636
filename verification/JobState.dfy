/**
 One job registration as a state machine.  Each event is a section of the
 scheduler that runs between two awaits; `Next` is what the section does.  The
 class in JobRegistration.dfy performs these sections in place.
 */
module JobState {
  import opened Wrappers

  /** Microseconds. */
  type Time = int

  datatype Status = Active | Paused | Stopped
  datatype Policy = Skip | Queue | Cancel
  datatype Strategy = Fixed | Linear | Exponential

  /** A cron schedule is its next occurrence after a time. */
  type Cron = Time -> Time

  datatype Options = Options(
    schedule: Option<Cron>,
    interval: Option<nat>,
    enabled: bool,
    runOnStart: bool,
    maxRetries: int,
    retryDelay: nat,
    strategy: Strategy,
    timeout: Option<nat>,
    policy: Policy,
    limit: int)

  /** A run holding a slot; not yet launched while its trigger call publishes `job:triggered`. */
  datatype Slot = Slot(id: nat, cancelled: bool, launched: bool)

  /**
   `live` holds the timer tasks that can still fire: created, neither cancelled
   nor done.  `timer` is the one the registration refers to.
   */
  datatype State = State(
    options: Options,
    status: Status,
    started: bool,
    slots: seq<Slot>,
    queued: bool,
    nextId: nat,
    nextRunAt: Option<Time>,
    lastRunAt: Option<Time>,
    timer: Option<nat>,
    live: set<nat>,
    nextTimer: nat)

  // ---------------------------------------------------------------------
  // Slots
  // ---------------------------------------------------------------------

  function TakeSlot(s: State, launched: bool): State {
    s.(slots := s.slots + [Slot(s.nextId, false, launched)], nextId := s.nextId + 1)
  }

  datatype Admission = Started | Waiting | Dropped | Refused

  datatype Admitted = Admitted(state: State, outcome: Admission)

  /** `_admit`; `launched` tells whether the run is launched in the same section. */
  function Admit(s: State, manual: bool, launched: bool): Admitted {
    if |s.slots| < s.options.limit then Admitted(TakeSlot(s, launched), Started)
    else match s.options.policy
      case Queue => Admitted(s.(queued := true), Waiting)
      case Cancel =>
        if s.queued || s.slots == [] then Admitted(s, Waiting)
        else Admitted(s.(slots := s.slots[0 := s.slots[0].(cancelled := true)], queued := true), Waiting)
      case Skip => Admitted(s, if manual then Refused else Dropped)
  }

  function StartQueued(s: State): State {
    if s.queued && |s.slots| < s.options.limit then TakeSlot(s.(queued := false), true) else s
  }

  function Without(slots: seq<Slot>, id: nat): seq<Slot> {
    if slots == [] then []
    else (if slots[0].id == id then [] else [slots[0]]) + Without(slots[1..], id)
  }

  function Release(s: State, id: nat): State {
    StartQueued(s.(slots := Without(s.slots, id)))
  }

  function AllCancelled(slots: seq<Slot>): seq<Slot> {
    seq(|slots|, i requires 0 <= i < |slots| => slots[i].(cancelled := true))
  }

  function CancelRuns(s: State): State {
    s.(queued := false, slots := AllCancelled(s.slots))
  }

  /** An attempt that times out sets its own run's cancellation. */
  function CancelOne(s: State, id: nat): State {
    s.(slots := seq(|s.slots|, i requires 0 <= i < |s.slots| =>
      if s.slots[i].id == id then s.slots[i].(cancelled := true) else s.slots[i]))
  }

  function Launch(s: State, id: nat): State {
    s.(slots := seq(|s.slots|, i requires 0 <= i < |s.slots| =>
      if s.slots[i].id == id then s.slots[i].(launched := true) else s.slots[i]))
  }

  // ---------------------------------------------------------------------
  // The timer
  // ---------------------------------------------------------------------

  function CancelTimer(s: State): State {
    s.(live := s.live - (if s.timer.Some? then {s.timer.value} else {}), timer := None, nextRunAt := None)
  }

  /** A cron job's next occurrence: after the one that fired, or after `now` when that one is due already. */
  function CronNext(cron: Cron, now: Time, firedAt: Option<Time>): Time {
    if firedAt.Some? && cron(firedAt.value) > now then cron(firedAt.value) else cron(now)
  }

  function IntervalDue(interval: nat, lastRunAt: Option<Time>, now: Time, runNow: bool, afterFire: bool): Time {
    var due := (if lastRunAt.Some? && !afterFire then lastRunAt.value else now) + interval;
    if due < now || runNow then now else due
  }

  function NewTimer(s: State, at: Time): State {
    s.(nextRunAt := Some(at), timer := Some(s.nextTimer), live := s.live + {s.nextTimer}, nextTimer := s.nextTimer + 1)
  }

  /** `_schedule_next`. */
  function ScheduleNext(s: State, now: Time, runNow: bool, afterFire: bool, firedAt: Option<Time>): State {
    if !s.started then s
    else if s.options.schedule.Some? then NewTimer(s, CronNext(s.options.schedule.value, now, firedAt))
    else if s.options.interval.Some? then
      NewTimer(s, IntervalDue(s.options.interval.value, s.lastRunAt, now, runNow, afterFire))
    else s.(nextRunAt := None)
  }

  /** `_timer_fire` once its sleep is over: admit, launch, reschedule. */
  function Fire(s: State, timer: nat, now: Time): State {
    var woken := s.(live := s.live - {timer});
    if !s.started || !s.status.Active? then woken
    else ScheduleNext(Admit(woken, false, true).state, now, false, true, s.nextRunAt)
  }

  // ---------------------------------------------------------------------
  // Options
  // ---------------------------------------------------------------------

  /** A value given to `update_options`: accepted by its validation or not. */
  datatype Given<+T> = Invalid | Valid(value: T)

  datatype Changes = Changes(
    schedule: Option<Given<Cron>>,
    interval: Option<Given<nat>>,
    maxRetries: Option<int>,
    retryDelay: Option<Given<nat>>,
    strategy: Option<Given<Strategy>>,
    timeout: Option<Given<nat>>,
    policy: Option<Given<Policy>>,
    limit: Option<int>)

  /** Options on the way through the changes; `ok` is false once a value was refused. */
  datatype Progress = Progress(options: Options, ok: bool)

  function CheckFirst(o: Options, c: Changes): Progress {
    Progress(o, (c.limit.Some? ==> c.limit.value >= 1) && !(c.schedule.Some? && c.interval.Some?))
  }

  function SetSchedule(p: Progress, c: Changes): Progress {
    if !p.ok || c.schedule.None? then p
    else match c.schedule.value
      case Invalid => p.(ok := false)
      case Valid(cron) => p.(options := p.options.(schedule := Some(cron), interval := None))
  }

  function SetInterval(p: Progress, c: Changes): Progress {
    if !p.ok || c.interval.None? then p
    else match c.interval.value
      case Invalid => p.(ok := false)
      case Valid(every) => p.(options := p.options.(interval := Some(every), schedule := None))
  }

  function SetRetries(p: Progress, c: Changes): Progress {
    if !p.ok || c.maxRetries.None? then p else p.(options := p.options.(maxRetries := c.maxRetries.value))
  }

  function SetRetryDelay(p: Progress, c: Changes): Progress {
    if !p.ok || c.retryDelay.None? then p
    else match c.retryDelay.value
      case Invalid => p.(ok := false)
      case Valid(delay) => p.(options := p.options.(retryDelay := delay))
  }

  function SetStrategy(p: Progress, c: Changes): Progress {
    if !p.ok || c.strategy.None? then p
    else match c.strategy.value
      case Invalid => p.(ok := false)
      case Valid(strategy) => p.(options := p.options.(strategy := strategy))
  }

  function SetTimeout(p: Progress, c: Changes): Progress {
    if !p.ok || c.timeout.None? then p
    else match c.timeout.value
      case Invalid => p.(ok := false)
      case Valid(timeout) => p.(options := p.options.(timeout := Some(timeout)))
  }

  function SetPolicy(p: Progress, c: Changes): Progress {
    if !p.ok || c.policy.None? then p
    else match c.policy.value
      case Invalid => p.(ok := false)
      case Valid(policy) => p.(options := p.options.(policy := policy))
  }

  function ApplyChanges(o: Options, c: Changes): Progress {
    SetPolicy(SetTimeout(SetStrategy(SetRetryDelay(SetRetries(
      SetInterval(SetSchedule(CheckFirst(o, c), c), c), c), c), c), c), c)
  }

  /** `update_options`: a refused value keeps the changes made before it and reaches neither slots nor timer. */
  function Update(s: State, c: Changes, now: Time): State {
    var p := ApplyChanges(s.options, c);
    var changed := s.(options := p.options);
    if !p.ok then changed
    else
      var limited :=
        if c.limit.Some? then StartQueued(changed.(options := p.options.(limit := c.limit.value))) else changed;
      if limited.status.Active? then ScheduleNext(CancelTimer(limited), now, false, false, None) else limited
  }

  // ---------------------------------------------------------------------
  // Start and stop of the scheduler, for this job
  // ---------------------------------------------------------------------

  /** State saved by an earlier process. */
  datatype Saved = Saved(status: Status, lastRunAt: Option<Time>)

  function DueOnStart(o: Options, lastRunAt: Option<Time>, now: Time): bool {
    if o.schedule.Some? then lastRunAt.None? || o.schedule.value(lastRunAt.value) <= now
    else if o.interval.Some? then lastRunAt.None? || lastRunAt.value + o.interval.value <= now
    else true
  }

  function Restore(s: State, saved: Option<Saved>): State {
    if saved.None? then s
    else s.(lastRunAt := saved.value.lastRunAt, status := if s.options.enabled then saved.value.status else s.status)
  }

  function StartActive(s: State, now: Time): State {
    var runNow := s.options.runOnStart && DueOnStart(s.options, s.lastRunAt, now);
    if s.options.interval.Some? && s.options.schedule.None? then ScheduleNext(s, now, runNow, false, None)
    else
      var scheduled := ScheduleNext(s, now, false, false, None);
      if runNow then Admit(scheduled, false, true).state else scheduled
  }

  /** `start`, for this job: an interval job's timer runs it at once, any other is launched here. */
  function StartJob(s: State, saved: Option<Saved>, now: Time): State {
    var r := Restore(s.(started := true), saved);
    if r.status.Active? then StartActive(r, now) else r
  }

  /** The part of `stop` that concerns this job. */
  function StopJob(s: State): State {
    var c := CancelRuns(s);
    c.(live := c.live - (if c.timer.Some? then {c.timer.value} else {}))
  }

  // ---------------------------------------------------------------------
  // The machine
  // ---------------------------------------------------------------------

  datatype Event =
    | TimerFires(timer: nat, now: Time)
    | TriggerCalled
    | TriggerLaunches(id: nat)
    | RunEnded(id: nat)
    | AttemptTimedOut(id: nat)
    | AttemptEnded(id: nat, startedAt: Time)
    | PauseCalled
    | ResumeCalled(now: Time)
    | StopCalled
    | CancelCalled
    | OptionsUpdated(changes: Changes, now: Time)
    | SchedulerStarts(saved: Option<Saved>, now: Time)
    | SchedulerStopping
    | SchedulerStops

  function Next(s: State, e: Event): State {
    match e
    case TimerFires(timer, now) => Fire(s, timer, now)
    case TriggerCalled => Admit(s, true, false).state
    case TriggerLaunches(id) => Launch(s, id)
    case RunEnded(id) => Release(s, id)
    case AttemptTimedOut(id) => CancelOne(s, id)
    case AttemptEnded(_, startedAt) => s.(lastRunAt := Some(startedAt))
    case PauseCalled => if s.status.Paused? then s else CancelTimer(s.(status := Paused))
    case ResumeCalled(now) =>
      if !s.status.Paused? then s else ScheduleNext(s.(status := Active), now, false, false, None)
    case StopCalled => CancelRuns(CancelTimer(s.(status := Stopped)))
    case CancelCalled => if s.slots == [] && !s.queued then s else CancelRuns(s)
    case OptionsUpdated(changes, now) => Update(s, changes, now)
    case SchedulerStarts(saved, now) => StartJob(s, saved, now)
    case SchedulerStopping => s.(started := false)
    case SchedulerStops => StopJob(s)
  }

  ghost predicate HoldsSlot(s: State, id: nat, launched: bool) {
    exists i :: 0 <= i < |s.slots| && s.slots[i].id == id && s.slots[i].launched == launched
  }

  /** What the event loop can do in `s`.  The scheduler is started again only once its stop is complete. */
  ghost predicate Enabled(s: State, e: Event) {
    match e
    case TimerFires(timer, _) => timer in s.live
    case TriggerLaunches(id) => HoldsSlot(s, id, false)
    case RunEnded(id) => HoldsSlot(s, id, true)
    case AttemptTimedOut(id) => HoldsSlot(s, id, true)
    case AttemptEnded(id, _) => HoldsSlot(s, id, true)
    case SchedulerStarts(_, _) => !s.started && s.live == {}
    case SchedulerStops => !s.started
    case _ => true
  }

  /** Any interleaving of the events. */
  ghost predicate Legal(s: State, es: seq<Event>)
    decreases |es|
  {
    es == [] || (Enabled(s, es[0]) && Legal(Next(s, es[0]), es[1..]))
  }

  ghost function After(s: State, es: seq<Event>): State
    decreases |es|
  {
    if es == [] then s else After(Next(s, es[0]), es[1..])
  }

  /** A job just registered, before or after the scheduler was started. */
  ghost predicate Registered(s: State) {
    && s.options.limit >= 1
    && s.status == (if s.options.enabled then Active else Stopped)
    && s.slots == [] && !s.queued && s.nextId == 0
    && s.nextRunAt.None? && s.lastRunAt.None?
    && s.timer.None? && s.live == {} && s.nextTimer == 0
  }
}
