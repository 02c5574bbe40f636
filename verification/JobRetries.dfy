/**
 The coroutine of one run: its attempts, the delays between them, and the slot it
 gives back at the end.  At its awaits other sections of the same job happen:
 `Round` says what comes up during each, and what can happen then does.
 */
module JobRetries {
  import opened Wrappers
  import opened JobState
  import opened JobRegistration
  import opened JobEventLoop
  import opened JobRuns
  import opened JobSafety

  /** How `execute_async` came back. */
  datatype JobEnd = Returned | RaisedTimeout | RaisedCancelled | RaisedError

  datatype Ending = Completed | Failed | CancelledEnd | TimedOut

  /** The status of an attempt; a run cancelled by hand is never reported as timed out or completed. */
  function EndingOf(end: JobEnd, cancelled: bool): (e: Ending)
    ensures e.Completed? <==> end.Returned? && !cancelled
    ensures e.Failed? <==> end.RaisedError?
    ensures e.TimedOut? <==> end.RaisedTimeout? && !cancelled
    ensures e.CancelledEnd? <==> end.RaisedCancelled? || (cancelled && !end.RaisedError?)
  {
    match end
    case Returned => if cancelled then CancelledEnd else Completed
    case RaisedTimeout => if cancelled then CancelledEnd else TimedOut
    case RaisedCancelled => CancelledEnd
    case RaisedError => Failed
  }

  /**
   One round of the loop.  `running` comes up until the job comes back, `reporting`
   until its end is on record, `finishing` until the loop looks at it, `delaying`
   until the delay is over.  The store may fail to open or to save the attempt,
   which ends the run.
   */
  datatype Round = Round(
    startedAt: Time,
    begun: bool,
    end: JobEnd,
    recorded: bool,
    running: seq<Event>,
    reporting: seq<Event>,
    finishing: seq<Event>,
    delaying: seq<Event>)

  ghost predicate ComesUp(r: Round, e: Event) {
    e in r.running || e in r.reporting || e in r.finishing || e in r.delaying
  }

  function Pow2(k: nat): nat {
    if k == 0 then 1 else 2 * Pow2(k - 1)
  }

  /** `_retry_delay`. */
  function RetryDelay(base: nat, strategy: Strategy, attempt: nat): nat {
    match strategy
    case Fixed => base
    case Linear => base * (attempt + 1)
    case Exponential => base * Pow2(attempt)
  }

  // ---------------------------------------------------------------------
  // What one run does among the other sections of its job
  // ---------------------------------------------------------------------

  ghost predicate CancelSet(s: State, id: nat) {
    exists i :: 0 <= i < |s.slots| && s.slots[i].id == id && s.slots[i].cancelled
  }

  /** The events that only a run's own coroutine brings about. */
  predicate Own(e: Event, id: nat) {
    (e.RunEnded? || e.AttemptTimedOut? || e.AttemptEnded?) && e.id == id
  }

  /** Of the events that come up, in turn, those of others that can happen. */
  ghost function Happening(s: State, id: nat, events: seq<Event>): seq<Event>
    decreases |events|
  {
    if events == [] then []
    else if !Own(events[0], id) && Enabled(s, events[0]) then
      [events[0]] + Happening(Next(s, events[0]), id, events[1..])
    else Happening(s, id, events[1..])
  }

  /** What happens during an attempt and the delay after it, and whether the run goes on. */
  datatype Attempt = Attempt(es: seq<Event>, goesOn: bool, delay: nat)

  ghost function Timeout(s: State, id: nat, end: JobEnd): seq<Event> {
    if EndingOf(end, CancelSet(s, id)).TimedOut? then [AttemptTimedOut(id)] else []
  }

  /** Until the attempt is about to be put on record. */
  ghost function UntilSaved(s: State, id: nat, r: Round): seq<Event> {
    var es := Happening(s, id, r.running);
    if !r.begun then es
    else
      var out := es + Timeout(After(s, es), id, r.end);
      out + Happening(After(s, out), id, r.reporting)
  }

  /** Until the loop looks at the attempt: its start is the last run's from then on. */
  ghost function UntilChecked(s: State, id: nat, r: Round): seq<Event> {
    var es := UntilSaved(s, id, r) + [AttemptEnded(id, r.startedAt)];
    es + Happening(After(s, es), id, r.finishing)
  }

  /** Waiting for the cancellation with no time to wait times out even when it is set. */
  ghost function AttemptOf(s: State, id: nat, r: Round, n: nat): Attempt {
    if !r.begun || !r.recorded then Attempt(UntilSaved(s, id, r), false, 0)
    else
      var es := UntilChecked(s, id, r);
      var t := After(s, es);
      if !r.end.RaisedError? || n >= t.options.maxRetries || CancelSet(t, id) then Attempt(es, false, 0)
      else
        var all := es + Happening(t, id, r.delaying);
        var delay := RetryDelay(t.options.retryDelay, t.options.strategy, n);
        Attempt(all, delay == 0 || !CancelSet(After(s, all), id), delay)
  }

  /** What has happened when attempt `n` begins. */
  ghost function Trace(s: State, id: nat, rounds: nat -> Round, n: nat): seq<Event>
    decreases n, 0
  {
    if n == 0 then [] else Trace(s, id, rounds, n - 1) + AttemptAt(s, id, rounds, n - 1).es
  }

  ghost function AttemptAt(s: State, id: nat, rounds: nat -> Round, n: nat): Attempt
    decreases n, 1
  {
    AttemptOf(After(s, Trace(s, id, rounds, n)), id, rounds(n), n)
  }

  /** A run with so many attempts, all that happens until it ends, and its completed delays. */
  ghost predicate RunOf(s: State, id: nat, rounds: nat -> Round, attempts: nat, es: seq<Event>, delays: seq<nat>) {
    && attempts >= 1
    && (forall n: nat :: n < attempts - 1 ==> AttemptAt(s, id, rounds, n).goesOn)
    && !AttemptAt(s, id, rounds, attempts - 1).goesOn
    && es == Trace(s, id, rounds, attempts)
    && |delays| == attempts - 1
    && (forall n: nat :: n < attempts - 1 ==> delays[n] == AttemptAt(s, id, rounds, n).delay)
  }

  // ---------------------------------------------------------------------
  // The run keeps its slot
  // ---------------------------------------------------------------------

  lemma {:induction false} LegalMore(s: State, es: seq<Event>, more: seq<Event>)
    ensures After(s, es + more) == After(After(s, es), more)
    ensures Legal(s, es + more) <==> Legal(s, es) && Legal(After(s, es), more)
    decreases |es|
  {
    hide Next, Enabled;
    if es == [] {
      assert es + more == more;
    } else {
      assert (es + more)[1..] == es[1..] + more;
      LegalMore(Next(s, es[0]), es[1..], more);
    }
  }

  /** Slots stay where they are, and launched ones stay launched. */
  ghost predicate SlotsStay(s: State, t: State) {
    && |s.slots| <= |t.slots|
    && forall i :: 0 <= i < |s.slots| ==>
         t.slots[i].id == s.slots[i].id && (s.slots[i].launched ==> t.slots[i].launched)
  }

  lemma AdmitKeepsSlotsInPlace(s: State, manual: bool, launched: bool)
    ensures SlotsStay(s, Admit(s, manual, launched).state)
  {
  }

  lemma StepKeepsSlotsInPlace(s: State, e: Event)
    requires !e.RunEnded?
    ensures SlotsStay(s, Next(s, e))
  {
    hide ScheduleNext, Admit, DueOnStart, ApplyChanges;
    match e {
      case TimerFires(timer, now) =>
        var woken := s.(live := s.live - {timer});
        AdmitKeepsSlotsInPlace(woken, false, true);
        TimersLeaveSlots(Admit(woken, false, true).state, now, false, true, s.nextRunAt);
      case ResumeCalled(now) => TimersLeaveSlots(s.(status := Active), now, false, false, None);
      case OptionsUpdated(c, now) =>
        var changed := s.(options := ApplyChanges(s.options, c).options);
        var raised := changed.(options := changed.options.(limit := if c.limit.Some? then c.limit.value else 1));
        var limited := if c.limit.Some? then StartQueued(raised) else changed;
        TimersLeaveSlots(CancelTimer(limited), now, false, false, None);
      case SchedulerStarts(saved, now) =>
        var r := Restore(s.(started := true), saved);
        TimersLeaveSlots(r, now, true, false, None);
        TimersLeaveSlots(r, now, false, false, None);
        AdmitKeepsSlotsInPlace(ScheduleNext(r, now, false, false, None), false, true);
      case TriggerCalled => AdmitKeepsSlotsInPlace(s, true, false);
      case _ =>
    }
  }

  lemma StepKeepsRun(s: State, e: Event, id: nat)
    requires HoldsSlot(s, id, true) && e != RunEnded(id)
    ensures HoldsSlot(Next(s, e), id, true)
  {
    hide Next;
    var i :| 0 <= i < |s.slots| && s.slots[i].id == id && s.slots[i].launched;
    if e.RunEnded? {
      EndOfAnother(s, e.id, i);
    } else {
      StepKeepsSlotsInPlace(s, e);
      assert Next(s, e).slots[i].id == id;
    }
  }

  lemma EndOfAnother(s: State, ended: nat, i: nat)
    requires i < |s.slots| && s.slots[i].id != ended && s.slots[i].launched
    ensures HoldsSlot(Next(s, RunEnded(ended)), s.slots[i].id, true)
  {
    var left := Without(s.slots, ended);
    WithoutMembers(s.slots, ended);
    assert s.slots[i] in left;
    var k :| 0 <= k < |left| && left[k] == s.slots[i];
    assert Release(s, ended).slots[k] == left[k];
  }

  ghost predicate RetriesAtMost(e: Event, bound: int) {
    e.OptionsUpdated? && e.changes.maxRetries.Some? ==> e.changes.maxRetries.value <= bound
  }

  /** Only an update changes the options. */
  lemma StepKeepsOptions(s: State, e: Event, bound: int)
    requires s.options.maxRetries <= bound && RetriesAtMost(e, bound)
    ensures Next(s, e).options.maxRetries <= bound
    ensures !e.OptionsUpdated? ==> Next(s, e).options == s.options
  {
    hide ScheduleNext, ApplyChanges;
    match e {
      case TimerFires(timer, now) =>
        var woken := s.(live := s.live - {timer});
        TimersLeaveSlots(Admit(woken, false, true).state, now, false, true, s.nextRunAt);
      case ResumeCalled(now) => TimersLeaveSlots(s.(status := Active), now, false, false, None);
      case OptionsUpdated(c, now) =>
        UpdateAppliesRetries(s.options, c);
        var changed := s.(options := ApplyChanges(s.options, c).options);
        var raised := changed.(options := changed.options.(limit := if c.limit.Some? then c.limit.value else 1));
        var limited := if c.limit.Some? then StartQueued(raised) else changed;
        TimersLeaveSlots(CancelTimer(limited), now, false, false, None);
      case SchedulerStarts(saved, now) =>
        var r := Restore(s.(started := true), saved);
        TimersLeaveSlots(r, now, true, false, None);
        TimersLeaveSlots(r, now, false, false, None);
      case _ =>
    }
  }

  lemma UpdateAppliesRetries(o: Options, c: Changes)
    ensures var n := ApplyChanges(o, c).options.maxRetries;
      n == o.maxRetries || (c.maxRetries.Some? && n == c.maxRetries.value)
  {
  }

  function Retries(maxRetries: int): nat {
    if maxRetries > 0 then maxRetries else 0
  }

  // ---------------------------------------------------------------------
  // The coroutine
  // ---------------------------------------------------------------------

  /** The run as its coroutine knows it: in the list, launched, and its event is that of its slot. */
  ghost predicate Runs(reg: Registration, run: JobRun)
    reads reg, reg.runs, reg.tasks
  {
    reg.Valid() && run in reg.runs && HoldsSlot(reg.View(), run.id, true)
  }

  lemma EventIsSlots(reg: Registration, run: JobRun)
    requires Runs(reg, run)
    ensures run.cancelled == CancelSet(reg.View(), run.id)
  {
    var k :| 0 <= k < |reg.runs| && reg.runs[k] == run;
    assert reg.View().slots[k] == Slot(run.id, run.cancelled, run.launched);
    assert forall i :: 0 <= i < |reg.runs| && reg.runs[i].id == run.id ==> i == k;
  }

  /** Since `s`, exactly `es` has happened, and the run still holds its slot. */
  ghost predicate Along(reg: Registration, run: JobRun, s: State, es: seq<Event>, bound: int)
    reads reg, reg.runs, reg.tasks
  {
    && Runs(reg, run) && reg.options.maxRetries <= bound
    && Legal(s, es) && reg.View() == After(s, es) && RunEnded(run.id) !in es
  }

  /** One more event that is not the end of the run. */
  method Step(reg: Registration, run: JobRun, e: Event, ghost s: State, ghost es: seq<Event>, ghost bound: int)
    requires Along(reg, run, s, es, bound) && RetriesAtMost(e, bound)
    requires Enabled(reg.View(), e) && e != RunEnded(run.id)
    modifies reg, reg.Parts()
    ensures Along(reg, run, s, es + [e], bound) && fresh(reg.Parts() - old(reg.Parts()))
    ensures reg.View() == Next(old(reg.View()), e)
  {
    hide Next, Enabled, HoldsSlot, Legal, After;
    ghost var now := reg.View();
    Perform(reg, e);
    StepKeepsRun(now, e, run.id);
    StepKeepsOptions(now, e, bound);
    OneMore(s, es, e);
  }

  /** An await: what comes up and can happen does. */
  method LetHappen(reg: Registration, run: JobRun, events: seq<Event>, ghost s: State, ghost es: seq<Event>,
                   ghost bound: int)
    returns (ghost more: seq<Event>)
    requires Along(reg, run, s, es, bound) && forall e :: e in events ==> RetriesAtMost(e, bound)
    modifies reg, reg.Parts()
    ensures Along(reg, run, s, more, bound) && fresh(reg.Parts() - old(reg.Parts()))
    ensures more == es + Happening(After(s, es), run.id, events)
  {
    hide Next, Enabled, HoldsSlot, Happening;
    more := es;
    assert events[0..] == events;
    for n := 0 to |events|
      invariant Along(reg, run, s, more, bound) && fresh(reg.Parts() - old(reg.Parts()))
      invariant es + Happening(After(s, es), run.id, events) == more + Happening(reg.View(), run.id, events[n..])
    {
      HappeningNext(reg.View(), run.id, events, n, more);
      var can := CanHappen(reg, events[n]);
      if can && !Own(events[n], run.id) {
        Step(reg, run, events[n], s, more, bound);
        more := more + [events[n]];
      }
    }
    NothingHappens(reg.View(), run.id, events[|events|..], more);
  }

  lemma NothingHappens(s: State, id: nat, events: seq<Event>, es: seq<Event>)
    requires events == []
    ensures es + Happening(s, id, events) == es
  {
  }

  lemma HappeningNext(s: State, id: nat, events: seq<Event>, n: nat, es: seq<Event>)
    requires n < |events|
    ensures es + Happening(s, id, events[n..]) ==
      if !Own(events[n], id) && Enabled(s, events[n])
      then es + [events[n]] + Happening(Next(s, events[n]), id, events[n + 1..])
      else es + Happening(s, id, events[n + 1..])
  {
    hide Next, Enabled;
    assert events[n..][0] == events[n] && events[n..][1..] == events[n + 1..];
  }

  lemma OneMore(s: State, es: seq<Event>, e: Event)
    requires Legal(s, es) && Enabled(After(s, es), e)
    ensures Legal(s, es + [e]) && After(s, es + [e]) == Next(After(s, es), e)
  {
    hide Next, Enabled;
    LegalMore(s, es, [e]);
    assert [e][1..] == [];
  }

  ghost predicate RetriesBounded(rounds: nat -> Round, bound: int) {
    forall n: nat, e: Event :: ComesUp(rounds(n), e) ==> RetriesAtMost(e, bound)
  }

  /** The end of the job: its status, and the cancellation that a timeout sets. */
  method Decide(reg: Registration, run: JobRun, end: JobEnd, ghost s: State, ghost es: seq<Event>, ghost bound: int)
    returns (ending: Ending, ghost more: seq<Event>)
    requires Along(reg, run, s, es, bound)
    modifies reg, reg.Parts()
    ensures Along(reg, run, s, more, bound) && fresh(reg.Parts() - old(reg.Parts()))
    ensures ending == EndingOf(end, CancelSet(After(s, es), run.id))
    ensures more == es + Timeout(After(s, es), run.id, end)
  {
    hide Next, HoldsSlot, Legal, After;
    EventIsSlots(reg, run);
    ending := EndingOf(end, run.cancelled);
    more := es;
    if ending == TimedOut {
      Step(reg, run, AttemptTimedOut(run.id), s, es, bound);
      more := es + [AttemptTimedOut(run.id)];
    }
  }

  /** `_execute_attempt` until the attempt is on record; `done` is false when the store failed. */
  method Execute(reg: Registration, run: JobRun, r: Round, ghost bound: int)
    returns (ending: Ending, done: bool, ghost es: seq<Event>)
    requires Runs(reg, run) && reg.options.maxRetries <= bound
    requires forall e :: ComesUp(r, e) ==> RetriesAtMost(e, bound)
    modifies reg, reg.Parts()
    ensures Along(reg, run, old(reg.View()), es, bound) && fresh(reg.Parts() - old(reg.Parts()))
    ensures done == (r.begun && r.recorded)
    ensures var until := UntilSaved(old(reg.View()), run.id, r);
      es == if done then until + [AttemptEnded(run.id, r.startedAt)] else until
    ensures r.begun ==>
      var cancelled := CancelSet(After(old(reg.View()), Happening(old(reg.View()), run.id, r.running)), run.id);
      && (ending.Completed? <==> r.end.Returned? && !cancelled)
      && (ending.Failed? <==> r.end.RaisedError?)
      && (ending.TimedOut? <==> r.end.RaisedTimeout? && !cancelled)
      && (ending.CancelledEnd? <==> r.end.RaisedCancelled? || (cancelled && !r.end.RaisedError?))
  {
    hide Next, HoldsSlot, Happening, Legal, After, CancelSet, EndingOf;
    ghost var s := reg.View();
    NothingYet(s);
    es := LetHappen(reg, run, r.running, s, [], bound);
    ending, done := Completed, false;
    if !r.begun {
      return;
    }
    ending, es := Decide(reg, run, r.end, s, es, bound);
    assert fresh(reg.Parts() - old(reg.Parts()));
    es := LetHappen(reg, run, r.reporting, s, es, bound);
    assert fresh(reg.Parts() - old(reg.Parts()));
    if !r.recorded {
      return;
    }
    Step(reg, run, AttemptEnded(run.id, r.startedAt), s, es, bound);
    es := es + [AttemptEnded(run.id, r.startedAt)];
    done := true;
  }

  lemma NothingYet(s: State)
    ensures Legal(s, []) && After(s, []) == s
    ensures forall es: seq<Event> :: [] + es == es
  {
  }

  /** One round of the loop, up to the end of the delay. */
  method PerformAttempt(reg: Registration, run: JobRun, r: Round, n: nat, ghost bound: int)
    returns (goesOn: bool, delay: nat, ghost es: seq<Event>)
    requires Runs(reg, run) && reg.options.maxRetries <= bound
    requires forall e :: ComesUp(r, e) ==> RetriesAtMost(e, bound)
    modifies reg, reg.Parts()
    ensures Along(reg, run, old(reg.View()), es, bound) && fresh(reg.Parts() - old(reg.Parts()))
    ensures Attempt(es, goesOn, delay) == AttemptOf(old(reg.View()), run.id, r, n)
    ensures goesOn ==> n < bound
  {
    hide Next, HoldsSlot, Happening, Legal, After, UntilSaved;
    ghost var s := reg.View();
    goesOn, delay := false, 0;
    var ending, done;
    ending, done, es := Execute(reg, run, r, bound);
    if !done {
      return;
    }
    es := LetHappen(reg, run, r.finishing, s, es, bound);
    assert fresh(reg.Parts() - old(reg.Parts()));
    EventIsSlots(reg, run);
    if ending != Failed || n >= reg.options.maxRetries || run.cancelled {
      return;
    }
    delay := RetryDelay(reg.options.retryDelay, reg.options.strategy, n);
    es := LetHappen(reg, run, r.delaying, s, es, bound);
    EventIsSlots(reg, run);
    goesOn := delay == 0 || !run.cancelled;
  }

  /**
   `_run`.  Whatever else happens to the job meanwhile, the run holds its slot
   through all attempts and delays, and ends by giving it back, once.  It does end
   when the limits that updates may set are bounded.
   */
  method Run(reg: Registration, run: JobRun, rounds: nat -> Round, ghost bound: int)
    returns (attempts: nat, delays: seq<nat>, ghost es: seq<Event>)
    requires Runs(reg, run) && reg.options.maxRetries <= bound && RetriesBounded(rounds, bound)
    modifies reg, reg.Parts()
    ensures RunOf(old(reg.View()), run.id, rounds, attempts, es, delays)
    ensures Legal(old(reg.View()), es + [RunEnded(run.id)]) && RunEnded(run.id) !in es
    ensures TimesEnded(es + [RunEnded(run.id)], run.id) == 1
    ensures reg.Valid() && reg.View() == After(old(reg.View()), es + [RunEnded(run.id)])
  {
    hide Next, HoldsSlot, Legal, After, AttemptOf, SoFar, RunOf, TimesEnded;
    ghost var s := reg.View();
    NothingYet(s);
    delays, es := [], [];
    var goesOn := true;
    attempts := 0;
    NoneSoFar(s, run.id, rounds);
    while goesOn
      invariant Along(reg, run, s, es, bound) && fresh(reg.Parts() - old(reg.Parts()))
      invariant SoFar(s, run.id, rounds, attempts, goesOn, es, delays)
      invariant goesOn ==> attempts <= Retries(bound)
      decreases goesOn, Retries(bound) - attempts
    {
      var delay;
      ghost var more;
      goesOn, delay, more := PerformAttempt(reg, run, rounds(attempts), attempts, bound);
      LegalMore(s, es, more);
      OneMoreAttempt(s, run.id, rounds, attempts, es, delays, Attempt(more, goesOn, delay));
      if goesOn {
        delays := delays + [delay];
      }
      es := es + more;
      attempts := attempts + 1;
    }
    AllAttempts(s, run.id, rounds, attempts, es, delays);
    EndedOnce(es, run.id);
    End(reg, run, s, es, bound);
  }

  /** The attempts made so far, of which only the last may not go on. */
  ghost predicate SoFar(s: State, id: nat, rounds: nat -> Round, attempts: nat, goesOn: bool, es: seq<Event>,
                        delays: seq<nat>)
  {
    && es == Trace(s, id, rounds, attempts)
    && (attempts == 0 ==> goesOn) && |delays| == (if goesOn then attempts else attempts - 1)
    && (forall n: nat :: n < |delays| ==>
          AttemptAt(s, id, rounds, n).goesOn && delays[n] == AttemptAt(s, id, rounds, n).delay)
    && (!goesOn ==> !AttemptAt(s, id, rounds, attempts - 1).goesOn)
  }

  lemma NoneSoFar(s: State, id: nat, rounds: nat -> Round)
    ensures SoFar(s, id, rounds, 0, true, [], [])
  {
  }

  lemma OneMoreAttempt(s: State, id: nat, rounds: nat -> Round, attempts: nat, es: seq<Event>, delays: seq<nat>,
                       a: Attempt)
    requires SoFar(s, id, rounds, attempts, true, es, delays)
    requires a == AttemptOf(After(s, es), id, rounds(attempts), attempts)
    ensures SoFar(s, id, rounds, attempts + 1, a.goesOn, es + a.es, if a.goesOn then delays + [a.delay] else delays)
  {
    hide AttemptOf, After;
    assert AttemptAt(s, id, rounds, attempts) == a;
  }

  lemma AllAttempts(s: State, id: nat, rounds: nat -> Round, attempts: nat, es: seq<Event>, delays: seq<nat>)
    requires SoFar(s, id, rounds, attempts, false, es, delays)
    ensures RunOf(s, id, rounds, attempts, es, delays)
  {
    hide AttemptAt, Trace;
  }

  lemma {:induction false} EndedOnce(es: seq<Event>, id: nat)
    requires RunEnded(id) !in es
    ensures TimesEnded(es + [RunEnded(id)], id) == 1
  {
    if es == [] {
      assert TimesEnded([], id) == 0;
    } else {
      EndedOnce(es[1..], id);
      assert (es + [RunEnded(id)])[1..] == es[1..] + [RunEnded(id)];
    }
  }

  /** The slot goes back. */
  method End(reg: Registration, run: JobRun, ghost s: State, ghost es: seq<Event>, ghost bound: int)
    requires Along(reg, run, s, es, bound)
    modifies reg, reg.Parts()
    ensures Legal(s, es + [RunEnded(run.id)])
    ensures reg.Valid() && reg.View() == After(s, es + [RunEnded(run.id)])
  {
    hide Legal, After;
    OneMore(s, es, RunEnded(run.id));
    ReleaseRun(reg, run);
  }

  // ---------------------------------------------------------------------
  // What every run keeps to
  // ---------------------------------------------------------------------

  /** No update that comes up changes how the job retries. */
  ghost predicate KeepsRetries(e: Event) {
    e.OptionsUpdated? ==> e.changes.maxRetries.None? && e.changes.retryDelay.None? && e.changes.strategy.None?
  }

  ghost predicate SameRetries(s: State, t: State) {
    && t.options.maxRetries == s.options.maxRetries
    && t.options.retryDelay == s.options.retryDelay && t.options.strategy == s.options.strategy
  }

  lemma StepKeepsRetries(s: State, e: Event)
    requires KeepsRetries(e)
    ensures SameRetries(s, Next(s, e))
  {
    hide ApplyChanges, ScheduleNext;
    if e.OptionsUpdated? {
      var c := e.changes;
      UpdateKeepsRetries(s.options, c);
      var changed := s.(options := ApplyChanges(s.options, c).options);
      var raised := changed.(options := changed.options.(limit := if c.limit.Some? then c.limit.value else 1));
      var limited := if c.limit.Some? then StartQueued(raised) else changed;
      TimersLeaveSlots(CancelTimer(limited), e.now, false, false, None);
    } else {
      hide Next;
      StepKeepsOptions(s, e, s.options.maxRetries);
    }
  }

  lemma UpdateKeepsRetries(o: Options, c: Changes)
    requires c.maxRetries.None? && c.retryDelay.None? && c.strategy.None?
    ensures var p := ApplyChanges(o, c).options;
      p.maxRetries == o.maxRetries && p.retryDelay == o.retryDelay && p.strategy == o.strategy
  {
  }

  lemma {:induction false} AfterKeepsRetries(s: State, es: seq<Event>)
    requires forall e :: e in es ==> KeepsRetries(e)
    ensures SameRetries(s, After(s, es))
    decreases |es|
  {
    hide Next, KeepsRetries;
    if es != [] {
      StepKeepsRetries(s, es[0]);
      AfterKeepsRetries(Next(s, es[0]), es[1..]);
    }
  }

  lemma {:induction false} HappensOfThese(s: State, id: nat, events: seq<Event>)
    ensures forall e :: e in Happening(s, id, events) ==> e in events && !Own(e, id)
    decreases |events|
  {
    hide Next, Enabled;
    if events != [] {
      HappensOfThese(Next(s, events[0]), id, events[1..]);
      HappensOfThese(s, id, events[1..]);
    }
  }

  /** All that happens during an attempt has come up, but for its own two events. */
  lemma AttemptHappens(s: State, id: nat, r: Round, n: nat)
    ensures forall e :: e in UntilSaved(s, id, r) ==> ComesUp(r, e) || e == AttemptTimedOut(id)
    ensures forall e :: e in AttemptOf(s, id, r, n).es ==>
      ComesUp(r, e) || e == AttemptTimedOut(id) || e == AttemptEnded(id, r.startedAt)
  {
    hide Happening, After, CancelSet;
    var es := Happening(s, id, r.running);
    HappensOfThese(s, id, r.running);
    var out := es + Timeout(After(s, es), id, r.end);
    HappensOfThese(After(s, out), id, r.reporting);
    var saved := UntilSaved(s, id, r) + [AttemptEnded(id, r.startedAt)];
    HappensOfThese(After(s, saved), id, r.finishing);
    var checked := UntilChecked(s, id, r);
    HappensOfThese(After(s, checked), id, r.delaying);
  }

  /** An attempt sets its own run's cancellation exactly when its time is over before anybody has cancelled it. */
  lemma TimesOutExactly(s: State, id: nat, r: Round, n: nat)
    ensures AttemptTimedOut(id) in AttemptOf(s, id, r, n).es <==>
      r.begun && r.end.RaisedTimeout? && !CancelSet(After(s, Happening(s, id, r.running)), id)
  {
    hide Happening, After, CancelSet;
    SavedTimesOut(s, id, r);
    if r.begun && r.recorded {
      var es := UntilSaved(s, id, r) + [AttemptEnded(id, r.startedAt)];
      HappensOfThese(After(s, es), id, r.finishing);
      HappensOfThese(After(s, UntilChecked(s, id, r)), id, r.delaying);
    }
  }

  lemma SavedTimesOut(s: State, id: nat, r: Round)
    ensures AttemptTimedOut(id) in UntilSaved(s, id, r) <==>
      r.begun && r.end.RaisedTimeout? && !CancelSet(After(s, Happening(s, id, r.running)), id)
  {
    hide Happening, After, CancelSet;
    var es := Happening(s, id, r.running);
    HappensOfThese(s, id, r.running);
    if r.begun {
      var out := es + Timeout(After(s, es), id, r.end);
      HappensOfThese(After(s, out), id, r.reporting);
    }
  }

  ghost predicate RetriesStay(r: Round) {
    forall e :: ComesUp(r, e) ==> KeepsRetries(e)
  }

  /** The attempt is on record as failed. */
  predicate FailedBy(r: Round) {
    r.begun && r.recorded && r.end.RaisedError?
  }

  /**
   Under options that stay, a run goes on if and only if its attempt is on record as
   failed, retries are left, nobody had cancelled it when the loop looked, and, unless
   there is no delay to wait, nobody has at the end of the delay.
   */
  lemma GoesOnExactly(s: State, id: nat, r: Round, n: nat)
    requires RetriesStay(r)
    ensures var a := AttemptOf(s, id, r, n);
      && SameRetries(s, After(s, a.es))
      && (a.goesOn <==>
            && FailedBy(r) && n < s.options.maxRetries
            && !CancelSet(After(s, UntilChecked(s, id, r)), id)
            && (s.options.retryDelay == 0 || !CancelSet(After(s, a.es), id)))
      && (a.goesOn ==> a.delay == RetryDelay(s.options.retryDelay, s.options.strategy, n))
  {
    hide Happening, After, CancelSet, UntilSaved, KeepsRetries, RetryDelay;
    AttemptHappens(s, id, r, n);
    OwnEventsKeepRetries(id, r.startedAt);
    AfterKeepsRetries(s, AttemptOf(s, id, r, n).es);
    NoDelayExactly(s.options.retryDelay, s.options.strategy, n);
    if r.begun && r.recorded {
      assert forall e :: e in UntilChecked(s, id, r) ==> KeepsRetries(e) by {
        CheckedHappens(s, id, r);
      }
      AfterKeepsRetries(s, UntilChecked(s, id, r));
    }
  }

  lemma NoDelayExactly(base: nat, strategy: Strategy, n: nat)
    ensures RetryDelay(base, strategy, n) == 0 <==> base == 0
  {
    Pow2IsPositive(n);
    if base > 0 {
      ProductIsPositive(base, n + 1);
      ProductIsPositive(base, Pow2(n));
    }
  }

  lemma {:induction false} Pow2IsPositive(k: nat)
    ensures Pow2(k) > 0
  {
    if k > 0 {
      Pow2IsPositive(k - 1);
    }
  }

  lemma ProductIsPositive(a: nat, b: nat)
    requires a > 0 && b > 0
    ensures a * b > 0
  {
  }

  lemma OwnEventsKeepRetries(id: nat, startedAt: Time)
    ensures KeepsRetries(AttemptTimedOut(id)) && KeepsRetries(AttemptEnded(id, startedAt))
  {
  }

  lemma CheckedHappens(s: State, id: nat, r: Round)
    ensures forall e :: e in UntilChecked(s, id, r) ==>
      ComesUp(r, e) || e == AttemptTimedOut(id) || e == AttemptEnded(id, r.startedAt)
  {
    hide Happening, After, UntilSaved;
    AttemptHappens(s, id, r, 0);
    HappensOfThese(After(s, UntilSaved(s, id, r) + [AttemptEnded(id, r.startedAt)]), id, r.finishing);
  }

  /** The state in which attempt `n` begins, and the one in which the loop looks at it. */
  ghost function StateAt(s: State, id: nat, rounds: nat -> Round, n: nat): State {
    After(s, Trace(s, id, rounds, n))
  }

  ghost function CheckedAt(s: State, id: nat, rounds: nat -> Round, n: nat): State {
    var t := StateAt(s, id, rounds, n);
    After(t, UntilChecked(t, id, rounds(n)))
  }

  /** What would make the run go on after attempt `n` if a retry is left. */
  ghost predicate Retryable(s: State, id: nat, rounds: nat -> Round, n: nat) {
    && FailedBy(rounds(n)) && !CancelSet(CheckedAt(s, id, rounds, n), id)
    && (s.options.retryDelay == 0 || !CancelSet(StateAt(s, id, rounds, n + 1), id))
  }

  ghost predicate AllRetriesStay(rounds: nat -> Round) {
    forall k: nat :: RetriesStay(rounds(k))
  }

  lemma {:induction false} AttemptsGoOn(s: State, id: nat, rounds: nat -> Round, n: nat)
    requires AllRetriesStay(rounds)
    ensures SameRetries(s, StateAt(s, id, rounds, n))
    ensures var a := AttemptAt(s, id, rounds, n);
      && (a.goesOn <==> n < s.options.maxRetries && Retryable(s, id, rounds, n))
      && (a.goesOn ==> a.delay == RetryDelay(s.options.retryDelay, s.options.strategy, n))
  {
    hide After, AttemptOf, CancelSet, RetryDelay, RetriesStay, UntilChecked;
    assert RetriesStay(rounds(n));
    if n == 0 {
      NothingYet(s);
    } else {
      assert RetriesStay(rounds(n - 1));
      AttemptsGoOn(s, id, rounds, n - 1);
      GoesOnExactly(StateAt(s, id, rounds, n - 1), id, rounds(n - 1), n - 1);
      LegalMore(s, Trace(s, id, rounds, n - 1), AttemptAt(s, id, rounds, n - 1).es);
    }
    GoesOnExactly(StateAt(s, id, rounds, n), id, rounds(n), n);
    LegalMore(s, Trace(s, id, rounds, n), AttemptAt(s, id, rounds, n).es);
  }

  /**
   Under options that stay, a run makes at most max_retries + 1 attempts, and exactly
   that many if and only if each of them before the last may be retried: it failed and
   was not cancelled when the loop looked at it, nor, but for a zero delay, after it.
   */
  lemma AttemptsAreBounded(s: State, id: nat, rounds: nat -> Round, attempts: nat, es: seq<Event>, delays: seq<nat>)
    requires RunOf(s, id, rounds, attempts, es, delays) && AllRetriesStay(rounds)
    ensures var most := Retries(s.options.maxRetries) + 1;
      attempts <= most && (attempts == most <==> forall n: nat :: n < most - 1 ==> Retryable(s, id, rounds, n))
    ensures forall n: nat :: n < attempts - 1 ==> Retryable(s, id, rounds, n)
  {
    hide AttemptAt, Trace, StateAt, CheckedAt, CancelSet, AllRetriesStay, Retryable;
    forall n: nat | n < attempts {
      AttemptsGoOn(s, id, rounds, n);
    }
    if attempts >= 2 {
      assert AttemptAt(s, id, rounds, attempts - 2).goesOn;
    }
    var most := Retries(s.options.maxRetries) + 1;
    assert !AttemptAt(s, id, rounds, attempts - 1).goesOn;
    if attempts == most {
      forall n: nat | n < most - 1 ensures Retryable(s, id, rounds, n) {
        assert AttemptAt(s, id, rounds, n).goesOn;
      }
    } else {
      assert !Retryable(s, id, rounds, attempts - 1);
    }
  }

  // ---------------------------------------------------------------------
  // Retries of a cancelled run
  // ---------------------------------------------------------------------

  /** The section admits a due run. */
  predicate Admits(s: State, e: Event) {
    match e
    case TriggerCalled => true
    case TimerFires(_, _) => s.started && s.status.Active?
    case SchedulerStarts(saved, now) =>
      var r := Restore(s.(started := true), saved);
      && r.status.Active? && (r.options.schedule.Some? || r.options.interval.None?)
      && r.options.runOnStart && DueOnStart(r.options, r.lastRunAt, now)
    case _ => false
  }

  /** The section sets a run's cancellation: a cancel or stop, its timeout, or a due run that overlaps the oldest. */
  predicate Cancels(s: State, e: Event, id: nat) {
    || Drops(e) || e == AttemptTimedOut(id)
    || (Admits(s, e) && OverlapCancels(s) && s.slots[0].id == id)
  }

  predicate OverlapCancels(s: State) {
    s.options.policy == Cancel && !s.queued && s.slots != [] && |s.slots| >= s.options.limit
  }

  lemma AdmitCancels(s: State, manual: bool, launched: bool, id: nat)
    requires HoldsSlot(s, id, true) && Ordered(s.slots, s.nextId)
    ensures CancelSet(Admit(s, manual, launched).state, id) <==>
      CancelSet(s, id) || (OverlapCancels(s) && s.slots[0].id == id)
  {
    var t := Admit(s, manual, launched).state;
    var i :| 0 <= i < |s.slots| && s.slots[i].id == id;
    if CancelSet(s, id) {
      var k :| 0 <= k < |s.slots| && s.slots[k].id == id && s.slots[k].cancelled;
      assert t.slots[k].id == id && t.slots[k].cancelled;
    }
    if OverlapCancels(s) && s.slots[0].id == id {
      assert t.slots[0].id == id && t.slots[0].cancelled;
    }
  }

  lemma StartQueuedCancels(s: State, id: nat)
    requires id < s.nextId
    ensures CancelSet(StartQueued(s), id) <==> CancelSet(s, id)
  {
    var t := StartQueued(s);
    if CancelSet(s, id) {
      var k :| 0 <= k < |s.slots| && s.slots[k].id == id && s.slots[k].cancelled;
      assert t.slots[k].id == id && t.slots[k].cancelled;
    }
  }

  lemma EndCancels(s: State, ended: nat, id: nat)
    requires id < s.nextId && ended != id
    ensures CancelSet(Release(s, ended), id) <==> CancelSet(s, id)
  {
    var left := s.(slots := Without(s.slots, ended));
    WithoutMembers(s.slots, ended);
    StartQueuedCancels(left, id);
    if CancelSet(s, id) {
      var k :| 0 <= k < |s.slots| && s.slots[k].id == id && s.slots[k].cancelled;
      assert s.slots[k] in left.slots;
    }
    if CancelSet(left, id) {
      var k :| 0 <= k < |left.slots| && left.slots[k].id == id && left.slots[k].cancelled;
      assert left.slots[k] in s.slots;
    }
  }

  lemma MarkCancels(s: State, t: State, id: nat, sets: bool)
    requires HoldsSlot(s, id, true) && |t.slots| == |s.slots|
    requires forall i :: 0 <= i < |s.slots| ==>
      && t.slots[i].id == s.slots[i].id
      && (s.slots[i].id == id ==> (t.slots[i].cancelled <==> s.slots[i].cancelled || sets))
    ensures CancelSet(t, id) <==> CancelSet(s, id) || sets
  {
    var i :| 0 <= i < |s.slots| && s.slots[i].id == id;
    if CancelSet(s, id) || sets {
      if sets {
        assert t.slots[i].cancelled;
      } else {
        var k :| 0 <= k < |s.slots| && s.slots[k].id == id && s.slots[k].cancelled;
        assert t.slots[k].id == id && t.slots[k].cancelled;
      }
    }
  }

  lemma NoAdmission(s: State, e: Event)
    ensures Admits(s, e) ==> e.TriggerCalled? || e.TimerFires? || e.SchedulerStarts?
    ensures e.TriggerCalled? ==> Admits(s, e)
  {
  }

  lemma FireCancels(s: State, timer: nat, now: Time, id: nat)
    requires HoldsSlot(s, id, true) && Ordered(s.slots, s.nextId)
    ensures CancelSet(Fire(s, timer, now), id) <==> CancelSet(s, id) || Cancels(s, TimerFires(timer, now), id)
  {
    hide ScheduleNext, Admit, CancelSet, OverlapCancels;
    var woken := s.(live := s.live - {timer});
    SlotsDecide(s, woken, id);
    if s.started && s.status.Active? {
      AdmitCancels(woken, false, true, id);
      TimersLeaveSlots(Admit(woken, false, true).state, now, false, true, s.nextRunAt);
      SlotsDecide(Admit(woken, false, true).state, Fire(s, timer, now), id);
    }
  }

  lemma UpdateCancels(s: State, c: Changes, now: Time, id: nat)
    requires HoldsSlot(s, id, true) && Ordered(s.slots, s.nextId)
    ensures CancelSet(Update(s, c, now), id) <==> CancelSet(s, id)
  {
    hide ScheduleNext, StartQueued, CancelSet, ApplyChanges;
    var changed := s.(options := ApplyChanges(s.options, c).options);
    var raised := changed.(options := changed.options.(limit := if c.limit.Some? then c.limit.value else 1));
    SlotsDecide(s, raised, id);
    StartQueuedCancels(raised, id);
    SlotsDecide(s, changed, id);
    var limited := if c.limit.Some? then StartQueued(raised) else changed;
    TimersLeaveSlots(CancelTimer(limited), now, false, false, None);
    SlotsDecide(limited, ScheduleNext(CancelTimer(limited), now, false, false, None), id);
  }

  lemma StartCancels(s: State, saved: Option<Saved>, now: Time, id: nat)
    requires HoldsSlot(s, id, true) && Ordered(s.slots, s.nextId)
    ensures CancelSet(StartJob(s, saved, now), id) <==> CancelSet(s, id) || Cancels(s, SchedulerStarts(saved, now), id)
  {
    hide ScheduleNext, Admit, CancelSet, OverlapCancels, DueOnStart;
    var r := Restore(s.(started := true), saved);
    TimersLeaveSlots(r, now, true, false, None);
    TimersLeaveSlots(r, now, false, false, None);
    var scheduled := ScheduleNext(r, now, false, false, None);
    SlotsDecide(s, scheduled, id);
    AdmitCancels(scheduled, false, true, id);
    if !Admits(s, SchedulerStarts(saved, now)) {
      SlotsDecide(s, StartJob(s, saved, now), id);
    }
  }

  /** Exactly these sections set the cancellation of a run that holds its slot. */
  lemma StepCancelsExactly(s: State, e: Event, id: nat)
    requires HoldsSlot(s, id, true) && Ordered(s.slots, s.nextId) && e != RunEnded(id)
    ensures CancelSet(Next(s, e), id) <==> CancelSet(s, id) || Cancels(s, e, id)
  {
    hide ScheduleNext, Admit, StartQueued, Release, CancelSet, OverlapCancels, Update, StartJob, Fire, Admits;
    NoAdmission(s, e);
    match e {
      case TimerFires(timer, now) => FireCancels(s, timer, now, id);
      case TriggerCalled => AdmitCancels(s, true, false, id);
      case RunEnded(ended) => EndCancels(s, ended, id);
      case ResumeCalled(now) =>
        TimersLeaveSlots(s.(status := Active), now, false, false, None);
        SlotsDecide(s, Next(s, e), id);
      case OptionsUpdated(c, now) => UpdateCancels(s, c, now, id);
      case SchedulerStarts(saved, now) => StartCancels(s, saved, now, id);
      case StopCalled => MarkCancels(s, Next(s, e), id, true);
      case CancelCalled => MarkCancels(s, Next(s, e), id, true);
      case SchedulerStops => MarkCancels(s, Next(s, e), id, true);
      case AttemptTimedOut(other) => MarkCancels(s, Next(s, e), id, other == id);
      case TriggerLaunches(_) => MarkCancels(s, Next(s, e), id, false);
      case _ => SlotsDecide(s, Next(s, e), id);
    }
  }

  lemma SlotsDecide(s: State, t: State, id: nat)
    requires t.slots == s.slots
    ensures CancelSet(t, id) <==> CancelSet(s, id)
    ensures t.options == s.options && t.queued == s.queued ==> (OverlapCancels(t) <==> OverlapCancels(s))
  {
  }

  /** One of the sections sets the cancellation of run `id`. */
  ghost predicate SomeCancels(s: State, es: seq<Event>, id: nat)
    decreases |es|
  {
    es != [] && (Cancels(s, es[0], id) || SomeCancels(Next(s, es[0]), es[1..], id))
  }

  lemma {:induction false} RunCancelsExactly(s: State, es: seq<Event>, id: nat)
    requires SlotsSafe(s) && HoldsSlot(s, id, true) && Legal(s, es) && RunEnded(id) !in es
    ensures SlotsSafe(After(s, es)) && HoldsSlot(After(s, es), id, true)
    ensures CancelSet(After(s, es), id) <==> CancelSet(s, id) || SomeCancels(s, es, id)
    decreases |es|
  {
    hide Next, Enabled, HoldsSlot, CancelSet, Cancels;
    if es != [] {
      StepKeepsSlots(s, es[0]);
      StepKeepsRun(s, es[0], id);
      StepCancelsExactly(s, es[0], id);
      RunCancelsExactly(Next(s, es[0]), es[1..], id);
    }
  }

  lemma {:induction false} HappeningIsLegal(s: State, id: nat, events: seq<Event>)
    ensures Legal(s, Happening(s, id, events)) && RunEnded(id) !in Happening(s, id, events)
    decreases |events|
  {
    hide Next, Enabled;
    HappensOfThese(s, id, events);
    if events != [] {
      if !Own(events[0], id) && Enabled(s, events[0]) {
        var t, rest := Next(s, events[0]), Happening(Next(s, events[0]), id, events[1..]);
        HappeningIsLegal(t, id, events[1..]);
        assert ([events[0]] + rest)[1..] == rest;
      } else {
        HappeningIsLegal(s, id, events[1..]);
      }
    }
  }

  /** What has happened so far is a run of the machine in which run `id` holds its slot. */
  ghost predicate Holding(s: State, es: seq<Event>, id: nat) {
    Legal(s, es) && RunEnded(id) !in es && SlotsSafe(After(s, es)) && HoldsSlot(After(s, es), id, true)
  }

  lemma HoldingMore(s: State, es: seq<Event>, more: seq<Event>, id: nat)
    requires Holding(s, es, id) && Legal(After(s, es), more) && RunEnded(id) !in more
    ensures Holding(s, es + more, id)
  {
    hide Next, Enabled, HoldsSlot, Legal, After;
    LegalMore(s, es, more);
    RunCancelsExactly(After(s, es), more, id);
  }

  lemma OneIsLegal(s: State, e: Event)
    requires Enabled(s, e)
    ensures Legal(s, [e])
  {
    assert [e][1..] == [];
  }

  lemma CheckedIsHolding(s: State, id: nat, r: Round)
    requires SlotsSafe(s) && HoldsSlot(s, id, true)
    ensures Holding(s, UntilSaved(s, id, r), id) && Holding(s, UntilChecked(s, id, r), id)
  {
    hide Next, HoldsSlot, Legal, After, Happening, CancelSet, Holding, UntilSaved;
    NothingHolds(s, id);
    SavedIsHolding(s, id, r);
    var saved := UntilSaved(s, id, r);
    HoldingIsLaunched(s, saved, id);
    OneIsLegal(After(s, saved), AttemptEnded(id, r.startedAt));
    HoldingMore(s, saved, [AttemptEnded(id, r.startedAt)], id);
    var es := saved + [AttemptEnded(id, r.startedAt)];
    HappeningIsLegal(After(s, es), id, r.finishing);
    HoldingMore(s, es, Happening(After(s, es), id, r.finishing), id);
  }

  lemma SavedIsHolding(s: State, id: nat, r: Round)
    requires SlotsSafe(s) && HoldsSlot(s, id, true)
    ensures Holding(s, UntilSaved(s, id, r), id)
  {
    hide Next, HoldsSlot, Legal, After, Happening, CancelSet, Holding;
    NothingHolds(s, id);
    var es := Happening(s, id, r.running);
    HappeningIsLegal(s, id, r.running);
    NothingYet(s);
    HoldingMore(s, [], es, id);
    assert [] + es == es;
    if r.begun {
      var out := Timeout(After(s, es), id, r.end);
      HoldingIsLaunched(s, es, id);
      NothingYet(After(s, es));
      if out != [] {
        OneIsLegal(After(s, es), AttemptTimedOut(id));
      }
      HoldingMore(s, es, out, id);
      HappeningIsLegal(After(s, es + out), id, r.reporting);
      HoldingMore(s, es + out, Happening(After(s, es + out), id, r.reporting), id);
    }
  }

  lemma NothingHolds(s: State, id: nat)
    requires SlotsSafe(s) && HoldsSlot(s, id, true)
    ensures Holding(s, [], id)
  {
  }

  lemma HoldingIsLaunched(s: State, es: seq<Event>, id: nat)
    requires Holding(s, es, id)
    ensures Enabled(After(s, es), AttemptTimedOut(id))
    ensures forall at: Time :: Enabled(After(s, es), AttemptEnded(id, at))
    ensures SlotsSafe(After(s, es)) && HoldsSlot(After(s, es), id, true)
  {
  }

  lemma {:induction false} TraceIsHolding(s: State, id: nat, rounds: nat -> Round, n: nat)
    requires SlotsSafe(s) && HoldsSlot(s, id, true)
    requires forall k: nat :: k < n ==> AttemptAt(s, id, rounds, k).goesOn
    ensures Holding(s, Trace(s, id, rounds, n), id)
  {
    hide HoldsSlot, Legal, After, Holding, AttemptOf, SlotsSafe;
    if n == 0 {
      NothingHolds(s, id);
    } else {
      TraceIsHolding(s, id, rounds, n - 1);
      var t, es := StateAt(s, id, rounds, n - 1), Trace(s, id, rounds, n - 1);
      HoldingIsLaunched(s, es, id);
      assert AttemptAt(s, id, rounds, n - 1).goesOn;
      AttemptIsHolding(t, id, rounds(n - 1), n - 1);
      HoldingIsLegal(t, AttemptOf(t, id, rounds(n - 1), n - 1).es, id);
      HoldingMore(s, es, AttemptOf(t, id, rounds(n - 1), n - 1).es, id);
    }
  }

  lemma HoldingIsLegal(s: State, es: seq<Event>, id: nat)
    requires Holding(s, es, id)
    ensures Legal(s, es) && RunEnded(id) !in es
  {
  }

  lemma AttemptIsHolding(s: State, id: nat, r: Round, n: nat)
    requires SlotsSafe(s) && HoldsSlot(s, id, true) && AttemptOf(s, id, r, n).goesOn
    ensures Holding(s, AttemptOf(s, id, r, n).es, id)
  {
    hide Next, HoldsSlot, Legal, After, Happening, CancelSet, Holding, UntilChecked;
    CheckedIsHolding(s, id, r);
    var es := UntilChecked(s, id, r);
    HappeningIsLegal(After(s, es), id, r.delaying);
    HoldingMore(s, es, Happening(After(s, es), id, r.delaying), id);
  }

  /**
   A retry begins with the cancellation set if and only if it had no delay to wait and
   the run was cancelled only after the loop had looked at the failed attempt.
   */
  lemma RetryBeginsCancelledExactly(s: State, id: nat, rounds: nat -> Round, attempts: nat, es: seq<Event>,
                                    delays: seq<nat>, n: nat)
    requires SlotsSafe(s) && HoldsSlot(s, id, true)
    requires RunOf(s, id, rounds, attempts, es, delays) && n < attempts - 1
    ensures var checked := CheckedAt(s, id, rounds, n);
      var after := Happening(checked, id, rounds(n).delaying);
      && !CancelSet(checked, id)
      && StateAt(s, id, rounds, n + 1) == After(checked, after)
      && (CancelSet(StateAt(s, id, rounds, n + 1), id) <==> delays[n] == 0 && SomeCancels(checked, after, id))
  {
    hide HoldsSlot, Legal, After, Holding, CancelSet, SlotsSafe, UntilChecked, Happening;
    TraceIsHolding(s, id, rounds, n);
    var t := StateAt(s, id, rounds, n);
    HoldingIsLaunched(s, Trace(s, id, rounds, n), id);
    var checked := UntilChecked(t, id, rounds(n));
    CheckedIsHolding(t, id, rounds(n));
    HoldingIsLaunched(t, checked, id);
    var after := Happening(After(t, checked), id, rounds(n).delaying);
    HappeningIsLegal(After(t, checked), id, rounds(n).delaying);
    RunCancelsExactly(After(t, checked), after, id);
    assert AttemptAt(s, id, rounds, n).goesOn;
    LegalMore(t, checked, after);
    LegalMore(s, Trace(s, id, rounds, n), AttemptAt(s, id, rounds, n).es);
  }

  /** A cancel while a retry without delay is announced does not reach it: the retry begins cancelled. */
  lemma ZeroDelayRetryBeginsCancelled()
    ensures var s := HoldingJob(0);
      var r := Round(5, true, RaisedError, true, [], [], [], [CancelCalled]);
      var a := AttemptOf(s, 0, r, 0);
      a.goesOn && CancelSet(After(s, a.es), 0) && !AttemptOf(HoldingJob(1), 0, r, 0).goesOn
  {
    var r := Round(5, true, RaisedError, true, [], [], [], [CancelCalled]);
    CancelledInDelay(HoldingJob(0), r);
    CancelledInDelay(HoldingJob(1), r);
    NoDelayExactly(0, Fixed, 0);
  }

  /** So does the first attempt of a run that is cancelled between its trigger and its launch. */
  lemma FirstAttemptBeginsCancelled()
    ensures var s := HoldingJob(0).(slots := [], nextId := 0);
      var t := Next(Next(Next(s, TriggerCalled), CancelCalled), TriggerLaunches(0));
      HoldsSlot(t, 0, true) && CancelSet(t, 0)
  {
    var s := HoldingJob(0).(slots := [], nextId := 0);
    var t := Next(Next(Next(s, TriggerCalled), CancelCalled), TriggerLaunches(0));
    assert t.slots[0] == Slot(0, true, true);
  }

  /** An active job with one retry and a run in its slot. */
  function HoldingJob(retryDelay: nat): State {
    State(Options(None, None, true, false, 1, retryDelay, Fixed, None, Skip, 1),
          Active, true, [Slot(0, false, true)], false, 1, None, None, None, {}, 0)
  }

  lemma CancelledInDelay(s: State, r: Round)
    requires s == HoldingJob(s.options.retryDelay)
    requires r == Round(5, true, RaisedError, true, [], [], [], [CancelCalled])
    ensures AttemptOf(s, 0, r, 0) ==
      Attempt([AttemptEnded(0, 5), CancelCalled], s.options.retryDelay == 0, s.options.retryDelay)
    ensures CancelSet(After(s, [AttemptEnded(0, 5), CancelCalled]), 0)
  {
    hide Next, After, Happening, CancelSet;
    var own: Event := AttemptEnded(0, 5);
    var t := Next(s, own);
    CancelledStates(s);
    NothingYet(s);
    HappeningOne(s, 0, []);
    assert UntilSaved(s, 0, r) == [] && [] + [own] == [own];
    AfterOne(s, own);
    HappeningOne(t, 0, []);
    HappeningOne(t, 0, [CancelCalled]);
    AfterOne(t, CancelCalled);
    LegalMore(s, [own], [CancelCalled]);
    assert UntilChecked(s, 0, r) == [own];
    assert [own] + [CancelCalled] == [own, CancelCalled];
  }

  lemma CancelledStates(s: State)
    requires s == HoldingJob(s.options.retryDelay)
    ensures var t := Next(s, AttemptEnded(0, 5));
      t.options == s.options && !CancelSet(s, 0) && !CancelSet(t, 0) && CancelSet(Next(t, CancelCalled), 0)
  {
    var u := Next(Next(s, AttemptEnded(0, 5)), CancelCalled);
    assert u.slots[0].id == 0 && u.slots[0].cancelled;
  }

  lemma AfterOne(s: State, e: Event)
    ensures After(s, [e]) == Next(s, e)
  {
    assert [e][1..] == [];
  }

  lemma HappeningOne(s: State, id: nat, events: seq<Event>)
    requires events == [] || events == [CancelCalled]
    ensures Happening(s, id, events) == events
  {
    if events != [] {
      assert events[1..] == [];
    }
  }

  function Total(delays: seq<nat>): nat {
    if delays == [] then 0 else Total(delays[..|delays| - 1]) + delays[|delays| - 1]
  }

  ghost predicate DelaysOf(delays: seq<nat>, base: nat, strategy: Strategy) {
    forall n :: 0 <= n < |delays| ==> delays[n] == RetryDelay(base, strategy, n)
  }

  /** k completed delays of base b take k*b, b*k*(k+1)/2 or b*(2^k - 1). */
  lemma {:induction false} TotalDelay(delays: seq<nat>, base: nat, strategy: Strategy)
    requires DelaysOf(delays, base, strategy)
    ensures strategy.Fixed? ==> Total(delays) == |delays| * base
    ensures strategy.Linear? ==> 2 * Total(delays) == base * (|delays| * (|delays| + 1))
    ensures strategy.Exponential? ==> Total(delays) == base * (Pow2(|delays|) - 1)
  {
    if delays != [] {
      var k := |delays| - 1;
      TotalDelay(delays[..k], base, strategy);
      match strategy {
        case Fixed => assert (k + 1) * base == k * base + base;
        case Linear => LinearStep(base, k);
        case Exponential => ExponentialStep(base, Pow2(k));
      }
    }
  }

  lemma LinearStep(base: nat, k: nat)
    ensures base * ((k + 1) * (k + 2)) == base * (k * (k + 1)) + 2 * (base * (k + 1))
  {
    assert (k + 1) * (k + 2) == k * (k + 1) + 2 * (k + 1);
  }

  lemma ExponentialStep(base: nat, p: nat)
    ensures base * (2 * p - 1) == base * (p - 1) + base * p
  {
  }

  /** The total of a whole run under options that stay. */
  lemma RunTotalDelay(s: State, id: nat, rounds: nat -> Round, attempts: nat, es: seq<Event>, delays: seq<nat>)
    requires RunOf(s, id, rounds, attempts, es, delays) && AllRetriesStay(rounds)
    ensures var k, base := attempts - 1, s.options.retryDelay;
      && (s.options.strategy.Fixed? ==> Total(delays) == k * base)
      && (s.options.strategy.Linear? ==> 2 * Total(delays) == base * (k * (k + 1)))
      && (s.options.strategy.Exponential? ==> Total(delays) == base * (Pow2(k) - 1))
  {
    hide RunOf, DelaysOf, AllRetriesStay, Pow2, Total;
    DelaysAre(s, id, rounds, attempts, es, delays);
    TotalDelay(delays, s.options.retryDelay, s.options.strategy);
  }

  lemma DelaysAre(s: State, id: nat, rounds: nat -> Round, attempts: nat, es: seq<Event>, delays: seq<nat>)
    requires RunOf(s, id, rounds, attempts, es, delays) && AllRetriesStay(rounds)
    ensures |delays| == attempts - 1 && DelaysOf(delays, s.options.retryDelay, s.options.strategy)
  {
    hide AttemptAt, Trace, StateAt, CancelSet, AllRetriesStay, RetryDelay;
    forall n: nat | n < attempts {
      AttemptsGoOn(s, id, rounds, n);
    }
  }

  // ---------------------------------------------------------------------
  // Each attempt is put on record once
  // ---------------------------------------------------------------------

  /** How often the last run's start was set for run `id`. */
  ghost function Records(es: seq<Event>, id: nat): nat {
    if es == [] then 0
    else Records(es[..|es| - 1], id) + (if es[|es| - 1].AttemptEnded? && es[|es| - 1].id == id then 1 else 0)
  }

  lemma {:induction false} RecordsAddUp(a: seq<Event>, b: seq<Event>, id: nat)
    ensures Records(a + b, id) == Records(a, id) + Records(b, id)
  {
    if b == [] {
      assert a + b == a;
    } else {
      RecordsAddUp(a, b[..|b| - 1], id);
      assert (a + b)[..|a + b| - 1] == a + b[..|b| - 1];
    }
  }

  lemma {:induction false} NoRecords(es: seq<Event>, id: nat)
    requires forall e :: e in es ==> !(e.AttemptEnded? && e.id == id)
    ensures Records(es, id) == 0
  {
    if es != [] {
      assert es[|es| - 1] in es;
      NoRecords(es[..|es| - 1], id);
    }
  }

  lemma HappeningRecordsNothing(s: State, id: nat, events: seq<Event>)
    ensures Records(Happening(s, id, events), id) == 0
  {
    HappensOfThese(s, id, events);
    NoRecords(Happening(s, id, events), id);
  }

  lemma UntilSavedRecordsNothing(s: State, id: nat, r: Round)
    ensures Records(UntilSaved(s, id, r), id) == 0
  {
    hide Happening, After, CancelSet, Records;
    var es := Happening(s, id, r.running);
    HappeningRecordsNothing(s, id, r.running);
    if r.begun {
      var out := Timeout(After(s, es), id, r.end);
      NoRecords(out, id);
      RecordsAddUp(es, out, id);
      HappeningRecordsNothing(After(s, es + out), id, r.reporting);
      RecordsAddUp(es + out, Happening(After(s, es + out), id, r.reporting), id);
    }
  }

  lemma AttemptRecordsOnce(s: State, id: nat, r: Round, n: nat)
    ensures Records(AttemptOf(s, id, r, n).es, id) == if r.begun && r.recorded then 1 else 0
  {
    hide Happening, After, CancelSet, UntilSaved, Records;
    var saved := UntilSaved(s, id, r);
    UntilSavedRecordsNothing(s, id, r);
    if r.begun && r.recorded {
      var own := [AttemptEnded(id, r.startedAt)];
      OneRecord(id, r.startedAt);
      RecordsAddUp(saved, own, id);
      HappeningRecordsNothing(After(s, saved + own), id, r.finishing);
      RecordsAddUp(saved + own, Happening(After(s, saved + own), id, r.finishing), id);
      var checked := UntilChecked(s, id, r);
      HappeningRecordsNothing(After(s, checked), id, r.delaying);
      RecordsAddUp(checked, Happening(After(s, checked), id, r.delaying), id);
    }
  }

  lemma OneRecord(id: nat, startedAt: Time)
    ensures Records([AttemptEnded(id, startedAt)], id) == 1
  {
    assert Records([], id) == 0;
  }

  lemma {:induction false} TraceRecords(s: State, id: nat, rounds: nat -> Round, n: nat)
    requires forall k: nat :: k < n ==> AttemptAt(s, id, rounds, k).goesOn
    ensures Records(Trace(s, id, rounds, n), id) == n
  {
    hide After, AttemptOf;
    if n > 0 {
      TraceRecords(s, id, rounds, n - 1);
      var t := StateAt(s, id, rounds, n - 1);
      AttemptRecordsOnce(t, id, rounds(n - 1), n - 1);
      GoesOnRecorded(t, id, rounds(n - 1), n - 1);
      RecordsAddUp(Trace(s, id, rounds, n - 1), AttemptAt(s, id, rounds, n - 1).es, id);
    }
  }

  lemma GoesOnRecorded(s: State, id: nat, r: Round, n: nat)
    ensures AttemptOf(s, id, r, n).goesOn ==> r.begun && r.recorded
  {
  }

  /**
   Whatever other runs of the job record meanwhile, the run sets the job's last start
   once for each of its attempts, but for a last one that the store lost.
   */
  lemma EveryAttemptRecorded(s: State, id: nat, rounds: nat -> Round, attempts: nat, es: seq<Event>, delays: seq<nat>)
    requires RunOf(s, id, rounds, attempts, es, delays)
    ensures var last := rounds(attempts - 1);
      Records(es, id) == attempts - (if last.begun && last.recorded then 0 else 1)
  {
    hide After, AttemptOf;
    var n := attempts - 1;
    TraceRecords(s, id, rounds, n);
    AttemptRecordsOnce(StateAt(s, id, rounds, n), id, rounds(n), n);
    RecordsAddUp(Trace(s, id, rounds, n), AttemptAt(s, id, rounds, n).es, id);
  }
}
