/**
 Run statistics in exact arithmetic: runs by time column and outcome, totals, and
 figures per job.  Times and durations are reals; `tidy` stands for trimming and
 lower-casing a status.
 */
module JobStats {
  import opened Wrappers

  datatype Outcome = Succeeded | Failed | Cancelled | Running

  datatype Run = Run(id: string, jobId: string, status: Option<string>, startedAt: real, duration: Option<real>)

  const SUCCEEDED := {"completed", "succeeded"}
  const FAILED := {"failed", "error", "timed_out", "timedout"}
  const RUNNING := {"running", "pending"}

  /** `outcome_of`; anything else counts as cancelled. */
  function OutcomeOf(tidy: string -> string, status: Option<string>): Outcome {
    var value := tidy(if status.Some? then status.value else "");
    if value in SUCCEEDED then Succeeded
    else if value in FAILED then Failed
    else if value in RUNNING then Running
    else Cancelled
  }

  /** Which tidied status texts stand for which outcome; no status is the empty text. */
  lemma OutcomeExactly(tidy: string -> string, status: Option<string>)
    ensures var text := tidy(if status.None? then "" else status.value);
      var outcome := OutcomeOf(tidy, status);
      && (outcome.Succeeded? <==> text == "completed" || text == "succeeded")
      && (outcome.Failed? <==> text == "failed" || text == "error" || text == "timed_out" || text == "timedout")
      && (outcome.Running? <==> text == "running" || text == "pending")
  {
  }

  datatype Counts = Counts(succeeded: nat, failed: nat, cancelled: nat, running: nat) {
    function Of(o: Outcome): nat {
      match o
      case Succeeded => succeeded
      case Failed => failed
      case Cancelled => cancelled
      case Running => running
    }

    function Bump(o: Outcome): Counts {
      match o
      case Succeeded => this.(succeeded := succeeded + 1)
      case Failed => this.(failed := failed + 1)
      case Cancelled => this.(cancelled := cancelled + 1)
      case Running => this.(running := running + 1)
    }

    function Sum(): nat {
      succeeded + failed + cancelled + running
    }
  }

  const ZERO := Counts(0, 0, 0, 0)

  /** How many runs satisfy a condition. */
  ghost function Number(runs: seq<Run>, p: Run -> bool): nat {
    if runs == [] then 0 else Number(runs[..|runs| - 1], p) + (if p(runs[|runs| - 1]) then 1 else 0)
  }

  lemma NumberMore(runs: seq<Run>, run: Run, p: Run -> bool)
    ensures Number(runs + [run], p) == Number(runs, p) + (if p(run) then 1 else 0)
  {
    assert (runs + [run])[..|runs|] == runs;
  }

  lemma {:induction false} NumberSplits(runs: seq<Run>, p: Run -> bool, q: Run -> bool, either: Run -> bool)
    requires forall r :: r in runs ==> (either(r) <==> p(r) || q(r)) && !(p(r) && q(r))
    ensures Number(runs, either) == Number(runs, p) + Number(runs, q)
  {
    if runs != [] {
      assert runs[|runs| - 1] in runs;
      NumberSplits(runs[..|runs| - 1], p, q, either);
    }
  }

  lemma {:induction false} NumberOfNone(runs: seq<Run>, p: Run -> bool)
    requires forall r :: r in runs ==> !p(r)
    ensures Number(runs, p) == 0
  {
    if runs != [] {
      assert runs[|runs| - 1] in runs;
      NumberOfNone(runs[..|runs| - 1], p);
    }
  }

  lemma {:induction false} NumberSame(runs: seq<Run>, p: Run -> bool, q: Run -> bool)
    requires forall r :: r in runs ==> (p(r) <==> q(r))
    ensures Number(runs, p) == Number(runs, q)
  {
    if runs != [] {
      assert runs[|runs| - 1] in runs;
      NumberSame(runs[..|runs| - 1], p, q);
    }
  }

  ghost function HasOutcome(tidy: string -> string, o: Outcome): Run -> bool {
    (r: Run) => OutcomeOf(tidy, r.status) == o
  }

  // ---------------------------------------------------------------------
  // Columns
  // ---------------------------------------------------------------------

  /** The width of a column. */
  function Width(since: real, until: real, buckets: nat): (w: real)
    requires since < until && buckets > 0
    ensures w > 0.0
  {
    (until - since) / buckets as real
  }

  /** Where column `i` starts. */
  function ColumnStart(since: real, until: real, buckets: nat, i: nat): real
    requires since < until && buckets > 0
  {
    since + i as real * Width(since, until, buckets)
  }

  /** How many columns lie before a time. */
  function Position(since: real, until: real, buckets: nat, t: real): real
    requires since < until && buckets > 0
  {
    (t - since) / Width(since, until, buckets)
  }

  /** The column of a start time, clamped to those there are. */
  function Column(since: real, until: real, buckets: nat, startedAt: real): (i: nat)
    requires since < until && buckets > 0
    ensures i < buckets
  {
    var index := Position(since, until, buckets, startedAt).Floor;
    var low := if index < 0 then 0 else index;
    if low < buckets - 1 then low else buckets - 1
  }

  /** A start time in the range lies in the interval of its column, and of no other. */
  lemma ColumnHoldsTime(since: real, until: real, buckets: nat, startedAt: real, i: nat)
    requires since <= startedAt < until && buckets > 0 && i < buckets
    ensures Column(since, until, buckets, startedAt) == i <==>
      ColumnStart(since, until, buckets, i) <= startedAt < ColumnStart(since, until, buckets, i + 1)
  {
    hide ColumnStart, Position, Width;
    Ends(since, until, buckets);
    StartsBefore(since, until, buckets, startedAt, 0);
    StartsBefore(since, until, buckets, startedAt, buckets);
    StartsBefore(since, until, buckets, startedAt, i);
    StartsBefore(since, until, buckets, startedAt, i + 1);
    FloorIs(Position(since, until, buckets, startedAt), buckets, i);
  }

  /** A time before the range counts in the first column, one after it in the last. */
  lemma ColumnOutside(since: real, until: real, buckets: nat, startedAt: real)
    requires since < until && buckets > 0
    ensures startedAt < since ==> Column(since, until, buckets, startedAt) == 0
    ensures startedAt >= until ==> Column(since, until, buckets, startedAt) == buckets - 1
  {
    hide ColumnStart, Width;
    Ends(since, until, buckets);
    StartsBefore(since, until, buckets, startedAt, 0);
    StartsBefore(since, until, buckets, startedAt, buckets);
  }

  /** The columns cover the range from its start to its end. */
  lemma Ends(since: real, until: real, buckets: nat)
    requires since < until && buckets > 0
    ensures ColumnStart(since, until, buckets, 0) == since && ColumnStart(since, until, buckets, buckets) == until
  {
  }

  lemma StartsBefore(since: real, until: real, buckets: nat, t: real, k: nat)
    requires since < until && buckets > 0
    ensures ColumnStart(since, until, buckets, k) <= t <==> k as real <= Position(since, until, buckets, t)
  {
    hide Width;
    Order(k as real, t - since, Width(since, until, buckets));
  }

  lemma Order(a: real, d: real, w: real)
    requires w > 0.0
    ensures a * w <= d <==> a <= d / w
  {
    var x := d / w;
    assert x * w == d;
    if a <= x {
      ProductGrows(a, x, w);
    } else {
      ProductLess(x, a, w);
    }
  }

  lemma FloorIs(x: real, buckets: nat, i: nat)
    requires 0.0 <= x < buckets as real
    ensures 0 <= x.Floor < buckets
    ensures x.Floor == i <==> i as real <= x < (i + 1) as real
  {
  }

  lemma ProductGrows(a: real, b: real, w: real)
    requires a <= b && w > 0.0
    ensures a * w <= b * w
  {
  }

  lemma ProductLess(a: real, b: real, w: real)
    requires a < b && w > 0.0
    ensures a * w < b * w
  {
  }

  // ---------------------------------------------------------------------
  // Durations
  // ---------------------------------------------------------------------

  ghost predicate Ordered(s: seq<real>) {
    forall i, j :: 0 <= i < j < |s| ==> s[i] <= s[j]
  }

  function Insert(x: real, s: seq<real>): (r: seq<real>)
    ensures multiset(r) == multiset(s) + multiset{x}
  {
    if s == [] || x <= s[0] then [x] + s
    else
      assert s == [s[0]] + s[1..];
      [s[0]] + Insert(x, s[1..])
  }

  function Sorted(s: seq<real>): (r: seq<real>)
    ensures multiset(r) == multiset(s) && |r| == |s|
  {
    if s == [] then []
    else
      assert s == [s[0]] + s[1..];
      var r := Insert(s[0], Sorted(s[1..]));
      assert |multiset(r)| == |multiset(s)|;
      r
  }

  lemma {:induction false} InsertOrders(x: real, s: seq<real>)
    requires Ordered(s)
    ensures Ordered(Insert(x, s))
  {
    if s != [] && x > s[0] {
      InsertOrders(x, s[1..]);
      var rest := Insert(x, s[1..]);
      SameMembers(rest, s[1..] + [x]);
      forall j | 0 <= j < |rest| ensures s[0] <= rest[j] {
        assert rest[j] in rest;
      }
    }
  }

  lemma {:induction false} SortedOrders(s: seq<real>)
    ensures Ordered(Sorted(s))
  {
    if s != [] {
      SortedOrders(s[1..]);
      InsertOrders(s[0], Sorted(s[1..]));
    }
  }

  lemma SameMembers(a: seq<real>, b: seq<real>)
    requires multiset(a) == multiset(b)
    ensures forall x :: x in a <==> x in b
  {
    forall x ensures x in a <==> x in b {
      assert x in a <==> x in multiset(a);
      assert x in b <==> x in multiset(b);
    }
  }

  /** How many values are at most, and below, a bound. */
  ghost function AtMost(s: seq<real>, v: real): nat {
    if s == [] then 0 else (if s[0] <= v then 1 else 0) + AtMost(s[1..], v)
  }

  ghost function Below(s: seq<real>, v: real): nat {
    if s == [] then 0 else (if s[0] < v then 1 else 0) + Below(s[1..], v)
  }

  lemma {:induction false} CountsInserted(x: real, s: seq<real>, v: real)
    ensures AtMost(Insert(x, s), v) == AtMost(s, v) + (if x <= v then 1 else 0)
    ensures Below(Insert(x, s), v) == Below(s, v) + (if x < v then 1 else 0)
  {
    if s != [] && x > s[0] {
      CountsInserted(x, s[1..], v);
    } else {
      assert ([x] + s)[1..] == s;
    }
  }

  lemma {:induction false} CountsSorted(s: seq<real>, v: real)
    ensures AtMost(Sorted(s), v) == AtMost(s, v) && Below(Sorted(s), v) == Below(s, v)
  {
    if s != [] {
      CountsSorted(s[1..], v);
      CountsInserted(s[0], Sorted(s[1..]), v);
    }
  }

  lemma {:induction false} CountsInOrder(s: seq<real>, k: nat)
    requires Ordered(s) && k < |s|
    ensures AtMost(s, s[k]) >= k + 1 && Below(s, s[k]) <= k
  {
    if k > 0 {
      CountsInOrder(s[1..], k - 1);
      assert s[1..][k - 1] == s[k];
    } else {
      NoneBelow(s, s[0]);
    }
  }

  lemma {:induction false} NoneBelow(s: seq<real>, v: real)
    requires forall i :: 0 <= i < |s| ==> s[i] >= v
    ensures Below(s, v) == 0
  {
    if s != [] {
      NoneBelow(s[1..], v);
    }
  }

  /** `ceil(0.95 * n) - 1`. */
  function P95Index(n: nat): int {
    (19 * n + 19) / 20 - 1
  }

  /** Nearest rank: at least 95% of the durations are at most `v`, and fewer than 95% are below it. */
  ghost predicate IsP95(durations: seq<real>, v: real) {
    && v in durations
    && 20 * AtMost(durations, v) >= 19 * |durations|
    && 20 * Below(durations, v) < 19 * |durations|
  }

  lemma P95IsNearestRank(durations: seq<real>)
    requires durations != []
    ensures 0 <= P95Index(|durations|) < |durations|
    ensures IsP95(durations, Sorted(durations)[P95Index(|durations|)])
  {
    hide Sorted;
    var k, s := P95Index(|durations|), Sorted(durations);
    SortedOrders(durations);
    CountsInOrder(s, k);
    CountsSorted(durations, s[k]);
    SameMembers(durations, s);
  }

  /** Only one value is the nearest rank. */
  lemma P95IsUnique(durations: seq<real>, v: real, w: real)
    requires IsP95(durations, v) && IsP95(durations, w)
    ensures v == w
  {
    if v < w {
      BelowAtMost(durations, v, w);
    } else if w < v {
      BelowAtMost(durations, w, v);
    }
  }

  lemma {:induction false} BelowAtMost(s: seq<real>, v: real, w: real)
    requires v < w
    ensures AtMost(s, v) <= Below(s, w)
  {
    if s != [] {
      BelowAtMost(s[1..], v, w);
    }
  }

  // ---------------------------------------------------------------------
  // The summary of some runs
  // ---------------------------------------------------------------------

  datatype Summary = Summary(
    total: nat, counts: Counts, successRate: Option<real>, avgDuration: Option<real>,
    p95Duration: Option<real>, maxDuration: Option<real>, lastFailureAt: Option<real>)

  /** The durations that count: of runs that have ended and have one. */
  function Durations(tidy: string -> string, runs: seq<Run>): seq<real> {
    if runs == [] then []
    else
      var rest, run := Durations(tidy, runs[..|runs| - 1]), runs[|runs| - 1];
      if OutcomeOf(tidy, run.status) != Running && run.duration.Some? then rest + [run.duration.value] else rest
  }

  /** Each duration is there as often as there are runs with it that are not running. */
  lemma {:induction false} DurationsExactly(tidy: string -> string, runs: seq<Run>, d: real)
    ensures multiset(Durations(tidy, runs))[d] ==
      Number(runs, (r: Run) => !OutcomeOf(tidy, r.status).Running? && r.duration == Some(d))
  {
    hide OutcomeOf;
    if runs != [] {
      DurationsExactly(tidy, runs[..|runs| - 1], d);
    }
  }

  function Total(s: seq<real>): real {
    if s == [] then 0.0 else Total(s[..|s| - 1]) + s[|s| - 1]
  }

  lemma {:induction false} TotalAddsUp(a: seq<real>, b: seq<real>)
    ensures Total(a + b) == Total(a) + Total(b)
  {
    if b == [] {
      assert a + b == a;
    } else {
      TotalAddsUp(a, b[..|b| - 1]);
      assert (a + b)[..|a + b| - 1] == a + b[..|b| - 1];
    }
  }

  lemma OneMoreTimes(x: real, n: nat)
    ensures x * (n + 1) as real == x * n as real + x
  {
    assert (n + 1) as real == n as real + 1.0;
  }

  lemma {:induction false} TotalBetween(s: seq<real>, low: real, high: real)
    requires forall x :: x in s ==> low <= x <= high
    ensures low * |s| as real <= Total(s) <= high * |s| as real
  {
    if s != [] {
      var n := |s| - 1;
      assert s[n] in s && forall x :: x in s[..n] ==> x in s;
      TotalBetween(s[..n], low, high);
      OneMoreTimes(low, n);
      OneMoreTimes(high, n);
    }
  }

  /** An average lies between any bounds of the values. */
  lemma AverageBetween(s: seq<real>, low: real, high: real)
    requires s != [] && forall x :: x in s ==> low <= x <= high
    ensures low <= Total(s) / |s| as real <= high
  {
    hide Total;
    TotalBetween(s, low, high);
    var n := |s| as real;
    var average := Total(s) / n;
    Order(low, Total(s), n);
    assert average * n == Total(s);
    if high < average {
      ProductLess(high, average, n);
    }
  }

  ghost predicate CountsRuns(c: Counts, tidy: string -> string, runs: seq<Run>) {
    forall o: Outcome :: c.Of(o) == Number(runs, HasOutcome(tidy, o))
  }

  ghost predicate IsLastFailure(last: Option<real>, tidy: string -> string, runs: seq<Run>) {
    && (last.None? <==> forall r :: r in runs ==> OutcomeOf(tidy, r.status) != Failed)
    && (last.Some? ==>
         && (forall r :: r in runs && OutcomeOf(tidy, r.status) == Failed ==> r.startedAt <= last.value)
         && (exists r :: r in runs && OutcomeOf(tidy, r.status) == Failed && r.startedAt == last.value))
  }

  /** What each figure of a summary is of its runs. */
  ghost predicate Summarises(s: Summary, tidy: string -> string, runs: seq<Run>) {
    var durations := Durations(tidy, runs);
    && s.total == |runs|
    && CountsRuns(s.counts, tidy, runs)
    && (var decided := s.counts.succeeded + s.counts.failed;
        s.successRate == if decided == 0 then None else Some(s.counts.succeeded as real / decided as real))
    && s.avgDuration == (if durations == [] then None else Some(Total(durations) / |durations| as real))
    && (durations == [] ==> s.p95Duration.None? && s.maxDuration.None?)
    && (durations != [] ==>
         && s.p95Duration.Some? && IsP95(durations, s.p95Duration.value)
         && s.maxDuration.Some? && s.maxDuration.value in durations
         && forall d :: d in durations ==> d <= s.maxDuration.value)
    && IsLastFailure(s.lastFailureAt, tidy, runs)
  }

  lemma CountsMore(c: Counts, tidy: string -> string, runs: seq<Run>, run: Run)
    requires CountsRuns(c, tidy, runs)
    ensures CountsRuns(c.Bump(OutcomeOf(tidy, run.status)), tidy, runs + [run])
  {
    forall o: Outcome ensures c.Bump(OutcomeOf(tidy, run.status)).Of(o) == Number(runs + [run], HasOutcome(tidy, o)) {
      NumberMore(runs, run, HasOutcome(tidy, o));
    }
  }

  lemma LargestIsLast(durations: seq<real>)
    requires durations != []
    ensures var m := Sorted(durations)[|durations| - 1];
      m in durations && forall d :: d in durations ==> d <= m
  {
    hide Sorted;
    SortedOrders(durations);
    SameMembers(durations, Sorted(durations));
    LastIsLargest(Sorted(durations));
  }

  lemma LastIsLargest(s: seq<real>)
    requires s != [] && Ordered(s)
    ensures s[|s| - 1] in s && forall d :: d in s ==> d <= s[|s| - 1]
  {
  }

  /** `_summary`. */
  method Summarise(tidy: string -> string, runs: seq<Run>) returns (s: Summary)
    ensures Summarises(s, tidy, runs)
  {
    hide OutcomeOf, Sorted, IsP95;
    var counts := ZERO;
    var durations: seq<real> := [];
    var lastFailure: Option<real> := None;
    for n := 0 to |runs|
      invariant CountsRuns(counts, tidy, runs[..n])
      invariant durations == Durations(tidy, runs[..n])
      invariant IsLastFailure(lastFailure, tidy, runs[..n])
    {
      var run := runs[n];
      var outcome := OutcomeOf(tidy, run.status);
      assert runs[..n + 1] == runs[..n] + [run];
      CountsMore(counts, tidy, runs[..n], run);
      counts := counts.Bump(outcome);
      if outcome != Running && run.duration.Some? {
        durations := durations + [run.duration.value];
      }
      LastFailureMore(lastFailure, tidy, runs[..n], run);
      if outcome == Failed && (lastFailure.None? || run.startedAt > lastFailure.value) {
        lastFailure := Some(run.startedAt);
      }
    }
    assert runs[..|runs|] == runs;
    var decided := counts.succeeded + counts.failed;
    var sorted := Sorted(durations);
    if durations != [] {
      P95IsNearestRank(durations);
      LargestIsLast(durations);
    }
    s := Summary(
      |runs|, counts,
      if decided == 0 then None else Some(counts.succeeded as real / decided as real),
      if durations == [] then None else Some(Total(durations) / |durations| as real),
      if durations == [] then None else Some(sorted[P95Index(|durations|)]),
      if durations == [] then None else Some(sorted[|durations| - 1]),
      lastFailure);
  }

  lemma LastFailureMore(last: Option<real>, tidy: string -> string, runs: seq<Run>, run: Run)
    requires IsLastFailure(last, tidy, runs)
    ensures var next :=
        if OutcomeOf(tidy, run.status) == Failed && (last.None? || run.startedAt > last.value) then Some(run.startedAt)
        else last;
      IsLastFailure(next, tidy, runs + [run])
  {
    hide OutcomeOf;
    var more := runs + [run];
    assert run in more;
    forall r | r in more ensures r in runs || r == run {
    }
    if last.Some? {
      var r :| r in runs && OutcomeOf(tidy, r.status) == Failed && r.startedAt == last.value;
      assert r in more;
    }
  }

  // ---------------------------------------------------------------------
  // The whole body
  // ---------------------------------------------------------------------

  function OfJob(runs: seq<Run>, jobId: string): seq<Run> {
    if runs == [] then []
    else
      var rest := OfJob(runs[..|runs| - 1], jobId);
      if runs[|runs| - 1].jobId == jobId then rest + [runs[|runs| - 1]] else rest
  }

  lemma OfJobMore(runs: seq<Run>, run: Run, jobId: string)
    ensures OfJob(runs + [run], jobId) == OfJob(runs, jobId) + (if run.jobId == jobId then [run] else [])
  {
    assert (runs + [run])[..|runs|] == runs;
  }

  datatype JobFigures = JobFigures(jobId: string, summary: Summary)

  ghost predicate Distinct(ids: seq<string>) {
    forall i, j :: 0 <= i < j < |ids| ==> ids[i] != ids[j]
  }

  ghost predicate DistinctJobs(jobs: seq<JobFigures>) {
    forall i, j :: 0 <= i < j < |jobs| ==> jobs[i].jobId != jobs[j].jobId
  }

  ghost predicate HasJob(jobs: seq<JobFigures>, jobId: string) {
    exists i :: 0 <= i < |jobs| && jobs[i].jobId == jobId
  }

  datatype Range = Range(since: real, until: real, buckets: nat)

  predicate ValidRange(g: Range) {
    g.since < g.until && g.buckets > 0
  }

  ghost function InColumn(g: Range, tidy: string -> string, i: nat, o: Outcome): Run -> bool
    requires ValidRange(g)
  {
    (r: Run) => Column(g.since, g.until, g.buckets, r.startedAt) == i && OutcomeOf(tidy, r.status) == o
  }

  ghost predicate CountsColumn(c: Counts, g: Range, tidy: string -> string, runs: seq<Run>, i: nat)
    requires ValidRange(g)
  {
    forall o: Outcome :: c.Of(o) == Number(runs, InColumn(g, tidy, i, o))
  }

  lemma ColumnMore(c: Counts, g: Range, tidy: string -> string, runs: seq<Run>, i: nat, run: Run)
    requires ValidRange(g) && CountsColumn(c, g, tidy, runs, i)
    ensures var hit := Column(g.since, g.until, g.buckets, run.startedAt) == i;
      CountsColumn(if hit then c.Bump(OutcomeOf(tidy, run.status)) else c, g, tidy, runs + [run], i)
  {
    hide Column, OutcomeOf;
    forall o: Outcome {
      NumberMore(runs, run, InColumn(g, tidy, i, o));
    }
  }

  /** The runs of each job seen so far, in the order the jobs were first seen. */
  ghost predicate Grouped(ids: seq<string>, byJob: map<string, seq<Run>>, runs: seq<Run>) {
    && Distinct(ids)
    && (forall id :: id in byJob <==> id in ids)
    && (forall id :: id in byJob ==> byJob[id] == OfJob(runs, id) && byJob[id] != [])
    && (forall r :: r in runs ==> r.jobId in ids)
    && (forall id :: id !in byJob ==> OfJob(runs, id) == [])
  }

  lemma GroupedMore(ids: seq<string>, byJob: map<string, seq<Run>>, runs: seq<Run>, run: Run)
    requires Grouped(ids, byJob, runs)
    ensures var more := (if run.jobId in byJob then byJob[run.jobId] else []) + [run];
      Grouped(if run.jobId in byJob then ids else ids + [run.jobId], byJob[run.jobId := more], runs + [run])
  {
    hide OfJob;
    forall id: string {
      OfJobMore(runs, run, id);
    }
    assert forall r :: r in runs + [run] ==> r in runs || r == run;
  }

  /** Every column counts its runs, every job seen is listed once, and every summary is of its runs. */
  ghost predicate Charts(columns: seq<Counts>, totals: Summary, jobs: seq<JobFigures>,
                         tidy: string -> string, runs: seq<Run>, g: Range)
    requires ValidRange(g)
  {
    && |columns| == g.buckets
    && (forall i :: 0 <= i < g.buckets ==> CountsColumn(columns[i], g, tidy, runs, i))
    && Summarises(totals, tidy, runs)
    && DistinctJobs(jobs)
    && (forall r :: r in runs ==> HasJob(jobs, r.jobId))
    && (forall i :: 0 <= i < |jobs| ==> OfJob(runs, jobs[i].jobId) != [])
    && (forall i :: 0 <= i < |jobs| ==> Summarises(jobs[i].summary, tidy, OfJob(runs, jobs[i].jobId)))
  }

  /** The figures of each job, in the order the jobs were first seen. */
  method SummariseJobs(tidy: string -> string, ids: seq<string>, byJob: map<string, seq<Run>>, ghost runs: seq<Run>)
    returns (jobs: seq<JobFigures>)
    requires Grouped(ids, byJob, runs)
    ensures DistinctJobs(jobs) && forall r :: r in runs ==> HasJob(jobs, r.jobId)
    ensures forall i :: 0 <= i < |jobs| ==> OfJob(runs, jobs[i].jobId) != []
    ensures forall i :: 0 <= i < |jobs| ==> Summarises(jobs[i].summary, tidy, OfJob(runs, jobs[i].jobId))
  {
    hide Summarises, OfJob;
    jobs := [];
    for n := 0 to |ids|
      invariant |jobs| == n && forall i :: 0 <= i < n ==> jobs[i].jobId == ids[i]
      invariant forall i :: 0 <= i < n ==> Summarises(jobs[i].summary, tidy, OfJob(runs, ids[i]))
    {
      var summary := Summarise(tidy, byJob[ids[n]]);
      jobs := jobs + [JobFigures(ids[n], summary)];
    }
  }

  /** `compute_stats`: every cell counts its runs, and every summary is of its runs. */
  method ComputeStats(tidy: string -> string, runs: seq<Run>, g: Range)
    returns (columns: seq<Counts>, totals: Summary, jobs: seq<JobFigures>)
    requires ValidRange(g)
    ensures Charts(columns, totals, jobs, tidy, runs, g)
  {
    hide OutcomeOf, Summarises, OfJob, Number, Grouped, CountsColumn;
    var cells := new Counts[g.buckets](i => ZERO);
    var ids: seq<string> := [];
    var byJob: map<string, seq<Run>> := map[];
    NothingYet(g, tidy);
    for n := 0 to |runs|
      invariant forall i :: 0 <= i < g.buckets ==> CountsColumn(cells[i], g, tidy, runs[..n], i)
      invariant Grouped(ids, byJob, runs[..n])
    {
      var run := runs[n];
      assert runs[..n + 1] == runs[..n] + [run];
      forall i: nat | i < g.buckets {
        ColumnMore(cells[i], g, tidy, runs[..n], i, run);
      }
      GroupedMore(ids, byJob, runs[..n], run);
      var index := Column(g.since, g.until, g.buckets, run.startedAt);
      cells[index] := cells[index].Bump(OutcomeOf(tidy, run.status));
      var sameJob := if run.jobId in byJob then byJob[run.jobId] else [];
      if run.jobId !in byJob {
        ids := ids + [run.jobId];
      }
      byJob := byJob[run.jobId := sameJob + [run]];
    }
    assert runs[..|runs|] == runs;
    columns := cells[..];
    jobs := SummariseJobs(tidy, ids, byJob, runs);
    totals := Summarise(tidy, runs);
  }

  lemma NothingYet(g: Range, tidy: string -> string)
    requires ValidRange(g)
    ensures forall i: nat :: CountsColumn(ZERO, g, tidy, [], i)
    ensures Grouped([], map[], [])
  {
    forall i: nat ensures CountsColumn(ZERO, g, tidy, [], i) {
      forall o: Outcome ensures ZERO.Of(o) == Number([], InColumn(g, tidy, i, o)) {
      }
    }
  }

  // ---------------------------------------------------------------------
  // Nothing is lost or counted twice
  // ---------------------------------------------------------------------

  ghost function InCell(cell: Run -> nat, i: nat, p: Run -> bool): Run -> bool {
    (r: Run) => cell(r) == i && p(r)
  }

  /** The runs in the first `n` cells. */
  ghost function InCells(runs: seq<Run>, cell: Run -> nat, n: nat, p: Run -> bool): nat {
    if n == 0 then 0 else InCells(runs, cell, n - 1, p) + Number(runs, InCell(cell, n - 1, p))
  }

  lemma {:induction false} CellsAddUp(runs: seq<Run>, cell: Run -> nat, n: nat, p: Run -> bool)
    ensures InCells(runs, cell, n, p) == Number(runs, (r: Run) => cell(r) < n && p(r))
  {
    if n == 0 {
      NumberOfNone(runs, (r: Run) => cell(r) < n && p(r));
    } else {
      CellsAddUp(runs, cell, n - 1, p);
      NumberSplits(runs, (r: Run) => cell(r) < n - 1 && p(r), InCell(cell, n - 1, p), (r: Run) => cell(r) < n && p(r));
    }
  }

  /** When every run has its cell, the cells add up to all of them. */
  lemma CellsConserve(runs: seq<Run>, cell: Run -> nat, n: nat, p: Run -> bool)
    requires forall r: Run :: r in runs ==> cell(r) < n
    ensures InCells(runs, cell, n, p) == Number(runs, p)
  {
    CellsAddUp(runs, cell, n, p);
    NumberSame(runs, (r: Run) => cell(r) < n && p(r), p);
  }

  function AddColumns(columns: seq<Counts>, o: Outcome): nat {
    if columns == [] then 0 else AddColumns(columns[..|columns| - 1], o) + columns[|columns| - 1].Of(o)
  }

  function AddJobs(jobs: seq<JobFigures>, o: Outcome): nat {
    if jobs == [] then 0 else AddJobs(jobs[..|jobs| - 1], o) + jobs[|jobs| - 1].summary.counts.Of(o)
  }

  lemma {:induction false} ColumnsAddUp(columns: seq<Counts>, g: Range, tidy: string -> string, runs: seq<Run>,
                                        o: Outcome)
    requires ValidRange(g) && forall i :: 0 <= i < |columns| ==> CountsColumn(columns[i], g, tidy, runs, i)
    ensures AddColumns(columns, o) ==
      InCells(runs, (r: Run) => Column(g.since, g.until, g.buckets, r.startedAt), |columns|, HasOutcome(tidy, o))
  {
    hide Column, OutcomeOf;
    if columns != [] {
      var n := |columns| - 1;
      var cell := (r: Run) => Column(g.since, g.until, g.buckets, r.startedAt);
      ColumnsAddUp(columns[..n], g, tidy, runs, o);
      NumberSame(runs, InColumn(g, tidy, n, o), InCell(cell, n, HasOutcome(tidy, o)));
    }
  }

  function IndexOf(jobs: seq<JobFigures>, jobId: string): nat {
    if jobs == [] then 0
    else if jobs[|jobs| - 1].jobId == jobId then |jobs| - 1
    else var k := IndexOf(jobs[..|jobs| - 1], jobId); if k < |jobs| - 1 then k else |jobs|
  }

  lemma {:induction false} IndexOfIs(jobs: seq<JobFigures>, jobId: string, k: nat)
    requires k < |jobs| && jobs[k].jobId == jobId
    requires DistinctJobs(jobs)
    ensures IndexOf(jobs, jobId) == k
  {
    if k < |jobs| - 1 {
      IndexOfIs(jobs[..|jobs| - 1], jobId, k);
    }
  }

  lemma {:induction false} IndexOfFinds(jobs: seq<JobFigures>, jobId: string)
    ensures var k := IndexOf(jobs, jobId); k <= |jobs| && (k < |jobs| ==> jobs[k].jobId == jobId)
  {
    if jobs != [] {
      IndexOfFinds(jobs[..|jobs| - 1], jobId);
    }
  }

  lemma {:induction false} NumberOfJob(runs: seq<Run>, jobId: string, p: Run -> bool)
    ensures Number(OfJob(runs, jobId), p) == Number(runs, (r: Run) => r.jobId == jobId && p(r))
  {
    if runs != [] {
      var init, run := runs[..|runs| - 1], runs[|runs| - 1];
      NumberOfJob(init, jobId, p);
      if run.jobId == jobId {
        NumberMore(OfJob(init, jobId), run, p);
      }
    }
  }

  lemma {:induction false} JobsAddUp(jobs: seq<JobFigures>, all: seq<JobFigures>, tidy: string -> string,
                                     runs: seq<Run>, o: Outcome)
    requires jobs <= all
    requires DistinctJobs(all)
    requires forall i :: 0 <= i < |jobs| ==> CountsRuns(jobs[i].summary.counts, tidy, OfJob(runs, jobs[i].jobId))
    ensures AddJobs(jobs, o) == InCells(runs, (r: Run) => IndexOf(all, r.jobId), |jobs|, HasOutcome(tidy, o))
  {
    hide OutcomeOf;
    if jobs != [] {
      var n := |jobs| - 1;
      var cell := (r: Run) => IndexOf(all, r.jobId);
      var p := HasOutcome(tidy, o);
      JobsAddUp(jobs[..n], all, tidy, runs, o);
      NumberOfJob(runs, jobs[n].jobId, p);
      forall r: Run ensures r.jobId == jobs[n].jobId <==> cell(r) == n {
        IndexOfFinds(all, r.jobId);
        if r.jobId == all[n].jobId {
          IndexOfIs(all, r.jobId, n);
        }
      }
      NumberSame(runs, (r: Run) => r.jobId == jobs[n].jobId && p(r), InCell(cell, n, p));
    }
  }

  /** By outcome, the columns, the totals and the jobs count the same runs; together they count every run once. */
  lemma CountsConserve(columns: seq<Counts>, totals: Summary, jobs: seq<JobFigures>,
                       tidy: string -> string, runs: seq<Run>, g: Range, o: Outcome)
    requires ValidRange(g) && Charts(columns, totals, jobs, tidy, runs, g)
    ensures AddColumns(columns, o) == totals.counts.Of(o) == AddJobs(jobs, o)
    ensures totals.counts.Sum() == totals.total == |runs|
  {
    hide Column, OutcomeOf;
    var p := HasOutcome(tidy, o);
    ColumnsAddUp(columns, g, tidy, runs, o);
    CellsConserve(runs, (r: Run) => Column(g.since, g.until, g.buckets, r.startedAt), |columns|, p);
    JobsAddUp(jobs, jobs, tidy, runs, o);
    forall r: Run | r in runs ensures IndexOf(jobs, r.jobId) < |jobs| {
      var i :| 0 <= i < |jobs| && jobs[i].jobId == r.jobId;
      IndexOfIs(jobs, r.jobId, i);
    }
    CellsConserve(runs, (r: Run) => IndexOf(jobs, r.jobId), |jobs|, p);
    OutcomesAddUp(totals.counts, tidy, runs);
  }

  lemma {:induction false} OutcomesAddUp(c: Counts, tidy: string -> string, runs: seq<Run>)
    requires CountsRuns(c, tidy, runs)
    ensures c.Sum() == |runs|
  {
    NumbersAddUp(tidy, runs);
    assert c.Of(Succeeded) == c.succeeded && c.Of(Failed) == c.failed;
    assert c.Of(Cancelled) == c.cancelled && c.Of(Running) == c.running;
  }

  lemma {:induction false} NumbersAddUp(tidy: string -> string, runs: seq<Run>)
    ensures Number(runs, HasOutcome(tidy, Succeeded)) + Number(runs, HasOutcome(tidy, Failed))
          + Number(runs, HasOutcome(tidy, Cancelled)) + Number(runs, HasOutcome(tidy, Running)) == |runs|
  {
    if runs != [] {
      NumbersAddUp(tidy, runs[..|runs| - 1]);
    }
  }

  // ---------------------------------------------------------------------
  // Paging through the runs while new ones start and others end
  // ---------------------------------------------------------------------

  const PAGE_SIZE: nat := 500

  predicate InRange(r: Run, since: real, until: real) {
    since <= r.startedAt < until
  }

  predicate HasId(runs: seq<Run>, id: string) {
    exists i :: 0 <= i < |runs| && runs[i].id == id
  }

  ghost predicate DistinctIds(runs: seq<Run>) {
    forall i, j :: 0 <= i < j < |runs| ==> runs[i].id != runs[j].id
  }

  /** One page: the runs in the range, each id once. */
  method CollectPage(runs: seq<Run>, items: seq<Run>, since: real, until: real) returns (more: seq<Run>)
    requires DistinctIds(runs)
    ensures DistinctIds(more) && runs <= more
    ensures forall r :: r in items && InRange(r, since, until) ==> HasId(more, r.id)
    ensures forall r :: r in more ==> r in runs || (r in items && InRange(r, since, until))
  {
    more := runs;
    for n := 0 to |items|
      invariant DistinctIds(more) && runs <= more
      invariant forall i :: 0 <= i < n && InRange(items[i], since, until) ==> HasId(more, items[i].id)
      invariant forall r :: r in more ==> r in runs || (r in items && InRange(r, since, until))
    {
      ghost var before := more;
      if InRange(items[n], since, until) && !HasId(more, items[n].id) {
        more := more + [items[n]];
        assert more[|before|].id == items[n].id;
      }
      IdsStay(before, more);
    }
  }

  /** One run, as saved earlier and later: what it was started with stays. */
  predicate SameRun(r: Run, x: Run) {
    r.id == x.id && r.jobId == x.jobId && r.startedAt == x.startedAt
  }

  /** Later the same runs stand at the end, saved again or not, with new ones in front. */
  ghost predicate Follows(earlier: seq<Run>, later: seq<Run>) {
    && |earlier| <= |later|
    && forall i :: 0 <= i < |earlier| ==> SameRun(later[|later| - |earlier| + i], earlier[i])
  }

  ghost predicate AllFollow(stores: seq<seq<Run>>) {
    forall k: nat :: k + 1 < |stores| ==> Follows(stores[k], stores[k + 1])
  }

  lemma {:induction false} FollowsUntil(stores: seq<seq<Run>>, from: nat, until: nat)
    requires AllFollow(stores) && from <= until < |stores|
    ensures Follows(stores[from], stores[until])
    decreases until - from
  {
    if from < until {
      FollowsUntil(stores, from, until - 1);
      var mid, last := stores[until - 1], stores[until];
      assert Follows(mid, stores[until - 1 + 1]);
      var shift := |mid| - |stores[from]|;
      forall i | 0 <= i < |stores[from]| ensures SameRun(last[|last| - |stores[from]| + i], stores[from][i]) {
        assert SameRun(last[|last| - |mid| + (shift + i)], mid[shift + i]);
      }
    }
  }

  /** A record as one of the first stores held it. */
  ghost predicate HeldBy(stores: seq<seq<Run>>, last: nat, r: Run) {
    exists k: nat :: k <= last && k < |stores| && r in stores[k]
  }

  lemma HeldLater(stores: seq<seq<Run>>, last: nat, r: Run)
    requires AllFollow(stores) && last < |stores| && HeldBy(stores, last, r)
    ensures exists x :: x in stores[last] && SameRun(x, r)
  {
    var k: nat :| k <= last && r in stores[k];
    FollowsUntil(stores, k, last);
    var i :| 0 <= i < |stores[k]| && stores[k][i] == r;
    var j := |stores[last]| - |stores[k]| + i;
    assert SameRun(stores[last][j], r) && stores[last][j] in stores[last];
  }

  /** Two records of one id, with ids distinct in the end, are of one run. */
  lemma IdsIdentify(stores: seq<seq<Run>>, last: nat, r: Run, x: Run)
    requires AllFollow(stores) && last < |stores| && DistinctIds(stores[last])
    requires HeldBy(stores, last, r) && HeldBy(stores, last, x) && r.id == x.id
    ensures SameRun(r, x)
  {
    HeldLater(stores, last, r);
    HeldLater(stores, last, x);
  }

  /** A collected record of every run of the range that was stored at the call. */
  ghost predicate CollectsStored(stored: seq<Run>, runs: seq<Run>, since: real, until: real) {
    forall r :: r in stored && since <= r.startedAt < until ==> HasId(runs, r.id)
  }

  /**
   `collect_runs` over a store listed newest first.  `stores` is what it holds one
   moment after the other: new runs come to stand in front, and a run is saved
   again when it ends.  Each page is read from the next of them, the last one from
   `stores[last]`.  Every run of the range that was stored at the call is collected,
   none twice, and nothing else than records of the range read meanwhile.
   */
  method CollectRuns(stores: seq<seq<Run>>, since: real, until: real) returns (runs: seq<Run>, last: nat)
    requires stores != [] && AllFollow(stores)
    ensures last < |stores| && DistinctIds(runs)
    ensures forall r :: r in runs ==> since <= r.startedAt < until && HeldBy(stores, last, r)
    ensures CollectsStored(stores[0], runs, since, until)
    ensures DistinctIds(stores[last]) ==>
      forall r, x :: r in stores[0] && x in runs && r.id == x.id ==> SameRun(r, x)
  {
    var offset, done := 0, false;
    runs, last := [], 0;
    while !done
      invariant 0 <= last < |stores| && 0 <= offset <= |stores[last]|
      invariant Follows(stores[0], stores[last])
      invariant DistinctIds(runs)
      invariant forall r :: r in runs ==> InRange(r, since, until) && HeldBy(stores, last, r)
      invariant CollectedBefore(stores[0], stores[last], offset, runs, since, until)
      invariant done ==> offset == |stores[last]|
      decreases |stores| - last, |stores[last]| - offset, if done then 0 else 1
    {
      if last + 1 < |stores| {
        FollowsUntil(stores, 0, last + 1);
        CollectedStays(stores[0], stores[last], stores[last + 1], offset, runs, since, until);
        last := last + 1;
      }
      var store := stores[last];
      var items := store[offset..if offset + PAGE_SIZE < |store| then offset + PAGE_SIZE else |store|];
      ghost var before := runs;
      runs := CollectPage(runs, items, since, until);
      IdsStay(before, runs);
      assert forall i :: offset <= i < offset + |items| ==> store[i] == items[i - offset] && store[i] in items;
      offset := offset + |items|;
      done := items == [] || |items| < PAGE_SIZE || offset >= |store|;
    }
    AllCollected(stores[0], stores[last], runs, since, until);
    if DistinctIds(stores[last]) {
      forall r, x | r in stores[0] && x in runs && r.id == x.id ensures SameRun(r, x) {
        IdsIdentify(stores, last, r, x);
      }
    }
  }

  /** Runs stored at the call that stand before the offset now are collected. */
  ghost predicate CollectedBefore(stored: seq<Run>, store: seq<Run>, offset: nat, runs: seq<Run>,
                                  since: real, until: real)
  {
    forall i :: |store| - |stored| <= i < offset && 0 <= i < |store| && InRange(store[i], since, until) ==>
      HasId(runs, store[i].id)
  }

  lemma CollectedStays(stored: seq<Run>, store: seq<Run>, later: seq<Run>, offset: nat, runs: seq<Run>,
                       since: real, until: real)
    requires |stored| <= |store| && Follows(store, later) && offset <= |store|
    requires CollectedBefore(stored, store, offset, runs, since, until)
    ensures CollectedBefore(stored, later, offset, runs, since, until)
  {
    var shift := |later| - |store|;
    forall i | |later| - |stored| <= i < offset && InRange(later[i], since, until) ensures HasId(runs, later[i].id) {
      assert SameRun(later[|later| - |store| + (i - shift)], store[i - shift]);
    }
  }

  lemma IdsStay(runs: seq<Run>, more: seq<Run>)
    requires runs <= more
    ensures forall id :: HasId(runs, id) ==> HasId(more, id)
  {
    forall id | HasId(runs, id) ensures HasId(more, id) {
      var i :| 0 <= i < |runs| && runs[i].id == id;
      assert more[i].id == id;
    }
  }

  lemma AllCollected(stored: seq<Run>, store: seq<Run>, runs: seq<Run>, since: real, until: real)
    requires Follows(stored, store) && CollectedBefore(stored, store, |store|, runs, since, until)
    ensures CollectsStored(stored, runs, since, until)
  {
    forall r | r in stored && InRange(r, since, until) ensures HasId(runs, r.id) {
      var i :| 0 <= i < |stored| && stored[i] == r;
      assert SameRun(store[|store| - |stored| + i], stored[i]);
    }
  }
}
