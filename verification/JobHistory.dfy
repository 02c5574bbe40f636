/**
 Deleting a job's finished executions: the scheduler pages through the history
 while other coroutines go on saving executions, then deletes what it collected.
 */
module JobHistory {
  import opened Wrappers
  import opened JobStore

  /** The store, and the executions of the attempts running now (`running_execution_ids`). */
  datatype History = History(store: Store, running: set<string>)

  /** What other coroutines do meanwhile: open an attempt under a fresh id, save an execution, close an attempt. */
  datatype Other = Opens(id: string) | Saves(e: Execution) | Closes(id: string)

  function Step(h: History, o: Other): History {
    match o
    case Opens(id) => h.(running := h.running + {id})
    case Saves(e) => h.(store := Save(h.store, e))
    case Closes(id) => h.(running := h.running - {id})
  }

  /** An execution is saved when it starts, under a fresh id, and once more when it ends. */
  predicate Allowed(h: History, o: Other) {
    match o
    case Opens(id) => id !in h.store.byId
    case Saves(e) =>
      e.id in h.store.byId ==> h.store.byId[e.id].status == "running" && h.store.byId[e.id].jobId == e.jobId
    case Closes(_) => true
  }

  /** The history once the first `n` of the others' steps are done. */
  ghost function Future(h: History, others: seq<Other>, n: nat): History
    requires n <= |others|
  {
    if n == 0 then h else Step(Future(h, others, n - 1), others[n - 1])
  }

  ghost predicate AllAllowed(h: History, others: seq<Other>) {
    forall n: nat :: n < |others| ==> Allowed(Future(h, others, n), others[n])
  }

  predicate IsRunning(h: History, e: Execution) {
    e.status == "running" || e.id in h.running
  }

  /** A finished record of the job that passes the filter, standing in the job's list. */
  ghost predicate FinishedMatch(h: History, jobId: string, status: Option<string>, x: Execution) {
    && x in ListOf(h.store, jobId) && x.id in h.store.byId && h.store.byId[x.id] == x
    && Matches(x, status) && !IsRunning(h, x)
  }

  /** What may be deleted: a listed record of the status asked for, not running by its status nor by its attempt. */
  ghost predicate Deletable(h: History, jobId: string, status: Option<string>, x: Execution) {
    && x in ListOf(h.store, jobId)
    && (status.None? || status.value == "" || x.status == status.value)
    && x.status != "running" && x.id !in h.running
  }

  lemma FinishedIsDeletable(h: History, jobId: string, status: Option<string>)
    requires Agree(h.store)
    ensures forall x :: FinishedMatch(h, jobId, status, x) <==> Deletable(h, jobId, status, x)
  {
    assert jobId in h.store.lists ==> ListAgrees(h.store, jobId, h.store.lists[jobId]);
  }

  // ---------------------------------------------------------------------
  // A finished record never moves towards the front
  // ---------------------------------------------------------------------

  /** How many matching records stand before the one with this id. */
  function Ahead(list: seq<Execution>, status: Option<string>, id: string): nat {
    if list == [] || list[0].id == id then 0
    else (if Matches(list[0], status) then 1 else 0) + Ahead(list[1..], status, id)
  }

  lemma {:induction false} AheadFinds(list: seq<Execution>, status: Option<string>, x: Execution)
    requires UniqueIds(list) && x in list && Matches(x, status)
    ensures var k := Ahead(list, status, x.id); k < |Matching(list, status)| && Matching(list, status)[k] == x
  {
    if list[0].id == x.id {
      assert list[0] == x;
    } else {
      AheadFinds(list[1..], status, x);
    }
  }

  lemma {:induction false} UpdateKeepsAhead(list: seq<Execution>, k: nat, e: Execution, status: Option<string>,
                                            x: Execution)
    requires k < |list| && list[k].id == e.id && list[k].status == "running"
    requires Matches(x, status) && x.status != "running" && x.id != e.id
    ensures Ahead(list[k := e], status, x.id) >= Ahead(list, status, x.id)
  {
    var new' := list[k := e];
    if list[0].id != x.id {
      if k == 0 {
        assert new'[1..] == list[1..];
      } else {
        assert new'[1..] == list[1..][k - 1 := e];
        UpdateKeepsAhead(list[1..], k - 1, e, status, x);
      }
    }
  }

  lemma UpsertKeepsAhead(list: seq<Execution>, e: Execution, status: Option<string>, x: Execution)
    requires forall y :: y in list && y.id == e.id ==> y.status == "running"
    requires Matches(x, status) && x.status != "running" && x.id != e.id
    ensures Ahead(Upsert(list, e), status, x.id) >= Ahead(list, status, x.id)
  {
    var k := Position(list, e.id);
    if k == -1 {
      assert ([e] + list)[1..] == list;
    } else {
      assert list[k] in list;
      UpdateKeepsAhead(list, k, e, status, x);
    }
  }

  /** Whatever the others do, a finished match stays, and only further from the front. */
  lemma FinishedStays(h: History, o: Other, jobId: string, status: Option<string>, x: Execution)
    requires Agree(h.store) && Allowed(h, o) && FinishedMatch(h, jobId, status, x)
    ensures FinishedMatch(Step(h, o), jobId, status, x)
    ensures Ahead(ListOf(Step(h, o).store, jobId), status, x.id) >= Ahead(ListOf(h.store, jobId), status, x.id)
  {
    if o.Saves? && o.e.jobId == jobId {
      var list := ListOf(h.store, jobId);
      assert ListAgrees(h.store, jobId, list);
      assert x.id != o.e.id;
      UpsertMembers(list, o.e);
      UpsertKeepsAhead(list, o.e, status, x);
    }
  }

  lemma StepKeepsAgreement(h: History, o: Other)
    requires Agree(h.store) && Allowed(h, o)
    ensures Agree(Step(h, o).store)
  {
    if o.Saves? {
      SaveAgreesExactly(h.store, o.e);
    }
  }

  lemma {:induction false} FutureAgrees(h: History, others: seq<Other>, n: nat)
    requires Agree(h.store) && AllAllowed(h, others) && n <= |others|
    ensures Agree(Future(h, others, n).store)
  {
    if n > 0 {
      FutureAgrees(h, others, n - 1);
      StepKeepsAgreement(Future(h, others, n - 1), others[n - 1]);
    }
  }

  lemma {:induction false} FutureKeepsFinished(h: History, others: seq<Other>, from: nat, until: nat,
                                               jobId: string, status: Option<string>, x: Execution)
    requires Agree(h.store) && AllAllowed(h, others) && from <= until <= |others|
    requires FinishedMatch(Future(h, others, from), jobId, status, x)
    ensures FinishedMatch(Future(h, others, until), jobId, status, x)
    ensures Ahead(ListOf(Future(h, others, until).store, jobId), status, x.id)
      >= Ahead(ListOf(Future(h, others, from).store, jobId), status, x.id)
    decreases until - from
  {
    hide Step, Agree, Allowed, Ahead, FinishedMatch;
    if from < until {
      FutureKeepsFinished(h, others, from, until - 1, jobId, status, x);
      FutureAgrees(h, others, until - 1);
      FinishedStays(Future(h, others, until - 1), others[until - 1], jobId, status, x);
    }
  }

  lemma {:induction false} MatchingNoLonger(list: seq<Execution>, status: Option<string>)
    ensures |Matching(list, status)| <= |list|
    ensures forall x :: x in Matching(list, status) ==> x in list && Matches(x, status)
  {
    if list != [] {
      MatchingNoLonger(list[1..], status);
    }
  }

  lemma {:induction false} FutureIsBounded(h: History, others: seq<Other>, n: nat, jobId: string)
    requires n <= |others|
    ensures |ListOf(Future(h, others, n).store, jobId)| <= |ListOf(h.store, jobId)| + n
  {
    if n > 0 {
      FutureIsBounded(h, others, n - 1, jobId);
    }
  }

  // ---------------------------------------------------------------------
  // The scheduler's side
  // ---------------------------------------------------------------------

  const PAGE_SIZE: nat := 100

  /** Ids of the records of a page that are not running. */
  function FinishedIds(h: History, items: seq<Execution>): seq<string> {
    if items == [] then []
    else (if IsRunning(h, items[0]) then [] else [items[0].id]) + FinishedIds(h, items[1..])
  }

  lemma {:induction false} FinishedIdsMembers(h: History, items: seq<Execution>)
    ensures forall e :: e in items && !IsRunning(h, e) ==> e.id in FinishedIds(h, items)
    ensures forall id :: id in FinishedIds(h, items) ==> exists e :: e in items && e.id == id && !IsRunning(h, e)
  {
    if items != [] {
      FinishedIdsMembers(h, items[1..]);
      forall id | id in FinishedIds(h, items) ensures exists e :: e in items && e.id == id && !IsRunning(h, e) {
        if id in FinishedIds(h, items[1..]) {
          var e :| e in items[1..] && e.id == id && !IsRunning(h, e);
          assert e in items;
        } else {
          assert items[0] in items;
        }
      }
    }
  }

  /** Every collected id is a finished match now. */
  ghost predicate AllFinished(h: History, jobId: string, status: Option<string>, ids: seq<string>) {
    forall id :: id in ids ==> id in h.store.byId && FinishedMatch(h, jobId, status, h.store.byId[id])
  }

  /** Every match finished at the call is collected, or still ahead of the paging. */
  ghost predicate NoneMissed(h0: History, h: History, jobId: string, status: Option<string>, ids: seq<string>,
                             offset: nat)
  {
    forall x :: FinishedMatch(h0, jobId, status, x) ==>
      x.id in ids || (FinishedMatch(h, jobId, status, x) && Ahead(ListOf(h.store, jobId), status, x.id) >= offset)
  }

  lemma WaitKeepsFinished(h0: History, others: seq<Other>, from: nat, until: nat, jobId: string,
                          status: Option<string>, ids: seq<string>)
    requires Agree(h0.store) && AllAllowed(h0, others) && from <= until <= |others|
    requires AllFinished(Future(h0, others, from), jobId, status, ids)
    ensures AllFinished(Future(h0, others, until), jobId, status, ids)
  {
    hide Agree, AllAllowed, Ahead;
    var h, t := Future(h0, others, from), Future(h0, others, until);
    FutureAgrees(h0, others, from);
    forall id | id in ids ensures id in t.store.byId && FinishedMatch(t, jobId, status, t.store.byId[id]) {
      RecordHasId(h.store, id);
      FutureKeepsFinished(h0, others, from, until, jobId, status, h.store.byId[id]);
    }
  }

  lemma RecordHasId(s: Store, id: string)
    requires Agree(s) && id in s.byId
    ensures s.byId[id].id == id
  {
  }

  lemma WaitKeepsPaging(h0: History, others: seq<Other>, from: nat, until: nat, jobId: string, status: Option<string>,
                        ids: seq<string>, offset: nat)
    requires Agree(h0.store) && AllAllowed(h0, others) && from <= until <= |others|
    requires NoneMissed(h0, Future(h0, others, from), jobId, status, ids, offset)
    ensures NoneMissed(h0, Future(h0, others, until), jobId, status, ids, offset)
  {
    hide Agree, AllAllowed, FinishedMatch, Ahead;
    var t := Future(h0, others, until);
    forall x | FinishedMatch(h0, jobId, status, x) && x.id !in ids
      ensures FinishedMatch(t, jobId, status, x) && Ahead(ListOf(t.store, jobId), status, x.id) >= offset
    {
      FutureKeepsFinished(h0, others, from, until, jobId, status, x);
    }
  }

  lemma UniqueInList(s: Store, jobId: string)
    requires Agree(s)
    ensures UniqueIds(ListOf(s, jobId))
    ensures forall e :: e in ListOf(s, jobId) ==> e.id in s.byId && s.byId[e.id] == e
  {
    assert jobId in s.lists ==> ListAgrees(s, jobId, s.lists[jobId]);
  }

  /** The ids taken from a page are finished matches. */
  lemma PageIsFinished(h: History, jobId: string, status: Option<string>, offset: nat, items: seq<Execution>)
    requires Agree(h.store)
    requires items == Page(Matching(ListOf(h.store, jobId), status), offset, PAGE_SIZE)
    ensures AllFinished(h, jobId, status, FinishedIds(h, items))
  {
    hide Agree, Matching, FinishedIds;
    var all := Matching(ListOf(h.store, jobId), status);
    MatchingNoLonger(ListOf(h.store, jobId), status);
    FinishedIdsMembers(h, items);
    UniqueInList(h.store, jobId);
    forall id | id in FinishedIds(h, items)
      ensures id in h.store.byId && FinishedMatch(h, jobId, status, h.store.byId[id])
    {
      var e :| e in items && e.id == id && !IsRunning(h, e);
      assert e in all;
    }
  }

  /** A finished match that is ahead of the paging and not on the page comes after it. */
  lemma NotOnPage(h: History, jobId: string, status: Option<string>, offset: nat, items: seq<Execution>, x: Execution)
    requires Agree(h.store) && FinishedMatch(h, jobId, status, x)
    requires items == Page(Matching(ListOf(h.store, jobId), status), offset, PAGE_SIZE)
    requires Ahead(ListOf(h.store, jobId), status, x.id) >= offset && x.id !in FinishedIds(h, items)
    ensures offset + |items| <= Ahead(ListOf(h.store, jobId), status, x.id) < |Matching(ListOf(h.store, jobId), status)|
  {
    hide Agree, Matching, FinishedIds, Ahead;
    var all := Matching(ListOf(h.store, jobId), status);
    UniqueInList(h.store, jobId);
    AheadFinds(ListOf(h.store, jobId), status, x);
    FinishedIdsMembers(h, items);
    assert x !in items;
    assert forall i :: 0 <= i < |items| ==> all[offset + i] == items[i] && items[i] in items;
    var k := Ahead(ListOf(h.store, jobId), status, x.id);
    assert forall i :: offset <= i < offset + |items| ==> all[i] == items[i - offset];
  }

  /** Reading a page moves the paging on by its length without missing a match; the last page ends it. */
  lemma PageKeepsPaging(h0: History, h: History, jobId: string, status: Option<string>, ids: seq<string>, offset: nat,
                        items: seq<Execution>)
    requires Agree(h.store)
    requires AllFinished(h, jobId, status, ids) && NoneMissed(h0, h, jobId, status, ids, offset)
    requires items == Page(Matching(ListOf(h.store, jobId), status), offset, PAGE_SIZE)
    ensures AllFinished(h, jobId, status, ids + FinishedIds(h, items))
    ensures NoneMissed(h0, h, jobId, status, ids + FinishedIds(h, items), offset + |items|)
    ensures items == [] || offset + |items| >= |Matching(ListOf(h.store, jobId), status)| ==>
      forall x :: FinishedMatch(h0, jobId, status, x) ==> x.id in ids + FinishedIds(h, items)
  {
    hide Agree, Matching, FinishedIds, Ahead, FinishedMatch;
    PageIsFinished(h, jobId, status, offset, items);
    forall x | FinishedMatch(h0, jobId, status, x) && x.id !in ids + FinishedIds(h, items)
      ensures FinishedMatch(h, jobId, status, x)
      ensures offset + |items| <= Ahead(ListOf(h.store, jobId), status, x.id)
      ensures Ahead(ListOf(h.store, jobId), status, x.id) < |Matching(ListOf(h.store, jobId), status)|
    {
      NotOnPage(h, jobId, status, offset, items, x);
    }
  }

  /** A history without some records. */
  ghost function Deleted(h: History, gone: set<string>): History {
    History(Without(h.store, gone), h.running)
  }

  // ---------------------------------------------------------------------
  // A record that leaves the history between two pages
  // ---------------------------------------------------------------------

  /** The record of an id matches and stands before another one in the job's list. */
  predicate MatchesBefore(list: seq<Execution>, status: Option<string>, id: string, other: string) {
    0 <= Position(list, id) < Position(list, other) && Matches(list[Position(list, id)], status)
  }

  lemma {:induction false} AheadDropped(list: seq<Execution>, status: Option<string>, id: string, other: string)
    requires UniqueIds(list) && Position(list, other) >= 0 && id != other
    ensures Ahead(Drop(list, {id}), status, other) ==
      Ahead(list, status, other) - (if MatchesBefore(list, status, id, other) then 1 else 0)
  {
    if list[0].id != other {
      var rest := Drop(list[1..], {id});
      AheadDropped(list[1..], status, id, other);
      assert ([list[0]] + rest)[1..] == rest;
      if list[0].id == id {
        assert Drop(list, {id}) == rest;
      }
    }
  }

  lemma {:induction false} MatchingUnique(list: seq<Execution>, status: Option<string>)
    requires UniqueIds(list)
    ensures UniqueIds(Matching(list, status))
  {
    if list != [] {
      MatchingUnique(list[1..], status);
      MatchingNoLonger(list[1..], status);
      var rest := Matching(list[1..], status);
      forall i | 0 <= i < |rest| ensures rest[i].id != list[0].id {
        assert rest[i] in list[1..];
      }
    }
  }

  /** Some page from `offset` on holds the record. */
  ghost predicate StillRead(h: History, jobId: string, status: Option<string>, offset: nat, x: Execution) {
    exists o: nat :: o >= offset && x in Page(Matching(ListOf(h.store, jobId), status), o, PAGE_SIZE)
  }

  lemma StillReadAhead(h: History, jobId: string, status: Option<string>, offset: nat, x: Execution)
    requires Agree(h.store) && x in ListOf(h.store, jobId) && Matches(x, status)
    ensures StillRead(h, jobId, status, offset, x) <==> Ahead(ListOf(h.store, jobId), status, x.id) >= offset
  {
    hide Agree, Matching, Ahead;
    var list := ListOf(h.store, jobId);
    var all, k := Matching(list, status), Ahead(list, status, x.id);
    UniqueInList(h.store, jobId);
    AheadFinds(list, status, x);
    MatchingUnique(list, status);
    if k >= offset {
      assert Page(all, k, PAGE_SIZE)[0] == x;
    }
    forall o: nat | o >= offset && x in Page(all, o, PAGE_SIZE) ensures k >= offset {
      var i :| 0 <= i < |Page(all, o, PAGE_SIZE)| && Page(all, o, PAGE_SIZE)[i] == x;
      assert all[o + i] == x;
    }
  }

  /**
   When a record leaves the history between two pages, as a discarded run's does, a
   finished match that the paging has still to read is never read any more if and
   only if it is the next to be read and the record matched and stood before it.
   */
  lemma DeletionMissesExactly(h: History, jobId: string, status: Option<string>, offset: nat, x: Execution, id: string)
    requires Agree(h.store) && FinishedMatch(h, jobId, status, x) && StillRead(h, jobId, status, offset, x)
    requires id != x.id
    ensures var t, list := Deleted(h, {id}), ListOf(h.store, jobId);
      && FinishedMatch(t, jobId, status, x)
      && (!StillRead(t, jobId, status, offset, x) <==>
            Ahead(list, status, x.id) == offset && MatchesBefore(list, status, id, x.id))
  {
    hide Agree, Matching, Ahead, StillRead, Position, Drop;
    var t, list := Deleted(h, {id}), ListOf(h.store, jobId);
    UniqueInList(h.store, jobId);
    WithoutAgrees(h.store, {id});
    DropMembers(list, {id});
    assert Position(list, x.id) >= 0;
    AheadDropped(list, status, id, x.id);
    StillReadAhead(h, jobId, status, offset, x);
    StillReadAhead(t, jobId, status, offset, x);
  }

  /** A running record in front of `n` completed ones. */
  function RunningFirst(n: nat): seq<Execution> {
    seq(n + 1, k requires 0 <= k => Execution(seq(k, _ => 'a'), "job", 0, if k == 0 then "running" else "completed"))
  }

  function StoreOf(list: seq<Execution>): Store {
    Store(map id | id in (set e | e in list :: e.id) :: list[Position(list, id)], map["job" := list])
  }

  lemma StoreOfAgrees(n: nat)
    ensures Agree(StoreOf(RunningFirst(n))) && UniqueIds(RunningFirst(n))
    ensures ListOf(StoreOf(RunningFirst(n)), "job") == RunningFirst(n)
  {
    var list := RunningFirst(n);
    forall i, k | 0 <= i < k < |list| ensures list[i].id != list[k].id {
      assert |list[i].id| == i && |list[k].id| == k;
    }
    forall e | e in list ensures list[Position(list, e.id)] == e {
    }
    assert ListAgrees(StoreOf(list), "job", list);
  }

  lemma {:induction false} AllMatch(list: seq<Execution>)
    ensures Matching(list, None) == list
  {
    if list != [] {
      AllMatch(list[1..]);
    }
  }

  /** The oldest of `n` completed records behind a running one comes after a page of `n`. */
  lemma OldestComesNext(n: nat)
    requires n > 0
    ensures var list, x := RunningFirst(n), RunningFirst(n)[n];
      && Ahead(list, None, x.id) == n && MatchesBefore(list, None, "", x.id)
      && x !in Page(Matching(list, None), 0, n)
      && FinishedMatch(History(StoreOf(list), {""}), "job", None, x)
  {
    hide Matching, Ahead, Agree, StoreOf, Position;
    var list := RunningFirst(n);
    var x := list[n];
    StoreOfAgrees(n);
    AllMatch(list);
    AheadFinds(list, None, x);
    UniqueInList(StoreOf(list), "job");
    assert list[0].id == "" && |x.id| == n && list[n].id == x.id;
    PlacesOf(list, n);
  }

  lemma PlacesOf(list: seq<Execution>, n: nat)
    requires UniqueIds(list) && 0 < n < |list|
    ensures Position(list, list[0].id) == 0 && Position(list, list[n].id) == n && list[n] !in list[..n]
  {
  }

  /** One run more than a page: the running one is discarded after the first page, and the oldest is never read. */
  lemma DiscardMissesARun() returns (h: History, x: Execution)
    ensures Agree(h.store) && FinishedMatch(h, "job", None, x)
    ensures "" in h.running && x !in Page(Matching(ListOf(h.store, "job"), None), 0, PAGE_SIZE)
    ensures var t := Deleted(h, {""}); FinishedMatch(t, "job", None, x) && !StillRead(t, "job", None, PAGE_SIZE, x)
  {
    hide Matching, Ahead, StillRead, Agree, Deleted, Position, Drop, Page, Matches, StoreOf;
    var list := RunningFirst(PAGE_SIZE);
    h, x := History(StoreOf(list), {""}), list[PAGE_SIZE];
    StoreOfAgrees(PAGE_SIZE);
    OldestComesNext(PAGE_SIZE);
    StillReadAhead(h, "job", None, PAGE_SIZE, x);
    DeletionMissesExactly(h, "job", None, PAGE_SIZE, x, "");
  }

  /** Records that nobody saves any more. */
  ghost predicate Over(h: History, ids: set<string>) {
    forall id :: id in ids ==> id in h.store.byId && h.store.byId[id].status != "running"
  }

  lemma NothingDeleted(h: History)
    ensures Deleted(h, {}) == h && Over(h, {})
  {
    WithoutNothing(h.store);
  }

  lemma SavedById(s: Store, e: Execution)
    ensures Save(s, e).byId == s.byId[e.id := e]
  {
  }

  lemma FinishedAreOver(h: History, jobId: string, status: Option<string>, ids: seq<string>, gone: set<string>)
    requires AllFinished(h, jobId, status, ids) && forall id :: id in gone ==> id in ids
    ensures Over(h, gone)
  {
  }

  class Scheduler {
    const storage: InMemoryJobStorage
    var running: set<string>

    constructor (storage: InMemoryJobStorage)
      ensures this.storage == storage && running == {}
    {
      this.storage := storage;
      running := {};
    }

    ghost function View(): History
      reads this, storage
    {
      History(storage.View(), running)
    }

    /** One step of another coroutine, on the history without the records deleted so far. */
    method TakeStep(o: Other, ghost h: History, ghost gone: set<string>)
      requires View() == Deleted(h, gone) && Allowed(h, o) && Over(h, gone)
      modifies this, storage
      ensures View() == Deleted(Step(h, o), gone) && Over(Step(h, o), gone)
    {
      hide JobStore.Save, JobStore.Without;
      match o {
        case Opens(id) => running := running + {id};
        case Saves(e) =>
          SaveWithout(h.store, e, gone);
          SavedById(h.store, e);
          storage.SaveExecution(e);
        case Closes(id) => running := running - {id};
      }
    }

    /** An await: some of the others' steps happen, none or all of them. */
    method LetOthersRun(ghost h0: History, others: seq<Other>, from: nat, ghost gone: set<string>) returns (until: nat)
      requires from <= |others| && View() == Deleted(Future(h0, others, from), gone)
      requires AllAllowed(h0, others) && Over(Future(h0, others, from), gone)
      modifies this, storage
      ensures from <= until <= |others| && View() == Deleted(Future(h0, others, until), gone)
    {
      hide Step, Allowed, Over, Deleted;
      var goal: nat := *;
      until := from;
      while until < |others| && until < goal
        invariant from <= until <= |others| && View() == Deleted(Future(h0, others, until), gone)
        invariant Over(Future(h0, others, until), gone)
      {
        TakeStep(others[until], Future(h0, others, until), gone);
        until := until + 1;
      }
    }

    /**
     `delete_executions`.  The others go on between the pages and between the
     deletions.  `h` is the history their steps alone make by the end: what is left
     of it lacks exactly `gone`.  Every match finished at the call is among them,
     nothing running is, and the count is what really left the store.
     */
    method DeleteExecutions(jobId: string, status: Option<string>, others: seq<Other>)
      returns (deleted: nat, ghost done: nat, ghost gone: set<string>)
      requires storage.Valid() && AllAllowed(View(), others)
      modifies this, storage
      ensures done <= |others|
      ensures var h := Future(old(View()), others, done);
        && View() == History(Without(h.store, gone), h.running)
        && (forall id :: id in gone ==> id in h.store.byId && Deletable(h, jobId, status, h.store.byId[id]))
      ensures forall x :: Deletable(old(View()), jobId, status, x) ==> x.id in gone
      ensures deleted == |gone|
    {
      hide AllAllowed, FinishedMatch, Ahead, Matching, Over;
      ghost var h0 := View();
      FinishedIsDeletable(h0, jobId, status);
      var toDelete, n := CollectFinished(h0, jobId, status, others);
      deleted, done, gone := DeleteAll(toDelete, h0, jobId, status, others, n);
      FutureAgrees(h0, others, done);
      FinishedIsDeletable(Future(h0, others, done), jobId, status);
    }

    /** The pages: ids of records that are finished now, every one finished at the call among them. */
    method CollectFinished(ghost h0: History, jobId: string, status: Option<string>, others: seq<Other>)
      returns (toDelete: seq<string>, n: nat)
      requires View() == h0 && Agree(h0.store) && AllAllowed(h0, others)
      modifies this, storage
      ensures n <= |others| && View() == Future(h0, others, n)
      ensures AllFinished(View(), jobId, status, toDelete)
      ensures forall x :: FinishedMatch(h0, jobId, status, x) ==> x.id in toDelete
    {
      hide AllAllowed, FinishedMatch, Ahead, Matching, Over, Agree, FinishedIds, Deleted, Step;
      ghost var bound := |ListOf(h0.store, jobId)| + |others|;
      var offset := 0;
      toDelete, n := [], 0;
      while true
        invariant n <= |others| && View() == Future(h0, others, n)
        invariant AllFinished(View(), jobId, status, toDelete)
        invariant NoneMissed(h0, View(), jobId, status, toDelete, offset)
        invariant offset <= bound
        decreases bound - offset
      {
        NothingDeleted(View());
        var until := LetOthersRun(h0, others, n, {});
        NothingDeleted(Future(h0, others, until));
        WaitKeepsFinished(h0, others, n, until, jobId, status, toDelete);
        WaitKeepsPaging(h0, others, n, until, jobId, status, toDelete, offset);
        n := until;
        FutureAgrees(h0, others, n);
        FutureIsBounded(h0, others, n, jobId);
        ghost var h := View();
        MatchingNoLonger(ListOf(h.store, jobId), status);
        var items, total := storage.GetExecutions(jobId, PAGE_SIZE, offset, status);
        PageKeepsPaging(h0, h, jobId, status, toDelete, offset, items);
        var finished := Finished(items);
        toDelete := toDelete + finished;
        offset := offset + |items|;
        if items == [] || offset >= total {
          break;
        }
      }
    }

    method Finished(items: seq<Execution>) returns (ids: seq<string>)
      ensures ids == FinishedIds(View(), items)
    {
      ids := [];
      ghost var h := View();
      for n := 0 to |items|
        invariant ids + FinishedIds(h, items[n..]) == FinishedIds(h, items)
      {
        if !(items[n].status == "running" || items[n].id in running) {
          ids := ids + [items[n].id];
        }
      }
    }

    /** An id may have been collected on two pages; only its first deletion counts. */
    method DeleteAll(ids: seq<string>, ghost h0: History, jobId: string, status: Option<string>,
                     others: seq<Other>, from: nat)
      returns (deleted: nat, ghost done: nat, ghost gone: set<string>)
      requires Agree(h0.store) && AllAllowed(h0, others) && from <= |others| && View() == Future(h0, others, from)
      requires AllFinished(View(), jobId, status, ids)
      modifies this, storage
      ensures from <= done <= |others| && gone == (set id | id in ids)
      ensures View() == Deleted(Future(h0, others, done), gone)
      ensures AllFinished(Future(h0, others, done), jobId, status, ids)
      ensures deleted == |gone|
    {
      hide Agree, AllAllowed, FinishedMatch, JobStore.Without, JobStore.Delete, Step;
      deleted, gone := 0, {};
      NothingDeleted(View());
      var n := from;
      for k := 0 to |ids|
        invariant from <= n <= |others| && View() == Deleted(Future(h0, others, n), gone)
        invariant AllFinished(Future(h0, others, n), jobId, status, ids)
        invariant gone == (set id | id in ids[..k]) && deleted == |gone|
      {
        FinishedAreOver(Future(h0, others, n), jobId, status, ids, gone);
        var until := LetOthersRun(h0, others, n, gone);
        WaitKeepsFinished(h0, others, n, until, jobId, status, ids);
        n := until;
        FutureAgrees(h0, others, n);
        var ok := DeleteOne(ids[k], Future(h0, others, n), gone);
        assert ids[..k + 1] == ids[..k] + [ids[k]];
        if ok {
          deleted := deleted + 1;
        }
        gone := gone + {ids[k]};
      }
      assert ids[..|ids|] == ids;
      done := n;
    }

    method DeleteOne(id: string, ghost h: History, ghost gone: set<string>) returns (ok: bool)
      requires Agree(h.store) && id in h.store.byId && View() == Deleted(h, gone)
      modifies storage
      ensures View() == Deleted(h, gone + {id})
      ensures ok <==> id !in gone
      ensures |gone + {id}| == |gone| + (if ok then 1 else 0)
    {
      hide Agree, JobStore.Delete;
      WithoutAgrees(h.store, gone);
      DeleteOneMore(h.store, gone, id);
      ok := storage.DeleteExecution(id);
      if !ok {
        assert gone + {id} == gone;
      }
    }
  }
}
