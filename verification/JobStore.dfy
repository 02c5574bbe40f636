/**
 The in-memory history store of the jobs plugin: a map by id and one newest-first
 list per job.  `Agree` says that the two indexes hold the same records.
 */
module JobStore {
  import opened Wrappers

  datatype Execution = Execution(id: string, jobId: string, startedAt: int, status: string)

  datatype Store = Store(byId: map<string, Execution>, lists: map<string, seq<Execution>>)

  function ListOf(s: Store, jobId: string): seq<Execution> {
    if jobId in s.lists then s.lists[jobId] else []
  }

  /**
   Every record by id stands in its own job's list; every list entry is the
   record of its id, under its own job, and no list holds an id twice.
   */
  ghost predicate Agree(s: Store) {
    && (forall id :: id in s.byId ==> s.byId[id].id == id && s.byId[id] in ListOf(s, s.byId[id].jobId))
    && (forall j :: j in s.lists ==> ListAgrees(s, j, s.lists[j]))
  }

  ghost predicate ListAgrees(s: Store, jobId: string, list: seq<Execution>) {
    && (forall e :: e in list ==> e.jobId == jobId && e.id in s.byId && s.byId[e.id] == e)
    && UniqueIds(list)
  }

  ghost predicate UniqueIds(list: seq<Execution>) {
    forall i, k :: 0 <= i < k < |list| ==> list[i].id != list[k].id
  }

  // ---------------------------------------------------------------------
  // Saving
  // ---------------------------------------------------------------------

  /** Position of `id` in a list, -1 without it. */
  function Position(list: seq<Execution>, id: string): (k: int)
    ensures -1 <= k < |list|
    ensures k >= 0 ==> list[k].id == id
    ensures k == -1 ==> forall e :: e in list ==> e.id != id
  {
    if list == [] then -1
    else if list[0].id == id then 0
    else
      var k := Position(list[1..], id);
      if k == -1 then -1 else k + 1
  }

  /** The record replaces the one with its id, or comes first. */
  function Upsert(list: seq<Execution>, e: Execution): seq<Execution> {
    var k := Position(list, e.id);
    if k == -1 then [e] + list else list[k := e]
  }

  function Save(s: Store, e: Execution): Store {
    Store(s.byId[e.id := e], s.lists[e.jobId := Upsert(ListOf(s, e.jobId), e)])
  }

  /** The execution is new, or saved again under the job it was saved under. */
  predicate KeepsJob(s: Store, e: Execution) {
    e.id in s.byId ==> s.byId[e.id].jobId == e.jobId
  }

  lemma UpsertMembers(list: seq<Execution>, e: Execution)
    requires UniqueIds(list)
    ensures UniqueIds(Upsert(list, e))
    ensures forall x :: x in Upsert(list, e) <==> x == e || (x in list && x.id != e.id)
  {
    var k := Position(list, e.id);
    var up := Upsert(list, e);
    if k == -1 {
      assert up[0] == e && up[1..] == list;
      forall x ensures x in up <==> x == e || (x in list && x.id != e.id) {
        assert x in up <==> x == e || x in list;
      }
    } else {
      assert up[k] == e;
      forall x | x in list && x.id != e.id ensures x in up {
        var i :| 0 <= i < |list| && list[i] == x;
        assert up[i] == x;
      }
    }
  }

  /** A record of a new id comes first, before all others; one saved again stays in its place; no other is touched. */
  lemma SaveLaw(s: Store, e: Execution)
    requires Agree(s)
    ensures var t, list := Save(s, e), ListOf(s, e.jobId);
      var saved := ListOf(t, e.jobId);
      && e.id in t.byId && t.byId[e.id] == e
      && (forall id :: id != e.id ==> (id in t.byId <==> id in s.byId))
      && (forall id :: id != e.id && id in s.byId ==> t.byId[id] == s.byId[id])
      && (forall j :: j != e.jobId ==> ListOf(t, j) == ListOf(s, j))
      && (if exists k :: 0 <= k < |list| && list[k].id == e.id then
            |saved| == |list| && forall k :: 0 <= k < |list| ==> saved[k] == if list[k].id == e.id then e else list[k]
          else
            |saved| == |list| + 1 && saved[0] == e && saved[1..] == list)
  {
    var list := ListOf(s, e.jobId);
    assert e.jobId in s.lists ==> ListAgrees(s, e.jobId, list);
    var k := Position(list, e.id);
    if k == -1 {
      assert forall i :: 0 <= i < |list| ==> list[i] in list;
    } else {
      assert forall i :: 0 <= i < |list| && i != k ==> list[i].id != e.id;
    }
  }

  /** Saving keeps the indexes in agreement if and only if the id keeps its job. */
  lemma SaveAgreesExactly(s: Store, e: Execution)
    requires Agree(s)
    ensures Agree(Save(s, e)) <==> KeepsJob(s, e)
  {
    var t := Save(s, e);
    assert UniqueIds(ListOf(s, e.jobId)) by {
      assert e.jobId in s.lists ==> ListAgrees(s, e.jobId, s.lists[e.jobId]);
    }
    UpsertMembers(ListOf(s, e.jobId), e);
    if KeepsJob(s, e) {
      forall id | id in t.byId ensures t.byId[id].id == id && t.byId[id] in ListOf(t, t.byId[id].jobId) {
      }
      forall j | j in t.lists ensures ListAgrees(t, j, t.lists[j]) {
        if j != e.jobId {
          assert ListAgrees(s, j, s.lists[j]);
        } else if j in s.lists {
          assert ListAgrees(s, j, s.lists[j]);
        }
      }
    } else {
      var stale := s.byId[e.id];
      assert stale in t.lists[stale.jobId];
      assert t.byId[stale.id] != stale;
      assert !ListAgrees(t, stale.jobId, t.lists[stale.jobId]);
    }
  }

  /** An id saved again under another job leaves its old record in the first job's list. */
  lemma SaveUnderAnotherJobDisagrees()
    ensures var first, second := Execution("x", "a", 0, "running"), Execution("x", "b", 1, "running");
      var s := Save(Store(map[], map[]), first);
      Agree(s) && !Agree(Save(s, second)) && first in ListOf(Save(s, second), "a")
  {
    var first, second := Execution("x", "a", 0, "running"), Execution("x", "b", 1, "running");
    var s0 := Store(map[], map[]);
    SaveAgreesExactly(s0, first);
    SaveAgreesExactly(Save(s0, first), second);
  }

  // ---------------------------------------------------------------------
  // Deleting
  // ---------------------------------------------------------------------

  function Drop(list: seq<Execution>, ids: set<string>): seq<Execution> {
    if list == [] then []
    else (if list[0].id in ids then [] else [list[0]]) + Drop(list[1..], ids)
  }

  /** The store without some ids, in both indexes. */
  function Without(s: Store, ids: set<string>): Store {
    Store(s.byId - ids, map j | j in s.lists :: Drop(s.lists[j], ids))
  }

  /** `delete_execution` takes the id out of its own job's list only. */
  function Delete(s: Store, id: string): Store {
    if id !in s.byId then s
    else
      var j := s.byId[id].jobId;
      Store(s.byId - {id}, if j in s.lists then s.lists[j := Drop(s.lists[j], {id})] else s.lists)
  }

  lemma {:induction false} DropMembers(list: seq<Execution>, ids: set<string>)
    requires UniqueIds(list)
    ensures UniqueIds(Drop(list, ids))
    ensures forall x :: x in Drop(list, ids) <==> x in list && x.id !in ids
  {
    if list != [] {
      var rest := Drop(list[1..], ids);
      DropMembers(list[1..], ids);
      forall x ensures x in Drop(list, ids) <==> x in list && x.id !in ids {
        assert x in list <==> x == list[0] || x in list[1..];
      }
      forall k | 0 <= k < |rest| ensures rest[k].id != list[0].id {
        assert rest[k] in list[1..];
        var i :| 0 <= i < |list[1..]| && list[1..][i] == rest[k];
        assert list[i + 1] == rest[k];
      }
    }
  }

  /** What is left keeps its order, each record as often as it stood there. */
  lemma {:induction false} DropMore(list: seq<Execution>, e: Execution, ids: set<string>)
    ensures Drop(list + [e], ids) == Drop(list, ids) + (if e.id in ids then [] else [e])
  {
    if list == [] {
      assert list + [e] == [e];
    } else {
      assert (list + [e])[1..] == list[1..] + [e];
      DropMore(list[1..], e, ids);
    }
  }

  lemma {:induction false} DropNothing(list: seq<Execution>, ids: set<string>)
    requires forall e :: e in list ==> e.id !in ids
    ensures Drop(list, ids) == list
  {
    if list != [] {
      assert list[0] in list;
      forall e | e in list[1..] ensures e.id !in ids {
        assert e in list;
      }
      DropNothing(list[1..], ids);
    }
  }

  lemma {:induction false} DropTwice(list: seq<Execution>, a: set<string>, b: set<string>)
    ensures Drop(Drop(list, a), b) == Drop(list, a + b)
  {
    if list != [] {
      DropTwice(list[1..], a, b);
      var rest := Drop(list[1..], a);
      if list[0].id in a {
        assert Drop(list, a) == rest;
      } else {
        assert ([list[0]] + rest)[1..] == rest;
      }
    }
  }

  /** Taking ids out of both indexes keeps them in agreement. */
  lemma WithoutAgrees(s: Store, ids: set<string>)
    requires Agree(s)
    ensures Agree(Without(s, ids))
  {
    var t := Without(s, ids);
    forall j | j in s.lists
      ensures ListAgrees(t, j, t.lists[j])
      ensures forall x :: x in t.lists[j] <==> x in s.lists[j] && x.id !in ids
    {
      assert ListAgrees(s, j, s.lists[j]);
      DropMembers(s.lists[j], ids);
    }
  }

  /** Deleting from one list takes the id out of every list there is: it stands in no other. */
  lemma DeleteIsWithout(s: Store, id: string)
    requires Agree(s) && id in s.byId
    ensures Delete(s, id) == Without(s, {id})
  {
    forall j | j in s.lists && j != s.byId[id].jobId ensures Drop(s.lists[j], {id}) == s.lists[j] {
      assert ListAgrees(s, j, s.lists[j]);
      DropNothing(s.lists[j], {id});
    }
    assert Delete(s, id).lists == Without(s, {id}).lists;
  }

  lemma WithoutNothing(s: Store)
    ensures Without(s, {}) == s
  {
    forall j | j in s.lists ensures Drop(s.lists[j], {}) == s.lists[j] {
      DropNothing(s.lists[j], {});
    }
    assert Without(s, {}).byId == s.byId && Without(s, {}).lists == s.lists;
  }

  lemma WithoutTwice(s: Store, a: set<string>, b: set<string>)
    ensures Without(Without(s, a), b) == Without(s, a + b)
  {
    var t := Without(s, a);
    forall j | j in s.lists ensures Drop(t.lists[j], b) == Drop(s.lists[j], a + b) {
      DropTwice(s.lists[j], a, b);
    }
    assert Without(t, b).byId == Without(s, a + b).byId;
    assert Without(t, b).lists == Without(s, a + b).lists;
  }

  lemma DeleteOneMore(s: Store, ids: set<string>, id: string)
    requires Agree(s)
    ensures Delete(Without(s, ids), id) == Without(s, if id in s.byId then ids + {id} else ids)
  {
    hide Agree, Drop;
    WithoutAgrees(s, ids);
    var t := Without(s, ids);
    if id in t.byId {
      DeleteIsWithout(t, id);
      WithoutTwice(s, ids, {id});
    } else if id in s.byId {
      assert ids + {id} == ids;
    }
  }

  lemma DropCons(first: Execution, rest: seq<Execution>, ids: set<string>)
    ensures Drop([first] + rest, ids) == if first.id in ids then Drop(rest, ids) else [first] + Drop(rest, ids)
  {
    assert ([first] + rest)[1..] == rest;
  }

  lemma PositionCons(first: Execution, rest: seq<Execution>, id: string)
    ensures Position([first] + rest, id) ==
      if first.id == id then 0 else if Position(rest, id) == -1 then -1 else Position(rest, id) + 1
  {
    assert ([first] + rest)[1..] == rest;
  }

  lemma {:induction false} DropFinds(list: seq<Execution>, id: string, ids: set<string>)
    requires id !in ids
    ensures Position(Drop(list, ids), id) == -1 <==> Position(list, id) == -1
  {
    if list != [] {
      DropFinds(list[1..], id, ids);
      var rest := Drop(list[1..], ids);
      assert ([list[0]] + rest)[1..] == rest;
    }
  }

  lemma {:induction false} DropReplaced(list: seq<Execution>, e: Execution, ids: set<string>)
    requires e.id !in ids && Position(list, e.id) != -1
    ensures var d := Drop(list, ids);
      && Position(d, e.id) != -1
      && Drop(list[Position(list, e.id) := e], ids) == d[Position(d, e.id) := e]
  {
    hide Position, Drop;
    var first, tail := list[0], list[1..];
    var k, rest := Position(list, e.id), Drop(tail, ids);
    assert list == [first] + tail;
    PositionCons(first, tail, e.id);
    DropCons(first, tail, ids);
    PositionCons(first, rest, e.id);
    if k == 0 {
      assert list[0 := e] == [e] + tail;
      DropCons(e, tail, ids);
      assert ([first] + rest)[0 := e] == [e] + rest;
    } else {
      DropReplaced(tail, e, ids);
      var j := Position(rest, e.id);
      assert list[k := e] == [first] + tail[k - 1 := e];
      DropCons(first, tail[k - 1 := e], ids);
      assert ([first] + rest)[j + 1 := e] == [first] + rest[j := e];
    }
  }

  lemma DropUpserted(list: seq<Execution>, e: Execution, ids: set<string>)
    requires e.id !in ids
    ensures Drop(Upsert(list, e), ids) == Upsert(Drop(list, ids), e)
  {
    DropFinds(list, e.id, ids);
    if Position(list, e.id) == -1 {
      assert ([e] + list)[1..] == list;
    } else {
      DropReplaced(list, e, ids);
    }
  }

  /** Saving another record and taking ids out can be done in either order. */
  lemma SaveWithout(s: Store, e: Execution, ids: set<string>)
    requires e.id !in ids
    ensures Save(Without(s, ids), e) == Without(Save(s, e), ids)
  {
    hide Upsert, Drop;
    DropUpserted(ListOf(s, e.jobId), e, ids);
    if e.jobId !in s.lists {
      NothingDropped(ids);
    }
    assert Save(Without(s, ids), e).byId == Without(Save(s, e), ids).byId;
    assert Save(Without(s, ids), e).lists == Without(Save(s, e), ids).lists;
  }

  lemma NothingDropped(ids: set<string>)
    ensures Drop([], ids) == []
  {
  }

  /** Ids of the executions that started before a time. */
  function OlderThan(s: Store, before: int): set<string> {
    set id | id in s.byId && s.byId[id].startedAt < before
  }

  // ---------------------------------------------------------------------
  // Any sequence of operations
  // ---------------------------------------------------------------------

  datatype Operation = SaveOne(e: Execution) | DeleteOne(id: string) | PruneBefore(before: int)

  function Apply(s: Store, op: Operation): Store {
    match op
    case SaveOne(e) => Save(s, e)
    case DeleteOne(id) => Delete(s, id)
    case PruneBefore(before) => Without(s, OlderThan(s, before))
  }

  function ApplyAll(s: Store, ops: seq<Operation>): Store
    decreases |ops|
  {
    if ops == [] then s else ApplyAll(Apply(s, ops[0]), ops[1..])
  }

  predicate JobsKept(s: Store, ops: seq<Operation>)
    decreases |ops|
  {
    ops == [] || ((ops[0].SaveOne? ==> KeepsJob(s, ops[0].e)) && JobsKept(Apply(s, ops[0]), ops[1..]))
  }

  /** When ids keep their jobs, the indexes agree after any operations. */
  lemma {:induction false} AlwaysAgree(s: Store, ops: seq<Operation>)
    requires Agree(s) && JobsKept(s, ops)
    ensures Agree(ApplyAll(s, ops))
    decreases |ops|
  {
    if ops != [] {
      match ops[0] {
        case SaveOne(e) => SaveAgreesExactly(s, e);
        case DeleteOne(id) =>
          if id in s.byId {
            DeleteIsWithout(s, id);
            WithoutAgrees(s, {id});
          }
        case PruneBefore(before) => WithoutAgrees(s, OlderThan(s, before));
      }
      AlwaysAgree(Apply(s, ops[0]), ops[1..]);
    }
  }

  /** The record with this id stands at place `k` of a job's list. */
  ghost predicate StandsAt(s: Store, id: string, jobId: string, k: nat) {
    jobId in s.lists && k < |s.lists[jobId]| && s.lists[jobId][k].id == id
  }

  /** In agreement, an id stands exactly once in all lists together if it is stored, else nowhere. */
  lemma StoredExactlyOnce(s: Store, id: string)
    requires Agree(s)
    ensures id in s.byId <==> exists j, k: nat :: StandsAt(s, id, j, k)
    ensures forall j, k: nat :: StandsAt(s, id, j, k) ==> j == s.byId[id].jobId && s.lists[j][k] == s.byId[id]
    ensures forall j1, k1: nat, j2, k2: nat ::
      StandsAt(s, id, j1, k1) && StandsAt(s, id, j2, k2) ==> j1 == j2 && k1 == k2
  {
    if id in s.byId {
      var jobId := s.byId[id].jobId;
      var k :| 0 <= k < |ListOf(s, jobId)| && ListOf(s, jobId)[k] == s.byId[id];
      assert StandsAt(s, id, jobId, k);
    }
    forall j, k: nat | StandsAt(s, id, j, k)
      ensures id in s.byId && j == s.byId[id].jobId && s.lists[j][k] == s.byId[id]
    {
      assert ListAgrees(s, j, s.lists[j]) && s.lists[j][k] in s.lists[j];
    }
  }

  // ---------------------------------------------------------------------
  // The provider
  // ---------------------------------------------------------------------

  /** A status filter; none, and the empty one, match everything. */
  predicate Matches(e: Execution, status: Option<string>) {
    status.None? || status.value == "" || e.status == status.value
  }

  function Matching(list: seq<Execution>, status: Option<string>): seq<Execution> {
    if list == [] then []
    else (if Matches(list[0], status) then [list[0]] else []) + Matching(list[1..], status)
  }

  /** The matching records keep their order; no status, and the empty one, match every record. */
  lemma {:induction false} MatchingMore(list: seq<Execution>, e: Execution, status: Option<string>)
    ensures Matching(list + [e], status) == Matching(list, status) +
      (if status.None? || status.value == "" || status.value == e.status then [e] else [])
  {
    if list == [] {
      assert list + [e] == [e];
    } else {
      assert (list + [e])[1..] == list[1..] + [e];
      MatchingMore(list[1..], e, status);
    }
  }

  /** `items[offset : offset + limit]`. */
  function Page(items: seq<Execution>, offset: nat, limit: nat): seq<Execution> {
    var from := if offset < |items| then offset else |items|;
    var to := if offset + limit < |items| then offset + limit else |items|;
    items[from..to]
  }

  class InMemoryJobStorage {
    var byId: map<string, Execution>
    var lists: map<string, seq<Execution>>

    ghost function View(): Store
      reads this
    {
      Store(byId, lists)
    }

    ghost predicate Valid()
      reads this
    {
      Agree(View())
    }

    constructor ()
      ensures Valid() && View() == Store(map[], map[])
    {
      byId, lists := map[], map[];
    }

    method SaveExecution(e: Execution)
      modifies this
      ensures View() == Save(old(View()), e)
    {
      byId := byId[e.id := e];
      var list := if e.jobId in lists then lists[e.jobId] else [];
      for i := 0 to |list|
        invariant list == ListOf(old(View()), e.jobId)
        invariant lists == old(lists) && byId == old(byId)[e.id := e]
        invariant forall k :: 0 <= k < i ==> list[k].id != e.id
      {
        if list[i].id == e.id {
          FirstPosition(list, e.id, i);
          lists := lists[e.jobId := list[i := e]];
          return;
        }
      }
      assert Position(list, e.id) == -1;
      lists := lists[e.jobId := [e] + list];
    }

    method GetExecutions(jobId: string, limit: nat, offset: nat, status: Option<string>)
      returns (items: seq<Execution>, total: nat)
      ensures items == Page(Matching(ListOf(View(), jobId), status), offset, limit)
      ensures total == |Matching(ListOf(View(), jobId), status)|
      ensures |items| == if offset >= total then 0 else if total - offset < limit then total - offset else limit
      ensures forall k :: 0 <= k < |items| ==> items[k] == Matching(ListOf(View(), jobId), status)[offset + k]
    {
      var all := if jobId in lists then lists[jobId] else [];
      if status.Some? && status.value != "" {
        all := Matching(all, status);
      } else {
        MatchingAll(all, status);
      }
      total := |all|;
      items := Page(all, offset, limit);
    }

    /** Returns whether there was one to delete; then both indexes lose exactly it. */
    method DeleteExecution(id: string) returns (deleted: bool)
      requires Valid()
      modifies this
      ensures Valid() && View() == Delete(old(View()), id)
      ensures deleted <==> id in old(byId)
      ensures deleted ==> View() == Without(old(View()), {id})
    {
      deleted := id in byId;
      if deleted {
        DeleteIsWithout(View(), id);
        WithoutAgrees(View(), {id});
        var e := byId[id];
        byId := byId - {id};
        if e.jobId in lists {
          lists := lists[e.jobId := Drop(lists[e.jobId], {id})];
        }
      }
    }

    /** Deletes every execution started before `before`; the result is how many left both indexes. */
    method Prune(before: int) returns (removed: nat)
      requires Valid()
      modifies this
      ensures Valid() && View() == Without(old(View()), OlderThan(old(View()), before))
      ensures removed == |old(byId)| - |byId|
      ensures forall id :: id in byId <==> id in old(byId) && old(byId)[id].startedAt >= before
    {
      hide Agree, Drop, Delete;
      ghost var s := View();
      var stale := set id | id in byId && byId[id].startedAt < before;
      var left := stale;
      WithoutNothing(s);
      assert stale - left == {};
      while left != {}
        invariant left <= stale == OlderThan(s, before)
        invariant Valid() && View() == Without(s, stale - left)
        decreases left
      {
        var id :| id in left;
        DeleteOneMore(s, stale - left, id);
        var deleted := DeleteExecution(id);
        assert stale - left + {id} == stale - (left - {id});
        left := left - {id};
      }
      assert stale - left == stale;
      removed := |stale|;
      FewerIds(s.byId, stale);
    }
  }

  lemma FewerIds(byId: map<string, Execution>, ids: set<string>)
    requires ids <= byId.Keys
    ensures |ids| == |byId| - |byId - ids|
  {
    assert (byId - ids).Keys == byId.Keys - ids;
    assert |byId.Keys| == |byId| && |(byId - ids).Keys| == |byId - ids|;
  }

  lemma {:induction false} FirstPosition(list: seq<Execution>, id: string, i: nat)
    requires i < |list| && list[i].id == id && forall k :: 0 <= k < i ==> list[k].id != id
    ensures Position(list, id) == i
  {
    if i > 0 {
      FirstPosition(list[1..], id, i - 1);
    }
  }

  lemma {:induction false} MatchingAll(list: seq<Execution>, status: Option<string>)
    requires status.None? || status.value == ""
    ensures Matching(list, status) == list
  {
    if list != [] {
      MatchingAll(list[1..], status);
    }
  }
}
