/**
 The in-memory audit log: two bounded rings, one of them for failed sign-ins, set
 against the log that never forgets.  A run is a sequence of logs, prunes and
 clears; `Full` is what an unbounded log would hold after it, `Ring` what a ring
 holds.
 */
module AuditLog {
  import opened Wrappers

  const MAX_ENTRIES: nat := 1000
  const MAX_FAILED_LOGIN_ENTRIES: nat := 200
  const FAILED_LOGIN_EVENT := "login_failed"

  datatype Entry = Entry(event: string, username: string, actor: Option<string>, timestamp: int)

  /** An entry with its place in the order of recording. */
  datatype Item = Item(number: nat, entry: Entry)

  datatype Op = Log(entry: Entry) | Prune(before: int) | Clear

  predicate IsFailedLogin(e: Entry) {
    e.event == FAILED_LOGIN_EVENT
  }

  function Init<T>(s: seq<T>): seq<T>
    requires s != []
  {
    s[..|s| - 1]
  }

  function Final<T>(s: seq<T>): T
    requires s != []
  {
    s[|s| - 1]
  }

  // ---------------------------------------------------------------------
  // The log that never forgets, and the rings
  // ---------------------------------------------------------------------

  /** Every entry a run has recorded, in order. */
  function Recorded(ops: seq<Op>): seq<Entry> {
    if ops == [] then []
    else if Final(ops).Log? then Recorded(Init(ops)) + [Final(ops).entry]
    else Recorded(Init(ops))
  }

  function Count(ops: seq<Op>): nat {
    |Recorded(ops)|
  }

  /** How many entries of a class a run has recorded after the one with a number. */
  function Later(ops: seq<Op>, failed: bool, number: nat): nat {
    if ops == [] then 0
    else
      Later(Init(ops), failed, number) +
      (if Final(ops).Log? && IsFailedLogin(Final(ops).entry) == failed && number < Count(Init(ops)) then 1 else 0)
  }

  /** The items recorded at or after a time. */
  function Recent(items: seq<Item>, before: int): (r: seq<Item>)
    ensures |r| <= |items|
    ensures forall x :: x in r <==> x in items && x.entry.timestamp >= before
  {
    if items == [] then []
    else
      var rest := Recent(Init(items), before);
      if Final(items).entry.timestamp >= before then rest + [Final(items)] else rest
  }

  function FullStep(all: seq<Item>, failed: bool, number: nat, op: Op): seq<Item> {
    match op
    case Log(e) => if IsFailedLogin(e) == failed then all + [Item(number, e)] else all
    case Prune(before) => Recent(all, before)
    case Clear => []
  }

  /** All entries of a class that were recorded and not pruned or cleared. */
  function Full(ops: seq<Op>, failed: bool): seq<Item> {
    if ops == [] then [] else FullStep(Full(Init(ops), failed), failed, Count(Init(ops)), Final(ops))
  }

  /** Appending to a ring: at its bound the oldest item goes. */
  function Push(ring: seq<Item>, cap: nat, x: Item): seq<Item> {
    var longer := ring + [x];
    if |longer| <= cap then longer else longer[1..]
  }

  function RingStep(ring: seq<Item>, failed: bool, cap: nat, number: nat, op: Op): seq<Item> {
    match op
    case Log(e) => if IsFailedLogin(e) == failed then Push(ring, cap, Item(number, e)) else ring
    case Prune(before) => Recent(ring, before)
    case Clear => []
  }

  function Ring(ops: seq<Op>, failed: bool, cap: nat): seq<Item> {
    if ops == [] then [] else RingStep(Ring(Init(ops), failed, cap), failed, cap, Count(Init(ops)), Final(ops))
  }

  // ---------------------------------------------------------------------
  // The rings refine the full log
  // ---------------------------------------------------------------------

  /** Each item of a ring has at least as many later entries of its class as follow it there. */
  ghost predicate Counted(ring: seq<Item>, ops: seq<Op>, failed: bool) {
    ring == [] || (Later(ops, failed, ring[0].number) >= |ring| - 1 && Counted(ring[1..], ops, failed))
  }

  lemma RecentSplits(a: seq<Item>, b: seq<Item>, before: int)
    ensures Recent(a + b, before) == Recent(a, before) + Recent(b, before)
  {
    if b == [] {
      assert a + b == a;
    } else {
      RecentSplits(a, Init(b), before);
      assert Init(a + b) == a + Init(b) && Final(a + b) == Final(b);
    }
  }

  lemma RecentOfOne(x: Item, before: int)
    ensures Recent([x], before) == if x.entry.timestamp >= before then [x] else []
  {
    assert Init([x]) == [] && Final([x]) == x;
  }

  lemma RecentOfFirst(first: Item, rest: seq<Item>, before: int)
    ensures Recent([first] + rest, before) ==
      if first.entry.timestamp >= before then [first] + Recent(rest, before) else Recent(rest, before)
  {
    hide Recent;
    RecentSplits([first], rest, before);
    RecentOfOne(first, before);
    assert [] + Recent(rest, before) == Recent(rest, before);
  }

  lemma {:induction false} CountedRecent(ring: seq<Item>, ops: seq<Op>, failed: bool, before: int)
    requires Counted(ring, ops, failed)
    ensures Counted(Recent(ring, before), ops, failed)
  {
    if ring != [] {
      hide Recent;
      CountedRecent(ring[1..], ops, failed, before);
      assert ring == [ring[0]] + ring[1..];
      RecentOfFirst(ring[0], ring[1..], before);
      assert ([ring[0]] + Recent(ring[1..], before))[1..] == Recent(ring[1..], before);
    }
  }

  lemma {:induction false} CountedLater(ring: seq<Item>, ops: seq<Op>, failed: bool, op: Op)
    requires Counted(ring, ops, failed)
    ensures Counted(ring, ops + [op], failed)
  {
    assert Init(ops + [op]) == ops;
    if ring != [] {
      CountedLater(ring[1..], ops, failed, op);
    }
  }

  lemma {:induction false} CountedPush(ring: seq<Item>, ops: seq<Op>, failed: bool, e: Entry)
    requires Counted(ring, ops, failed) && IsFailedLogin(e) == failed
    requires forall x :: x in ring ==> x.number < Count(ops)
    ensures Counted(ring + [Item(Count(ops), e)], ops + [Log(e)], failed)
  {
    assert Init(ops + [Log(e)]) == ops;
    var longer := ring + [Item(Count(ops), e)];
    if ring != [] {
      assert ring[0] in ring;
      CountedPush(ring[1..], ops, failed, e);
      assert longer[1..] == ring[1..] + [Item(Count(ops), e)];
    }
  }

  ghost predicate Ascending(items: seq<Item>) {
    forall i, j :: 0 <= i < j < |items| ==> items[i].number < items[j].number
  }

  /** Items are in the order of recording, and carry what was recorded under their number. */
  ghost predicate Numbered(all: seq<Item>, ops: seq<Op>, failed: bool) {
    && Ascending(all)
    && (forall x :: x in all ==> x.number < Count(ops) && x.entry == Recorded(ops)[x.number])
    && (forall x :: x in all ==> IsFailedLogin(x.entry) == failed)
  }

  /**
   How a ring stands to the full log of its class: it is the newest part of it, at
   most `cap` long, and what it lacks has at least `cap` later entries of its class.
   */
  ghost predicate Refines(ring: seq<Item>, all: seq<Item>, ops: seq<Op>, failed: bool, cap: nat) {
    && |ring| <= cap && |ring| <= |all|
    && ring == all[|all| - |ring|..]
    && (forall i :: 0 <= i < |all| - |ring| ==> Later(ops, failed, all[i].number) >= cap)
    && Counted(ring, ops, failed)
    && Numbered(all, ops, failed)
  }

  lemma {:induction false} RingRefines(ops: seq<Op>, failed: bool, cap: nat)
    requires cap > 0
    ensures Refines(Ring(ops, failed, cap), Full(ops, failed), ops, failed, cap)
    decreases |ops|
  {
    if ops != [] {
      RingRefines(Init(ops), failed, cap);
      assert ops == Init(ops) + [Final(ops)];
      StepRefines(Ring(Init(ops), failed, cap), Full(Init(ops), failed), Init(ops), failed, cap, Final(ops));
    }
  }

  lemma LaterGrows(ops: seq<Op>, op: Op, failed: bool, number: nat)
    ensures Later(ops + [op], failed, number) >= Later(ops, failed, number)
    ensures Recorded(ops + [op]) == Recorded(ops) + (if op.Log? then [op.entry] else [])
  {
    assert Init(ops + [op]) == ops;
  }

  lemma StepRefines(ring: seq<Item>, all: seq<Item>, ops: seq<Op>, failed: bool, cap: nat, op: Op)
    requires cap > 0 && Refines(ring, all, ops, failed, cap)
    ensures Refines(RingStep(ring, failed, cap, Count(ops), op), FullStep(all, failed, Count(ops), op),
                    ops + [op], failed, cap)
  {
    hide Refines, Recent, Push;
    match op
    case Log(e) =>
      if IsFailedLogin(e) == failed {
        PushRefines(ring, all, ops, failed, cap, e);
      } else {
        OtherRefines(ring, all, ops, failed, cap, op);
      }
    case Prune(before) =>
      PruneRefines(ring, all, ops, failed, cap, before);
    case Clear =>
      NothingRefines(ops + [op], failed, cap);
  }

  lemma OtherRefines(ring: seq<Item>, all: seq<Item>, ops: seq<Op>, failed: bool, cap: nat, op: Op)
    requires Refines(ring, all, ops, failed, cap)
    ensures Refines(ring, all, ops + [op], failed, cap)
  {
    hide Later, Counted, Recorded;
    forall n: nat ensures Later(ops + [op], failed, n) >= Later(ops, failed, n) {
      LaterGrows(ops, op, failed, n);
    }
    LaterGrows(ops, op, failed, 0);
    CountedLater(ring, ops, failed, op);
  }

  lemma PruneRefines(ring: seq<Item>, all: seq<Item>, ops: seq<Op>, failed: bool, cap: nat, before: int)
    requires Refines(ring, all, ops, failed, cap)
    ensures Refines(Recent(ring, before), Recent(all, before), ops + [Prune(before)], failed, cap)
  {
    hide Later, Counted, Recent;
    var gone := all[..|all| - |ring|];
    var left: seq<Item>, kept: seq<Item> := Recent(gone, before), Recent(ring, before);
    assert all == gone + ring;
    RecentSplits(gone, ring, before);
    CountedLater(ring, ops, failed, Prune(before));
    CountedRecent(ring, ops + [Prune(before)], failed, before);
    RecentAscends(all, before);
    LaterGrows(ops, Prune(before), failed, 0);
    forall i: nat | i < |left| ensures Later(ops + [Prune(before)], failed, (left + kept)[i].number) >= cap {
      assert (left + kept)[i] == left[i] && left[i] in gone;
      LaterGrows(ops, Prune(before), failed, left[i].number);
    }
  }

  lemma NothingRefines(ops: seq<Op>, failed: bool, cap: nat)
    ensures Refines([], [], ops, failed, cap)
  {
  }

  lemma CountedParts(ring: seq<Item>, ops: seq<Op>, failed: bool)
    requires Counted(ring, ops, failed) && ring != []
    ensures Later(ops, failed, ring[0].number) >= |ring| - 1 && Counted(ring[1..], ops, failed)
  {
  }

  lemma NumberedMore(all: seq<Item>, ops: seq<Op>, failed: bool, e: Entry)
    requires Numbered(all, ops, failed) && IsFailedLogin(e) == failed
    ensures Numbered(all + [Item(Count(ops), e)], ops + [Log(e)], failed)
    ensures forall x :: x in all ==> x.number < Count(ops)
  {
    hide Recorded;
    LaterGrows(ops, Log(e), failed, 0);
    assert forall i :: 0 <= i < |all| ==> all[i] in all;
  }

  lemma PushRefines(ring: seq<Item>, all: seq<Item>, ops: seq<Op>, failed: bool, cap: nat, e: Entry)
    requires cap > 0 && Refines(ring, all, ops, failed, cap) && IsFailedLogin(e) == failed
    ensures Refines(Push(ring, cap, Item(Count(ops), e)), all + [Item(Count(ops), e)], ops + [Log(e)], failed, cap)
  {
    hide Later, Counted, Recorded, Numbered;
    var x := Item(Count(ops), e);
    var longer := ring + [x];
    forall n: nat ensures Later(ops + [Log(e)], failed, n) >= Later(ops, failed, n) {
      LaterGrows(ops, Log(e), failed, n);
    }
    NumberedMore(all, ops, failed, e);
    assert forall y: Item :: y in ring ==> y in all;
    CountedPush(ring, ops, failed, e);
    assert longer == (all + [x])[|all| - |ring|..];
    if |longer| > cap {
      CountedParts(longer, ops + [Log(e)], failed);
      assert longer[0] == (all + [x])[|all| - |ring|];
      assert longer[1..] == (all + [x])[|all| + 1 - |ring|..];
    }
  }

  lemma {:induction false} RecentAscends(items: seq<Item>, before: int)
    requires Ascending(items)
    ensures Ascending(Recent(items, before))
  {
    if items != [] {
      RecentAscends(Init(items), before);
      var rest := Recent(Init(items), before);
      forall i | 0 <= i < |rest| ensures rest[i].number < Final(items).number {
        assert rest[i] in Init(items);
      }
    }
  }

  /** An entry is gone from its ring only after at least `cap` later entries of its own class. */
  lemma EvictedByItsOwnClass(ops: seq<Op>, failed: bool, cap: nat, x: Item)
    requires cap > 0 && x in Full(ops, failed) && x !in Ring(ops, failed, cap)
    ensures Later(ops, failed, x.number) >= cap
  {
    hide Later, Recorded, Counted, Ring, Full;
    RingRefines(ops, failed, cap);
    var all, ring := Full(ops, failed), Ring(ops, failed, cap);
    var i :| 0 <= i < |all| && all[i] == x;
    assert forall j :: |all| - |ring| <= j < |all| ==> all[j] == ring[j - (|all| - |ring|)];
  }

  /** However many failed sign-ins are recorded, no other entry goes; and the other way round. */
  lemma {:induction false} OtherClassEvictsNothing(ops: seq<Op>, more: seq<Op>, failed: bool, cap: nat)
    requires forall op :: op in more ==> op.Log? && IsFailedLogin(op.entry) != failed
    ensures Ring(ops + more, failed, cap) == Ring(ops, failed, cap)
    decreases |more|
  {
    if more == [] {
      assert ops + more == ops;
    } else {
      assert Final(more) in more;
      OtherClassEvictsNothing(ops, Init(more), failed, cap);
      assert Init(ops + more) == ops + Init(more) && Final(ops + more) == Final(more);
    }
  }

  function Latest(all: seq<Item>, cap: nat): seq<Item> {
    if |all| <= cap then all else all[|all| - cap..]
  }

  /** Until something is pruned or cleared a ring holds exactly the latest entries of its class. */
  lemma {:induction false} HoldsTheLatest(ops: seq<Op>, failed: bool, cap: nat)
    requires cap > 0 && forall op :: op in ops ==> op.Log?
    ensures Ring(ops, failed, cap) == Latest(Full(ops, failed), cap)
    decreases |ops|
  {
    hide Recent, Recorded, Push, Latest;
    if ops == [] {
      NothingIsLatest(cap);
    } else {
      assert Final(ops) in ops && forall op :: op in Init(ops) ==> op in ops;
      HoldsTheLatest(Init(ops), failed, cap);
      PushLatest(Full(Init(ops), failed), cap, Item(Count(Init(ops)), Final(ops).entry));
    }
  }

  lemma PushLatest(all: seq<Item>, cap: nat, x: Item)
    requires cap > 0
    ensures Push(Latest(all, cap), cap, x) == Latest(all + [x], cap)
  {
  }

  lemma NothingIsLatest(cap: nat)
    ensures Latest([], cap) == []
  {
  }

  // ---------------------------------------------------------------------
  // The listing
  // ---------------------------------------------------------------------

  function Insert(x: Item, items: seq<Item>): seq<Item> {
    if items == [] || x.number > items[0].number then [x] + items else [items[0]] + Insert(x, items[1..])
  }

  /** Sorted by number, highest first. */
  function NewestFirst(items: seq<Item>): seq<Item> {
    if items == [] then [] else Insert(items[0], NewestFirst(items[1..]))
  }

  ghost predicate Descending(items: seq<Item>) {
    forall i, j :: 0 <= i < j < |items| ==> items[i].number > items[j].number
  }

  lemma {:induction false} InsertMembers(x: Item, items: seq<Item>)
    ensures multiset(Insert(x, items)) == multiset(items) + multiset{x}
  {
    if items != [] && !(x.number > items[0].number) {
      InsertMembers(x, items[1..]);
      assert items == [items[0]] + items[1..];
    }
  }

  lemma {:induction false} InsertDescends(x: Item, items: seq<Item>)
    requires Descending(items) && forall y :: y in items ==> y.number != x.number
    ensures Descending(Insert(x, items))
  {
    if items != [] && !(x.number > items[0].number) {
      InsertDescends(x, items[1..]);
      InsertMembers(x, items[1..]);
      var rest := Insert(x, items[1..]);
      forall j | 0 <= j < |rest| ensures items[0].number > rest[j].number {
        assert items[0] in items && rest[j] in multiset(rest);
      }
    }
  }

  ghost predicate DistinctNumbers(items: seq<Item>) {
    forall i, j :: 0 <= i < j < |items| ==> items[i].number != items[j].number
  }

  lemma FirstIsApart(items: seq<Item>)
    requires items != [] && DistinctNumbers(items)
    ensures DistinctNumbers(items[1..]) && forall y :: y in items[1..] ==> y.number != items[0].number
  {
  }

  lemma NothingSorts()
    ensures Descending([])
  {
  }

  lemma {:induction false} NewestFirstSorts(items: seq<Item>)
    ensures multiset(NewestFirst(items)) == multiset(items)
    ensures DistinctNumbers(items) ==> Descending(NewestFirst(items))
  {
    hide Insert, DistinctNumbers, Descending;
    if items == [] {
      NothingSorts();
    } else {
      var rest := NewestFirst(items[1..]);
      NewestFirstSorts(items[1..]);
      InsertMembers(items[0], rest);
      assert items == [items[0]] + items[1..];
      if DistinctNumbers(items) {
        SameMembers(items[1..], rest);
        FirstIsApart(items);
        InsertDescends(items[0], rest);
      }
    }
  }

  /** What the store lists: both rings together, newest first. */
  function Listing(ops: seq<Op>, cap: nat, failedCap: nat): seq<Item> {
    NewestFirst(Ring(ops, false, cap) + Ring(ops, true, failedCap))
  }

  /**
   The listing is strictly newest first and holds exactly what the rings hold; each
   entry of the full log that it lacks has at least its class's bound of later
   entries of its class.
   */
  lemma ListingRefines(ops: seq<Op>, cap: nat, failedCap: nat)
    requires cap > 0 && failedCap > 0
    ensures var l := Listing(ops, cap, failedCap);
      && Descending(l)
      && (forall x :: x in l <==> x in Ring(ops, false, cap) || x in Ring(ops, true, failedCap))
      && (forall x, failed :: x in Full(ops, failed) && x !in l ==>
            Later(ops, failed, x.number) >= (if failed then failedCap else cap))
      && (forall x :: x in l ==> x in Full(ops, IsFailedLogin(x.entry)))
  {
    hide Later, Recorded, Counted, Ring, Full, NewestFirst, Refines;
    var a, b := Ring(ops, false, cap), Ring(ops, true, failedCap);
    RingInFull(ops, false, cap);
    RingInFull(ops, true, failedCap);
    RingsApart(ops, cap, failedCap);
    NewestFirstSorts(a + b);
    var l := Listing(ops, cap, failedCap);
    SameMembers(l, a + b);
    forall x: Item, failed: bool | x in Full(ops, failed) && x !in l
      ensures Later(ops, failed, x.number) >= (if failed then failedCap else cap)
    {
      EvictedByItsOwnClass(ops, failed, if failed then failedCap else cap, x);
    }
  }

  lemma SameMembers(a: seq<Item>, b: seq<Item>)
    requires multiset(a) == multiset(b)
    ensures forall x :: x in a <==> x in b
  {
    forall x ensures x in a <==> x in b {
      assert x in a <==> x in multiset(a);
      assert x in b <==> x in multiset(b);
    }
  }

  lemma RingInFull(ops: seq<Op>, failed: bool, cap: nat)
    requires cap > 0
    ensures forall x :: x in Ring(ops, failed, cap) ==> x in Full(ops, failed) && IsFailedLogin(x.entry) == failed
  {
    hide Later, Recorded, Counted, Ring, Full;
    RingRefines(ops, failed, cap);
  }

  /** Both rings together give each number once: what was recorded under it belongs to one class. */
  lemma RingsApart(ops: seq<Op>, cap: nat, failedCap: nat)
    requires cap > 0 && failedCap > 0
    ensures DistinctNumbers(Ring(ops, false, cap) + Ring(ops, true, failedCap))
  {
    hide Later, Recorded, Counted, Ring, Full;
    var a, b := Ring(ops, false, cap), Ring(ops, true, failedCap);
    RingRefines(ops, false, cap);
    RingRefines(ops, true, failedCap);
    var all: seq<Item> := a + b;
    forall i, j | 0 <= i < j < |all| ensures all[i].number != all[j].number {
      if i < |a| <= j {
        assert a[i] in Full(ops, false) && b[j - |a|] in Full(ops, true);
      }
    }
  }

  // ---------------------------------------------------------------------
  // Queries
  // ---------------------------------------------------------------------

  datatype QueryOptions = QueryOptions(
    event: Option<string>, username: Option<string>, actor: Option<string>,
    from: Option<int>, until: Option<int>,
    offset: Option<int>, limit: Option<int>)

  function OrEmpty(s: Option<string>): string {
    if s.Some? then s.value else ""
  }

  /** An absent or empty wanted text matches all; otherwise case does not matter. */
  predicate TextMatches(wanted: Option<string>, lower: string -> string, text: string) {
    OrEmpty(wanted) == "" || lower(text) == lower(OrEmpty(wanted))
  }

  predicate Matches(o: QueryOptions, lower: string -> string, e: Entry) {
    && TextMatches(o.event, lower, e.event)
    && TextMatches(o.username, lower, e.username)
    && TextMatches(o.actor, lower, OrEmpty(e.actor))
    && (o.from.Some? ==> e.timestamp >= o.from.value)
    && (o.until.Some? ==> e.timestamp < o.until.value)
  }

  function Select(entries: seq<Entry>, keep: Entry -> bool): (r: seq<Entry>)
    ensures forall e :: e in r <==> e in entries && keep(e)
  {
    if entries == [] then []
    else (if keep(entries[0]) then [entries[0]] else []) + Select(entries[1..], keep)
  }

  /** What is selected keeps its order, each entry as often as it stands there. */
  lemma {:induction false} SelectMore(all: seq<Entry>, e: Entry, keep: Entry -> bool)
    ensures Select(all + [e], keep) == Select(all, keep) + (if keep(e) then [e] else [])
  {
    if all == [] {
      assert all + [e] == [e];
    } else {
      assert (all + [e])[1..] == all[1..] + [e];
      SelectMore(all[1..], e, keep);
    }
  }

  lemma {:induction false} SelectTwice(entries: seq<Entry>, p: Entry -> bool, q: Entry -> bool, both: Entry -> bool)
    requires forall e :: both(e) <==> p(e) && q(e)
    ensures Select(Select(entries, p), q) == Select(entries, both)
  {
    if entries != [] {
      SelectTwice(entries[1..], p, q, both);
      var rest := Select(entries[1..], p);
      assert ([entries[0]] + rest)[1..] == rest;
      assert [] + rest == rest;
    }
  }

  lemma {:induction false} SelectAll(entries: seq<Entry>, p: Entry -> bool)
    requires forall e :: p(e)
    ensures Select(entries, p) == entries
  {
    if entries != [] {
      SelectAll(entries[1..], p);
    }
  }

  /** One more criterion, skipped when it says nothing. */
  lemma Narrowed(all: seq<Entry>, p: Entry -> bool, given: bool, q: Entry -> bool, both: Entry -> bool)
    requires forall e :: both(e) <==> p(e) && q(e)
    requires given || forall e :: q(e)
    ensures Select(all, both) == if given then Select(Select(all, p), q) else Select(all, p)
  {
    hide Select;
    SelectTwice(all, p, q, both);
    if !given {
      SelectAll(Select(all, p), q);
    }
  }

  function Min(a: int, b: int): int {
    if a < b then a else b
  }

  /** A page: from a positive offset on, at most a non-negative limit. */
  function Page(entries: seq<Entry>, offset: Option<int>, limit: Option<int>): seq<Entry> {
    var rest := if offset.Some? && offset.value > 0 then entries[Min(offset.value, |entries|)..] else entries;
    if limit.Some? && limit.value >= 0 then rest[..Min(limit.value, |rest|)] else rest
  }

  /** What a query asks of an entry, criterion by criterion. */
  lemma CriteriaExactly(o: QueryOptions, lower: string -> string, e: Entry)
    ensures Matches(o, lower, e) <==>
      && (o.event.None? || o.event.value == "" || lower(o.event.value) == lower(e.event))
      && (o.username.None? || o.username.value == "" || lower(o.username.value) == lower(e.username))
      && (o.actor.None? || o.actor.value == "" ||
          lower(o.actor.value) == lower(if e.actor.None? then "" else e.actor.value))
      && (o.from.None? || o.from.value <= e.timestamp)
      && (o.until.None? || e.timestamp < o.until.value)
  {
  }

  /** Where a page starts, and how many entries it may hold of `n`. */
  function PageStart(offset: Option<int>): nat {
    if offset.None? || offset.value < 0 then 0 else offset.value
  }

  function PageLength(n: nat, offset: Option<int>, limit: Option<int>): nat {
    var rest := if n < PageStart(offset) then 0 else n - PageStart(offset);
    if limit.None? || limit.value < 0 || limit.value > rest then rest else limit.value
  }

  /** The page holds the entries from its start on, in order, as many as there are and the limit allows. */
  ghost predicate IsPage(page: seq<Entry>, all: seq<Entry>, offset: Option<int>, limit: Option<int>) {
    && |page| == PageLength(|all|, offset, limit)
    && forall k :: 0 <= k < |page| ==> page[k] == all[PageStart(offset) + k]
  }

  lemma PageHolds(all: seq<Entry>, offset: Option<int>, limit: Option<int>)
    ensures IsPage(Page(all, offset, limit), all, offset, limit)
  {
    var start := PageStart(offset);
    var rest := all[Min(start, |all|)..];
    assert all[0..] == all;
    RestHolds(all, start);
    assert Page(all, offset, limit) ==
      if limit.Some? && limit.value >= 0 then rest[..Min(limit.value, |rest|)] else rest;
  }

  lemma RestHolds(all: seq<Entry>, start: nat)
    ensures var rest := all[Min(start, |all|)..];
      && |rest| == (if |all| < start then 0 else |all| - start)
      && forall k :: 0 <= k < |rest| ==> rest[k] == all[start + k]
  {
  }

  /** The first `k` pages of `n` entries each, one after the other. */
  function Pages(all: seq<Entry>, n: nat, k: nat): seq<Entry> {
    if k == 0 then [] else Pages(all, n, k - 1) + Page(all, Some((k - 1) * n), Some(n))
  }

  lemma PageFollows(all: seq<Entry>, at: nat, n: nat)
    ensures all[..Min(at, |all|)] + Page(all, Some(at), Some(n)) == all[..Min(at + n, |all|)]
  {
  }

  /** Pages that follow each other join to the beginning of the whole; enough of them to all of it. */
  lemma {:induction false} PagesJoin(all: seq<Entry>, n: nat, k: nat)
    ensures Pages(all, n, k) == all[..Min(k * n, |all|)]
    ensures k * n >= |all| ==> Pages(all, n, k) == all
  {
    hide Page;
    if k > 0 {
      PagesJoin(all, n, k - 1);
      assert k * n == (k - 1) * n + n && (k - 1) * n >= 0;
      PageFollows(all, (k - 1) * n, n);
    }
  }

  function EntriesOf(items: seq<Item>): seq<Entry> {
    seq(|items|, i requires 0 <= i < |items| => items[i].entry)
  }

  // ---------------------------------------------------------------------
  // The store
  // ---------------------------------------------------------------------

  class InMemoryAuditStore {
    const maxEntries: nat
    const maxFailedLoginEntries: nat
    var next: nat
    var entries: seq<Item>
    var failed: seq<Item>
    /** What was done to the store so far. */
    ghost var ops: seq<Op>

    ghost predicate Valid()
      reads this
    {
      && maxEntries > 0 && maxFailedLoginEntries > 0
      && next == Count(ops)
      && entries == Ring(ops, false, maxEntries)
      && failed == Ring(ops, true, maxFailedLoginEntries)
    }

    /** A bound that is not positive is replaced by the default. */
    constructor (maxEntries: int, maxFailedLoginEntries: int)
      ensures Valid() && ops == []
      ensures this.maxEntries == if maxEntries > 0 then maxEntries else 1000
      ensures this.maxFailedLoginEntries == if maxFailedLoginEntries > 0 then maxFailedLoginEntries else 200
    {
      this.maxEntries := if maxEntries > 0 then maxEntries else MAX_ENTRIES;
      this.maxFailedLoginEntries :=
        if maxFailedLoginEntries > 0 then maxFailedLoginEntries else MAX_FAILED_LOGIN_ENTRIES;
      next, entries, failed := 0, [], [];
      ops := [];
    }

    method LogEntry(entry: Entry)
      requires Valid()
      modifies this
      ensures Valid() && ops == old(ops) + [Log(entry)]
      ensures if entry.event == "login_failed" then entries == old(entries) else failed == old(failed)
    {
      hide Recent, Recorded, Push;
      assert Init(ops + [Log(entry)]) == ops;
      LaterGrows(ops, Log(entry), false, 0);
      var item := Item(next, entry);
      next := next + 1;
      if entry.event == FAILED_LOGIN_EVENT {
        failed := Push(failed, maxFailedLoginEntries, item);
      } else {
        entries := Push(entries, maxEntries, item);
      }
      ops := ops + [Log(entry)];
    }

    /** The filters of a query, one after the other. */
    static method Narrow(all: seq<Entry>, o: QueryOptions, lower: string -> string) returns (result: seq<Entry>)
      ensures result == Select(all, e => Matches(o, lower, e))
    {
      hide Select;
      result := all;
      ghost var m0 := (e: Entry) => true;
      SelectAll(all, m0);
      var event := (e: Entry) => TextMatches(o.event, lower, e.event);
      if OrEmpty(o.event) != "" {
        result := Select(result, event);
      }
      ghost var m1 := (e: Entry) => m0(e) && event(e);
      Narrowed(all, m0, OrEmpty(o.event) != "", event, m1);
      var username := (e: Entry) => TextMatches(o.username, lower, e.username);
      if OrEmpty(o.username) != "" {
        result := Select(result, username);
      }
      ghost var m2 := (e: Entry) => m1(e) && username(e);
      Narrowed(all, m1, OrEmpty(o.username) != "", username, m2);
      var actor := (e: Entry) => TextMatches(o.actor, lower, OrEmpty(e.actor));
      if OrEmpty(o.actor) != "" {
        result := Select(result, actor);
      }
      ghost var m3 := (e: Entry) => m2(e) && actor(e);
      Narrowed(all, m2, OrEmpty(o.actor) != "", actor, m3);
      var from := (e: Entry) => o.from.Some? ==> e.timestamp >= o.from.value;
      if o.from.Some? {
        result := Select(result, from);
      }
      ghost var m4 := (e: Entry) => m3(e) && from(e);
      Narrowed(all, m3, o.from.Some?, from, m4);
      var until := (e: Entry) => o.until.Some? ==> e.timestamp < o.until.value;
      if o.until.Some? {
        result := Select(result, until);
      }
      Narrowed(all, m4, o.until.Some?, until, e => Matches(o, lower, e));
    }

    method GetEntries(options: Option<QueryOptions>, lower: string -> string) returns (result: seq<Entry>)
      requires Valid()
      ensures var all := EntriesOf(Listing(ops, maxEntries, maxFailedLoginEntries));
        result == match options
                  case None => all
                  case Some(o) => Page(Select(all, e => Matches(o, lower, e)), o.offset, o.limit)
      ensures options.Some? ==>
        var o, all := options.value, EntriesOf(Listing(ops, maxEntries, maxFailedLoginEntries));
        IsPage(result, Select(all, e => Matches(o, lower, e)), o.offset, o.limit)
    {
      hide Matches, Select, NewestFirst, IsPage;
      result := EntriesOf(NewestFirst(entries + failed));
      if options.None? {
        return;
      }
      var o := options.value;
      result := Narrow(result, o, lower);
      if o.offset.Some? && o.offset.value > 0 {
        result := result[Min(o.offset.value, |result|)..];
      }
      if o.limit.Some? && o.limit.value >= 0 {
        result := result[..Min(o.limit.value, |result|)];
      }
      ghost var all := EntriesOf(Listing(ops, maxEntries, maxFailedLoginEntries));
      PageHolds(Select(all, e => Matches(o, lower, e)), o.offset, o.limit);
    }

    /** Takes away what is older than `before`, and tells how many that were. */
    method PruneBefore(before: int) returns (removed: nat)
      requires Valid()
      modifies this
      ensures Valid() && ops == old(ops) + [Prune(before)]
      ensures removed == |old(entries)| + |old(failed)| - |entries| - |failed|
      ensures forall x :: x in entries <==> x in old(entries) && x.entry.timestamp >= before
      ensures forall x :: x in failed <==> x in old(failed) && x.entry.timestamp >= before
    {
      hide Recent, Recorded;
      assert Init(ops + [Prune(before)]) == ops;
      LaterGrows(ops, Prune(before), false, 0);
      var kept := Recent(entries, before);
      removed := |entries| - |kept|;
      entries := kept;
      kept := Recent(failed, before);
      removed := removed + (|failed| - |kept|);
      failed := kept;
      ops := ops + [Prune(before)];
    }

    method ClearAll()
      requires Valid()
      modifies this
      ensures Valid() && ops == old(ops) + [Clear] && entries == [] && failed == []
    {
      hide Recent, Recorded, Push;
      assert Init(ops + [Clear]) == ops;
      LaterGrows(ops, Clear, false, 0);
      entries, failed := [], [];
      ops := ops + [Clear];
    }
  }
}
