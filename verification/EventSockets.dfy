/**
 Delivery of server events to sockets: a bounded queue and a sender per socket.
 `NextLine` says what one step means for one socket; runs are sequences of steps
 of all sockets, and `EventSocketManager` keeps the same state in dictionaries.
 */
module EventSockets {
  import opened Wrappers

  const MAX_PENDING_EVENTS: nat := 1000

  type Id = nat

  datatype Answer = Yes | No | Raises

  /** An authenticated caller: its user's id, and what its permission check answers. */
  datatype Principal = Principal(userId: Option<string>, can: string -> Answer)

  datatype Audience = Audience(permission: Option<string>, userId: Option<string>)

  datatype Event = Event(audience: Audience, text: string)

  datatype Message = Connected | Published(event: Event)

  predicate IsEveryone(a: Audience) {
    a.permission.None? && a.userId.None?
  }

  /** `_requires_authentication`: a check that fails counts as required. */
  predicate RequiresAuth(check: Option<Answer>) {
    check.Some? && !check.value.No?
  }

  /** Who an event is for: everyone, or a caller that is its user or holds its permission. */
  predicate InAudience(principal: Option<Principal>, a: Audience, requiresAuth: bool) {
    || IsEveryone(a)
    || (principal.None? && !requiresAuth)
    || (principal.Some? && a.userId.Some? && a.userId == principal.value.userId)
    || (principal.Some? && a.permission.Some? && principal.value.can(a.permission.value) == Yes)
  }

  /** Authentication is not required where nothing checks it, or the check says no. */
  lemma AuthenticationExactly(check: Option<Answer>)
    ensures !RequiresAuth(check) <==> check.None? || check == Some(No)
  {
  }

  /** Whom an event reaches, case by case; a permission check that raises admits nobody. */
  ghost predicate Addressed(a: Audience, who: Option<Principal>, requiresAuth: bool) {
    if a == Audience(None, None) then true
    else
      match who
      case None => !requiresAuth
      case Some(p) =>
        || (a.userId.Some? && p.userId.Some? && a.userId.value == p.userId.value)
        || match a.permission
           case None => false
           case Some(permission) =>
             match p.can(permission)
             case Yes => true
             case No => false
             case Raises => false
  }

  lemma AudienceExactly(a: Audience, who: Option<Principal>, requiresAuth: bool)
    ensures InAudience(who, a, requiresAuth) <==> Addressed(a, who, requiresAuth)
  {
  }

  /** `_receives`. */
  method Receives(principal: Option<Principal>, a: Audience, requiresAuth: bool) returns (r: bool)
    ensures r == InAudience(principal, a, requiresAuth)
    ensures r <==> Addressed(a, principal, requiresAuth)
  {
    AudienceExactly(a, principal, requiresAuth);
    if IsEveryone(a) {
      return true;
    }
    if principal.None? {
      return !requiresAuth;
    }
    if a.userId.Some? {
      if principal.value.userId.Some? && principal.value.userId == a.userId {
        return true;
      }
    }
    if a.permission.Some? {
      if principal.value.can(a.permission.value) == Yes {
        return true;
      }
    }
    return false;
  }

  // ---------------------------------------------------------------------
  // One socket
  // ---------------------------------------------------------------------

  /** A sender waits for a message, is sending one, or gave up on one. */
  datatype Sender = Waiting | Sending(message: Message) | Failed(message: Message)

  /** What the manager keeps of one socket, and what was sent to it so far. */
  datatype Line = Line(
    client: bool,
    principal: Option<Principal>,
    outbox: Option<seq<Message>>,
    sender: Option<Sender>,
    sent: Option<seq<Message>>)

  const UNKNOWN := Line(false, None, None, None, None)

  /** The synchronous sections; `reached` says whether a send cut off by stopping had gone out. */
  datatype Step =
    | Connect(id: Id, identity: Option<Principal>)
    | Publish(event: Event, requiresAuth: bool)
    | Take(id: Id)
    | Sent(id: Id)
    | Fail(id: Id)
    | StopSender(id: Id, reached: bool)
    | Disconnect(id: Id, reached: bool)

  predicate Concerns(step: Step, id: Id) {
    step.Publish? || step.id == id
  }

  /** Whether an event is for this socket. */
  predicate DueTo(l: Line, step: Step) {
    step.Publish? && l.client && InAudience(l.principal, step.event.audience, step.requiresAuth)
  }

  predicate HasRoom(l: Line) {
    l.outbox.Some? && |l.outbox.value| < MAX_PENDING_EVENTS
  }

  predicate EnabledLine(l: Line, step: Step) {
    match step
    case Connect(_, _) => l.sent.None?
    case Publish(_, _) => true
    case Take(_) => l.outbox.Some? && l.outbox.value != [] && l.sender == Some(Waiting)
    case Sent(_) => l.sent.Some? && l.sender.Some? && l.sender.value.Sending?
    case Fail(_) => l.sender.Some? && l.sender.value.Sending?
    case StopSender(_, _) => true
    case Disconnect(_, _) => true
  }

  function Stopped(l: Line, reached: bool): Line {
    var gone := reached && l.sent.Some? && l.sender.Some? && l.sender.value.Sending?;
    l.(outbox := None, sender := None, sent := if gone then Some(l.sent.value + [l.sender.value.message]) else l.sent)
  }

  function NextLine(l: Line, step: Step): Line
    requires EnabledLine(l, step)
  {
    match step
    case Connect(_, identity) => Line(true, identity, Some([Connected]), Some(Waiting), Some([]))
    case Publish(event, _) =>
      if DueTo(l, step) && HasRoom(l) then l.(outbox := Some(l.outbox.value + [Published(event)])) else l
    case Take(_) => l.(outbox := Some(l.outbox.value[1..]), sender := Some(Sending(l.outbox.value[0])))
    case Sent(_) => l.(sender := Some(Waiting), sent := Some(l.sent.value + [l.sender.value.message]))
    case Fail(_) => l.(sender := Some(Failed(l.sender.value.message)))
    case StopSender(_, reached) => Stopped(l, reached)
    case Disconnect(_, reached) => Stopped(l, reached).(client := false, principal := None)
  }

  // ---------------------------------------------------------------------
  // Runs
  // ---------------------------------------------------------------------

  function Init<T>(s: seq<T>): seq<T>
    requires s != []
  {
    s[..|s| - 1]
  }

  function Final<T>(s: seq<T>): T
    requires s != []
  {
    s[|s| - 1]
  }

  /** What a run leaves of one socket. */
  function LineAfter(steps: seq<Step>, id: Id): Line {
    if steps == [] then UNKNOWN
    else
      var l := LineAfter(Init(steps), id);
      if Concerns(Final(steps), id) && EnabledLine(l, Final(steps)) then NextLine(l, Final(steps)) else l
  }

  predicate Enabled(steps: seq<Step>, step: Step) {
    step.Publish? || EnabledLine(LineAfter(steps, step.id), step)
  }

  predicate Legal(steps: seq<Step>) {
    steps == [] || (Legal(Init(steps)) && Enabled(Init(steps), Final(steps)))
  }

  lemma OneMoreStep(steps: seq<Step>, step: Step)
    ensures Init(steps + [step]) == steps && Final(steps + [step]) == step
  {
  }

  /** The events published for this socket while it was connected, and those its queue took. */
  function Due(steps: seq<Step>, id: Id): seq<Event> {
    if steps == [] then []
    else if DueTo(LineAfter(Init(steps), id), Final(steps)) then Due(Init(steps), id) + [Final(steps).event]
    else Due(Init(steps), id)
  }

  function Accepted(steps: seq<Step>, id: Id): seq<Event> {
    if steps == [] then []
    else
      var l := LineAfter(Init(steps), id);
      if DueTo(l, Final(steps)) && HasRoom(l) then Accepted(Init(steps), id) + [Final(steps).event]
      else Accepted(Init(steps), id)
  }

  /** No event for this socket ever found its queue full. */
  predicate NeverFull(steps: seq<Step>, id: Id) {
    steps == [] ||
    (NeverFull(Init(steps), id) &&
     var l := LineAfter(Init(steps), id);
     DueTo(l, Final(steps)) && l.outbox.Some? ==> |l.outbox.value| < MAX_PENDING_EVENTS)
  }

  /** `a` is `b` with some of its elements left out, each used at most once and in order. */
  predicate IsSubsequence<T(==)>(a: seq<T>, b: seq<T>)
    decreases |b|
  {
    if a == [] then true
    else if b == [] then false
    else (Final(a) == Final(b) && IsSubsequence(Init(a), Init(b))) || IsSubsequence(a, Init(b))
  }

  function Messages(events: seq<Event>): seq<Message> {
    seq(|events|, i requires 0 <= i < |events| => Published(events[i]))
  }

  function InFlight(sender: Option<Sender>): seq<Message> {
    if sender.None? || sender.value.Waiting? then [] else [sender.value.message]
  }

  /** Sent, then in flight, then waiting. */
  function Stream(l: Line): seq<Message>
    requires l.sent.Some? && l.outbox.Some?
  {
    l.sent.value + InFlight(l.sender) + l.outbox.value
  }

  /** "connected", then the events the queue took. */
  function Promised(accepted: seq<Event>): seq<Message> {
    [Connected] + Messages(accepted)
  }

  /** How a socket stands to the events its queue took, those for it, and whether one ever found the queue full. */
  ghost predicate Delivers(l: Line, accepted: seq<Event>, due: seq<Event>, neverFull: bool) {
    && (l.outbox.Some? <==> l.sender.Some?)
    && (l.outbox.Some? ==> l.client)
    && (l.sent.None? ==> l == UNKNOWN && accepted == [] && due == [] && neverFull)
    && (l.outbox.Some? ==> |l.outbox.value| <= MAX_PENDING_EVENTS && Stream(l) == Promised(accepted))
    && (l.sent.Some? ==> l.sent.value <= Promised(accepted))
    && IsSubsequence(accepted, due) && |accepted| <= |due|
    && (l.outbox.Some? ==> (neverFull <==> accepted == due) && (neverFull <==> |accepted| == |due|))
  }

  lemma SubsequenceGrows<T>(a: seq<T>, b: seq<T>, x: T)
    requires IsSubsequence(a, b)
    ensures IsSubsequence(a + [x], b + [x]) && IsSubsequence(a, b + [x])
  {
    assert Init(a + [x]) == a && Init(b + [x]) == b;
  }

  lemma PublishDelivers(l: Line, accepted: seq<Event>, due: seq<Event>, neverFull: bool, step: Step)
    requires Delivers(l, accepted, due, neverFull) && step.Publish? && DueTo(l, step)
    ensures Delivers(NextLine(l, step),
                     if HasRoom(l) then accepted + [step.event] else accepted,
                     due + [step.event],
                     neverFull && (l.outbox.Some? ==> HasRoom(l)))
  {
    hide IsSubsequence, InFlight;
    SubsequenceGrows(accepted, due, step.event);
    assert Messages(accepted + [step.event]) == Messages(accepted) + [Published(step.event)];
    assert Promised(accepted + [step.event]) == Promised(accepted) + [Published(step.event)];
  }

  lemma OtherStepDelivers(l: Line, accepted: seq<Event>, due: seq<Event>, neverFull: bool, step: Step)
    requires Delivers(l, accepted, due, neverFull) && !step.Publish? && EnabledLine(l, step)
    ensures Delivers(NextLine(l, step), accepted, due, neverFull)
  {
    hide IsSubsequence;
    var next := NextLine(l, step);
    match step
    case Connect(_, _) =>
      assert Messages([]) == [];
    case Take(_) =>
      assert l.outbox.value == [l.outbox.value[0]] + next.outbox.value;
      assert Stream(next) == Stream(l);
    case Sent(_) =>
      assert Stream(next) == Stream(l);
      assert next.sent.value <= Stream(next);
    case Fail(_) =>
    case StopSender(_, _) =>
      assert l.outbox.Some? ==> l.sent.value + InFlight(l.sender) <= Stream(l);
    case Disconnect(_, _) =>
      assert l.outbox.Some? ==> l.sent.value + InFlight(l.sender) <= Stream(l);
  }

  /**
   What was sent to a socket, then the message in flight, then its queue, is always
   "connected" followed by the accepted events: a subsequence, in publish order and
   without repeats, of the events for it; all of them if and only if none found the queue full.
   The queue never holds more than 1000.  After the end, what was sent is still a
   beginning of that sequence.
   */
  lemma {:induction false} AlwaysDelivers(steps: seq<Step>, id: Id)
    requires Legal(steps)
    ensures Delivers(LineAfter(steps, id), Accepted(steps, id), Due(steps, id), NeverFull(steps, id))
    decreases |steps|
  {
    hide Delivers, NextLine, InAudience, IsSubsequence;
    if steps == [] {
      NothingDelivers();
    } else {
      AlwaysDelivers(Init(steps), id);
      var l, step := LineAfter(Init(steps), id), Final(steps);
      var accepted, due, neverFull := Accepted(Init(steps), id), Due(Init(steps), id), NeverFull(Init(steps), id);
      if DueTo(l, step) {
        PublishDelivers(l, accepted, due, neverFull, step);
      } else if step.Publish? {
        NotDue(l, step);
      } else if step.id == id {
        OtherStepDelivers(l, accepted, due, neverFull, step);
      }
    }
  }

  // ---------------------------------------------------------------------
  // Who gets what
  // ---------------------------------------------------------------------

  /** Step `m` connected the socket for a caller, and nothing disconnected it since. */
  ghost predicate ConnectedAs(steps: seq<Step>, m: nat, id: Id, who: Option<Principal>) {
    && m < |steps| && steps[m] == Connect(id, who)
    && forall k :: m < k < |steps| ==> !(steps[k].Disconnect? && steps[k].id == id)
  }

  /** A socket is known, with its caller, exactly from its connection to its end. */
  lemma {:induction false} KnownExactly(steps: seq<Step>, id: Id, who: Option<Principal>)
    requires Legal(steps)
    ensures var l := LineAfter(steps, id);
      && (l.client && l.principal == who <==> exists m: nat :: ConnectedAs(steps, m, id, who))
      && (l.sent.None? ==> forall k :: 0 <= k < |steps| ==> !(steps[k].Connect? && steps[k].id == id))
      && (l.sent.None? ==> !l.client)
  {
    if steps != [] {
      var before, step := Init(steps), Final(steps);
      KnownExactly(before, id, who);
      assert forall k :: 0 <= k < |before| ==> steps[k] == before[k];
      if step == Connect(id, who) {
        assert ConnectedAs(steps, |before|, id, who);
      } else if !(step.Disconnect? && step.id == id) {
        forall m: nat | ConnectedAs(before, m, id, who) ensures ConnectedAs(steps, m, id, who) {
        }
      }
      forall m: nat | ConnectedAs(steps, m, id, who) && m < |before| ensures ConnectedAs(before, m, id, who) {
      }
    }
  }

  /** An event is for a socket exactly if it is connected then for a caller whom the event is addressed to. */
  lemma DueExactly(steps: seq<Step>, id: Id, step: Step)
    requires Legal(steps) && step.Publish?
    ensures DueTo(LineAfter(steps, id), step) <==>
      exists m: nat, who ::
        ConnectedAs(steps, m, id, who) && Addressed(step.event.audience, who, step.requiresAuth)
  {
    hide Addressed, InAudience;
    var l := LineAfter(steps, id);
    AudienceExactly(step.event.audience, l.principal, step.requiresAuth);
    KnownExactly(steps, id, l.principal);
    forall m: nat, who | ConnectedAs(steps, m, id, who) ensures l.client && l.principal == who {
      KnownExactly(steps, id, who);
    }
  }

  lemma NothingDelivers()
    ensures Delivers(UNKNOWN, [], [], true)
  {
  }

  lemma NotDue(l: Line, step: Step)
    requires step.Publish? && !DueTo(l, step)
    ensures NextLine(l, step) == l
  {
  }

  /** The steps of a run that concern one socket: its own and what is published. */
  function Only(steps: seq<Step>, id: Id): seq<Step> {
    if steps == [] then []
    else if Concerns(Final(steps), id) then Only(Init(steps), id) + [Final(steps)]
    else Only(Init(steps), id)
  }

  /** No socket delays or disturbs another: a run without the others' steps leaves this socket the same. */
  lemma {:induction false} OthersDoNotMatter(steps: seq<Step>, id: Id)
    requires Legal(steps)
    ensures Legal(Only(steps, id))
    ensures LineAfter(Only(steps, id), id) == LineAfter(steps, id)
    ensures Accepted(Only(steps, id), id) == Accepted(steps, id) && Due(Only(steps, id), id) == Due(steps, id)
  {
    hide NextLine, DueTo, EnabledLine;
    if steps != [] {
      OthersDoNotMatter(Init(steps), id);
      if Concerns(Final(steps), id) {
        OneMoreStep(Only(Init(steps), id), Final(steps));
      } else {
        NotPublished(steps, id);
      }
    }
  }

  lemma NotPublished(steps: seq<Step>, id: Id)
    requires steps != [] && !Concerns(Final(steps), id)
    ensures Due(steps, id) == Due(Init(steps), id) && Accepted(steps, id) == Accepted(Init(steps), id)
  {
  }

  /** The sender of one socket taking and sending `n` messages. */
  function Drain(id: Id, n: nat): seq<Step> {
    if n == 0 then [] else Drain(id, n - 1) + [Take(id), Sent(id)]
  }

  lemma TakeThenSend(steps: seq<Step>, id: Id)
    requires Legal(steps)
    requires var l := LineAfter(steps, id);
      l.outbox.Some? && l.outbox.value != [] && l.sender == Some(Waiting) && l.sent.Some?
    ensures var l, more := LineAfter(steps, id), steps + [Take(id), Sent(id)];
      && Legal(more)
      && LineAfter(more, id) ==
         l.(sent := Some(l.sent.value + [l.outbox.value[0]]), outbox := Some(l.outbox.value[1..]))
  {
    var taken := steps + [Take(id)];
    OneMoreStep(steps, Take(id));
    assert Legal(taken) && LineAfter(taken, id) == NextLine(LineAfter(steps, id), Take(id));
    OneMoreStep(taken, Sent(id));
    assert Init(taken + [Sent(id)]) == taken;
    assert steps + [Take(id), Sent(id)] == steps + [Take(id)] + [Sent(id)];
  }

  /** A sender that has not failed can always go on, and sends the queue in order, whatever the others do. */
  lemma {:induction false} QueueDrains(steps: seq<Step>, id: Id, n: nat)
    requires Legal(steps)
    requires var l := LineAfter(steps, id);
      l.outbox.Some? && l.sender == Some(Waiting) && l.sent.Some? && n <= |l.outbox.value|
    ensures var l := LineAfter(steps, id);
      && Legal(steps + Drain(id, n))
      && LineAfter(steps + Drain(id, n), id) ==
         l.(sent := Some(l.sent.value + l.outbox.value[..n]), outbox := Some(l.outbox.value[n..]))
    decreases n
  {
    hide Legal, LineAfter;
    var l := LineAfter(steps, id);
    if n == 0 {
      assert steps + Drain(id, 0) == steps;
      assert l.outbox.value[0..] == l.outbox.value && l.sent.value + l.outbox.value[..0] == l.sent.value;
    } else {
      QueueDrains(steps, id, n - 1);
      TakeThenSend(steps + Drain(id, n - 1), id);
      assert steps + Drain(id, n) == steps + Drain(id, n - 1) + [Take(id), Sent(id)];
      assert l.sent.value + l.outbox.value[..n] == l.sent.value + l.outbox.value[..n - 1] + [l.outbox.value[n - 1]];
      assert l.outbox.value[n - 1..][1..] == l.outbox.value[n..];
    }
  }

  /** So every accepted event can still be sent: then everything promised has been. */
  lemma EverythingAcceptedArrives(steps: seq<Step>, id: Id)
    requires Legal(steps)
    requires var l := LineAfter(steps, id); l.outbox.Some? && l.sender == Some(Waiting)
    ensures var n := |LineAfter(steps, id).outbox.value|;
      && Legal(steps + Drain(id, n))
      && LineAfter(steps + Drain(id, n), id).sent == Some(Promised(Accepted(steps, id)))
  {
    hide Legal, LineAfter, Accepted, Due, IsSubsequence, Messages;
    var l := LineAfter(steps, id);
    AlwaysDelivers(steps, id);
    QueueDrains(steps, id, |l.outbox.value|);
    assert l.outbox.value[..|l.outbox.value|] == l.outbox.value;
    assert l.sent.value + InFlight(l.sender) == l.sent.value;
  }

  // ---------------------------------------------------------------------
  // The manager
  // ---------------------------------------------------------------------

  class EventSocketManager {
    var clients: set<Id>
    var principals: map<Id, Principal>
    var outboxes: map<Id, seq<Message>>
    var senders: map<Id, Sender>
    /** What went out on each socket ever connected, and the run so far. */
    ghost var sent: map<Id, seq<Message>>
    ghost var log: seq<Step>

    ghost function Kept<T>(m: map<Id, T>, id: Id): Option<T> {
      if id in m then Some(m[id]) else None
    }

    ghost function LineOf(id: Id): Line
      reads this
    {
      Line(id in clients, Kept(principals, id), Kept(outboxes, id), Kept(senders, id), Kept(sent, id))
    }

    /** The dictionaries hold what the run leaves of every socket. */
    ghost predicate Valid()
      reads this
    {
      Legal(log) && forall id: Id :: LineOf(id) == LineAfter(log, id)
    }

    constructor ()
      ensures Valid() && log == []
    {
      clients, principals, outboxes, senders := {}, map[], map[], map[];
      sent, log := map[], [];
    }

    /** Every section is one more step of the run. */
    ghost method Record(step: Step)
      requires Legal(log) && Enabled(log, step)
      requires forall id: Id ::
        var l := LineAfter(log, id);
        LineOf(id) == if Concerns(step, id) && EnabledLine(l, step) then NextLine(l, step) else l
      modifies this`log
      ensures log == old(log) + [step] && Valid()
    {
      OneMoreStep(log, step);
      log := log + [step];
    }

    /** `_enqueue`: a full queue drops the message. */
    method Enqueue(client: Id, message: Message)
      modifies this`outboxes
      ensures outboxes ==
        if client in old(outboxes) && |old(outboxes)[client]| < MAX_PENDING_EVENTS
        then old(outboxes)[client := old(outboxes)[client] + [message]]
        else old(outboxes)
    {
      if client in outboxes && |outboxes[client]| < MAX_PENDING_EVENTS {
        outboxes := outboxes[client := outboxes[client] + [message]];
      }
    }

    /** A known socket whose queue has room takes an event that is addressed to its caller. */
    ghost predicate Takes(id: Id, event: Event, check: Option<Answer>)
      reads this
    {
      && id in clients && id in outboxes && |outboxes[id]| < MAX_PENDING_EVENTS
      && Addressed(event.audience, Kept(principals, id), check.Some? && check != Some(No))
    }

    lemma TakesIsNext(id: Id, event: Event, check: Option<Answer>)
      requires id in outboxes
      ensures NextLine(LineOf(id), Publish(event, RequiresAuth(check))).outbox ==
        Some(outboxes[id] + if Takes(id, event, check) then [Published(event)] else [])
    {
      hide Addressed, InAudience;
      AudienceExactly(event.audience, Kept(principals, id), RequiresAuth(check));
      assert outboxes[id] + [] == outboxes[id];
    }

    /** `publish_event`. */
    method PublishEvent(event: Event, check: Option<Answer>)
      requires Valid()
      modifies this`outboxes, this`log
      ensures Valid() && log == old(log) + [Publish(event, RequiresAuth(check))]
      ensures outboxes.Keys == old(outboxes.Keys)
      ensures forall id | id in outboxes ::
        outboxes[id] == old(outboxes)[id] + if old(Takes(id, event, check)) then [Published(event)] else []
    {
      hide Addressed, InAudience;
      var requiresAuth := RequiresAuth(check);
      ghost var step := Publish(event, requiresAuth);
      forall id | id in outboxes {
        TakesIsNext(id, event, check);
      }
      var rest := clients;
      while rest != {}
        invariant rest <= clients
        invariant forall id :: LineOf(id) == if id in rest then old(LineOf(id)) else NextLine(old(LineOf(id)), step)
        modifies this`outboxes
        decreases rest
      {
        var client :| client in rest;
        rest := rest - {client};
        var principal := if client in principals then Some(principals[client]) else None;
        var receives := Receives(principal, event.audience, requiresAuth);
        if receives {
          Enqueue(client, Published(event));
        }
      }
      forall id: Id
        ensures id in outboxes <==> id in old(outboxes)
        ensures id in outboxes ==>
          outboxes[id] == old(outboxes)[id] + if old(Takes(id, event, check)) then [Published(event)] else []
      {
        assert LineOf(id) == NextLine(old(LineOf(id)), step);
        assert Kept(outboxes, id) == LineOf(id).outbox;
      }
      Record(step);
    }

    /** The start of `handle_connection`, on a socket never connected before. */
    method HandleConnection(client: Id, identity: Option<Principal>)
      requires Valid() && client !in sent
      modifies this
      ensures Valid() && log == old(log) + [Connect(client, identity)]
      ensures client in clients && client in outboxes && outboxes[client] == [Connected]
      ensures if identity.None? then client !in principals
              else client in principals && principals[client] == identity.value
    {
      AlwaysDelivers(log, client);
      assert LineOf(client).sent.None?;
      clients := clients + {client};
      if identity.Some? {
        principals := principals[client := identity.value];
      }
      outboxes := outboxes[client := [Connected]];
      senders := senders[client := Waiting];
      sent := sent[client := []];
      Record(Connect(client, identity));
    }

    /** `_send_loop` up to its send: the next message, if the sender is waiting for one. */
    method TakeMessage(client: Id)
      requires Valid() && client in senders && senders[client] == Waiting
      requires client in outboxes && outboxes[client] != []
      modifies this`outboxes, this`senders, this`log
      ensures Valid() && log == old(log) + [Take(client)]
      ensures senders == old(senders)[client := Sending(old(outboxes)[client][0])]
      ensures outboxes == old(outboxes)[client := old(outboxes)[client][1..]]
    {
      senders := senders[client := Sending(outboxes[client][0])];
      outboxes := outboxes[client := outboxes[client][1..]];
      Record(Take(client));
    }

    /** The end of a send: the loop goes on, or after a failure ends for good. */
    method EndSend(client: Id, failed: bool)
      requires Valid() && client in senders && senders[client].Sending?
      modifies this`senders, this`sent, this`log
      ensures Valid() && log == old(log) + [if failed then Fail(client) else Sent(client)]
      ensures client in senders && (if failed then senders[client].Failed? else senders[client] == Waiting)
      ensures failed ==> sent == old(sent)
      ensures client in old(sent)
      ensures !failed ==> sent == old(sent)[client := old(sent)[client] + [old(senders)[client].message]]
    {
      AlwaysDelivers(log, client);
      assert LineOf(client).sender.Some?;
      var message := senders[client].message;
      if failed {
        senders := senders[client := Failed(message)];
        Record(Fail(client));
      } else {
        senders := senders[client := Waiting];
        sent := sent[client := sent[client] + [message]];
        Record(Sent(client));
      }
    }

    /** `_stop_sender`; `reached` says whether the send it cuts off had gone out. */
    method Stop(client: Id, ghost reached: bool)
      modifies this`outboxes, this`senders, this`sent
      ensures LineOf(client) == Stopped(old(LineOf(client)), reached)
      ensures forall id | id != client :: LineOf(id) == old(LineOf(id))
      ensures outboxes == old(outboxes) - {client} && senders == old(senders) - {client}
    {
      if reached && client in sent && client in senders && senders[client].Sending? {
        sent := sent[client := sent[client] + [senders[client].message]];
      }
      outboxes := outboxes - {client};
      senders := senders - {client};
    }

    /** One turn of the loop that stops every sender when the server disconnects all clients. */
    method CutOff(client: Id, ghost reached: bool)
      requires Valid()
      modifies this
      ensures Valid() && log == old(log) + [StopSender(client, reached)]
      ensures outboxes == old(outboxes) - {client} && senders == old(senders) - {client}
      ensures clients == old(clients) && principals == old(principals)
    {
      Stop(client, reached);
      Record(StopSender(client, reached));
    }

    /** The end of `handle_connection`, and `_on_session_ended`. */
    method EndConnection(client: Id, ghost reached: bool)
      requires Valid()
      modifies this
      ensures Valid() && log == old(log) + [Disconnect(client, reached)]
      ensures outboxes == old(outboxes) - {client} && senders == old(senders) - {client}
      ensures clients == old(clients) - {client} && principals == old(principals) - {client}
    {
      Stop(client, reached);
      clients := clients - {client};
      principals := principals - {client};
      Record(Disconnect(client, reached));
    }

    /** A manager that never had the other sockets keeps the same of this one. */
    lemma OthersLeaveAlone(id: Id)
      requires Valid()
      ensures Legal(Only(log, id)) && LineOf(id) == LineAfter(Only(log, id), id)
    {
      OthersDoNotMatter(log, id);
    }

    /** In every state the manager reaches, for every socket with a queue. */
    lemma Delivered(id: Id)
      requires Valid() && id in outboxes
      ensures id in sent && id in senders && |outboxes[id]| <= MAX_PENDING_EVENTS
      ensures sent[id] + InFlight(Some(senders[id])) + outboxes[id] == [Connected] + Messages(Accepted(log, id))
      ensures IsSubsequence(Accepted(log, id), Due(log, id))
      ensures Accepted(log, id) == Due(log, id) <==> NeverFull(log, id)
    {
      AlwaysDelivers(log, id);
      assert LineOf(id).outbox.Some?;
    }
  }
}
