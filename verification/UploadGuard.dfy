/** The admission guard around the upload endpoint, with any number of requests in flight. */
module UploadGuard {
  import opened Basics

  /** What the guarded application may end with; a group holds the exceptions of its tasks. */
  datatype Failure = BodyTooLarge | OtherFailure | Group(parts: seq<Failure>)

  /** `_is_body_limit_failure`. */
  predicate IsBodyLimitFailure(f: Failure) {
    match f
    case BodyTooLarge => true
    case OtherFailure => false
    case Group(parts) => parts != [] && forall part | part in parts :: IsBodyLimitFailure(part)
  }

  /** `leaf` is at the bottom of the tree; an empty group is a leaf. */
  ghost predicate IsLeafOf(leaf: Failure, f: Failure) {
    match f
    case Group(parts) => if parts == [] then leaf == f else exists part | part in parts :: IsLeafOf(leaf, part)
    case _ => leaf == f
  }

  lemma {:induction false} LeafOfBodyLimit(f: Failure, leaf: Failure)
    requires IsBodyLimitFailure(f) && IsLeafOf(leaf, f)
    ensures leaf == BodyTooLarge
  {
    if f.Group? {
      var part :| part in f.parts && IsLeafOf(leaf, part);
      LeafOfBodyLimit(part, leaf);
    }
  }

  lemma {:induction false} OtherLeaf(f: Failure) returns (leaf: Failure)
    requires !IsBodyLimitFailure(f)
    ensures IsLeafOf(leaf, f) && leaf != BodyTooLarge
  {
    leaf := f;
    if f.Group? && f.parts != [] {
      var part :| part in f.parts && !IsBodyLimitFailure(part);
      leaf := OtherLeaf(part);
    }
  }

  ghost predicate HasLeaf(f: Failure, leaf: Failure) { IsLeafOf(leaf, f) }

  /** A failure counts as an oversized body exactly when nothing but the size sentinel is inside. */
  lemma BodyLimitIffAllLeaves(f: Failure)
    ensures IsBodyLimitFailure(f) <==> forall leaf | HasLeaf(f, leaf) :: leaf == BodyTooLarge
  {
    if IsBodyLimitFailure(f) {
      forall leaf | HasLeaf(f, leaf) ensures leaf == BodyTooLarge { LeafOfBodyLimit(f, leaf); }
    } else {
      var leaf := OtherLeaf(f);
      assert HasLeaf(f, leaf);
    }
  }

  /** `_content_length`: one readable value that is not negative, or none. */
  function TrustedLength(values: seq<Option<int>>): Option<nat> {
    if |values| == 1 && values[0].Some? && values[0].value >= 0 then Some(values[0].value) else None
  }

  datatype Limits = Limits(maxBytes: nat, maxConcurrent: nat)

  /** One admitted request: the bytes it has sent, those the application got, and whether its
      response has begun. */
  datatype Flight = Flight(received: nat, forwarded: nat, started: bool)

  /** `active` is the guard's counter; `flights` are the requests inside the guarded call. */
  datatype Guard = Guard(active: int, flights: map<nat, Flight>)

  const IDLE := Guard(0, map[])

  datatype Event =
    | Arrive(id: nat, guarded: bool, lengths: seq<Option<int>>)
    | Receive(id: nat, size: nat)
    | StartResponse(id: nat)
    | End(id: nat, failure: Option<Failure>)

  datatype Reply = PassedThrough | Refused413 | Refused503 | Admitted | Forwarded | Cut | Sent | Done
    | Answered413 | Raised

  predicate IsPossible(g: Guard, e: Event) { if e.Arrive? then e.id !in g.flights else e.id in g.flights }

  function Next(g: Guard, l: Limits, e: Event): (Guard, Reply)
    requires IsPossible(g, e)
  {
    match e
    case Arrive(id, guarded, lengths) =>
      if !guarded then (g, PassedThrough)
      else if TrustedLength(lengths).Some? && TrustedLength(lengths).value > l.maxBytes then (g, Refused413)
      else if g.active >= l.maxConcurrent then (g, Refused503)
      else (Guard(g.active + 1, g.flights[id := Flight(0, 0, false)]), Admitted)
    case Receive(id, size) =>
      var flight := g.flights[id].(received := g.flights[id].received + size);
      if flight.received > l.maxBytes then (g.(flights := g.flights[id := flight]), Cut)
      else (g.(flights := g.flights[id := flight.(forwarded := flight.forwarded + size)]), Forwarded)
    case StartResponse(id) => (g.(flights := g.flights[id := g.flights[id].(started := true)]), Sent)
    case End(id, failure) =>
      (Guard(g.active - 1, g.flights - {id}),
       if failure.None? then Done
       else if IsBodyLimitFailure(failure.value) && !g.flights[id].started then Answered413
       else Raised)
  }

  // ----------------------------------------------------------- invariant

  /** The counter is the number of requests in flight, within the limit, and the application has
      received no more than the limit of any of them. */
  ghost predicate Inv(g: Guard, l: Limits) {
    && g.active == |g.flights| <= l.maxConcurrent
    && forall id | id in g.flights :: FlightIsBounded(g.flights[id], l.maxBytes)
  }

  lemma AddedFlight<V>(m: map<nat, V>, id: nat, v: V)
    ensures |m[id := v]| == if id in m then |m| else |m| + 1
  {
    assert m[id := v].Keys == m.Keys + {id};
    assert |m| == |m.Keys| && |m[id := v]| == |m[id := v].Keys|;
  }

  lemma RemovedFlight<V>(m: map<nat, V>, id: nat)
    requires id in m
    ensures |m - {id}| == |m| - 1
  {
    assert (m - {id}).Keys == m.Keys - {id};
    assert |m| == |m.Keys| && |m - {id}| == |(m - {id}).Keys|;
  }

  ghost predicate FlightIsBounded(flight: Flight, maxBytes: nat) {
    && flight.forwarded <= maxBytes && flight.forwarded <= flight.received
    && (flight.received <= maxBytes ==> flight.forwarded == flight.received)
  }

  /** One flight is added or replaced. */
  lemma PutKeepsInv(g: Guard, l: Limits, id: nat, flight: Flight, active: int)
    requires Inv(g, l) && FlightIsBounded(flight, l.maxBytes)
    requires active == (if id in g.flights then g.active else g.active + 1) && active <= l.maxConcurrent
    ensures Inv(Guard(active, g.flights[id := flight]), l)
  {
    AddedFlight(g.flights, id, flight);
  }

  lemma StepKeepsInv(g: Guard, l: Limits, e: Event)
    requires Inv(g, l) && IsPossible(g, e)
    ensures Inv(Next(g, l, e).0, l)
  {
    match e
    case Arrive(id, _, _) => if g.active < l.maxConcurrent { PutKeepsInv(g, l, id, Flight(0, 0, false), g.active + 1); }
    case Receive(id, _) => PutKeepsInv(g, l, id, Next(g, l, e).0.flights[id], g.active);
    case StartResponse(id) => PutKeepsInv(g, l, id, Next(g, l, e).0.flights[id], g.active);
    case End(id, _) => RemovedFlight(g.flights, id);
  }

  ghost predicate IsTrace(states: seq<Guard>, l: Limits, events: seq<Event>) {
    && |states| == |events| + 1 && states[0] == IDLE
    && forall i | 0 <= i < |events| ::
         IsPossible(states[i], events[i]) && states[i + 1] == Next(states[i], l, events[i]).0
  }

  lemma {:induction false} TraceInv(states: seq<Guard>, l: Limits, events: seq<Event>, i: nat)
    requires IsTrace(states, l, events) && i <= |events|
    ensures Inv(states[i], l)
  {
    if i > 0 {
      TraceInv(states, l, events, i - 1);
      assert IsPossible(states[i - 1], events[i - 1]);
      StepKeepsInv(states[i - 1], l, events[i - 1]);
    }
  }

  ghost function TotalForwarded(flights: map<nat, Flight>): nat
    decreases |flights.Keys|
  {
    if flights.Keys == {} then 0
    else
      var id :| id in flights.Keys;
      assert (flights - {id}).Keys == flights.Keys - {id};
      flights[id].forwarded + TotalForwarded(flights - {id})
  }

  lemma OneMore(n: int, each: nat, one: nat, total: int)
    requires one <= each && total <= (n - 1) * each
    ensures one + total <= n * each
  {
  }

  lemma TimesGrows(m: nat, n: nat, each: nat)
    requires m <= n
    ensures m * each <= n * each
  {
  }

  lemma {:induction false} TotalIsBounded(flights: map<nat, Flight>, each: nat)
    requires forall id | id in flights :: flights[id].forwarded <= each
    ensures TotalForwarded(flights) <= |flights| * each
    decreases |flights.Keys|
  {
    if flights.Keys != {} {
      var id :| id in flights.Keys && TotalForwarded(flights) == flights[id].forwarded + TotalForwarded(flights - {id});
      RemovedFlight(flights, id);
      assert (flights - {id}).Keys == flights.Keys - {id};
      TotalIsBounded(flights - {id}, each);
      OneMore(|flights|, each, flights[id].forwarded, TotalForwarded(flights - {id}));
    }
  }

  /** However requests arrive, stream, fail and end: the bytes of uploads that the application holds
      at any time stay within the limit of one body times the number of admitted requests. */
  lemma HeldBytesAreBounded(states: seq<Guard>, l: Limits, events: seq<Event>, i: nat)
    requires IsTrace(states, l, events) && i <= |events|
    ensures TotalForwarded(states[i].flights) <= l.maxConcurrent * l.maxBytes
    ensures states[i].active == |states[i].flights| <= l.maxConcurrent
  {
    TraceInv(states, l, events, i);
    TotalIsBounded(states[i].flights, l.maxBytes);
    TimesGrows(|states[i].flights|, l.maxConcurrent, l.maxBytes);
  }

  /** A request is turned away as busy exactly when the limit of others is in flight; so when all
      have ended, whatever they ended with, the next one is admitted. */
  lemma BusyIff(states: seq<Guard>, l: Limits, events: seq<Event>, i: nat, e: Event)
    requires IsTrace(states, l, events) && i <= |events| && e.Arrive? && e.guarded && IsPossible(states[i], e)
    requires TrustedLength(e.lengths).Some? ==> TrustedLength(e.lengths).value <= l.maxBytes
    ensures Next(states[i], l, e).1 == Refused503 <==> |states[i].flights| == l.maxConcurrent
    ensures Next(states[i], l, e).1 == Refused503 || Next(states[i], l, e).1 == Admitted
  {
    TraceInv(states, l, events, i);
  }

  // ------------------------------------------------- what the replies say

  /** The header declares one readable length, and that is over the limit. */
  predicate DeclaresTooMuch(lengths: seq<Option<int>>, maxBytes: nat) {
    |lengths| == 1 && lengths[0].Some? && lengths[0].value > maxBytes
  }

  /** An arrival passes through unguarded, is refused by its one declared length, is refused while the
      limit is in flight, or else is admitted; only then anything changes. */
  lemma ArrivalDecides(g: Guard, l: Limits, e: Event)
    requires e.Arrive? && IsPossible(g, e)
    ensures var (g', reply) := Next(g, l, e);
            && (reply == PassedThrough <==> !e.guarded)
            && (reply == Refused413 <==> e.guarded && DeclaresTooMuch(e.lengths, l.maxBytes))
            && (reply == Refused503 <==>
                  e.guarded && !DeclaresTooMuch(e.lengths, l.maxBytes) && g.active >= l.maxConcurrent)
            && (reply == Admitted <==>
                  e.guarded && !DeclaresTooMuch(e.lengths, l.maxBytes) && g.active < l.maxConcurrent)
            && g' == if reply == Admitted then Guard(g.active + 1, g.flights[e.id := Flight(0, 0, false)]) else g
  {
  }

  /** All bytes of a request are counted, and a message is passed on as long as their total is within
      the limit. */
  lemma ReceiveCounts(g: Guard, l: Limits, id: nat, size: nat)
    requires id in g.flights
    ensures var (g', reply) := Next(g, l, Receive(id, size));
            var was := g.flights[id];
            && (reply == Forwarded <==> was.received + size <= l.maxBytes) && (reply == Forwarded || reply == Cut)
            && g'.active == g.active && g'.flights.Keys == g.flights.Keys
            && (forall other | other in g.flights && other != id :: g'.flights[other] == g.flights[other])
            && g'.flights[id].received == was.received + size && g'.flights[id].started == was.started
            && g'.flights[id].forwarded == was.forwarded + if reply == Forwarded then size else 0
  {
  }

  /** The end of a request releases it whatever happened. It is answered with 413 exactly if there was
      a failure, all of it is the size sentinel, and no response has begun; any other failure is raised
      again. */
  lemma EndReplies(g: Guard, l: Limits, id: nat, failure: Option<Failure>)
    requires id in g.flights
    ensures var (g', reply) := Next(g, l, End(id, failure));
            && g' == Guard(g.active - 1, g.flights - {id})
            && (reply == Done <==> failure.None?)
            && (reply == Answered413 <==>
                  && failure.Some? && !g.flights[id].started
                  && forall leaf | HasLeaf(failure.value, leaf) :: leaf == BodyTooLarge)
            && (reply == Done || reply == Answered413 || reply == Raised)
  {
    if failure.Some? {
      BodyLimitIffAllLeaves(failure.value);
    }
  }

  /** The response of the request began at event `k`, and it has been in flight ever since. */
  ghost predicate BeganAt(states: seq<Guard>, events: seq<Event>, i: nat, id: nat, k: nat) {
    && k < i < |states| && i <= |events| && events[k] == StartResponse(id)
    && forall m | k <= m <= i :: id in states[m].flights
  }

  /** What the guard knows of a response is what happened: it has begun exactly if it was started since
      the request was admitted. */
  lemma {:induction false} StartedIff(states: seq<Guard>, l: Limits, events: seq<Event>, i: nat, id: nat)
    requires IsTrace(states, l, events) && i <= |events| && id in states[i].flights
    ensures states[i].flights[id].started <==> exists k :: BeganAt(states, events, i, id, k)
  {
    if i > 0 {
      var j: nat := i - 1;
      assert IsPossible(states[j], events[j]) && states[i] == Next(states[j], l, events[j]).0;
      if id in states[j].flights {
        StartedIff(states, l, events, j, id);
        if k :| BeganAt(states, events, j, id, k) {
          assert BeganAt(states, events, i, id, k);
        }
      }
      if events[j] == StartResponse(id) {
        assert BeganAt(states, events, i, id, j);
      } else if k :| BeganAt(states, events, i, id, k) {
        assert BeganAt(states, events, j, id, k);
      }
    }
  }

  /** The middleware object. The locals of the running calls are kept in `flights`. */
  class UploadBodyAdmission {
    const limits: Limits
    var active: int
    var flights: map<nat, Flight>

    constructor (maxBytes: nat, maxConcurrent: nat)
      requires maxBytes >= 1 && maxConcurrent >= 1
      ensures View() == IDLE && limits == Limits(maxBytes, maxConcurrent)
    {
      limits := Limits(maxBytes, maxConcurrent);
      active, flights := 0, map[];
    }

    function View(): Guard
      reads this
    {
      Guard(active, flights)
    }

    method TryAdmit() returns (ok: bool)
      modifies this`active
      ensures ok == (old(active) < limits.maxConcurrent) && active == old(active) + if ok then 1 else 0
    {
      if active >= limits.maxConcurrent { return false; }
      active := active + 1;
      return true;
    }

    method Release()
      modifies this`active
      ensures active == old(active) - 1
    {
      active := active - 1;
    }

    /** The call up to the application. */
    method Enter(id: nat, guarded: bool, lengths: seq<Option<int>>) returns (reply: Reply)
      requires id !in flights
      modifies this
      ensures (View(), reply) == Next(old(View()), limits, Arrive(id, guarded, lengths))
    {
      if !guarded { return PassedThrough; }
      var length := TrustedLength(lengths);
      if length.Some? && length.value > limits.maxBytes { return Refused413; }
      var ok := TryAdmit();
      if !ok { return Refused503; }
      flights := flights[id := Flight(0, 0, false)];
      return Admitted;
    }

    /** `guarded_receive`; `Cut` is the exception. */
    method GuardedReceive(id: nat, size: nat) returns (reply: Reply)
      requires id in flights
      modifies this`flights
      ensures (View(), reply) == Next(old(View()), limits, Receive(id, size))
    {
      var flight := flights[id];
      flight := flight.(received := flight.received + size);
      flights := flights[id := flight];
      if flight.received > limits.maxBytes { return Cut; }
      flights := flights[id := flight.(forwarded := flight.forwarded + size)];
      assert flights == old(flights)[id := flight.(forwarded := flight.forwarded + size)];
      return Forwarded;
    }

    /** `tracked_send` of the start of a response. */
    method TrackedSend(id: nat) returns (reply: Reply)
      requires id in flights
      modifies this`flights
      ensures (View(), reply) == Next(old(View()), limits, StartResponse(id))
    {
      flights := flights[id := flights[id].(started := true)];
      return Sent;
    }

    /** The `except` and `finally` clauses, for a call that ended normally or with a failure. */
    method Leave(id: nat, failure: Option<Failure>) returns (reply: Reply)
      requires id in flights
      modifies this
      ensures (View(), reply) == Next(old(View()), limits, End(id, failure))
    {
      reply := Done;
      if failure.Some? {
        if !IsBodyLimitFailure(failure.value) || flights[id].started {
          reply := Raised;
        } else {
          reply := Answered413;
        }
      }
      flights := flights - {id};
      Release();
    }
  }
}
