/**
 Outstanding transactions and the per-host send queues. Every query handed over
 carries a tag standing for its callback; the ghost map `place` says where each
 tag is, and the containers are shown to agree with it.
 */
module Rpc {
  import opened Endpoints
  import opened Numbers
  import opened RateLimits

  const MAX_QUEUED_TOTAL := 20000
  const IDS := 65536
  const DEFAULT_MAX_PENDING := 60000
  const PRUNE_INTERVAL_MS := 5000

  datatype Status = Response | Error | Timeout | Throttled

  /** A two-byte transaction id. */
  datatype Tid = Tid(number: UInt16)

  datatype Query = Query(to: Endpoint, timeoutMs: int, tag: nat)

  datatype Pending = Pending(to: Endpoint, sentAt: int, deadline: int, tag: nat)

  /** Where a query is. InHand only in the middle of an operation. */
  datatype Place = InHand | Queued(host: Host) | Sent(id: Tid) | Posted | Reported(status: Status) | Cancelled

  type Places = map<nat, Place>

  /** A query handed to the send function. */
  datatype Departure = Departure(tag: nat, host: Host, at: int, taken: bool)

  // --- Containers and places ---------------------------------------------------------

  ghost predicate PendingOk(pending: map<Tid, Pending>, place: Places) {
    && (forall id :: id in pending ==>
          pending[id].tag in place && place[pending[id].tag] == Sent(id))
    && (forall t :: t in place && place[t].Sent? ==> place[t].id in pending && pending[place[t].id].tag == t)
  }

  ghost predicate Holds(queue: seq<Query>, t: nat) {
    exists i :: 0 <= i < |queue| && queue[i].tag == t
  }

  /** One host's queue: its own queries, in the order they were accepted. */
  ghost predicate QueueOk(queue: seq<Query>, h: Host, place: Places) {
    && (forall i :: 0 <= i < |queue| ==>
          HostOf(queue[i].to) == h && queue[i].tag in place && place[queue[i].tag] == Queued(h))
    && (forall i, j :: 0 <= i < j < |queue| ==> queue[i].tag < queue[j].tag)
  }

  ghost predicate QueuesOk(queues: map<Host, seq<Query>>, place: Places) {
    && (forall h :: h in queues ==> QueueOk(queues[h], h, place))
    && (forall t :: t in place && place[t].Queued? ==> place[t].host in queues && Holds(queues[place[t].host], t))
  }

  ghost predicate NonEmpty(queues: map<Host, seq<Query>>) {
    forall h :: h in queues ==> queues[h] != []
  }

  ghost predicate PostedOk(posted: seq<nat>, place: Places) {
    && (forall i :: 0 <= i < |posted| ==> posted[i] in place && place[posted[i]] == Posted)
    && (forall i, j :: 0 <= i < j < |posted| ==> posted[i] != posted[j])
    && (forall t :: t in place && place[t] == Posted ==> t in posted)
  }

  /** Each callback is run at most once, and only Throttled for a query the OS never took. */
  ghost predicate ReportsOk(reports: seq<(nat, Status)>, place: Places, taken: set<nat>) {
    && (forall i :: 0 <= i < |reports| ==> reports[i].0 in place && place[reports[i].0] == Reported(reports[i].1))
    && (forall i, j :: 0 <= i < j < |reports| ==> reports[i].0 != reports[j].0)
    && (forall t :: t in place && place[t].Reported? ==> exists i :: 0 <= i < |reports| && reports[i] == (t, place[t].status))
    && (forall t :: t in place && place[t].Reported? ==> (place[t].status == Throttled <==> t !in taken))
  }

  ghost predicate TakenOk(taken: set<nat>, place: Places) {
    && (forall t :: t in taken ==> t in place && (place[t].Sent? || place[t].Reported? || place[t] == Cancelled))
    && (forall t :: t in place && place[t].Sent? ==> t in taken)
  }

  ghost predicate Known(place: Places, issued: nat) {
    forall t: nat :: t in place <==> t < issued
  }

  /** Nothing is in hand except, perhaps, `hand`. */
  ghost predicate OnlyInHand(place: Places, hand: int) {
    forall t :: t in place && place[t] == InHand ==> t == hand
  }

  ghost predicate NoRepeats(order: seq<Host>) {
    forall i, j :: 0 <= i < j < |order| ==> order[i] != order[j]
  }

  /** The hosts served in turn are exactly those with a queue, each once. */
  ghost predicate OrderOk(order: seq<Host>, queues: map<Host, seq<Query>>) {
    NoRepeats(order) && forall h :: h in order <==> h in queues
  }

  function Size(queues: map<Host, seq<Query>>, h: Host): (n: nat) {
    if h in queues then |queues[h]| else 0
  }

  function Total(order: seq<Host>, queues: map<Host, seq<Query>>): (n: nat) {
    if order == [] then 0 else Total(order[..|order| - 1], queues) + Size(queues, order[|order| - 1])
  }

  /** Queries for one host leave in the order they were accepted, ahead of all that wait. */
  ghost predicate FifoOk(left: seq<Departure>, queues: map<Host, seq<Query>>, issued: nat) {
    && (forall i :: 0 <= i < |left| ==> left[i].tag < issued)
    && (forall i, j :: 0 <= i < j < |left| && left[i].host == left[j].host ==> left[i].tag < left[j].tag)
    && (forall i, k :: 0 <= i < |left| && left[i].host in queues && 0 <= k < |queues[left[i].host]| ==>
          left[i].tag < queues[left[i].host][k].tag)
  }

  /** The limiter's log is the record of what was sent since it was installed. */
  ghost predicate PacedOk(left: seq<Departure>, since: nat, log: seq<Hit>) {
    && since <= |left| && |log| == |left| - since
    && (forall i :: 0 <= i < |log| ==> log[i] == Hit(left[since + i].host, left[since + i].at))
  }

  // --- Totals ------------------------------------------------------------------------

  lemma {:induction false} TotalSame(order: seq<Host>, q: map<Host, seq<Query>>, r: map<Host, seq<Query>>)
    requires forall h :: h in order ==> Size(q, h) == Size(r, h)
    ensures Total(order, q) == Total(order, r)
  {
    if order != [] {
      var n := |order| - 1;
      assert order[n] in order;
      TotalSame(order[..n], q, r);
    }
  }

  lemma {:induction false} TotalSplit(a: seq<Host>, b: seq<Host>, q: map<Host, seq<Query>>)
    ensures Total(a + b, q) == Total(a, q) + Total(b, q)
  {
    if b == [] {
      assert a + b == a;
    } else {
      var n := |b| - 1;
      assert (a + b)[..|a + b| - 1] == a + b[..n];
      TotalSplit(a, b[..n], q);
    }
  }

  lemma TotalOne(h: Host, q: map<Host, seq<Query>>)
    ensures Total([h], q) == Size(q, h)
  {
    assert [h][..0] == [];
  }

  lemma TotalPop(order: seq<Host>, q: map<Host, seq<Query>>)
    requires order != []
    ensures Total(order, q) == Size(q, order[0]) + Total(order[1..], q)
  {
    assert order == [order[0]] + order[1..];
    TotalSplit([order[0]], order[1..], q);
    TotalOne(order[0], q);
  }

  lemma TotalPush(order: seq<Host>, h: Host, q: map<Host, seq<Query>>)
    ensures Total(order + [h], q) == Total(order, q) + Size(q, h)
  {
    TotalSplit(order, [h], q);
    TotalOne(h, q);
  }

  /** Adding one query to a waiting host's queue adds one to the total. */
  lemma {:induction false} TotalGrows(order: seq<Host>, q: map<Host, seq<Query>>, h: Host, x: Query)
    requires NoRepeats(order) && h in order && h in q
    ensures Total(order, q[h := q[h] + [x]]) == Total(order, q) + 1
  {
    var n, r := |order| - 1, q[h := q[h] + [x]];
    if order[n] == h {
      TotalSame(order[..n], q, r);
    } else {
      TotalGrows(order[..n], q, h, x);
    }
  }

  // --- Ids -----------------------------------------------------------------------------

  lemma {:induction false} AllIds(n: nat) returns (s: set<Tid>)
    requires n <= IDS
    ensures |s| == n && forall k :: k in s <==> k.number < n
  {
    if n == 0 {
      s := {};
    } else {
      s := AllIds(n - 1);
      s := s + {Tid(n - 1)};
    }
  }

  /** With fewer than 65536 pending, some transaction id is free. */
  lemma FreeIdExists(pending: map<Tid, Pending>) returns (free: Tid)
    requires |pending| < IDS
    ensures free !in pending
  {
    var all := AllIds(IDS);
    if all <= pending.Keys {
      SubsetCount(all, pending.Keys);
    }
    free :| free in all && free !in pending;
  }

  function Ahead(from: int, to: int): (d: int) {
    if from <= to then to - from else to - from + IDS
  }

  // --- Moving one query ---------------------------------------------------------------

  /** Every container agrees with the places. */
  ghost predicate Filed(pending: map<Tid, Pending>, queues: map<Host, seq<Query>>, posted: seq<nat>,
                        reports: seq<(nat, Status)>, taken: set<nat>, place: Places) {
    && PendingOk(pending, place)
    && QueuesOk(queues, place)
    && PostedOk(posted, place)
    && ReportsOk(reports, place, taken)
    && TakenOk(taken, place)
  }

  /** A new query comes in hand. */
  lemma Issue(pending: map<Tid, Pending>, queues: map<Host, seq<Query>>, posted: seq<nat>,
              reports: seq<(nat, Status)>, taken: set<nat>, place: Places, t: nat)
    requires Filed(pending, queues, posted, reports, taken, place) && t !in place
    ensures Filed(pending, queues, posted, reports, taken, place[t := InHand])
  {
  }

  lemma HoldsLonger(queue: seq<Query>, q: Query, t: nat)
    requires Holds(queue, t) || t == q.tag
    ensures Holds(queue + [q], t)
  {
    if t == q.tag {
      assert (queue + [q])[|queue|].tag == t;
    } else {
      var i :| 0 <= i < |queue| && queue[i].tag == t;
      assert (queue + [q])[i].tag == t;
    }
  }

  lemma HoldsShorter(queue: seq<Query>, t: nat)
    requires Holds(queue, t) && t != queue[0].tag
    ensures Holds(queue[1..], t)
  {
    var i :| 0 <= i < |queue| && queue[i].tag == t;
    assert queue[1..][i - 1].tag == t;
  }

  lemma EnqueueOk(queues: map<Host, seq<Query>>, place: Places, q: Query)
    requires QueuesOk(queues, place) && q.tag in place && place[q.tag] == InHand
    requires var h := HostOf(q.to); h in queues ==> forall i :: 0 <= i < |queues[h]| ==> queues[h][i].tag < q.tag
    ensures var h := HostOf(q.to);
            QueuesOk(Appended(queues, q), place[q.tag := Queued(h)])
  {
    var h := HostOf(q.to);
    var before := if h in queues then queues[h] else [];
    var queues', place' := queues[h := before + [q]], place[q.tag := Queued(h)];
    forall g | g in queues'
      ensures QueueOk(queues'[g], g, place')
    {
    }
    forall t | t in place' && place'[t].Queued?
      ensures place'[t].host in queues' && Holds(queues'[place'[t].host], t)
    {
      if place'[t].host == h { HoldsLonger(before, q, t); }
    }
  }

  /** A query in hand joins its host's queue. */
  lemma Enqueue(pending: map<Tid, Pending>, queues: map<Host, seq<Query>>, posted: seq<nat>,
                reports: seq<(nat, Status)>, taken: set<nat>, place: Places, q: Query)
    requires Filed(pending, queues, posted, reports, taken, place) && q.tag in place && place[q.tag] == InHand
    requires var h := HostOf(q.to); h in queues ==> forall i :: 0 <= i < |queues[h]| ==> queues[h][i].tag < q.tag
    ensures var h := HostOf(q.to);
            Filed(pending, Appended(queues, q), posted, reports, taken, place[q.tag := Queued(h)])
  {
    hide QueuesOk;
    EnqueueOk(queues, place, q);
  }

  lemma DequeueOk(queues: map<Host, seq<Query>>, place: Places, h: Host)
    requires QueuesOk(queues, place) && h in queues && queues[h] != []
    ensures queues[h][0].tag in place && place[queues[h][0].tag] == Queued(h) && HostOf(queues[h][0].to) == h
    ensures QueuesOk(queues[h := queues[h][1..]], place[queues[h][0].tag := InHand])
  {
    var q := queues[h][0];
    var queues', place' := queues[h := queues[h][1..]], place[q.tag := InHand];
    assert QueueOk(queues[h], h, place);
    forall g | g in queues'
      ensures QueueOk(queues'[g], g, place')
    {
      assert QueueOk(queues[g], g, place);
    }
    forall t | t in place' && place'[t].Queued?
      ensures place'[t].host in queues' && Holds(queues'[place'[t].host], t)
    {
      if place'[t].host == h { HoldsShorter(queues[h], t); }
    }
  }

  /** The first of a host's queue comes in hand. */
  lemma Dequeue(pending: map<Tid, Pending>, queues: map<Host, seq<Query>>, posted: seq<nat>,
                reports: seq<(nat, Status)>, taken: set<nat>, place: Places, h: Host)
    requires Filed(pending, queues, posted, reports, taken, place) && h in queues && queues[h] != []
    ensures queues[h][0].tag in place && HostOf(queues[h][0].to) == h
    ensures Filed(pending, queues[h := queues[h][1..]], posted, reports, taken, place[queues[h][0].tag := InHand])
  {
    hide QueuesOk;
    DequeueOk(queues, place, h);
  }

  /** An emptied queue is dropped. */
  lemma DropEmpty(queues: map<Host, seq<Query>>, place: Places, h: Host)
    requires QueuesOk(queues, place) && h in queues && queues[h] == []
    ensures QueuesOk(queues - {h}, place)
  {
  }

  /** A query in hand is sent under a free id, and the OS takes it. */
  lemma Depart(pending: map<Tid, Pending>, queues: map<Host, seq<Query>>, posted: seq<nat>,
               reports: seq<(nat, Status)>, taken: set<nat>, place: Places, id: Tid, p: Pending)
    requires Filed(pending, queues, posted, reports, taken, place) && p.tag in place && place[p.tag] == InHand
    requires id !in pending
    ensures Filed(pending[id := p], queues, posted, reports, taken + {p.tag}, place[p.tag := Sent(id)])
  {
  }

  /** A query in hand is posted as not sent. */
  lemma Post(pending: map<Tid, Pending>, queues: map<Host, seq<Query>>, posted: seq<nat>,
             reports: seq<(nat, Status)>, taken: set<nat>, place: Places, t: nat)
    requires Filed(pending, queues, posted, reports, taken, place) && t in place && place[t] == InHand
    ensures Filed(pending, queues, posted + [t], reports, taken, place[t := Posted])
  {
    assert (posted + [t])[|posted|] == t;
  }

  lemma ReportOk(reports: seq<(nat, Status)>, place: Places, taken: set<nat>, t: nat, status: Status)
    requires ReportsOk(reports, place, taken) && t in place && !place[t].Reported?
    requires status == Throttled <==> t !in taken
    ensures ReportsOk(reports + [(t, status)], place[t := Reported(status)], taken)
  {
    var r, place' := reports + [(t, status)], place[t := Reported(status)];
    forall u | u in place' && place'[u].Reported?
      ensures exists i :: 0 <= i < |r| && r[i] == (u, place'[u].status)
    {
      if u == t {
        assert r[|reports|] == (t, status);
      } else {
        var i :| 0 <= i < |reports| && reports[i] == (u, place[u].status);
        assert r[i] == (u, place'[u].status);
      }
    }
  }

  /** A pending query is settled and its callback run. */
  lemma SettleQuery(pending: map<Tid, Pending>, queues: map<Host, seq<Query>>, posted: seq<nat>,
                    reports: seq<(nat, Status)>, taken: set<nat>, place: Places, id: Tid, status: Status)
    requires Filed(pending, queues, posted, reports, taken, place) && id in pending && status != Throttled
    ensures Filed(pending - {id}, queues, posted, reports + [(pending[id].tag, status)], taken,
                  place[pending[id].tag := Reported(status)])
  {
    hide ReportsOk;
    ReportOk(reports, place, taken, pending[id].tag, status);
  }

  /** A posted query's callback is run. */
  lemma Unpost(pending: map<Tid, Pending>, queues: map<Host, seq<Query>>, posted: seq<nat>,
               reports: seq<(nat, Status)>, taken: set<nat>, place: Places)
    requires Filed(pending, queues, posted, reports, taken, place) && posted != []
    ensures Filed(pending, queues, posted[1..], reports + [(posted[0], Throttled)], taken,
                  place[posted[0] := Reported(Throttled)])
  {
    hide ReportsOk;
    ReportOk(reports, place, taken, posted[0], Throttled);
  }

  ghost function AllCancelled(place: Places): (r: Places)
    ensures r.Keys == place.Keys
  {
    map t | t in place :: if place[t].Queued? || place[t].Sent? then Cancelled else place[t]
  }

  /** Everything waiting or pending is forgotten; what was posted still gets reported. */
  lemma CancelEverything(pending: map<Tid, Pending>, queues: map<Host, seq<Query>>, posted: seq<nat>,
                         reports: seq<(nat, Status)>, taken: set<nat>, place: Places)
    requires Filed(pending, queues, posted, reports, taken, place)
    ensures Filed(map[], map[], posted, reports, taken, AllCancelled(place))
  {
  }

  // --- The manager ------------------------------------------------------------------------

  class RpcManager {
    var pending: map<Tid, Pending>
    var queues: map<Host, seq<Query>>
    var order: seq<Host>
    var budgetExhausted: bool
    var maxQueued: int
    var limiter: RateLimiter
    var drainTimer: bool
    var lastPrune: int
    var queuedTotal: int
    var delayed: int
    var refused: int
    var sendFailures: int
    var maxPending: int
    var nextId: UInt16
    /** Callbacks waiting in the event loop to say Throttled. */
    var posted: seq<nat>
    /** Queries handed over so far; the next tag, which stands for the next caller's callback. */
    var issued: nat
    ghost var place: Places
    ghost var reports: seq<(nat, Status)>
    ghost var taken: set<nat>
    /** Everything handed to the send function, and how much of it before the present limiter. */
    ghost var left: seq<Departure>
    ghost var since: nat

    ghost predicate Consistent()
      reads this, limiter
    {
      && Filed(pending, queues, posted, reports, taken, place)
      && Known(place, issued)
      && FifoOk(left, queues, issued)
      && limiter.Valid()
      && PacedOk(left, since, limiter.log)
      && 1 <= maxPending <= IDS
    }

    ghost predicate QueueBooks()
      reads this
    {
      && NonEmpty(queues)
      && OrderOk(order, queues)
      && queuedTotal == Total(order, queues) <= MAX_QUEUED_TOTAL
    }

    ghost predicate Valid()
      reads this, limiter
    {
      && Consistent()
      && OnlyInHand(place, -1)
      && QueueBooks()
      && (drainTimer <==> queues != map[])
    }

    constructor (firstId: UInt16, rate: real, burst: real, maxQueued: int, now: int)
      requires rate > 0.0 && burst >= 0.0
      ensures Valid() && fresh(limiter) && issued == 0 && limiter.clock == now
      ensures since == 0 && limiter.limit == Limit(rate, burst)
    {
      pending, queues, order, posted := map[], map[], [], [];
      budgetExhausted, drainTimer := false, false;
      this.maxQueued := maxQueued;
      limiter := new RateLimiter(rate, burst, now);
      lastPrune, queuedTotal, delayed, refused, sendFailures := 0, 0, 0, 0, 0;
      maxPending, nextId := DEFAULT_MAX_PENDING, firstId;
      place, issued, reports, taken, left, since := map[], 0, [], {}, [], 0;
    }

    method SetMaxPending(n: int)
      requires Valid()
      modifies `maxPending
      ensures Valid() && maxPending == if n < 1 then 1 else if n > IDS then IDS else n
    {
      maxPending := if n < 1 then 1 else if n > IDS then IDS else n;
    }

    /** The next id no pending query uses; the search ends because one is free. */
    method NextTransactionId() returns (id: Tid)
      requires |pending| < IDS
      modifies `nextId
      ensures id !in pending
    {
      ghost var free := FreeIdExists(pending);
      id := Tid(nextId);
      nextId := (nextId + 1) % IDS;
      while id in pending
        invariant nextId == (id.number + 1) % IDS
        decreases Ahead(id.number, free.number)
      {
        id := Tid(nextId);
        nextId := (nextId + 1) % IDS;
      }
    }

    /** Hands a query to the OS. One it will not take is posted as Throttled instead. */
    method Send(q: Query, now: int)
      requires Filed(pending, queues, posted, reports, taken, place) && Known(place, issued)
      requires q.tag in place && place[q.tag] == InHand && OnlyInHand(place, q.tag)
      requires |pending| < maxPending <= IDS
      modifies `pending, `posted, `place, `taken, `left, `nextId, `sendFailures
      ensures Filed(pending, queues, posted, reports, taken, place) && Known(place, issued)
      ensures OnlyInHand(place, -1)
      ensures place[q.tag].Sent? || place[q.tag] == Posted
      ensures place == old(place)[q.tag := place[q.tag]]
      ensures left == old(left) + [Departure(q.tag, HostOf(q.to), now, place[q.tag].Sent?)] && Kept(old(pending), pending)
    {
      hide Filed;
      var id := NextTransactionId();
      var p := Pending(q.to, now, now + q.timeoutMs, q.tag);
      var ok: bool := *;
      left := left + [Departure(q.tag, HostOf(q.to), now, ok)];
      if ok {
        Depart(pending, queues, posted, reports, taken, place, id, p);
        pending := pending[id := p];
        taken := taken + {q.tag};
        place := place[q.tag := Sent(id)];
      } else {
        // inserted and removed again before anything else could run
        sendFailures := sendFailures + 1;
        ReportNotSent(q.tag);
      }
    }

    /** Never from inside the caller's own query: the event loop runs the callback later. */
    method ReportNotSent(t: nat)
      requires Filed(pending, queues, posted, reports, taken, place) && Known(place, issued)
      requires t in place && place[t] == InHand && OnlyInHand(place, t)
      modifies `posted, `place
      ensures Filed(pending, queues, posted, reports, taken, place) && Known(place, issued)
      ensures OnlyInHand(place, -1) && place == old(place)[t := Posted]
    {
      hide Filed;
      Post(pending, queues, posted, reports, taken, place, t);
      posted := posted + [t];
      place := place[t := Posted];
    }

    /** Nothing waits for this host, nothing holds sending back, and it has a
        token to spend. */
    ghost predicate CanGo(h: Host, now: int)
      reads this, limiter
    {
      h !in queues && !budgetExhausted && |pending| < maxPending && Level(limiter.limit, limiter.buckets, h, now) >= 1.0
    }

    ghost predicate NoRoomFor(h: Host)
      reads this
    {
      queuedTotal >= MAX_QUEUED_TOTAL || (h in queues && |queues[h]| >= maxQueued)
    }

    /** Sends now if the host has allowance, else waits behind any others for that host, else is refused. */
    method NewQuery(to: Endpoint, timeoutMs: int, affordable: bool, now: int) returns (tag: nat)
      requires Valid() && limiter.clock <= now
      modifies this, limiter
      ensures Valid() && limiter == old(limiter) && old(limiter.clock) <= limiter.clock <= now
      ensures tag == old(issued) && issued == old(issued) + 1 && reports == old(reports)
      ensures place == old(place)[tag := place[tag]] && tag !in old(place)
      // Handed to the OS at once exactly when nothing holds the host back.
      ensures old(CanGo(HostOf(to), now)) && affordable ==>
                && (place[tag].Sent? || place[tag] == Posted)
                && left == old(left) + [Departure(tag, HostOf(to), now, place[tag].Sent?)]
      // Refused exactly when there is no room to wait.
      ensures !(old(CanGo(HostOf(to), now)) && affordable) ==>
                && place[tag] == (if old(NoRoomFor(HostOf(to))) then Posted else Queued(HostOf(to)))
                && left == old(left)
      ensures Kept(old(pending), pending)
      ensures limiter.limit == old(limiter.limit) && since == old(since) && old(left) <= left
    {
      hide Valid, Holding, Kept, Level, HostOf;
      NothingServed(place, pending);
      var q := Register(to, timeoutMs);
      tag := q.tag;
      var sent := false;
      if HostOf(to) !in queues && !budgetExhausted && |pending| < maxPending {
        if affordable {
          sent := TrySend(q, now);
        }
      }
      if !sent {
        Wait(q);
      }
    }

    /** Gives a new query its tag. */
    method Register(to: Endpoint, timeoutMs: int) returns (q: Query)
      requires Valid()
      modifies `place, `issued
      ensures Holding(q) && q == Query(to, timeoutMs, old(issued))
      ensures issued == old(issued) + 1 && q.tag !in old(place) && place == old(place)[q.tag := InHand]
    {
      hide Filed, Known, FifoOk, PacedOk, NonEmpty, OrderOk, Total, OnlyInHand, Latest, BucketsOk, Paid, Windowed;
      q := Query(to, timeoutMs, issued);
      NewTag(place, issued);
      Issue(pending, queues, posted, reports, taken, place, issued);
      FifoNewTag(left, queues, issued);
      place := place[issued := InHand];
      issued := issued + 1;
    }

    /** The newest query is in hand, and every other book is in order. */
    ghost predicate Holding(q: Query)
      reads this, limiter
    {
      && Consistent() && QueueBooks() && (drainTimer <==> queues != map[])
      && q.tag in place && place[q.tag] == InHand && OnlyInHand(place, q.tag)
      && q.tag + 1 == issued && Latest(left, q.tag)
    }

    method TrySend(q: Query, now: int) returns (sent: bool)
      requires Holding(q) && HostOf(q.to) !in queues && |pending| < maxPending && limiter.clock <= now
      modifies `pending, `posted, `place, `taken, `left, `nextId, `sendFailures, limiter
      ensures limiter.clock == now && limiter.limit == old(limiter.limit)
      ensures !sent ==> Holding(q) && place == old(place) && left == old(left) && pending == old(pending)
      ensures sent ==> Valid() && (place[q.tag].Sent? || place[q.tag] == Posted) && place == old(place)[q.tag := place[q.tag]]
      ensures sent <==> old(Level(limiter.limit, limiter.buckets, HostOf(q.to), now)) >= 1.0
      ensures sent ==> left == old(left) + [Departure(q.tag, HostOf(q.to), now, place[q.tag].Sent?)]
      ensures Kept(old(pending), pending)
    {
      hide Filed, Known, FifoOk, PacedOk, NonEmpty, OrderOk, Total, OnlyInHand, Latest, Level, AfterAllow, BucketsOk, Paid, Windowed, Kept;
      NothingServed(place, pending);
      var h := HostOf(q.to);
      sent := limiter.Allow(h, now);
      if sent {
        Send(q, now);
        FifoDepart(old(left), queues, issued, left[|old(left)|]);
        PacedDepart(old(left), since, old(limiter.log), left[|old(left)|]);
      } else {
        assert limiter.log == old(limiter.log);
      }
    }

    /** Joins the host's queue, unless that is full. */
    method Wait(q: Query)
      requires Holding(q)
      modifies `queues, `order, `queuedTotal, `delayed, `drainTimer, `refused, `posted, `place
      ensures Valid() && place == old(place)[q.tag := place[q.tag]]
      ensures place[q.tag] == if old(NoRoomFor(HostOf(q.to))) then Posted else Queued(HostOf(q.to))
    {
      hide Holding, Valid;
      var h := HostOf(q.to);
      if queuedTotal >= MAX_QUEUED_TOTAL || (h in queues && |queues[h]| >= maxQueued) {
        Refuse(q);
      } else {
        Join(q);
      }
    }

    method Refuse(q: Query)
      requires Holding(q)
      modifies `refused, `posted, `place
      ensures Valid() && place == old(place)[q.tag := Posted]
    {
      hide Filed, Known, FifoOk, PacedOk, NonEmpty, OrderOk, Total, OnlyInHand, Latest, BucketsOk, Paid, Windowed;
      refused := refused + 1;
      ReportNotSent(q.tag);
    }

    method Join(q: Query)
      requires Holding(q) && queuedTotal < MAX_QUEUED_TOTAL
      modifies `queues, `order, `queuedTotal, `delayed, `drainTimer, `place
      ensures Valid() && place == old(place)[q.tag := Queued(HostOf(q.to))]
    {
      hide Filed, Known, FifoOk, PacedOk, NonEmpty, OrderOk, Total, OnlyInHand, Latest, BucketsOk, Paid, Windowed;
      Append(q);
      delayed := delayed + 1;
      drainTimer := true;
    }

    method Append(q: Query)
      requires Filed(pending, queues, posted, reports, taken, place) && Known(place, issued)
      requires q.tag in place && place[q.tag] == InHand && OnlyInHand(place, q.tag) && q.tag + 1 == issued
      requires FifoOk(left, queues, issued) && Latest(left, q.tag)
      requires QueueBooks() && queuedTotal < MAX_QUEUED_TOTAL
      modifies `queues, `order, `queuedTotal, `place
      ensures Filed(pending, queues, posted, reports, taken, place) && Known(place, issued) && OnlyInHand(place, -1)
      ensures FifoOk(left, queues, issued) && QueueBooks() && queues != map[]
      ensures place == old(place)[q.tag := Queued(HostOf(q.to))]
    {
      hide Filed, Known, FifoOk, NonEmpty, OrderOk, Total, OnlyInHand, Latest, Appended, Joined;
      var h := HostOf(q.to);
      NewestTag(pending, queues, posted, reports, taken, place, issued, q);
      Enqueue(pending, queues, posted, reports, taken, place, q);
      FifoEnqueue(left, queues, issued, q);
      OrderEnqueue(order, queues, q);
      StillInHand(place, issued, q.tag, Queued(h));
      AppendedHas(queues, q);
      order := Joined(order, queues, h);
      queues := Appended(queues, q);
      place := place[q.tag := Queued(h)];
      queuedTotal := queuedTotal + 1;
    }

    // --- Draining -----------------------------------------------------------------

    /** Sends the first query waiting for `host`, just allowed by the limiter. */
    method SendFirst(host: Host, now: int, ghost log: seq<Hit>)
      requires Filed(pending, queues, posted, reports, taken, place) && Known(place, issued) && OnlyInHand(place, -1)
      requires FifoOk(left, queues, issued) && PacedOk(left, since, log)
      requires host in queues && queues[host] != [] && |pending| < maxPending <= IDS
      modifies `pending, `posted, `place, `taken, `left, `nextId, `sendFailures, `queues, `queuedTotal
      ensures Filed(pending, queues, posted, reports, taken, place) && Known(place, issued) && OnlyInHand(place, -1)
      ensures FifoOk(left, queues, issued) && PacedOk(left, since, log + [Hit(host, now)])
      ensures queues == old(queues)[host := old(queues)[host][1..]] && queuedTotal == old(queuedTotal) - 1
      ensures |left| == |old(left)| + 1 && old(left) <= left && left[|old(left)|].host == host
      ensures Served(old(place), place) && Kept(old(pending), pending)
    {
      hide Filed, Known, FifoOk, PacedOk, OnlyInHand, Kept;
      Dequeue(pending, queues, posted, reports, taken, place, host);
      FifoServe(pending, queues, posted, reports, taken, place, left, issued, host, now);
      InHandNow(place, issued, queues[host][0].tag);
      QueuedTag(pending, queues, posted, reports, taken, place, host);
      var q := queues[host][0];
      queues := queues[host := queues[host][1..]];
      queuedTotal := queuedTotal - 1;
      place := place[q.tag := InHand];
      Send(q, now);
      PacedDepart(old(left), since, log, left[|old(left)|]);
      FifoTaken(old(left), queues, issued, q.tag, host, now, place[q.tag].Sent?);
    }

    /** Sends for one host if the budget and the limiter agree. */
    method Attempt(host: Host, now: int) returns (sent: bool, held: bool)
      requires Consistent() && OnlyInHand(place, -1) && limiter.clock <= now
      requires host in queues && queues[host] != [] && |pending| < maxPending
      modifies `pending, `posted, `place, `taken, `left, `nextId, `sendFailures, `queues, `queuedTotal, limiter
      ensures Consistent() && OnlyInHand(place, -1) && old(limiter.clock) <= limiter.clock <= now
      ensures limiter.limit == old(limiter.limit)
      ensures queues == old(queues)[host := if sent then old(queues)[host][1..] else old(queues)[host]]
      ensures queuedTotal == old(queuedTotal) - if sent then 1 else 0
      ensures left == old(left)
              || (|left| == |old(left)| + 1 && old(left) <= left && left[|old(left)|].host == host)
      ensures sent ==> left != old(left)
      // Unless held back by the budget, the limiter alone decides.
      ensures sent || held || old(Level(limiter.limit, limiter.buckets, host, now)) < 1.0
      ensures forall h :: h != host ==>
                Level(limiter.limit, limiter.buckets, h, now) == old(Level(limiter.limit, limiter.buckets, h, now))
      ensures Served(old(place), place) && Kept(old(pending), pending)
    {
      hide Filed, Known, FifoOk, PacedOk, OnlyInHand, Kept, Served, BucketsOk, Paid, Windowed, Level, AfterAllow;
      NothingServed(place, pending);
      sent, held := false, false;
      var affordable: bool := *;
      if !affordable {
        held := true;
      } else {
        sent := limiter.Allow(host, now);
        AllowElsewhere(limiter.limit, old(limiter.buckets), host, now);
        if sent {
          SendFirst(host, now, old(limiter.log));
        } else {
          assert limiter.log == old(limiter.log);
        }
      }
      assert !sent ==> old(queues)[host := old(queues)[host]] == queues;
    }

    /** Serves the host whose turn it is, at most one query; it goes to the back while it has more. */
    method ServeNext(now: int) returns (held: bool)
      requires Consistent() && OnlyInHand(place, -1) && QueueBooks()
      requires order != [] && |pending| < maxPending && limiter.clock <= now
      modifies this, limiter
      ensures Consistent() && OnlyInHand(place, -1) && QueueBooks() && Same(old(limiter), old(limiter.limit), old(since))
      ensures old(limiter.clock) <= limiter.clock <= now
      ensures order == old(order)[1..] || order == old(order)[1..] + [old(order)[0]]
      ensures left == old(left)
              || (|left| == |old(left)| + 1 && old(left) <= left && left[|old(left)|].host == old(order)[0])
      ensures held || left != old(left) || old(Level(limiter.limit, limiter.buckets, order[0], now)) < 1.0
      ensures forall h :: h != old(order)[0] ==>
                Level(limiter.limit, limiter.buckets, h, now) == old(Level(limiter.limit, limiter.buckets, h, now))
      ensures Served(old(place), place) && Kept(old(pending), pending)
      ensures reports == old(reports) && issued == old(issued) && drainTimer == old(drainTimer)
    {
      hide Consistent, NonEmpty, OrderOk, Total, OnlyInHand, Kept, Served, Level;
      var host := order[0];
      OrderHead(order, queues);
      var sent;
      sent, held := Attempt(host, now);
      OrderServed(old(order), old(queues), sent);
      Rotate(host);
    }

    /** The host at the front goes to the back, or out if its queue is empty. */
    method Rotate(host: Host)
      requires Consistent() && host in queues && order != [] && order[0] == host
      modifies `queues, `order
      ensures Consistent()
      ensures queues == old(if queues[host] == [] then queues - {host} else queues)
      ensures order == old(order)[1..] + old(if queues[host] == [] then [] else [host])
    {
      hide PendingOk, PostedOk, ReportsOk, TakenOk, Known, PacedOk, BucketsOk, Paid, Windowed;
      order := order[1..];
      if queues[host] == [] {
        DropEmpty(queues, place, host);
        queues := queues - {host};
      } else {
        order := order + [host];
      }
    }

    ghost predicate Same(l: RateLimiter, limit: Limit, s: nat)
      reads this, limiter
    {
      limiter == l && limiter.limit == limit && since == s
    }

    /** One pass over the waiting hosts, taking each in turn once. */
    method Drain(now: int) returns (exhausted: bool)
      requires Valid() && limiter.clock <= now
      modifies this, limiter
      ensures Valid() && Same(old(limiter), old(limiter.limit), old(since)) && old(limiter.clock) <= limiter.clock <= now
      ensures old(left) <= left
      ensures forall i, j :: |old(left)| <= i < j < |left| ==> left[i].host != left[j].host
      ensures Served(old(place), place) && Kept(old(pending), pending)
      ensures reports == old(reports) && issued == old(issued)
      // Unless something ran out on the way, every waiting host with a token was served.
      ensures !exhausted ==> forall h :: h in old(order) ==> Turn(left, |old(left)|, h, old(Level(limiter.limit, limiter.buckets, h, now)))
    {
      hide Consistent, NonEmpty, Total, OnlyInHand, Kept, Served, OrderOk, NoRepeats, Level, Turn;
      exhausted := false;
      var hosts, i := |order|, 0;
      ghost var first := order;
      OrderedOnce(order, queues);
      NothingServed(place, pending);
      while i < hosts && order != []
        invariant 0 <= i <= hosts == |first|
        invariant Consistent() && OnlyInHand(place, -1) && QueueBooks()
        invariant Same(old(limiter), old(limiter.limit), old(since)) && old(limiter.clock) <= limiter.clock <= now
        invariant first[i..] <= order
        invariant old(left) <= left && OncePerHost(left, |old(left)|, first[..i])
        invariant Served(old(place), place) && Kept(old(pending), pending)
        invariant reports == old(reports) && issued == old(issued) && (!drainTimer ==> queues == map[])
        invariant forall k :: i <= k < hosts ==>
                    Level(limiter.limit, limiter.buckets, first[k], now) == old(Level(limiter.limit, limiter.buckets, first[k], now))
        invariant !exhausted ==> forall k :: 0 <= k < i ==>
                    Turn(left, |old(left)|, first[k], old(Level(limiter.limit, limiter.buckets, first[k], now)))
      {
        OrderHead(order, queues);
        if |pending| >= maxPending {
          exhausted := true;
          break;
        }
        ghost var before, place1, pending1 := left, place, pending;
        var held := ServeNext(now);
        ServedOnce(before, left, |old(left)|, first, i);
        TurnTaken(before, left, |old(left)|, first, i, held, old(limiter.limit), old(limiter.buckets), now);
        ServedTwice(old(place), place1, place, old(pending), pending1, pending);
        exhausted := exhausted || held;
        i := i + 1;
      }
      Rest(exhausted);
    }

    /** The timer runs only while something waits. */
    method Rest(exhausted: bool)
      requires Consistent() && OnlyInHand(place, -1) && QueueBooks() && (!drainTimer ==> queues == map[])
      modifies `budgetExhausted, `drainTimer
      ensures Valid()
    {
      hide Filed, Known, FifoOk, PacedOk, NonEmpty, OrderOk, Total, OnlyInHand, BucketsOk, Paid, Windowed;
      budgetExhausted := exhausted;
      if queues == map[] {
        drainTimer := false;
        budgetExhausted := false;
      }
    }

    // --- Replies, timeouts and reports ---------------------------------------------------

    /** Takes a query off the pending list and runs its callback. */
    method Settle(id: Tid, status: Status)
      requires Valid() && id in pending && status != Throttled
      modifies `pending, `place, `reports
      ensures Valid() && pending == old(pending) - {id}
      ensures reports == old(reports) + [(old(pending)[id].tag, status)]
      ensures place == old(place)[old(pending)[id].tag := Reported(status)]
    {
      hide Filed, Known, FifoOk, PacedOk, NonEmpty, OrderOk, Total, OnlyInHand, BucketsOk, Paid, Windowed;
      PendingTag(pending, queues, posted, reports, taken, place, id);
      SettleQuery(pending, queues, posted, reports, taken, place, id, status);
      Moved(place, issued, pending[id].tag, Reported(status));
      place := place[pending[id].tag := Reported(status)];
      reports := reports + [(pending[id].tag, status)];
      pending := pending - {id};
    }

    /** What a callback may do: hand over any number of further queries. */
    method Callback()
      requires Valid()
      modifies this, limiter
      ensures Valid() && Same(old(limiter), old(limiter.limit), old(since)) && old(limiter.clock) <= limiter.clock
      ensures reports == old(reports) && old(left) <= left && old(issued) <= issued
      ensures Undisturbed(old(place), place) && Kept(old(pending), pending) && NoneCancelled(old(place), place)
    {
      hide Valid, Kept, Undisturbed, NoneCancelled;
      var n: int :| n >= 0;
      NothingDisturbed(place, pending);
      for k := 0 to n
        invariant Valid() && Same(old(limiter), old(limiter.limit), old(since)) && old(limiter.clock) <= limiter.clock
        invariant reports == old(reports) && old(left) <= left && old(issued) <= issued
        invariant Undisturbed(old(place), place) && Kept(old(pending), pending) && NoneCancelled(old(place), place)
      {
        var to: Endpoint, timeoutMs: int, affordable: bool := *, *, *;
        var now: int :| now >= limiter.clock;
        ghost var place1, pending1 := place, pending;
        var tag := NewQuery(to, timeoutMs, affordable, now);
        AddedOne(place1, place, tag);
        CancelledOnce(old(place), place1, place);
        DisturbedTwice(old(place), place1, place, old(pending), pending1, pending);
      }
    }

    /** A reply counts only if it answers a pending query, from the endpoint that was asked. */
    method HandleReply(id: Tid, from: Endpoint, isError: bool) returns (matched: bool)
      requires Valid()
      modifies this, limiter
      ensures Valid() && Same(old(limiter), old(limiter.limit), old(since)) && old(limiter.clock) <= limiter.clock
      ensures matched <==> id in old(pending) && old(pending)[id].to == from
      ensures !matched ==> unchanged(this) && unchanged(limiter)
      ensures matched ==>
                && reports == old(reports) + [(old(pending)[id].tag, if isError then Error else Response)]
                && Undisturbed(old(place)[old(pending)[id].tag := Reported(if isError then Error else Response)], place)
                && Kept(old(pending) - {id}, pending)
      ensures NoneCancelled(old(place), place)
    {
      hide Consistent, QueueBooks, OnlyInHand, Kept, Undisturbed, NoneCancelled;
      NothingDisturbed(place, pending);
      if id !in pending || pending[id].to != from {
        return false;
      }
      ReportedIs(place, pending[id].tag, if isError then Error else Response);
      Settle(id, if isError then Error else Response);
      ghost var mid := place;
      Callback();
      CancelledOnce(old(place), mid, place);
      return true;
    }

    method Expired(now: int) returns (ids: seq<Tid>)
      ensures forall i :: 0 <= i < |ids| ==> ids[i] in pending && pending[ids[i]].deadline <= now
      ensures forall i, j :: 0 <= i < j < |ids| ==> ids[i] != ids[j]
      ensures forall id :: id in pending && pending[id].deadline <= now ==> id in ids
    {
      ids := [];
      var todo := pending.Keys;
      while todo != {}
        invariant todo <= pending.Keys
        invariant forall i :: 0 <= i < |ids| ==> ids[i] in pending && ids[i] !in todo && pending[ids[i]].deadline <= now
        invariant forall i, j :: 0 <= i < j < |ids| ==> ids[i] != ids[j]
        invariant forall id :: id in pending && id !in todo && pending[id].deadline <= now ==> id in ids
      {
        var id :| id in todo;
        todo := todo - {id};
        if pending[id].deadline <= now {
          ids := ids + [id];
        }
      }
    }

    /** Exactly the pending queries past their deadline time out, whatever their callbacks hand over meanwhile. */
    method Expire(now: int)
      requires Valid() && limiter.clock <= now
      modifies this, limiter
      ensures Valid() && Same(old(limiter), old(limiter.limit), old(since)) && old(limiter.clock) <= limiter.clock
      ensures forall id :: id in old(pending) ==>
                if old(pending)[id].deadline <= now
                then old(pending)[id].tag in place && place[old(pending)[id].tag] == Reported(Timeout)
                else id in pending && pending[id] == old(pending)[id]
      ensures old(reports) <= reports
      ensures forall i :: |old(reports)| <= i < |reports| ==> TimedOut(old(pending), now, reports[i])
      // Every other query stays where it was, and none is cancelled.
      ensures OthersStay(old(pending), now, old(place), place) && NoneCancelled(old(place), place)
    {
      hide Valid, TimedOut, Undisturbed, Kept, Overdue, Done, NoneCancelled, OthersStay;
      PruneLimiter(now);
      var ids := Expired(now);
      ghost var was := pending;
      StartExpiring(was, ids, place, now);
      NothingDisturbed(place, pending);
      for k := 0 to |ids|
        invariant Valid() && Same(old(limiter), old(limiter.limit), old(since)) && old(limiter.clock) <= limiter.clock
        invariant Overdue(was, ids, k, pending) && Done(was, ids, k, place)
        invariant OthersStay(was, now, old(place), place) && NoneCancelled(old(place), place)
        invariant old(reports) <= reports
        invariant forall i :: |old(reports)| <= i < |reports| ==> TimedOut(was, now, reports[i])
      {
        NextOverdue(was, ids, k, pending);
        ghost var pending0, place0 := pending, place;
        TimeOut(ids[k]);
        ExpiredOne(was, ids, k, pending0, pending, place0, place);
        StillStays(was, now, ids[k], old(place), place0, place);
        CancelledOnce(old(place), place0, place);
        PastDeadline(was, now, ids[k]);
      }
      AllExpired(was, ids, pending, place);
    }

    method TimeOut(id: Tid)
      requires Valid() && id in pending
      modifies this, limiter
      ensures Valid() && Same(old(limiter), old(limiter.limit), old(since)) && old(limiter.clock) <= limiter.clock
      ensures reports == old(reports) + [(old(pending)[id].tag, Timeout)]
      ensures Undisturbed(old(place)[old(pending)[id].tag := Reported(Timeout)], place) && Kept(old(pending) - {id}, pending)
      ensures NoneCancelled(old(place), place)
    {
      hide Valid, Undisturbed, Kept, NoneCancelled;
      ReportedIs(place, pending[id].tag, Timeout);
      Settle(id, Timeout);
      ghost var mid := place;
      Callback();
      CancelledOnce(old(place), mid, place);
    }

    method PruneLimiter(now: int)
      requires Valid() && limiter.clock <= now
      modifies `lastPrune, limiter
      ensures Valid() && limiter.limit == old(limiter.limit) && old(limiter.clock) <= limiter.clock <= now
    {
      hide Filed, Known, FifoOk, PacedOk, NonEmpty, OrderOk, Total, OnlyInHand, BucketsOk, Paid, Windowed, Level, AfterPrune;
      if now - lastPrune >= PRUNE_INTERVAL_MS {
        limiter.Prune(now);
        lastPrune := now;
      }
    }

    /** The event loop reaches a callback posted earlier. */
    method RunPosted()
      requires Valid() && posted != []
      modifies this, limiter
      ensures Valid() && Same(old(limiter), old(limiter.limit), old(since)) && old(limiter.clock) <= limiter.clock
      ensures reports == old(reports) + [(old(posted)[0], Throttled)]
      ensures Undisturbed(old(place)[old(posted)[0] := Reported(Throttled)], place) && Kept(old(pending), pending)
      ensures NoneCancelled(old(place), place)
    {
      hide Valid, Kept, Undisturbed, NoneCancelled;
      ReportedIs(place, posted[0], Throttled);
      TakePosted();
      ghost var mid := place;
      Callback();
      CancelledOnce(old(place), mid, place);
    }

    method TakePosted()
      requires Valid() && posted != []
      modifies `posted, `place, `reports
      ensures Valid() && reports == old(reports) + [(old(posted)[0], Throttled)]
      ensures posted == old(posted)[1..] && place == old(place)[old(posted)[0] := Reported(Throttled)]
    {
      hide Filed, Known, FifoOk, PacedOk, NonEmpty, OrderOk, Total, OnlyInHand, BucketsOk, Paid, Windowed;
      PostedTag(pending, queues, posted, reports, taken, place);
      Unpost(pending, queues, posted, reports, taken, place);
      Moved(place, issued, posted[0], Reported(Throttled));
      place := place[posted[0] := Reported(Throttled)];
      reports := reports + [(posted[0], Throttled)];
      posted := posted[1..];
    }

    /** Forgets everything waiting or pending; what was posted is still reported. */
    method CancelAll()
      requires Valid()
      modifies `pending, `queues, `order, `queuedTotal, `budgetExhausted, `drainTimer, `place
      ensures Valid() && pending == map[] && queues == map[] && place == AllCancelled(old(place))
    {
      hide Filed, PacedOk, BucketsOk, Paid, Windowed, FifoOk, Known, OnlyInHand, AllCancelled, NonEmpty, OrderOk, Total, Sane;
      NothingQueued();
      NothingLeft(left, queues, issued, place);
      CancelEverything(pending, queues, posted, reports, taken, place);
      place := AllCancelled(place);
      pending, queues, order, queuedTotal := map[], map[], [], 0;
      budgetExhausted, drainTimer := false, false;
      assert QueueBooks();
      assert limiter.Valid();
      assert Consistent();
    }

    /** A new limit starts with full buckets, and its own record of what it let through. */
    method SetHostLimit(rate: real, burst: real, maxWaiting: int, now: int)
      requires Valid() && rate > 0.0 && burst >= 0.0
      modifies `maxQueued, `limiter, `since
      ensures Valid() && fresh(limiter) && limiter.limit == Limit(rate, burst) && limiter.clock == now
      ensures since == |left|
    {
      hide Filed, Known, FifoOk, NonEmpty, OrderOk, Total, OnlyInHand;
      maxQueued := maxWaiting;
      limiter := new RateLimiter(rate, burst, now);
      since := |left|;
    }
  }

  ghost predicate TimedOut(pending: map<Tid, Pending>, now: int, report: (nat, Status)) {
    report.1 == Timeout && exists id :: id in pending && pending[id].tag == report.0 && pending[id].deadline <= now
  }

  /** What is still pending with the first k of `ids` timed out. */
  ghost predicate Overdue(was: map<Tid, Pending>, ids: seq<Tid>, k: nat, pending: map<Tid, Pending>) {
    && (forall i :: k <= i < |ids| ==> ids[i] in was && ids[i] in pending && pending[ids[i]] == was[ids[i]])
    && (forall id :: id in was && id !in ids ==> id in pending && pending[id] == was[id])
    && (forall i, j :: 0 <= i < j < |ids| ==> ids[i] != ids[j])
  }

  ghost predicate Done(was: map<Tid, Pending>, ids: seq<Tid>, k: nat, place: Places) {
    forall i :: 0 <= i < k && i < |ids| ==>
      ids[i] in was && was[ids[i]].tag in place && place[was[ids[i]].tag] == Reported(Timeout)
  }

  /** Whatever was not pending past its deadline is where it was. */
  ghost predicate OthersStay(pending: map<Tid, Pending>, now: int, before: Places, after: Places) {
    forall t :: t in before ==>
      t in after && (after[t] == before[t] || (exists id :: id in pending && pending[id].tag == t && pending[id].deadline <= now))
  }

  lemma StillStays(pending: map<Tid, Pending>, now: int, id: Tid, a: Places, b: Places, c: Places)
    requires OthersStay(pending, now, a, b) && id in pending && pending[id].deadline <= now
    requires Undisturbed(b[pending[id].tag := Reported(Timeout)], c)
    ensures OthersStay(pending, now, a, c)
  {
    forall t | t in a
      ensures t in c && (c[t] == a[t] || (exists x :: x in pending && pending[x].tag == t && pending[x].deadline <= now))
    {
      assert t != pending[id].tag ==> t in b && c[t] == b[t];
    }
  }

  lemma StartExpiring(was: map<Tid, Pending>, ids: seq<Tid>, place: Places, now: int)
    requires forall i :: 0 <= i < |ids| ==> ids[i] in was
    requires forall i, j :: 0 <= i < j < |ids| ==> ids[i] != ids[j]
    ensures Overdue(was, ids, 0, was) && Done(was, ids, 0, place) && OthersStay(was, now, place, place)
  {
  }

  lemma NextOverdue(was: map<Tid, Pending>, ids: seq<Tid>, k: nat, pending: map<Tid, Pending>)
    requires Overdue(was, ids, k, pending) && k < |ids|
    ensures ids[k] in was && ids[k] in pending && pending[ids[k]] == was[ids[k]]
  {
  }

  lemma ExpiredOne(was: map<Tid, Pending>, ids: seq<Tid>, k: nat, pending0: map<Tid, Pending>, pending: map<Tid, Pending>,
                   place0: Places, place: Places)
    requires k < |ids| && Overdue(was, ids, k, pending0) && Done(was, ids, k, place0)
    requires ids[k] in was && Kept(pending0 - {ids[k]}, pending)
    requires Undisturbed(place0[was[ids[k]].tag := Reported(Timeout)], place)
    ensures Overdue(was, ids, k + 1, pending) && Done(was, ids, k + 1, place)
  {
  }

  lemma AllExpired(was: map<Tid, Pending>, ids: seq<Tid>, pending: map<Tid, Pending>, place: Places)
    requires Overdue(was, ids, |ids|, pending) && Done(was, ids, |ids|, place)
    ensures forall id :: id in was && id in ids ==> was[id].tag in place && place[was[id].tag] == Reported(Timeout)
    ensures forall id :: id in was && id !in ids ==> id in pending && pending[id] == was[id]
  {
  }

  lemma PastDeadline(pending: map<Tid, Pending>, now: int, id: Tid)
    requires id in pending && pending[id].deadline <= now
    ensures TimedOut(pending, now, (pending[id].tag, Timeout))
  {
  }

  /** Everything known before is where it was. */
  ghost predicate Undisturbed(before: Places, after: Places) {
    forall t :: t in before ==> t in after && after[t] == before[t]
  }

  lemma NothingDisturbed(place: Places, pending: map<Tid, Pending>)
    ensures Undisturbed(place, place) && Kept(pending, pending) && NoneCancelled(place, place)
  {
  }

  /** No query was cancelled: what is cancelled now was so before. */
  ghost predicate NoneCancelled(before: Places, after: Places) {
    forall t :: t in after && after[t] == Cancelled ==> t in before && before[t] == Cancelled
  }

  lemma ReportedIs(place: Places, t: nat, status: Status)
    ensures NoneCancelled(place, place[t := Reported(status)])
  {
  }

  lemma CancelledOnce(a: Places, b: Places, c: Places)
    requires NoneCancelled(a, b) && NoneCancelled(b, c)
    ensures NoneCancelled(a, c)
  {
  }

  lemma AddedOne(before: Places, after: Places, t: nat)
    requires t !in before && t in after && after == before[t := after[t]] && after[t] != Cancelled
    ensures Undisturbed(before, after) && NoneCancelled(before, after)
  {
  }

  lemma DisturbedTwice(a: Places, b: Places, c: Places, p: map<Tid, Pending>, q: map<Tid, Pending>, r: map<Tid, Pending>)
    requires Undisturbed(a, b) && Undisturbed(b, c) && Kept(p, q) && Kept(q, r)
    ensures Undisturbed(a, c) && Kept(p, r)
  {
  }

  lemma NothingQueued()
    ensures Total([], map[]) == 0
  {
  }

  lemma NothingLeft(left: seq<Departure>, queues: map<Host, seq<Query>>, issued: nat, place: Places)
    requires FifoOk(left, queues, issued) && Known(place, issued) && OnlyInHand(place, -1)
    ensures FifoOk(left, map[], issued) && Known(AllCancelled(place), issued) && OnlyInHand(AllCancelled(place), -1)
    ensures OrderOk([], map[]) && NonEmpty(map[])
  {
  }

  lemma PendingTag(pending: map<Tid, Pending>, queues: map<Host, seq<Query>>, posted: seq<nat>,
                   reports: seq<(nat, Status)>, taken: set<nat>, place: Places, id: Tid)
    requires Filed(pending, queues, posted, reports, taken, place) && id in pending
    ensures pending[id].tag in place
  {
  }

  lemma PostedTag(pending: map<Tid, Pending>, queues: map<Host, seq<Query>>, posted: seq<nat>,
                  reports: seq<(nat, Status)>, taken: set<nat>, place: Places)
    requires Filed(pending, queues, posted, reports, taken, place) && posted != []
    ensures posted[0] in place
  {
  }

  lemma Moved(place: Places, issued: nat, t: nat, p: Place)
    requires Known(place, issued) && OnlyInHand(place, -1) && t in place && p != InHand
    ensures Known(place[t := p], issued) && OnlyInHand(place[t := p], -1)
  {
  }

  // --- Whole runs -------------------------------------------------------------------------

  /** Departures to an address from one time to another, both included. */
  function SentIn(left: seq<Departure>, h: Host, from: int, to: int): (n: nat) {
    if left == [] then 0
    else
      var last := left[|left| - 1];
      SentIn(left[..|left| - 1], h, from, to) + if last.host == h && from <= last.at <= to then 1 else 0
  }

  lemma {:induction false} DeparturesAreHits(left: seq<Departure>, log: seq<Hit>, h: Host, from: int, to: int)
    requires |left| == |log| && forall i :: 0 <= i < |log| ==> log[i] == Hit(left[i].host, left[i].at)
    ensures SentIn(left, h, from, to) == HitsIn(log, h, from, to)
  {
    if left != [] {
      DeparturesAreHits(left[..|left| - 1], log[..|log| - 1], h, from, to);
    }
  }

  /** What left under a limit: to any one address, in any window of time, at most the burst plus what the window earns. */
  ghost predicate Paced(left: seq<Departure>, limit: Limit) {
    forall h, from, to :: from <= to ==> SentIn(left, h, from, to) as real <= limit.burst + Earned(limit, to - from)
  }

  /** The limiter's guarantee, read off what was actually handed to the send function. */
  lemma SendsArePaced(left: seq<Departure>, since: nat, log: seq<Hit>, limit: Limit)
    requires Sane(limit) && PacedOk(left, since, log) && Windowed(limit, log)
    ensures since <= |left| && Paced(left[since..], limit)
  {
    hide SentIn, HitsIn, Earned, Windowed;
    forall h, from, to | from <= to
      ensures SentIn(left[since..], h, from, to) as real <= limit.burst + Earned(limit, to - from)
    {
      DeparturesAreHits(left[since..], log, h, from, to);
      HitsInWindow(limit, log, h, from, to);
    }
  }

  /** Any one event, at any time from now on; the host limit may change only if it is not `limitFixed`, and everything
      be cancelled only if `cancels`. */
  method Event(m: RpcManager, limitFixed: bool, cancels: bool)
    requires m.Valid()
    modifies m, m.limiter
    ensures m.Valid() && (m.limiter == old(m.limiter) || fresh(m.limiter))
    ensures limitFixed ==> m.Same(old(m.limiter), old(m.limiter.limit), old(m.since))
    ensures !cancels ==> NoneCancelled(old(m.place), m.place)
  {
    hide RpcManager.Valid, Undisturbed, Kept;
    var to: Endpoint, n: int, b: bool, id: Tid, rate: real, burst: real := *, *, *, *, *, *;
    var now: int :| now >= m.limiter.clock;
    if
    case true => var tag := m.NewQuery(to, n, b, now);
    case true => var exhausted := m.Drain(now);
    case true => m.Expire(now);
    case true => var matched := m.HandleReply(id, to, b);
    case m.posted != [] => m.RunPosted();
    case cancels => m.CancelAll();
    case true => m.SetMaxPending(n);
    case !limitFixed && rate > 0.0 && burst >= 0.0 => m.SetHostLimit(rate, burst, n, now);
  }

  /**
   After any events: each query handed over is in exactly one place, unless everything
   was cancelled since, the containers and the reports hold exactly what the places
   say, and nothing is in hand; no
   callback has run twice, and Throttled went only to queries the OS never took; each
   waiting host is due once, the timer runs while anything waits; queries for one host
   left in order; and in any window of time, under the present limit, at most the burst
   plus what the window earns was sent to any one address. While the limit is left
   alone that covers every send.
   */
  method AnyRun(firstId: UInt16, rate: real, burst: real, maxWaiting: int, start: int, limitFixed: bool, cancels: bool, events: nat)
    returns (m: RpcManager)
    requires rate > 0.0 && burst >= 0.0
    ensures forall t: nat :: t in m.place <==> t < m.issued
    ensures forall t :: t in m.place ==> m.place[t] != InHand
    ensures Filed(m.pending, m.queues, m.posted, m.reports, m.taken, m.place)
    ensures forall t: nat :: t < m.issued ==>
              Whereabouts(m.pending, m.queues, m.posted, m.reports, t) == if m.place[t] == Cancelled then 0 else 1
    ensures !cancels ==> forall t :: t in m.place ==> m.place[t] != Cancelled
    ensures forall i, j :: 0 <= i < j < |m.reports| ==> m.reports[i].0 != m.reports[j].0
    ensures forall i :: 0 <= i < |m.reports| ==> (m.reports[i].1 == Throttled <==> m.reports[i].0 !in m.taken)
    ensures m.queuedTotal == Total(m.order, m.queues) && OrderOk(m.order, m.queues) && NonEmpty(m.queues)
    ensures m.drainTimer <==> m.queues != map[]
    ensures forall i, j :: 0 <= i < j < |m.left| && m.left[i].host == m.left[j].host ==> m.left[i].tag < m.left[j].tag
    ensures m.since <= |m.left| && Paced(m.left[m.since..], m.limiter.limit)
    ensures limitFixed ==> m.since == 0 && m.limiter.limit == Limit(rate, burst)
  {
    m := new RpcManager(firstId, rate, burst, maxWaiting, start);
    for k := 0 to events
      invariant m.Valid() && fresh(m) && fresh(m.limiter)
      invariant limitFixed ==> m.since == 0 && m.limiter.limit == Limit(rate, burst)
      invariant !cancels ==> forall t :: t in m.place ==> m.place[t] != Cancelled
    {
      Event(m, limitFixed, cancels);
    }
    SendsArePaced(m.left, m.since, m.limiter.log, m.limiter.limit);
    ReportsAreExact(m.pending, m.queues, m.posted, m.reports, m.taken, m.place);
    forall t: nat | t < m.issued
      ensures Whereabouts(m.pending, m.queues, m.posted, m.reports, t) == if m.place[t] == Cancelled then 0 else 1
    {
      InOnePlace(m.pending, m.queues, m.posted, m.reports, m.taken, m.place, t);
    }
  }

  /** In how many of pending, queues, posted and reports a query is. */
  ghost function Whereabouts(pending: map<Tid, Pending>, queues: map<Host, seq<Query>>, posted: seq<nat>,
                         reports: seq<(nat, Status)>, t: nat): (n: nat)
  {
    (if exists id :: id in pending && pending[id].tag == t then 1 else 0)
    + (if exists h :: h in queues && Holds(queues[h], t) then 1 else 0)
    + (if t in posted then 1 else 0)
    + (if exists i :: 0 <= i < |reports| && reports[i].0 == t then 1 else 0)
  }

  /** A query that is not in hand is in exactly one of the four, or cancelled and in none. */
  lemma InOnePlace(pending: map<Tid, Pending>, queues: map<Host, seq<Query>>, posted: seq<nat>,
                   reports: seq<(nat, Status)>, taken: set<nat>, place: Places, t: nat)
    requires Filed(pending, queues, posted, reports, taken, place) && t in place && place[t] != InHand
    ensures Whereabouts(pending, queues, posted, reports, t) == if place[t] == Cancelled then 0 else 1
  {
    if h :| h in queues && Holds(queues[h], t) {
      assert QueueOk(queues[h], h, place);
    }
  }

  lemma ReportsAreExact(pending: map<Tid, Pending>, queues: map<Host, seq<Query>>, posted: seq<nat>,
                        reports: seq<(nat, Status)>, taken: set<nat>, place: Places)
    requires Filed(pending, queues, posted, reports, taken, place)
    ensures forall i, j :: 0 <= i < j < |reports| ==> reports[i].0 != reports[j].0
    ensures forall i :: 0 <= i < |reports| ==> (reports[i].1 == Throttled <==> reports[i].0 !in taken)
  {
  }

  /** The queue of q's host, made if need be, with q at its end. */
  function Appended(queues: map<Host, seq<Query>>, q: Query): (r: map<Host, seq<Query>>) {
    var h := HostOf(q.to);
    queues[h := (if h in queues then queues[h] else []) + [q]]
  }

  function Joined(order: seq<Host>, queues: map<Host, seq<Query>>, h: Host): (r: seq<Host>) {
    if h in queues then order else order + [h]
  }

  lemma AppendedHas(queues: map<Host, seq<Query>>, q: Query)
    ensures Appended(queues, q) != map[]
  {
    assert HostOf(q.to) in Appended(queues, q);
  }

  /** Nothing pending was disturbed. */
  ghost predicate Kept(before: map<Tid, Pending>, after: map<Tid, Pending>) {
    forall id :: id in before ==> id in after && after[id] == before[id]
  }

  ghost predicate Latest(left: seq<Departure>, t: nat) {
    forall i :: 0 <= i < |left| ==> left[i].tag < t
  }

  lemma StillInHand(place: Places, issued: nat, t: nat, p: Place)
    requires Known(place, issued) && t in place && OnlyInHand(place, t) && p != InHand
    ensures Known(place[t := p], issued) && OnlyInHand(place[t := p], -1)
  {
  }

  lemma NewestTag(pending: map<Tid, Pending>, queues: map<Host, seq<Query>>, posted: seq<nat>,
                  reports: seq<(nat, Status)>, taken: set<nat>, place: Places, issued: nat, q: Query)
    requires Filed(pending, queues, posted, reports, taken, place) && Known(place, issued)
    requires q.tag in place && place[q.tag] == InHand && q.tag + 1 == issued
    ensures var h := HostOf(q.to); h in queues ==> forall i :: 0 <= i < |queues[h]| ==> queues[h][i].tag < q.tag
  {
    var h := HostOf(q.to);
    if h in queues { assert QueueOk(queues[h], h, place); }
  }

  lemma FifoDepart(left: seq<Departure>, queues: map<Host, seq<Query>>, issued: nat, d: Departure)
    requires FifoOk(left, queues, issued) && d.host !in queues && Latest(left, d.tag) && d.tag < issued
    ensures FifoOk(left + [d], queues, issued)
  {
  }

  lemma PacedDepart(left: seq<Departure>, since: nat, log: seq<Hit>, d: Departure)
    requires PacedOk(left, since, log)
    ensures PacedOk(left + [d], since, log + [Hit(d.host, d.at)])
  {
  }

  lemma FifoEnqueue(left: seq<Departure>, queues: map<Host, seq<Query>>, issued: nat, q: Query)
    requires FifoOk(left, queues, issued) && Latest(left, q.tag)
    ensures FifoOk(left, Appended(queues, q), issued)
  {
  }

  lemma JoinedOk(order: seq<Host>, queues: map<Host, seq<Query>>, q: Query)
    requires OrderOk(order, queues) && NonEmpty(queues)
    ensures OrderOk(Joined(order, queues, HostOf(q.to)), Appended(queues, q)) && NonEmpty(Appended(queues, q))
  {
    var h := HostOf(q.to);
    var order' := Joined(order, queues, h);
    forall g
      ensures g in order' <==> g in Appended(queues, q)
    {
      if g == h && h !in queues { assert order'[|order|] == h; }
    }
  }

  lemma OrderEnqueue(order: seq<Host>, queues: map<Host, seq<Query>>, q: Query)
    requires OrderOk(order, queues) && NonEmpty(queues)
    ensures var order', queues' := Joined(order, queues, HostOf(q.to)), Appended(queues, q);
            OrderOk(order', queues') && NonEmpty(queues') && Total(order', queues') == Total(order, queues) + 1
  {
    hide Total;
    var h := HostOf(q.to);
    JoinedOk(order, queues, q);
    if h in queues {
      TotalGrows(order, queues, h, q);
    } else {
      TotalPush(order, h, Appended(queues, q));
      TotalSame(order, queues, Appended(queues, q));
    }
  }

  /** Some queued queries were sent or posted; nothing else moved. */
  ghost predicate Served(before: Places, after: Places) {
    && before.Keys == after.Keys
    && forall t :: t in before ==>
         after[t] == before[t] || (before[t].Queued? && (after[t].Sent? || after[t] == Posted))
  }

  lemma NothingServed(place: Places, pending: map<Tid, Pending>)
    ensures Served(place, place) && Kept(pending, pending)
  {
  }

  lemma ServedTwice(a: Places, b: Places, c: Places, p: map<Tid, Pending>, q: map<Tid, Pending>, r: map<Tid, Pending>)
    requires Served(a, b) && Served(b, c) && Kept(p, q) && Kept(q, r)
    ensures Served(a, c) && Kept(p, r)
  {
  }

  lemma InHandNow(place: Places, issued: nat, t: nat)
    requires Known(place, issued) && OnlyInHand(place, -1) && t in place
    ensures Known(place[t := InHand], issued) && OnlyInHand(place[t := InHand], t)
  {
  }

  lemma QueuedTag(pending: map<Tid, Pending>, queues: map<Host, seq<Query>>, posted: seq<nat>,
                  reports: seq<(nat, Status)>, taken: set<nat>, place: Places, h: Host)
    requires Filed(pending, queues, posted, reports, taken, place) && h in queues && queues[h] != []
    ensures queues[h][0].tag in place && place[queues[h][0].tag] == Queued(h)
  {
    DequeueOk(queues, place, h);
  }

  /** The head of a queue may leave next: it is older than the rest, and newer than all that left. */
  lemma FifoServe(pending: map<Tid, Pending>, queues: map<Host, seq<Query>>, posted: seq<nat>,
                  reports: seq<(nat, Status)>, taken: set<nat>, place: Places, left: seq<Departure>, issued: nat,
                  h: Host, now: int)
    requires Filed(pending, queues, posted, reports, taken, place) && Known(place, issued)
    requires FifoOk(left, queues, issued) && h in queues && queues[h] != []
    ensures forall b :: FifoOk(left + [Departure(queues[h][0].tag, h, now, b)], queues[h := queues[h][1..]], issued)
  {
    assert QueueOk(queues[h], h, place);
    forall b
      ensures FifoOk(left + [Departure(queues[h][0].tag, h, now, b)], queues[h := queues[h][1..]], issued)
    {
      FifoHead(left, queues, issued, Departure(queues[h][0].tag, h, now, b));
    }
  }

  lemma FifoHead(left: seq<Departure>, queues: map<Host, seq<Query>>, issued: nat, d: Departure)
    requires FifoOk(left, queues, issued) && d.host in queues && queues[d.host] != []
    requires d.tag == queues[d.host][0].tag < issued
    requires forall k :: 0 < k < |queues[d.host]| ==> d.tag < queues[d.host][k].tag
    ensures FifoOk(left + [d], queues[d.host := queues[d.host][1..]], issued)
  {
  }

  lemma FifoTaken(left: seq<Departure>, queues: map<Host, seq<Query>>, issued: nat, t: nat, h: Host, now: int, b: bool)
    requires forall c :: FifoOk(left + [Departure(t, h, now, c)], queues, issued)
    ensures FifoOk(left + [Departure(t, h, now, b)], queues, issued)
  {
  }

  /** Since position n something left for h, or h had no token. */
  ghost predicate Turn(left: seq<Departure>, n: nat, h: Host, level: real) {
    level < 1.0 || exists i :: n <= i < |left| && left[i].host == h
  }

  lemma TurnTaken(before: seq<Departure>, left: seq<Departure>, n: nat, first: seq<Host>, i: nat, held: bool,
                  limit: Limit, buckets: Buckets, now: int)
    requires i < |first| && n <= |before|
    requires left == before || (|left| == |before| + 1 && before <= left && left[|before|].host == first[i])
    requires held || left != before || Level(limit, buckets, first[i], now) < 1.0
    ensures forall k :: 0 <= k < |first| && Turn(before, n, first[k], Level(limit, buckets, first[k], now)) ==>
              Turn(left, n, first[k], Level(limit, buckets, first[k], now))
    ensures held || Turn(left, n, first[i], Level(limit, buckets, first[i], now))
  {
    hide Level;
    forall j | n <= j < |before|
      ensures left[j] == before[j]
    {
    }
  }

  lemma AllowElsewhere(limit: Limit, buckets: Buckets, host: Host, now: int)
    ensures forall h :: h != host ==> Level(limit, AfterAllow(limit, buckets, host, now), h, now) == Level(limit, buckets, h, now)
  {
  }

  lemma OrderedOnce(order: seq<Host>, queues: map<Host, seq<Query>>)
    requires OrderOk(order, queues)
    ensures NoRepeats(order)
  {
  }

  lemma OrderHead(order: seq<Host>, queues: map<Host, seq<Query>>)
    requires OrderOk(order, queues) && NonEmpty(queues) && order != []
    ensures order[0] in queues && queues[order[0]] != []
  {
  }

  /** Serving the head host keeps the order and the total exact. */
  lemma OrderServed(order: seq<Host>, queues: map<Host, seq<Query>>, sent: bool)
    requires OrderOk(order, queues) && NonEmpty(queues) && order != []
    ensures var h := order[0];
            h in queues && queues[h] != []
            && var queue := if sent then queues[h][1..] else queues[h];
               var queues' := if queue == [] then queues[h := queue] - {h} else queues[h := queue];
               var order' := order[1..] + if queue == [] then [] else [h];
               && OrderOk(order', queues') && NonEmpty(queues')
               && Total(order', queues') == Total(order, queues) - if sent then 1 else 0
  {
    var h := order[0];
    OrderHead(order, queues);
    var queue := if sent then queues[h][1..] else queues[h];
    var queues' := if queue == [] then queues[h := queue] - {h} else queues[h := queue];
    ServedOrder(order, queues, queue);
    hide OrderOk;
    TotalPop(order, queues);
    ServedTail(order, queues, queues');
    if queue == [] {
      assert order[1..] + [] == order[1..];
    } else {
      TotalPush(order[1..], h, queues');
    }
  }

  lemma ServedTail(order: seq<Host>, queues: map<Host, seq<Query>>, queues': map<Host, seq<Query>>)
    requires order != [] && NoRepeats(order)
    requires forall g :: g != order[0] ==> Size(queues', g) == Size(queues, g)
    ensures Total(order[1..], queues') == Total(order[1..], queues)
  {
    TotalSame(order[1..], queues, queues');
  }

  lemma ServedOrder(order: seq<Host>, queues: map<Host, seq<Query>>, queue: seq<Query>)
    requires OrderOk(order, queues) && NonEmpty(queues) && order != []
    ensures var h := order[0];
            var queues' := if queue == [] then queues[h := queue] - {h} else queues[h := queue];
            var order' := order[1..] + if queue == [] then [] else [h];
            OrderOk(order', queues') && NonEmpty(queues')
  {
    var h := order[0];
    var queues' := if queue == [] then queues[h := queue] - {h} else queues[h := queue];
    var order' := order[1..] + if queue == [] then [] else [h];
    forall g
      ensures g in order' <==> g in queues'
    {
      assert g in order <==> g == h || g in order[1..];
      assert g in order' <==> g in order[1..] || (queue != [] && g == h);
    }
  }

  /** Since position n, at most one departure per host, and only for these hosts. */
  ghost predicate OncePerHost(left: seq<Departure>, n: nat, hosts: seq<Host>) {
    && (forall i :: n <= i < |left| ==> left[i].host in hosts)
    && (forall i, j :: n <= i < j < |left| ==> left[i].host != left[j].host)
  }

  lemma ServedOnce(before: seq<Departure>, left: seq<Departure>, n: nat, first: seq<Host>, i: nat)
    requires i < |first| && NoRepeats(first) && n <= |before| && OncePerHost(before, n, first[..i])
    requires left == before || (|left| == |before| + 1 && before <= left && left[|before|].host == first[i])
    ensures OncePerHost(left, n, first[..i + 1])
  {
    assert first[..i + 1] == first[..i] + [first[i]];
  }

  lemma NewTag(place: Places, issued: nat)
    requires Known(place, issued)
    ensures issued !in place && Known(place[issued := InHand], issued + 1)
    ensures OnlyInHand(place, -1) ==> OnlyInHand(place[issued := InHand], issued)
  {
  }

  lemma FifoNewTag(left: seq<Departure>, queues: map<Host, seq<Query>>, issued: nat)
    requires FifoOk(left, queues, issued)
    ensures FifoOk(left, queues, issued + 1) && Latest(left, issued)
  {
  }
}
