/**
 The iterative Kademlia lookup as a state machine: candidates are added, queries
 go out under two budgets, replies and slow checks arrive in any order, possibly
 from inside the very call that sends a query, and the result is reported once.
 */
module Lookups {
  import opened Endpoints
  import opened NodeIds
  import opened LookupState

  datatype Node = Node(id: NodeId, endpoint: Endpoint)

  /** A response may carry a token and lists nodes; anything else is a failure. */
  datatype Reply = Response(hasToken: bool, token: seq<Byte>, nodes: seq<Node>) | NoResponse

  // --- Steps on the candidate list ---------------------------------------------------

  /** Two lists alike but for when their queries went out. */
  ghost predicate SameButTimes(a: seq<Candidate>, b: seq<Candidate>) {
    |a| == |b| && forall i :: 0 <= i < |a| ==> b[i] == a[i].(sentAtMs := b[i].sentAtMs)
  }

  lemma {:induction false} SameCount(a: seq<Candidate>, b: seq<Candidate>, st: Phase)
    requires SameButTimes(a, b)
    ensures Count(a, st) == Count(b, st)
  {
    if a != [] { SameCount(a[..|a| - 1], b[..|b| - 1], st); }
  }

  /** No claim about a lookup depends on those times. */
  lemma TimesDoNotMatter(a: seq<Candidate>, b: seq<Candidate>, target: NodeId, seen: set<Endpoint>, n: Counters)
    requires SameButTimes(a, b) && Book(a, target, seen, n)
    ensures Book(b, target, seen, n) && Asked(a) == Asked(b) && EndpointsIn(a, Responded) == EndpointsIn(b, Responded)
    ensures Picked(a, n) <==> Picked(b, n)
    ensures MayFinish(a) <==> MayFinish(b)
    ensures forall closest :: GoodReport(a, target, n, closest) ==> GoodReport(b, target, n, closest)
  {
    hide *;
    TimesAndBooks(a, b, target, seen, n);
    TimesAndFinishing(a, b, n);
    forall closest | GoodReport(a, target, n, closest)
      ensures GoodReport(b, target, n, closest)
    {
      TimesAndReport(a, b, target, n, closest);
    }
  }

  lemma TimesAndBooks(a: seq<Candidate>, b: seq<Candidate>, target: NodeId, seen: set<Endpoint>, n: Counters)
    requires SameButTimes(a, b) && Book(a, target, seen, n)
    ensures Book(b, target, seen, n) && Asked(a) == Asked(b) && EndpointsIn(a, Responded) == EndpointsIn(b, Responded)
  {
    hide Distance, Count;
    SameCount(a, b, New);
    SameCount(a, b, InFlight);
    SameCount(a, b, Slow);
    SameCount(a, b, Responded);
  }

  lemma TimesAndFinishing(a: seq<Candidate>, b: seq<Candidate>, n: Counters)
    requires SameButTimes(a, b)
    ensures Picked(a, n) <==> Picked(b, n)
    ensures MayFinish(a) <==> MayFinish(b)
  {
    hide Count;
    SameCount(a, b, New);
    SameCount(a, b, Responded);
    forall i | 0 <= i < |a|
      ensures Count(a[..i], Responded) == Count(b[..i], Responded)
      ensures a[i].state == b[i].state
    {
      SameCount(a[..i], b[..i], Responded);
    }
  }

  lemma SameResponders(a: seq<Candidate>, b: seq<Candidate>, x: Contact)
    requires SameButTimes(a, b) && IsResponder(a, x)
    ensures IsResponder(b, x)
  {
    var k :| 0 <= k < |a| && a[k].state == Responded && ContactOf(a[k]) == x;
    assert b[k].state == Responded && ContactOf(b[k]) == x;
  }

  lemma TimesAndReport(a: seq<Candidate>, b: seq<Candidate>, target: NodeId, n: Counters, closest: seq<Contact>)
    requires SameButTimes(a, b) && GoodReport(a, target, n, closest)
    ensures GoodReport(b, target, n, closest)
  {
    hide Count, Distance, IsResponder;
    SameCount(a, b, Responded);
    forall x | IsResponder(a, x)
      ensures IsResponder(b, x)
    {
      SameResponders(a, b, x);
    }
    forall i | 0 <= i < |a|
      ensures a[i].state == b[i].state && a[i].id == b[i].id && ContactOf(a[i]) == ContactOf(b[i])
    {
    }
  }

  /** Where std::lower_bound puts an identifier: after every strictly nearer candidate. */
  method LowerBound(cs: seq<Candidate>, target: NodeId, id: NodeId) returns (lo: nat)
    requires Sorted(cs, target)
    ensures lo <= |cs|
    ensures forall k :: 0 <= k < lo ==> Distance(target, cs[k].id) < Distance(target, id)
    ensures forall k :: lo <= k < |cs| ==> Distance(target, id) <= Distance(target, cs[k].id)
  {
    hide Distance;
    lo := 0;
    var hi := |cs|;
    while lo < hi
      invariant lo <= hi <= |cs|
      invariant forall k :: 0 <= k < lo ==> Distance(target, cs[k].id) < Distance(target, id)
      invariant forall k :: hi <= k < |cs| ==> Distance(target, id) <= Distance(target, cs[k].id)
    {
      var mid := (lo + hi) / 2;
      var nearer := IsCloser(target, cs[mid].id, id);
      if nearer {
        lo := mid + 1;
      } else {
        hi := mid;
      }
    }
  }

  /** Drops the farthest unasked candidate when the list is one over its limit. */
  method TrimFar(cs: seq<Candidate>) returns (r: seq<Candidate>, ghost gone: int)
    requires |cs| <= MAX_CANDIDATES + 1
    requires exists i :: 0 <= i < |cs| && cs[i].state == New
    ensures |r| <= MAX_CANDIDATES
    ensures gone == -1 <==> |cs| <= MAX_CANDIDATES
    ensures gone == -1 ==> r == cs
    ensures gone != -1 ==>
              && 0 <= gone < |cs| && cs[gone].state == New && r == Erased(cs, gone)
              && forall j :: gone < j < |cs| ==> cs[j].state != New
  {
    r, gone := cs, -1;
    var i := |cs| - 1;
    while i >= 0 && |r| > MAX_CANDIDATES
      invariant -1 <= i < |cs|
      invariant gone == -1 ==> r == cs && forall j :: i < j < |cs| ==> cs[j].state != New
      invariant gone != -1 ==>
                  && |cs| > MAX_CANDIDATES
                  && 0 <= gone < |cs| && cs[gone].state == New && r == Erased(cs, gone)
                  && forall j :: gone < j < |cs| ==> cs[j].state != New
    {
      if r[i].state == New {
        gone := i;
        r := r[..i] + r[i + 1..];
      }
      i := i - 1;
    }
  }

  /** `cs`, but for its farthest unasked candidate if it was over the limit. */
  ghost predicate Trimmed(cs: seq<Candidate>, r: seq<Candidate>) {
    if |cs| <= MAX_CANDIDATES then r == cs
    else exists gone: nat :: gone < |cs| && cs[gone].state == New && r == Erased(cs, gone)
                             && forall j :: gone < j < |cs| ==> cs[j].state != New
  }

  /** The candidate was filed at some place, and the list trimmed. */
  ghost predicate FiledIn(before: seq<Candidate>, after: seq<Candidate>, c: Candidate) {
    exists pos: nat :: pos <= |before| && Trimmed(Inserted(before, pos, c), after)
  }

  ghost predicate SameAsked(a: seq<Candidate>, b: seq<Candidate>) {
    && (forall c :: c in a && c.state != New ==> c in b)
    && (forall c :: c in b && c.state != New ==> c in a)
  }

  lemma SameAskedSets(a: seq<Candidate>, b: seq<Candidate>)
    requires SameAsked(a, b)
    ensures Asked(a) == Asked(b) && EndpointsIn(a, Responded) == EndpointsIn(b, Responded)
  {
    AskedSubset(a, b);
    AskedSubset(b, a);
  }

  lemma AskedSubset(a: seq<Candidate>, b: seq<Candidate>)
    requires forall c :: c in a && c.state != New ==> c in b
    ensures Asked(a) <= Asked(b) && EndpointsIn(a, Responded) <= EndpointsIn(b, Responded)
  {
    forall i | 0 <= i < |a| && a[i].state != New
      ensures a[i].endpoint in Asked(b)
      ensures a[i].state == Responded ==> a[i].endpoint in EndpointsIn(b, Responded)
    {
      assert a[i] in b;
      var j :| 0 <= j < |b| && b[j] == a[i];
    }
  }

  lemma InsertKeepsAsked(cs: seq<Candidate>, i: nat, c: Candidate)
    requires i <= |cs| && c.state == New
    ensures SameAsked(cs, Inserted(cs, i, c))
  {
    var r := Inserted(cs, i, c);
    assert forall x :: x in r <==> x in cs || x == c by {
      assert cs == cs[..i] + cs[i..];
    }
  }

  lemma EraseKeepsAsked(cs: seq<Candidate>, i: nat)
    requires i < |cs| && cs[i].state == New
    ensures SameAsked(cs, Erased(cs, i))
  {
    var r := Erased(cs, i);
    assert cs == cs[..i] + [cs[i]] + cs[i + 1..];
  }

  lemma InsertKeepsBook(cs: seq<Candidate>, target: NodeId, seen: set<Endpoint>, n: Counters, i: nat, c: Candidate)
    requires Book(cs, target, seen, n) && i <= |cs| && c.state == New && c.endpoint !in seen
    requires Sorted(Inserted(cs, i, c), target)
    ensures var r := Inserted(cs, i, c);
            DistinctEndpoints(r) && Exact(r, n) && forall k :: 0 <= k < |r| ==> r[k].endpoint in seen + {c.endpoint}
  {
    hide Distance, Count;
    var r := Inserted(cs, i, c);
    assert forall k :: 0 <= k < |r| ==> r[k] == if k < i then cs[k] else if k == i then c else cs[k - 1];
    CountInsert(cs, i, c, New);
    CountInsert(cs, i, c, InFlight);
    CountInsert(cs, i, c, Slow);
    CountInsert(cs, i, c, Responded);
  }

  lemma EraseKeepsExact(cs: seq<Candidate>, n: Counters, i: nat)
    requires Exact(cs, n) && i < |cs| && cs[i].state == New
    ensures Exact(Erased(cs, i), n)
  {
    hide Count;
    CountErase(cs, i, New);
    CountErase(cs, i, InFlight);
    CountErase(cs, i, Slow);
    CountErase(cs, i, Responded);
  }

  function Moved(n: Counters, from: Phase, to: Phase): (r: Counters) {
    Counters(
      n.inFlight - (if from == InFlight then 1 else 0) + (if to == InFlight then 1 else 0),
      n.outstanding - (if from == InFlight || from == Slow then 1 else 0) + (if to == InFlight || to == Slow then 1 else 0),
      n.queries + (if from == New then 1 else 0) - (if to == New then 1 else 0),
      n.responded - (if from == Responded then 1 else 0) + (if to == Responded then 1 else 0))
  }

  /** One candidate changing state moves the counters, and nothing else. */
  lemma MoveKeepsBook(cs: seq<Candidate>, target: NodeId, seen: set<Endpoint>, n: Counters, i: nat, c: Candidate)
    requires Book(cs, target, seen, n) && i < |cs| && c.id == cs[i].id && c.endpoint == cs[i].endpoint
    requires Moved(n, cs[i].state, c.state).inFlight <= ALPHA
    requires Moved(n, cs[i].state, c.state).outstanding <= MAX_OUTSTANDING
    ensures Book(cs[i := c], target, seen, Moved(n, cs[i].state, c.state))
  {
    hide Distance, Count;
    CountUpdate(cs, i, c, New);
    CountUpdate(cs, i, c, InFlight);
    CountUpdate(cs, i, c, Slow);
    CountUpdate(cs, i, c, Responded);
  }

  lemma MoveSets(cs: seq<Candidate>, i: nat, c: Candidate)
    requires i < |cs| && c.endpoint == cs[i].endpoint && c.state != New && cs[i].state != Responded && DistinctEndpoints(cs)
    ensures Asked(cs[i := c]) == Asked(cs) + {c.endpoint}
    ensures EndpointsIn(cs[i := c], Responded) ==
            EndpointsIn(cs, Responded) + if c.state == Responded then {c.endpoint} else {}
  {
    var r := cs[i := c];
    assert r[i].endpoint in Asked(r);
    forall e | e in Asked(cs)
      ensures e in Asked(r)
    {
      var k :| 0 <= k < |cs| && cs[k].state != New && cs[k].endpoint == e;
      assert r[k].endpoint == e && r[k].state != New;
    }
    forall e | e in EndpointsIn(cs, Responded)
      ensures e in EndpointsIn(r, Responded)
    {
      var k :| 0 <= k < |cs| && cs[k].state == Responded && cs[k].endpoint == e;
      assert r[k].endpoint == e && r[k].state == Responded;
    }
  }

  /** A candidate as it is once picked. */
  function Marked(c: Candidate): Candidate {
    c.(state := InFlight, sentAtMs := 0)
  }

  /** The endpoints not asked yet, nearest first. */
  function Unasked(cs: seq<Candidate>): seq<Endpoint> {
    if cs == [] then []
    else Unasked(cs[..|cs| - 1]) + if cs[|cs| - 1].state == New then [cs[|cs| - 1].endpoint] else []
  }

  /** The unasked candidates before position `cut` have been picked, and no others. */
  ghost predicate PickedUpTo(before: seq<Candidate>, after: seq<Candidate>, cut: nat, toSend: seq<Endpoint>) {
    && cut <= |before| == |after|
    && (forall k :: 0 <= k < |before| ==>
          after[k] == if k < cut && before[k].state == New then Marked(before[k]) else before[k])
    && toSend == Unasked(before[..cut])
    && (forall k :: 0 <= k < cut && before[k].state == New ==> Count(before[..k], Responded) < K)
  }

  lemma PickedNone(cs: seq<Candidate>)
    ensures PickedUpTo(cs, cs, 0, [])
  {
  }

  lemma PickedNext(first: seq<Candidate>, before: seq<Candidate>, after: seq<Candidate>, i: nat, toSend: seq<Endpoint>)
    requires i < |before| && Count(before[..i], Responded) < K
    requires var picked := before[i].state == New;
             && after == (if picked then before[i := Marked(before[i])] else before)
             && (picked ==> toSend != [] && toSend[|toSend| - 1] == before[i].endpoint)
             && PickedUpTo(first, before, i, if picked then toSend[..|toSend| - 1] else toSend)
    ensures PickedUpTo(first, after, i + 1, toSend)
  {
    hide Count, Unasked, Marked;
    assert before[i] == first[i];
    UnaskedNext(first, i);
    CountMarked(first[..i], before[..i]);
    if before[i].state == New {
      assert toSend == toSend[..|toSend| - 1] + [before[i].endpoint];
    }
  }

  lemma UnaskedNext(cs: seq<Candidate>, i: nat)
    requires i < |cs|
    ensures Unasked(cs[..i + 1]) == Unasked(cs[..i]) + if cs[i].state == New then [cs[i].endpoint] else []
  {
    assert cs[..i + 1][..i] == cs[..i];
  }

  lemma {:induction false} CountMarked(a: seq<Candidate>, b: seq<Candidate>)
    requires |a| == |b| && forall k :: 0 <= k < |a| ==> b[k] == a[k] || (a[k].state == New && b[k] == Marked(a[k]))
    ensures Count(a, Responded) == Count(b, Responded)
  {
    if a != [] {
      CountMarked(a[..|a| - 1], b[..|b| - 1]);
    }
  }

  lemma AheadOfAll(cs: seq<Candidate>, i: nat)
    requires i <= |cs| && Count(cs[..i], Responded) >= K
    ensures forall k :: i <= k < |cs| ==> Count(cs[..k], Responded) >= K
    ensures Count(cs, Responded) >= K
  {
    forall k | i <= k < |cs|
      ensures Count(cs[..k], Responded) >= K
    {
      CountPrefix(cs, i, k, Responded);
    }
    CountPrefix(cs, i, i, Responded);
  }

  lemma CountNext(cs: seq<Candidate>, i: nat, st: Phase)
    requires i < |cs|
    ensures Count(cs[..i + 1], st) == Count(cs[..i], st) + One(cs[i], st)
  {
    assert cs[..i + 1][..i] == cs[..i];
  }

  /** The K closest have answered with nothing nearer outstanding, or there is nothing left to wait for. */
  method CanFinish(cs: seq<Candidate>, ghost n: Counters, outstanding: int, queries: int) returns (r: bool)
    requires |cs| <= MAX_CANDIDATES && Exact(cs, n) && outstanding == n.outstanding && queries == n.queries
    ensures r <==> MayFinish(cs)
  {
    hide Count;
    MeasureIsNat(cs, n);
    var responded := 0;
    assert cs[..0] == [];
    CountNone(cs[..0], Responded);
    for i := 0 to |cs|
      invariant responded == Count(cs[..i], Responded) < K
      invariant forall k :: 0 <= k < i ==> !Waiting(cs[k])
    {
      CountNext(cs, i, Responded);
      if cs[i].state == Responded {
        responded := responded + 1;
        if responded >= K {
          AheadOfAll(cs, i + 1);
          return true;
        }
      } else if cs[i].state == InFlight || cs[i].state == Slow {
        return false;
      }
    }
    assert cs[..|cs|] == cs;
    CountNone(cs, InFlight);
    CountNone(cs, Slow);
    if outstanding > 0 {
      return false;
    }
    if queries >= MAX_QUERIES {
      return true;
    }
    r := NoneNew(cs);
    CountNone(cs, New);
  }

  method NoneNew(cs: seq<Candidate>) returns (r: bool)
    ensures r <==> forall i :: 0 <= i < |cs| ==> cs[i].state != New
  {
    for i := 0 to |cs|
      invariant forall k :: 0 <= k < i ==> cs[k].state != New
    {
      if cs[i].state == New {
        return false;
      }
    }
    return true;
  }

  method FindEndpoint(cs: seq<Candidate>, endpoint: Endpoint) returns (i: int)
    ensures -1 <= i < |cs|
    ensures i == -1 ==> forall k :: 0 <= k < |cs| ==> cs[k].endpoint != endpoint
    ensures i != -1 ==> cs[i].endpoint == endpoint
  {
    for k := 0 to |cs|
      invariant forall j :: 0 <= j < k ==> cs[j].endpoint != endpoint
    {
      if cs[k].endpoint == endpoint {
        return k;
      }
    }
    return -1;
  }

  predicate NoResponder(cs: seq<Candidate>) {
    forall i :: 0 <= i < |cs| ==> cs[i].state != Responded
  }

  /** The loop that fills the report. */
  method CollectClosest(cs: seq<Candidate>) returns (closest: seq<Contact>, hops: int)
    ensures closest == Responders(cs, K)
    ensures closest == [] ==> hops == -1
    // The hops of the nearest that answered.
    ensures forall i :: 0 <= i < |cs| && cs[i].state == Responded && NoResponder(cs[..i]) ==> hops == cs[i].hops
  {
    closest, hops := [], -1;
    var i := 0;
    assert cs[..0] == [];
    while i < |cs|
      invariant i <= |cs| && closest == Responders(cs[..i], K)
      invariant closest == [] ==> hops == -1 && NoResponder(cs[..i])
      invariant closest != [] ==> exists k :: 0 <= k < i && cs[k].state == Responded && NoResponder(cs[..k]) && hops == cs[k].hops
    {
      assert cs[..i + 1][..i] == cs[..i];
      if |closest| < K && cs[i].state == Responded {
        if closest == [] {
          hops := cs[i].hops;
        }
        closest := closest + [ContactOf(cs[i])];
      }
      i := i + 1;
    }
    assert cs[..|cs|] == cs;
    FirstResponder(cs);
  }

  lemma FirstResponder(cs: seq<Candidate>)
    ensures forall i, k :: 0 <= i < k < |cs| && cs[i].state == Responded ==> !NoResponder(cs[..k])
  {
    forall i, k | 0 <= i < k < |cs| && cs[i].state == Responded
      ensures !NoResponder(cs[..k])
    {
      assert cs[..k][i] == cs[i];
    }
  }

  // --- The lookup ----------------------------------------------------------------------

  class Lookup {
    const target: NodeId
    const selfId: NodeId
    /** Right family and a usable remote address. */
    const usable: Endpoint -> bool
    var candidates: seq<Candidate>
    var seen: set<Endpoint>
    var inFlight: int
    var outstanding: int
    var queries: int
    var responded: int
    var started: bool
    var finished: bool
    var done: bool
    var slowTimer: bool
    var slowAfterMs: int
    var closest: seq<Contact>
    var hops: int
    /** Endpoints a query was handed over for, endpoints that answered, and reports made. */
    ghost var asked: set<Endpoint>
    ghost var answered: set<Endpoint>
    ghost var reports: nat

    ghost function N(): Counters
      reads this
    {
      Counters(inFlight, outstanding, queries, responded)
    }

    ghost predicate Valid()
      reads this
    {
      && Book(candidates, target, seen, N())
      && asked <= Asked(candidates)
      && answered == EndpointsIn(candidates, Responded)
      && done == finished
      && reports == (if finished then 1 else 0)
      && (finished ==> GoodReport(candidates, target, N(), closest))
    }

    /** Candidates picked whose query has not been handed over yet. */
    ghost function Owed(): set<Endpoint>
      reads this
    {
      Asked(candidates) - asked
    }

    /** What holds between events. */
    ghost predicate Running()
      reads this
    {
      && Valid()
      && (started && !finished ==> outstanding > 0)
      && (!finished ==> Owed() == {})
    }

    constructor (target: NodeId, selfId: NodeId, usable: Endpoint -> bool, slowAfterMs: int)
      ensures Running() && !started && !finished && candidates == []
      ensures this.target == target && this.selfId == selfId && this.usable == usable
    {
      this.target, this.selfId, this.usable := target, selfId, usable;
      candidates, seen := [], {};
      inFlight, outstanding, queries, responded := 0, 0, 0, 0;
      started, finished, done, slowTimer := false, false, false, false;
      this.slowAfterMs := slowAfterMs;
      closest, hops := [], -1;
      asked, answered, reports := {}, {}, 0;
    }

    /** Files a new candidate by distance; an unasked one makes way if the list is full. */
    method Insert(id: NodeId, endpoint: Endpoint, hopCount: int) returns (inserted: bool)
      requires Valid()
      modifies `candidates, `seen
      ensures Valid()
      ensures inserted <==> !finished && id != selfId && usable(endpoint) && endpoint !in old(seen)
      ensures !inserted ==> unchanged(this)
      ensures inserted ==> seen == old(seen) + {endpoint}
      ensures inserted ==> FiledIn(old(candidates), candidates, Candidate(id, endpoint, New, [], hopCount, 0))
      ensures SameAsked(old(candidates), candidates) && Asked(candidates) == old(Asked(candidates))
    {
      hide Book, GoodReport, Asked, EndpointsIn, Distance, Inserted;
      if finished || id == selfId || !usable(endpoint) || endpoint in seen {
        return false;
      }
      ghost var gone;
      var pos := Place(id);
      var c := Candidate(id, endpoint, New, [], hopCount, 0);
      InsertedNew(candidates, pos, c);
      var grown := Inserted(candidates, pos, c);
      BookIsShort(candidates, target, seen, N());
      candidates, gone := TrimFar(grown);
      seen := seen + {endpoint};
      FiledKeeps(old(candidates), target, old(seen), N(), pos, c, gone, candidates);
      SameAskedSets(old(candidates), candidates);
      assert Trimmed(Inserted(old(candidates), pos, c), candidates);
      return true;
    }

    method Place(id: NodeId) returns (pos: nat)
      requires Book(candidates, target, seen, N())
      ensures pos <= |candidates|
      ensures forall k :: 0 <= k < pos ==> Distance(target, candidates[k].id) < Distance(target, id)
      ensures forall k :: pos <= k < |candidates| ==> Distance(target, id) <= Distance(target, candidates[k].id)
    {
      pos := LowerBound(candidates, target, id);
    }

    /** Marks candidate i as about to be asked. */
    method Mark(i: nat)
      requires i < |candidates| && candidates[i].state == New && Book(candidates, target, seen, N())
      requires inFlight < ALPHA && outstanding < MAX_OUTSTANDING
      modifies `candidates, `inFlight, `outstanding, `queries
      ensures Book(candidates, target, seen, N()) && Measure(N()) == old(Measure(N())) - 1
      ensures inFlight == old(inFlight) + 1 && outstanding == old(outstanding) + 1
      ensures candidates == old(candidates)[i := old(candidates)[i].(state := InFlight, sentAtMs := 0)]
      ensures Asked(candidates) == old(Asked(candidates)) + {candidates[i].endpoint}
      ensures EndpointsIn(candidates, Responded) == old(EndpointsIn(candidates, Responded))
    {
      hide Book, Asked, EndpointsIn;
      var c := candidates[i].(state := InFlight, sentAtMs := 0);
      MoveKeepsBook(candidates, target, seen, N(), i, c);
      BookDistinct(candidates, target, seen, N());
      MoveSets(candidates, i, c);
      candidates := candidates[i := c];
      inFlight := inFlight + 1;
      outstanding := outstanding + 1;
      queries := queries + 1;
    }

    method PickOne(i: nat, toSend: seq<Endpoint>, ghost already: set<Endpoint>) returns (more: seq<Endpoint>)
      requires i < |candidates| && candidates[i].state == New && Book(candidates, target, seen, N())
      requires inFlight < ALPHA && outstanding < MAX_OUTSTANDING
      requires NoRepeats(toSend) && Asked(candidates) == already + Set(toSend) && Set(toSend) !! already
      modifies `candidates, `inFlight, `outstanding, `queries
      ensures Book(candidates, target, seen, N()) && Measure(N()) == old(Measure(N())) - 1
      ensures inFlight == old(inFlight) + 1 && outstanding == old(outstanding) + 1
      ensures candidates == old(candidates)[i := Marked(old(candidates)[i])]
      ensures more == toSend + [old(candidates)[i].endpoint]
      ensures NoRepeats(more) && Asked(candidates) == already + Set(more) && Set(more) !! already
      ensures EndpointsIn(candidates, Responded) == old(EndpointsIn(candidates, Responded))
    {
      hide Book, Asked, EndpointsIn, NoRepeats, Set;
      UnaskedIsFresh(candidates, target, seen, N(), i);
      SendOneMore(toSend, candidates[i].endpoint);
      Mark(i);
      more := toSend + [candidates[i].endpoint];
    }

    /** Chooses what to send: nearest first, within both budgets, stopping once K responders lie ahead. */
    method Pick() returns (toSend: seq<Endpoint>, ghost cut: nat)
      requires Valid() && !finished
      modifies `candidates, `inFlight, `outstanding, `queries
      ensures Valid() && Picked(candidates, N()) && Measure(N()) == old(Measure(N())) - |toSend|
      ensures Asked(candidates) == old(Asked(candidates)) + Set(toSend) && Set(toSend) !! old(Asked(candidates))
      ensures NoRepeats(toSend)
      // Picked are exactly the unasked before the cut, none of them with K responders ahead.
      ensures PickedUpTo(old(candidates), candidates, cut, toSend)
    {
      hide Book, GoodReport, Asked, EndpointsIn, Count, PickedUpTo, NoRepeats, Set, Picked, Measure, Exact;
      toSend := [];
      NothingToSend();
      BookIsShort(candidates, target, seen, N());
      WithinBudgets(candidates, target, seen, N());
      var spare, room := ALPHA - inFlight, MAX_OUTSTANDING - outstanding;
      var budget := if spare < room then spare else room;
      var respondedAhead, i := 0, 0;
      assert candidates[..0] == [];
      CountNone(candidates[..0], Responded);
      PickedNone(candidates);
      while i < |candidates| && budget > 0 && respondedAhead < K
        invariant 0 <= i <= |candidates| == |old(candidates)|
        invariant Book(candidates, target, seen, N())
        invariant budget == (if ALPHA - inFlight < MAX_OUTSTANDING - outstanding then ALPHA - inFlight else MAX_OUTSTANDING - outstanding) >= 0
        invariant respondedAhead == Count(candidates[..i], Responded)
        invariant forall k :: 0 <= k < i ==> candidates[k].state != New
        invariant Measure(N()) == old(Measure(N())) - |toSend|
        invariant Asked(candidates) == old(Asked(candidates)) + Set(toSend) && Set(toSend) !! old(Asked(candidates))
        invariant NoRepeats(toSend)
        invariant EndpointsIn(candidates, Responded) == old(EndpointsIn(candidates, Responded))
        invariant PickedUpTo(old(candidates), candidates, i, toSend)
      {
        CountNext(candidates, i, Responded);
        BookIsShort(candidates, target, seen, N());
        ghost var before := candidates;
        if candidates[i].state == Responded {
          respondedAhead := respondedAhead + 1;
        } else if candidates[i].state == New && queries < MAX_QUERIES {
          toSend := PickOne(i, toSend, old(Asked(candidates)));
          budget := budget - 1;
          assert candidates[..i] == before[..i];
          CountNext(candidates, i, Responded);
        }
        PickedNext(old(candidates), before, candidates, i, toSend);
        i := i + 1;
      }
      PickedAll(candidates, N(), i, respondedAhead);
      cut := i;
    }

    /** Hands one query over. Its callbacks may run before this returns. */
    method HandOver(e: Endpoint)
      requires Valid() && !finished && e !in asked && e in Asked(candidates)
      modifies this
      ensures Valid() && started == old(started) && Measure(N()) <= old(Measure(N()))
      ensures Grown(old(asked) + {e}, old(Asked(candidates)), asked, Asked(candidates), finished)
      ensures old(seen) <= seen && old(answered) <= answered
      ensures finished || (outstanding > 0 && !MayFinish(candidates)) || Calm(old(candidates), candidates, old(N()))
      decreases Measure(N()), 2
    {
      hide Book, GoodReport, Asked, EndpointsIn, Count, Picked, MayFinish;
      BookIsShort(candidates, target, seen, N());
      asked := asked + {e};
      ghost var before := candidates;
      if * {
        var nowMs: int := *;
        OnSent(e, nowMs);
        TimesDoNotMatter(before, candidates, target, seen, N());
      }
      BookIsShort(candidates, target, seen, N());
      if * {
        var reply: Reply := *;
        OnReply(e, reply);
      }
    }

    /** The states are as they were, and so are the counters. */
    ghost predicate Calm(before: seq<Candidate>, after: seq<Candidate>, n: Counters)
      reads this
    {
      N() == n && (Picked(before, n) ==> Picked(after, n)) && (MayFinish(after) ==> MayFinish(before))
    }

    method OnSent(endpoint: Endpoint, nowMs: int)
      requires Valid()
      modifies `candidates
      ensures Valid() && SameButTimes(old(candidates), candidates)
      // The slow clock of that query, and of no other, starts now.
      ensures forall i :: 0 <= i < |candidates| ==>
                candidates[i].sentAtMs ==
                (if candidates[i].endpoint == endpoint && candidates[i].state == InFlight then nowMs else old(candidates)[i].sentAtMs)
    {
      hide Book, GoodReport, Asked, EndpointsIn;
      BookDistinct(candidates, target, seen, N());
      var i := FindEndpoint(candidates, endpoint);
      if i != -1 && candidates[i].state == InFlight {
        candidates := candidates[i := candidates[i].(sentAtMs := nowMs)];
      }
      TimesDoNotMatter(old(candidates), candidates, target, seen, N());
    }

    /** Hands the picked queries over one by one, stopping if the lookup finishes meanwhile. */
    method SendAll(toSend: seq<Endpoint>, ghost asked0: set<Endpoint>, ghost all0: set<Endpoint>)
      requires Valid() && NoRepeats(toSend) && Picked(candidates, N())
      requires Sending(asked0, all0, Set(toSend), Set(toSend), asked, Asked(candidates), finished)
      modifies this
      ensures Valid() && started == old(started) && Measure(N()) <= old(Measure(N()))
      ensures Grown(asked0, all0, asked, Asked(candidates), finished)
      ensures old(seen) <= seen && old(answered) <= answered
      ensures finished || (outstanding > 0 && !MayFinish(candidates)) || Picked(candidates, N())
      decreases Measure(N()), 3
    {
      hide Book, GoodReport, Asked, EndpointsIn, Count, Picked, MayFinish, NoRepeats, Set, Sending;
      var k := 0;
      assert toSend[0..] == toSend;
      while k < |toSend|
        invariant 0 <= k <= |toSend|
        invariant Valid() && started == old(started) && Measure(N()) <= old(Measure(N()))
        invariant Sending(asked0, all0, Set(toSend), Set(toSend[k..]), asked, Asked(candidates), finished)
        invariant finished || (outstanding > 0 && !MayFinish(candidates)) || Picked(candidates, N())
        invariant old(seen) <= seen && old(answered) <= answered
      {
        if finished {
          break;
        }
        BookIsShort(candidates, target, seen, N());
        ghost var asked1, all1 := asked, Asked(candidates);
        NextToSend(toSend, k);
        ReadyToSend(asked0, all0, Set(toSend), toSend[k], Set(toSend[k..]), asked, Asked(candidates));
        HandOver(toSend[k]);
        SendingNext(asked0, all0, Set(toSend), toSend[k], Set(toSend[k + 1..]), asked1, all1, asked, Asked(candidates), finished);
        k := k + 1;
      }
      EmptySet(toSend, k);
      SendingDone(asked0, all0, Set(toSend), Set(toSend[k..]), asked, Asked(candidates), finished);
    }

    /** Sends what the budgets allow, then finishes if there is nothing more to wait for. */
    method Step()
      requires Valid()
      modifies this
      ensures Valid() && started == old(started) && Measure(N()) <= old(Measure(N()))
      ensures Grown(old(asked), old(Asked(candidates)), asked, Asked(candidates), finished)
      ensures old(seen) <= seen && old(answered) <= answered
      ensures finished || (outstanding > 0 && !MayFinish(candidates))
      ensures old(finished) ==> finished
      decreases Measure(N()), 0
    {
      hide Book, GoodReport, Asked, EndpointsIn, Count, Picked, MayFinish, NoRepeats, Set;
      if finished {
        return;
      }
      ghost var asked0, all0 := asked, Asked(candidates);
      var toSend, cut := Pick();
      BookIsShort(candidates, target, seen, N());
      if |toSend| > 0 {
        SendAll(toSend, asked0, all0);
      } else {
        EmptySet(toSend, 0);
      }
      if !finished {
        Conclude();
      }
    }

    method Conclude()
      requires Valid() && !finished
      requires (outstanding > 0 && !MayFinish(candidates)) || Picked(candidates, N())
      modifies `finished, `slowTimer, `closest, `hops, `done, `reports
      ensures Valid() && (finished || (outstanding > 0 && !MayFinish(candidates)))
    {
      hide Book, GoodReport, Asked, EndpointsIn, Picked, MayFinish;
      if outstanding > 0 && !slowTimer {
        slowTimer := true;
      }
      BookIsShort(candidates, target, seen, N());
      var ready := CanFinish(candidates, N(), outstanding, queries);
      if ready {
        Finish();
      } else if Picked(candidates, N()) {
        UnfinishedIsWaiting(candidates, N());
      }
    }

    /** A waiting candidate has answered or failed. */
    method Settle(i: nat, reply: Reply)
      requires Valid() && !finished && i < |candidates| && Waiting(candidates[i])
      modifies `candidates, `inFlight, `outstanding, `responded, `answered
      ensures Valid() && Measure(N()) < old(Measure(N())) && Asked(candidates) == old(Asked(candidates))
      ensures answered == old(answered) + if reply.Response? then {old(candidates)[i].endpoint} else {}
      ensures queries == old(queries)
    {
      hide Book, GoodReport, Asked, EndpointsIn;
      var was := candidates[i];
      var c := was.(state := if reply.Response? then Responded else Failed,
                    token := if reply.Response? && reply.hasToken then reply.token else was.token);
      WithinBudgets(candidates, target, seen, N());
      MoveKeepsBook(candidates, target, seen, N(), i, c);
      BookDistinct(candidates, target, seen, N());
      MoveSets(candidates, i, c);
      AlreadyAsked(candidates, i);
      if was.state == InFlight {
        inFlight := inFlight - 1;
      }
      outstanding := outstanding - 1;
      candidates := candidates[i := c];
      if reply.Response? {
        responded := responded + 1;
        answered := answered + {was.endpoint};
      }
    }

    /** Files the nodes a response listed, without stepping in between. */
    method Learn(nodes: seq<Node>, hopCount: int)
      requires Valid() && !finished
      modifies this
      ensures Valid() && !finished && started == old(started) && N() == old(N())
      ensures asked == old(asked) && Asked(candidates) == old(Asked(candidates)) && answered == old(answered)
      ensures old(seen) <= seen && Considered(nodes)
      decreases Measure(N()), 2
    {
      hide Book, GoodReport, Asked, EndpointsIn;
      BookIsShort(candidates, target, seen, N());
      var wasStarted := started;
      started := false;
      for k := 0 to |nodes|
        invariant Valid() && !finished && !started && N() == old(N())
        invariant asked == old(asked) && Asked(candidates) == old(Asked(candidates)) && answered == old(answered)
        invariant old(seen) <= seen && Considered(nodes[..k])
      {
        assert nodes[..k + 1] == nodes[..k] + [nodes[k]];
        AddCandidate(nodes[k].id, nodes[k].endpoint, hopCount);
      }
      assert nodes[..|nodes|] == nodes;
      started := wasStarted;
    }

    /** Every listed node that could be asked has been taken in. */
    ghost predicate Considered(nodes: seq<Node>)
      reads this
    {
      forall k :: 0 <= k < |nodes| && nodes[k].id != selfId && usable(nodes[k].endpoint) ==> nodes[k].endpoint in seen
    }

    /** A reply, an error or a timeout for `endpoint`. Only one still waited for counts. */
    method OnReply(endpoint: Endpoint, reply: Reply)
      requires Valid()
      modifies this
      ensures Valid() && started == old(started) && Measure(N()) <= old(Measure(N())) && (old(finished) ==> finished)
      ensures Grown(old(asked), old(Asked(candidates)), asked, Asked(candidates), finished)
      ensures old(seen) <= seen && old(answered) <= answered
      ensures finished || (outstanding > 0 && !MayFinish(candidates)) || (candidates == old(candidates) && N() == old(N()))
      ensures !old(finished) && IsWaitedFor(old(candidates), endpoint) ==> Measure(N()) < old(Measure(N()))
      // A response that is waited for counts, and everyone it lists is taken in.
      ensures !old(finished) && IsWaitedFor(old(candidates), endpoint) && reply.Response? ==>
                endpoint in answered && Considered(reply.nodes)
      ensures old(Running()) ==> Running()
      decreases Measure(N()), 1
    {
      hide Book, GoodReport, Asked, EndpointsIn, MayFinish;
      if finished {
        return;
      }
      BookIsShort(candidates, target, seen, N());
      var i := FindEndpoint(candidates, endpoint);
      FoundWhenWaited(candidates, target, seen, N(), endpoint, i);
      if i == -1 || (candidates[i].state != InFlight && candidates[i].state != Slow) {
        return;
      }
      var hopCount := candidates[i].hops + 1;
      Settle(i, reply);
      BookIsShort(candidates, target, seen, N());
      if reply.Response? {
        Learn(reply.nodes, hopCount);
      }
      Step();
    }

    method AddCandidate(id: NodeId, endpoint: Endpoint, hopCount: int)
      requires Valid()
      modifies this
      ensures Valid() && started == old(started) && Measure(N()) <= old(Measure(N())) && (old(finished) ==> finished)
      ensures Grown(old(asked), old(Asked(candidates)), asked, Asked(candidates), finished)
      ensures old(seen) <= seen && old(answered) <= answered
      ensures !old(finished) && id != selfId && usable(endpoint) ==> endpoint in seen
      ensures !started ==>
                && finished == old(finished) && N() == old(N()) && asked == old(asked) && answered == old(answered)
                && Asked(candidates) == old(Asked(candidates))
      ensures old(Running()) ==> Running()
      decreases Measure(N()), 1
    {
      hide Book, GoodReport, Asked, EndpointsIn, MayFinish;
      BookIsShort(candidates, target, seen, N());
      var inserted := Insert(id, endpoint, hopCount);
      if inserted && started {
        Step();
      }
    }

    method Start()
      requires Running()
      modifies this
      ensures Running() && started && Measure(N()) <= old(Measure(N()))
    {
      hide Book, GoodReport, Asked, EndpointsIn, MayFinish;
      started := true;
      Step();
    }

    /** Queries past the slow mark stop holding a slot. One not sent yet is never slow. */
    method CheckSlow(nowMs: int)
      requires Running() && started
      modifies this
      ensures Running() && started && Measure(N()) <= old(Measure(N())) && (old(finished) ==> finished)
      // A query past the slow mark makes progress: its slot is free for another.
      ensures !old(finished) && (exists i :: 0 <= i < |old(candidates)| && old(AfterSlow(candidates[i], nowMs)) != old(candidates)[i]) ==>
                Measure(N()) < old(Measure(N()))
    {
      hide Book, GoodReport, Asked, EndpointsIn, MayFinish;
      if finished {
        return;
      }
      var promoted := DemoteSlow(nowMs);
      if inFlight == 0 {
        slowTimer := false;
      }
      if promoted {
        Step();
      }
    }

    /** The candidates once the slow ones no longer hold a slot. */
    function AfterSlow(c: Candidate, nowMs: int): Candidate
      reads this
    {
      if c.state == InFlight && c.sentAtMs > 0 && nowMs - c.sentAtMs >= slowAfterMs then c.(state := Slow) else c
    }

    /** Exactly the queries past the slow mark give up their slot. */
    method DemoteSlow(nowMs: int) returns (promoted: bool)
      requires Valid() && !finished
      modifies `candidates, `inFlight
      ensures Valid() && Measure(N()) <= old(Measure(N())) && Asked(candidates) == old(Asked(candidates))
      ensures promoted ==> Measure(N()) < old(Measure(N())) && inFlight < old(inFlight)
      ensures |candidates| == |old(candidates)|
      ensures forall i :: 0 <= i < |candidates| ==> candidates[i] == AfterSlow(old(candidates)[i], nowMs)
      ensures promoted <==> candidates != old(candidates)
    {
      hide Book, GoodReport, Asked, EndpointsIn;
      promoted := false;
      for i := 0 to |candidates|
        invariant Valid() && !finished && |candidates| == |old(candidates)|
        invariant Measure(N()) <= old(Measure(N())) && Asked(candidates) == old(Asked(candidates))
        invariant inFlight <= old(inFlight)
        invariant promoted ==> Measure(N()) < old(Measure(N())) && inFlight < old(inFlight)
        invariant forall k :: 0 <= k < i ==> candidates[k] == AfterSlow(old(candidates)[k], nowMs)
        invariant forall k :: i <= k < |candidates| ==> candidates[k] == old(candidates)[k]
        invariant promoted <==> exists k :: 0 <= k < i && candidates[k] != old(candidates)[k]
      {
        var c := candidates[i];
        if c.state == InFlight && c.sentAtMs > 0 && nowMs - c.sentAtMs >= slowAfterMs {
          Demote(i);
          promoted := true;
          assert candidates[i] != old(candidates)[i];
        }
      }
    }

    method Demote(i: nat)
      requires Valid() && !finished && i < |candidates| && candidates[i].state == InFlight
      modifies `candidates, `inFlight
      ensures Valid() && candidates == old(candidates)[i := old(candidates)[i].(state := Slow)]
      ensures Measure(N()) == old(Measure(N())) - 1 && inFlight == old(inFlight) - 1
      ensures Asked(candidates) == old(Asked(candidates))
    {
      hide Book, GoodReport, Asked, EndpointsIn;
      var c := candidates[i].(state := Slow);
      WithinBudgets(candidates, target, seen, N());
      MoveKeepsBook(candidates, target, seen, N(), i, c);
      BookDistinct(candidates, target, seen, N());
      MoveSets(candidates, i, c);
      AlreadyAsked(candidates, i);
      candidates := candidates[i := c];
      inFlight := inFlight - 1;
    }

    /** Reports the result, once. */
    method Finish()
      requires Valid() && !finished && Picked(candidates, N()) && MayFinish(candidates)
      modifies `finished, `slowTimer, `closest, `hops, `done, `reports
      ensures Valid() && finished && closest == Responders(candidates, K)
      ensures forall i :: 0 <= i < |candidates| && candidates[i].state == Responded && NoResponder(candidates[..i]) ==>
                hops == candidates[i].hops
    {
      hide Book, GoodReport, Asked, EndpointsIn, Responders, Picked, MayFinish;
      FinishingReport(candidates, target, seen, N());
      finished := true;
      slowTimer := false;
      closest, hops := CollectClosest(candidates);
      done := true;
      reports := reports + 1;
    }
  }

  ghost function Set(s: seq<Endpoint>): set<Endpoint> {
    set e | e in s
  }

  ghost predicate NoRepeats(s: seq<Endpoint>) {
    forall i, j :: 0 <= i < j < |s| ==> s[i] != s[j]
  }

  lemma SendOneMore(s: seq<Endpoint>, e: Endpoint)
    requires NoRepeats(s) && e !in Set(s)
    ensures NoRepeats(s + [e]) && Set(s + [e]) == Set(s) + {e}
  {
  }

  lemma NextToSend(s: seq<Endpoint>, k: nat)
    requires NoRepeats(s) && k < |s|
    ensures Set(s[k..]) == {s[k]} + Set(s[k + 1..]) && s[k] !in Set(s[k + 1..]) && s[k] in Set(s)
  {
    assert s[k..] == [s[k]] + s[k + 1..];
  }

  /** Queries were handed over only for candidates not yet picked, and none picked since is still owed. */
  ghost predicate Grown(asked0: set<Endpoint>, all0: set<Endpoint>, asked: set<Endpoint>, all: set<Endpoint>, finished: bool) {
    && asked0 <= asked
    && all0 <= all
    && all0 * asked <= asked0
    && (!finished ==> all - asked <= all0 - asked0)
  }

  /** Midway through sending: `todo` are those of `picked` still to go. */
  ghost predicate Sending(asked0: set<Endpoint>, all0: set<Endpoint>, picked: set<Endpoint>, todo: set<Endpoint>,
                          asked: set<Endpoint>, all: set<Endpoint>, finished: bool) {
    && picked !! all0 && todo <= picked
    && asked0 <= asked && all0 + picked <= all
    && all0 * asked <= asked0
    && todo !! asked
    && (!finished ==> all - asked <= (all0 - asked0) + todo)
  }

  lemma NothingToSend()
    ensures NoRepeats([]) && Set([]) == {}
  {
  }

  lemma EmptySet(s: seq<Endpoint>, k: nat)
    requires k <= |s|
    ensures k == |s| ==> Set(s[k..]) == {}
  {
  }

  lemma ReadyToSend(asked0: set<Endpoint>, all0: set<Endpoint>, picked: set<Endpoint>, e: Endpoint, todo: set<Endpoint>,
                    asked: set<Endpoint>, all: set<Endpoint>)
    requires Sending(asked0, all0, picked, todo, asked, all, false) && e in todo
    ensures e !in asked && e in all
  {
  }

  lemma SendingDone(asked0: set<Endpoint>, all0: set<Endpoint>, picked: set<Endpoint>, todo: set<Endpoint>,
                    asked: set<Endpoint>, all: set<Endpoint>, finished: bool)
    requires Sending(asked0, all0, picked, todo, asked, all, finished) && (todo == {} || finished)
    ensures Grown(asked0, all0, asked, all, finished)
  {
  }

  lemma SendingNext(asked0: set<Endpoint>, all0: set<Endpoint>, picked: set<Endpoint>, e: Endpoint, todo: set<Endpoint>,
                    asked1: set<Endpoint>, all1: set<Endpoint>, asked: set<Endpoint>, all: set<Endpoint>, finished: bool)
    requires Sending(asked0, all0, picked, {e} + todo, asked1, all1, false) && e !in todo
    requires Grown(asked1 + {e}, all1, asked, all, finished)
    ensures Sending(asked0, all0, picked, todo, asked, all, finished)
  {
  }

  ghost predicate IsWaitedFor(cs: seq<Candidate>, endpoint: Endpoint) {
    exists k :: 0 <= k < |cs| && cs[k].endpoint == endpoint && Waiting(cs[k])
  }

  lemma FoundWhenWaited(cs: seq<Candidate>, target: NodeId, seen: set<Endpoint>, n: Counters, endpoint: Endpoint, i: int)
    requires Book(cs, target, seen, n) && -1 <= i < |cs|
    requires if i == -1 then forall k :: 0 <= k < |cs| ==> cs[k].endpoint != endpoint else cs[i].endpoint == endpoint
    ensures IsWaitedFor(cs, endpoint) <==> i != -1 && Waiting(cs[i])
  {
    hide Distance, Count;
  }

  lemma BookDistinct(cs: seq<Candidate>, target: NodeId, seen: set<Endpoint>, n: Counters)
    requires Book(cs, target, seen, n)
    ensures DistinctEndpoints(cs)
  {
  }

  lemma AlreadyAsked(cs: seq<Candidate>, i: nat)
    requires i < |cs| && cs[i].state != New
    ensures Asked(cs) + {cs[i].endpoint} == Asked(cs)
  {
  }

  lemma WithinBudgets(cs: seq<Candidate>, target: NodeId, seen: set<Endpoint>, n: Counters)
    requires Book(cs, target, seen, n)
    ensures 0 <= n.inFlight <= ALPHA && 0 <= n.outstanding <= MAX_OUTSTANDING
  {
  }

  lemma UnaskedIsFresh(cs: seq<Candidate>, target: NodeId, seen: set<Endpoint>, n: Counters, i: nat)
    requires Book(cs, target, seen, n) && i < |cs| && cs[i].state == New
    ensures cs[i].endpoint !in Asked(cs)
  {
    hide Distance, Count;
  }

  lemma PickedAll(cs: seq<Candidate>, n: Counters, i: nat, responded: nat)
    requires i <= |cs| && responded == Count(cs[..i], Responded)
    requires forall k :: 0 <= k < i ==> cs[k].state != New
    requires i == |cs| || n.inFlight == ALPHA || n.outstanding == MAX_OUTSTANDING || responded >= K
    ensures Picked(cs, n)
  {
    if responded >= K {
      AheadOfAll(cs, i);
    }
  }

  lemma InsertedNew(cs: seq<Candidate>, i: nat, c: Candidate)
    requires i <= |cs| && c.state == New
    ensures exists k :: 0 <= k < |Inserted(cs, i, c)| && Inserted(cs, i, c)[k].state == New
  {
    assert Inserted(cs, i, c)[i] == c;
  }

  lemma BookIsShort(cs: seq<Candidate>, target: NodeId, seen: set<Endpoint>, n: Counters)
    requires Book(cs, target, seen, n)
    ensures |cs| <= MAX_CANDIDATES && Exact(cs, n)
    ensures 0 <= n.inFlight <= n.outstanding <= n.queries <= |cs| && Measure(n) >= 0
  {
    MeasureIsNat(cs, n);
  }

  /** Filing a candidate and trimming keeps the books, and every candidate already asked. */
  lemma FiledKeeps(cs: seq<Candidate>, target: NodeId, seen: set<Endpoint>, n: Counters, pos: nat, c: Candidate,
                   gone: int, r: seq<Candidate>)
    requires Book(cs, target, seen, n) && pos <= |cs| && c.state == New && c.endpoint !in seen
    requires forall k :: 0 <= k < pos ==> Distance(target, cs[k].id) < Distance(target, c.id)
    requires forall k :: pos <= k < |cs| ==> Distance(target, c.id) <= Distance(target, cs[k].id)
    requires |r| <= MAX_CANDIDATES
    requires var grown := Inserted(cs, pos, c);
             if gone == -1 then r == grown
             else 0 <= gone < |grown| && grown[gone].state == New && r == Erased(grown, gone)
    ensures Book(r, target, seen + {c.endpoint}, n) && SameAsked(cs, r)
  {
    hide Distance, Count;
    var grown := Inserted(cs, pos, c);
    SortedInsert(cs, target, pos, c);
    InsertKeepsBook(cs, target, seen, n, pos, c);
    InsertKeepsAsked(cs, pos, c);
    if gone != -1 {
      SortedErase(grown, target, gone);
      EraseKeepsExact(grown, n, gone);
      EraseKeepsAsked(grown, gone);
    }
  }

  lemma SomethingIsWaitedFor(cs: seq<Candidate>, target: NodeId, seen: set<Endpoint>, n: Counters)
    requires Book(cs, target, seen, n) && n.outstanding > 0
    ensures exists i :: 0 <= i < |cs| && Waiting(cs[i])
  {
    CountNone(cs, InFlight);
    CountNone(cs, Slow);
  }

  /**
   However events interleave, a lookup whose queries are all answered in some way
   finishes and reports exactly once: each answer lowers the measure, nothing raises
   it, and an unfinished lookup is never left with nothing to wait for.
   */
  method AnswerEverything(l: Lookup)
    requires l.Running() && l.started
    modifies l
    ensures l.Running() && l.finished && l.done && l.reports == 1
    ensures GoodReport(l.candidates, l.target, l.N(), l.closest)
    ensures l.answered == EndpointsIn(l.candidates, Responded)
  {
    hide Book, GoodReport, Asked, EndpointsIn, MayFinish;
    while !l.finished
      invariant l.Running() && l.started
      decreases !l.finished, Measure(l.N())
    {
      BookIsShort(l.candidates, l.target, l.seen, l.N());
      Interfere(l);
      if !l.finished {
        BookIsShort(l.candidates, l.target, l.seen, l.N());
        SomethingIsWaitedFor(l.candidates, l.target, l.seen, l.N());
        var i: int :| 0 <= i < |l.candidates| && Waiting(l.candidates[i]);
        assert IsWaitedFor(l.candidates, l.candidates[i].endpoint);
        var reply: Reply := *;
        l.OnReply(l.candidates[i].endpoint, reply);
      }
    }
  }

  /** Any number of other events. */
  method Interfere(l: Lookup)
    requires l.Running() && l.started
    modifies l
    ensures l.Running() && l.started && Measure(l.N()) <= old(Measure(l.N()))
  {
    hide Book, GoodReport, Asked, EndpointsIn, MayFinish;
    var events: int :| events >= 0;
    for k := 0 to events
      invariant l.Running() && l.started && Measure(l.N()) <= old(Measure(l.N()))
    {
      var nowMs: int, hopCount: int := *, *;
      var node: Node := *;
      if {
        case true => l.CheckSlow(nowMs);
        case true => l.AddCandidate(node.id, node.endpoint, hopCount);
        case true => Send(l, node.endpoint, nowMs);
      }
    }
  }

  method Send(l: Lookup, endpoint: Endpoint, nowMs: int)
    requires l.Running()
    modifies l
    ensures l.Running() && l.started == old(l.started) && l.N() == old(l.N())
  {
    hide Book, GoodReport, EndpointsIn, MayFinish;
    ghost var before := l.candidates;
    l.OnSent(endpoint, nowMs);
    TimesDoNotMatter(before, l.candidates, l.target, l.seen, l.N());
  }
}
