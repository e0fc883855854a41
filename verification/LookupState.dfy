/**
 The candidate list of an iterative lookup, as plain values: how the five states
 are counted, what the sorted list means, and what it means to be finished.
 */
module LookupState {
  import opened Endpoints
  import opened NodeIds

  const K := 8
  const ALPHA := 3
  const MAX_CANDIDATES := 100
  const MAX_QUERIES := 150
  const MAX_OUTSTANDING := 6

  datatype Phase = New | InFlight | Slow | Responded | Failed

  datatype Candidate = Candidate(id: NodeId, endpoint: Endpoint, state: Phase, token: seq<Byte>, hops: int, sentAtMs: int)

  datatype Contact = Contact(id: NodeId, endpoint: Endpoint, token: seq<Byte>)

  function ContactOf(c: Candidate): (r: Contact) {
    Contact(c.id, c.endpoint, c.token)
  }

  predicate Waiting(c: Candidate) {
    c.state == InFlight || c.state == Slow
  }

  // --- Counting ------------------------------------------------------------------

  function One(c: Candidate, st: Phase): (n: nat) {
    if c.state == st then 1 else 0
  }

  function Count(cs: seq<Candidate>, st: Phase): (n: nat)
    ensures n <= |cs|
  {
    if cs == [] then 0 else Count(cs[..|cs| - 1], st) + One(cs[|cs| - 1], st)
  }

  lemma {:induction false} CountConcat(a: seq<Candidate>, b: seq<Candidate>, st: Phase)
    ensures Count(a + b, st) == Count(a, st) + Count(b, st)
  {
    if b == [] {
      assert a + b == a;
    } else {
      var n := |b| - 1;
      assert (a + b)[..|a + b| - 1] == a + b[..n];
      CountConcat(a, b[..n], st);
    }
  }

  lemma CountSingle(c: Candidate, st: Phase)
    ensures Count([c], st) == One(c, st)
  {
    assert [c][..0] == [];
  }

  lemma CountSplit(cs: seq<Candidate>, i: nat, st: Phase)
    requires i < |cs|
    ensures Count(cs, st) == Count(cs[..i], st) + One(cs[i], st) + Count(cs[i + 1..], st)
  {
    assert cs == cs[..i] + [cs[i]] + cs[i + 1..];
    CountConcat(cs[..i] + [cs[i]], cs[i + 1..], st);
    CountConcat(cs[..i], [cs[i]], st);
    CountSingle(cs[i], st);
  }

  lemma CountUpdate(cs: seq<Candidate>, i: nat, c: Candidate, st: Phase)
    requires i < |cs|
    ensures Count(cs[i := c], st) == Count(cs, st) - One(cs[i], st) + One(c, st)
  {
    var cs' := cs[i := c];
    CountSplit(cs, i, st);
    CountSplit(cs', i, st);
    assert cs'[..i] == cs[..i] && cs'[i + 1..] == cs[i + 1..];
  }

  lemma CountInsert(cs: seq<Candidate>, i: nat, c: Candidate, st: Phase)
    requires i <= |cs|
    ensures Count(Inserted(cs, i, c), st) == Count(cs, st) + One(c, st)
  {
    var cs' := Inserted(cs, i, c);
    CountSplit(cs', i, st);
    assert cs'[..i] == cs[..i] && cs'[i + 1..] == cs[i..] && cs == cs[..i] + cs[i..];
    CountConcat(cs[..i], cs[i..], st);
  }

  lemma CountErase(cs: seq<Candidate>, i: nat, st: Phase)
    requires i < |cs|
    ensures Count(Erased(cs, i), st) == Count(cs, st) - One(cs[i], st)
  {
    CountSplit(cs, i, st);
    CountConcat(cs[..i], cs[i + 1..], st);
  }

  lemma CountPrefix(cs: seq<Candidate>, i: nat, j: nat, st: Phase)
    requires i <= j <= |cs|
    ensures Count(cs[..i], st) <= Count(cs[..j], st) <= Count(cs, st)
  {
    assert cs[..j] == cs[..i] + cs[i..j] && cs == cs[..j] + cs[j..];
    CountConcat(cs[..i], cs[i..j], st);
    CountConcat(cs[..j], cs[j..], st);
  }

  lemma {:induction false} CountNone(cs: seq<Candidate>, st: Phase)
    ensures Count(cs, st) == 0 <==> forall i :: 0 <= i < |cs| ==> cs[i].state != st
  {
    if cs != [] { CountNone(cs[..|cs| - 1], st); }
  }

  lemma {:induction false} CountAll(cs: seq<Candidate>)
    ensures Count(cs, New) + Count(cs, InFlight) + Count(cs, Slow) + Count(cs, Responded) + Count(cs, Failed) == |cs|
  {
    if cs != [] { CountAll(cs[..|cs| - 1]); }
  }

  // --- The sorted list -------------------------------------------------------------

  ghost predicate Sorted(cs: seq<Candidate>, target: NodeId) {
    forall i, j :: 0 <= i < j < |cs| ==> Distance(target, cs[i].id) <= Distance(target, cs[j].id)
  }

  ghost predicate DistinctEndpoints(cs: seq<Candidate>) {
    forall i, j :: 0 <= i < j < |cs| ==> cs[i].endpoint != cs[j].endpoint
  }

  function Inserted(cs: seq<Candidate>, i: nat, c: Candidate): (r: seq<Candidate>)
    requires i <= |cs|
    ensures |r| == |cs| + 1
  {
    cs[..i] + [c] + cs[i..]
  }

  function Erased(cs: seq<Candidate>, i: nat): (r: seq<Candidate>)
    requires i < |cs|
    ensures |r| == |cs| - 1
  {
    cs[..i] + cs[i + 1..]
  }

  lemma SortedInsert(cs: seq<Candidate>, target: NodeId, i: nat, c: Candidate)
    requires Sorted(cs, target) && i <= |cs|
    requires forall k :: 0 <= k < i ==> Distance(target, cs[k].id) < Distance(target, c.id)
    requires forall k :: i <= k < |cs| ==> Distance(target, c.id) <= Distance(target, cs[k].id)
    ensures Sorted(Inserted(cs, i, c), target)
  {
    hide Distance;
    var r := Inserted(cs, i, c);
    assert forall k :: 0 <= k < |r| ==> r[k] == if k < i then cs[k] else if k == i then c else cs[k - 1];
  }

  lemma SortedErase(cs: seq<Candidate>, target: NodeId, i: nat)
    requires Sorted(cs, target) && DistinctEndpoints(cs) && i < |cs|
    ensures Sorted(Erased(cs, i), target) && DistinctEndpoints(Erased(cs, i))
  {
    hide Distance;
    var r := Erased(cs, i);
    assert forall k :: 0 <= k < |r| ==> r[k] == if k < i then cs[k] else cs[k + 1];
  }

  /** Endpoints of the candidates in a given state. */
  ghost function EndpointsIn(cs: seq<Candidate>, st: Phase): set<Endpoint> {
    set i | 0 <= i < |cs| && cs[i].state == st :: cs[i].endpoint
  }

  /** Endpoints of the candidates a query has gone out for. */
  ghost function Asked(cs: seq<Candidate>): set<Endpoint> {
    set i | 0 <= i < |cs| && cs[i].state != New :: cs[i].endpoint
  }

  // --- Bookkeeping -----------------------------------------------------------------

  datatype Counters = Counters(inFlight: int, outstanding: int, queries: int, responded: int)

  /** The counters are the counts, and both budgets are kept. */
  ghost predicate Exact(cs: seq<Candidate>, n: Counters) {
    && n.inFlight == Count(cs, InFlight) <= ALPHA
    && n.outstanding == Count(cs, InFlight) + Count(cs, Slow) <= MAX_OUTSTANDING
    && n.queries == |cs| - Count(cs, New)
    && n.responded == Count(cs, Responded)
  }

  ghost predicate Book(cs: seq<Candidate>, target: NodeId, seen: set<Endpoint>, n: Counters) {
    && Sorted(cs, target)
    && DistinctEndpoints(cs)
    && |cs| <= MAX_CANDIDATES
    && (forall i :: 0 <= i < |cs| ==> cs[i].endpoint in seen)
    && Exact(cs, n)
  }

  /** What is left to happen: each query sent, each one gone slow and each one settled lowers it. */
  function Measure(n: Counters): (m: int) {
    3 * (MAX_CANDIDATES - n.queries) + n.outstanding + n.inFlight
  }

  lemma MeasureIsNat(cs: seq<Candidate>, n: Counters)
    requires |cs| <= MAX_CANDIDATES && Exact(cs, n)
    ensures 0 <= n.inFlight <= n.outstanding <= n.queries <= |cs| && Measure(n) >= 0
    ensures n.queries < MAX_QUERIES
  {
    CountAll(cs);
  }

  // --- Finishing -------------------------------------------------------------------

  /** Nothing still waited for comes before K responders. */
  ghost predicate NoneWaitedAhead(cs: seq<Candidate>) {
    forall i :: 0 <= i < |cs| && Waiting(cs[i]) ==> Count(cs[..i], Responded) >= K
  }

  /** Every unasked candidate comes after K responders. */
  ghost predicate NoneUnaskedAhead(cs: seq<Candidate>) {
    forall i :: 0 <= i < |cs| && cs[i].state == New ==> Count(cs[..i], Responded) >= K
  }

  ghost predicate MayFinish(cs: seq<Candidate>) {
    && NoneWaitedAhead(cs)
    && (Count(cs, Responded) >= K || Count(cs, New) == 0)
  }

  /** What `step` leaves behind once it has picked its queries. */
  ghost predicate Picked(cs: seq<Candidate>, n: Counters) {
    n.inFlight == ALPHA || n.outstanding == MAX_OUTSTANDING || NoneUnaskedAhead(cs)
  }

  /** After picking, a lookup that may not finish is waiting for something. */
  lemma UnfinishedIsWaiting(cs: seq<Candidate>, n: Counters)
    requires Exact(cs, n) && Picked(cs, n) && !MayFinish(cs)
    ensures n.outstanding > 0
  {
    if n.outstanding == 0 {
      CountNone(cs, InFlight);
      CountNone(cs, Slow);
      CountNone(cs, New);
      var i :| 0 <= i < |cs| && cs[i].state == New;
      CountPrefix(cs, i, i, Responded);
      assert false;
    }
  }

  /** The first k responders, in list order. */
  function Responders(cs: seq<Candidate>, k: nat): (r: seq<Contact>)
    ensures |r| <= k
  {
    if cs == [] then []
    else
      var front, c := Responders(cs[..|cs| - 1], k), cs[|cs| - 1];
      if c.state == Responded && |front| < k then front + [ContactOf(c)] else front
  }

  ghost predicate IsResponder(cs: seq<Candidate>, x: Contact) {
    exists k :: 0 <= k < |cs| && cs[k].state == Responded && ContactOf(cs[k]) == x
  }

  /**
   The report: up to K responders, sorted by distance, and no responder left out is
   nearer than one reported. A full report has nothing in flight or slow nearer than
   its last entry, and an unasked candidate nearer than that only with a budget
   spent; a short report comes with every candidate asked and settled.
   */
  ghost predicate GoodReport(cs: seq<Candidate>, target: NodeId, n: Counters, closest: seq<Contact>) {
    && |closest| == (if Count(cs, Responded) < K then Count(cs, Responded) else K)
    && (forall i, j :: 0 <= i < j < |closest| ==>
          && closest[i].endpoint != closest[j].endpoint
          && Distance(target, closest[i].id) <= Distance(target, closest[j].id))
    && (forall i :: 0 <= i < |closest| ==> IsResponder(cs, closest[i]))
    && (forall k, i :: 0 <= k < |cs| && 0 <= i < |closest| && cs[k].state == Responded && ContactOf(cs[k]) !in closest ==>
          Distance(target, closest[i].id) <= Distance(target, cs[k].id))
    && (|closest| == K ==> forall k :: 0 <= k < |cs| && Waiting(cs[k]) ==>
          Distance(target, closest[K - 1].id) <= Distance(target, cs[k].id))
    && (|closest| == K && n.inFlight < ALPHA && n.outstanding < MAX_OUTSTANDING ==>
          forall k :: 0 <= k < |cs| && cs[k].state == New ==>
            Distance(target, closest[K - 1].id) <= Distance(target, cs[k].id))
    && (|closest| < K ==> forall k :: 0 <= k < |cs| ==> cs[k].state == Responded || cs[k].state == Failed)
  }

  /** The responders found in a prefix are a prefix of those found in all. */
  lemma {:induction false} RespondersCount(cs: seq<Candidate>, k: nat)
    ensures |Responders(cs, k)| == if Count(cs, Responded) < k then Count(cs, Responded) else k
  {
    if cs != [] { RespondersCount(cs[..|cs| - 1], k); }
  }

  lemma {:induction false} RespondersAreCandidates(cs: seq<Candidate>, k: nat, i: nat) returns (j: nat)
    requires i < |Responders(cs, k)|
    ensures j < |cs| && cs[j].state == Responded && Responders(cs, k)[i] == ContactOf(cs[j])
    ensures Count(cs[..j], Responded) == i
  {
    var n := |cs| - 1;
    RespondersCount(cs[..n], k);
    if i < |Responders(cs[..n], k)| {
      j := RespondersAreCandidates(cs[..n], k, i);
      assert cs[..n][..j] == cs[..j];
    } else {
      j := n;
    }
  }

  /** A responder with fewer than k before it is reported, at that position. */
  lemma {:induction false} ResponderReported(cs: seq<Candidate>, k: nat, j: nat)
    requires j < |cs| && cs[j].state == Responded && Count(cs[..j], Responded) < k
    ensures Count(cs[..j], Responded) < |Responders(cs, k)|
    ensures Responders(cs, k)[Count(cs[..j], Responded)] == ContactOf(cs[j])
  {
    var n := |cs| - 1;
    RespondersCount(cs[..n], k);
    if j < n {
      assert cs[..n][..j] == cs[..j];
      ResponderReported(cs[..n], k, j);
    }
  }

  /** An index with fewer responders before it lies no later. */
  lemma EarlierByCount(cs: seq<Candidate>, i: nat, j: nat)
    requires i < |cs| && j < |cs| && Count(cs[..i], Responded) < Count(cs[..j], Responded)
    ensures i < j
  {
    if j <= i { CountPrefix(cs, j, i, Responded); }
  }

  lemma ReportSorted(cs: seq<Candidate>, target: NodeId, i: nat, j: nat)
    requires Sorted(cs, target) && DistinctEndpoints(cs) && i < j < |Responders(cs, K)|
    ensures Responders(cs, K)[i].endpoint != Responders(cs, K)[j].endpoint
    ensures Distance(target, Responders(cs, K)[i].id) <= Distance(target, Responders(cs, K)[j].id)
  {
    hide Distance, Responders, Count;
    var a := RespondersAreCandidates(cs, K, i);
    var b := RespondersAreCandidates(cs, K, j);
    EarlierByCount(cs, a, b);
  }

  /** Whatever has K responders ahead of it is no nearer than the last one reported. */
  lemma BehindTheReport(cs: seq<Candidate>, target: NodeId, k: nat, i: nat)
    requires Sorted(cs, target) && k < |cs| && Count(cs[..k], Responded) >= K && i < |Responders(cs, K)|
    ensures Distance(target, Responders(cs, K)[i].id) <= Distance(target, cs[k].id)
  {
    hide Distance, Responders, Count;
    var a := RespondersAreCandidates(cs, K, i);
    EarlierByCount(cs, a, k);
  }

  /** The list at finishing time gives a good report. */
  lemma FinishingReport(cs: seq<Candidate>, target: NodeId, seen: set<Endpoint>, n: Counters)
    requires Book(cs, target, seen, n) && Picked(cs, n) && MayFinish(cs)
    ensures GoodReport(cs, target, n, Responders(cs, K))
  {
    hide Distance, Responders, Count;
    var closest := Responders(cs, K);
    RespondersCount(cs, K);
    forall i, j | 0 <= i < j < |closest|
      ensures closest[i].endpoint != closest[j].endpoint
      ensures Distance(target, closest[i].id) <= Distance(target, closest[j].id)
    {
      ReportSorted(cs, target, i, j);
    }
    forall i | 0 <= i < |closest|
      ensures IsResponder(cs, closest[i])
    {
      var k := RespondersAreCandidates(cs, K, i);
    }
    forall k, i | 0 <= k < |cs| && 0 <= i < |closest| && cs[k].state == Responded && ContactOf(cs[k]) !in closest
      ensures Distance(target, closest[i].id) <= Distance(target, cs[k].id)
    {
      if Count(cs[..k], Responded) < K { ResponderReported(cs, K, k); }
      BehindTheReport(cs, target, k, i);
    }
    if |closest| == K {
      forall k | 0 <= k < |cs| && Count(cs[..k], Responded) >= K
        ensures Distance(target, closest[K - 1].id) <= Distance(target, cs[k].id)
      {
        BehindTheReport(cs, target, k, K - 1);
      }
    } else {
      ShortReport(cs);
    }
  }

  /** In a report, distances grow strictly except between equal identifiers. */
  lemma ReportIsStrict(cs: seq<Candidate>, target: NodeId, n: Counters, closest: seq<Contact>, i: nat, j: nat)
    requires GoodReport(cs, target, n, closest) && i < j < |closest|
    ensures closest[i].id == closest[j].id || Closer(target, closest[i].id, closest[j].id)
  {
    CloserIsDistance(target, closest[i].id, closest[j].id);
  }

  lemma ShortReport(cs: seq<Candidate>)
    requires MayFinish(cs) && Count(cs, Responded) < K
    ensures forall k :: 0 <= k < |cs| ==> cs[k].state == Responded || cs[k].state == Failed
  {
    CountNone(cs, New);
    forall k | 0 <= k < |cs|
      ensures !Waiting(cs[k])
    {
      CountPrefix(cs, k, k, Responded);
    }
  }
}
