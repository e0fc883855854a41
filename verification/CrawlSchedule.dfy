/**
  Where the scan holds its references, and what every step of it keeps: five
  queues, the queries that are out, and a queue of feature checks, over a
  catalogue that may evict an entry at any time.
  */
module CrawlSchedule {
  import opened Endpoints
  import opened Options
  import Catalog

  type Key = Catalog.Key
  type State = Catalog.State

  /** Slot and generation. Within one cycle of generations the n-th allocation is
      stamped n, so a reference to one yet to come is known by its generation. */
  type Ref = Catalog.Ref

  /** The node families there is a node to ask through. */
  datatype Families = Families(has4: bool, has6: bool)

  datatype Deferred = Deferred(ref: Ref, firstContact: bool)

  datatype Status = Response | Error | Timeout | Throttled

  /** The four feature checks, in the order they are made. */
  datatype Check = Samples | Items | Peers | Unknown

  /** The four Tested flags and the attempts at the check that comes next. */
  datatype Progress = Progress(samples: bool, items: bool, peers: bool, unknown: bool, tries: nat)

  datatype Entry = Entry(
    key: Key,
    state: State,
    failures: nat,
    lastQueried: UInt32,
    answered: bool,
    // FeatureQueued, and how far the checks have come.
    queued: bool,
    progress: Progress)

  datatype Config = Config(retryDelayMs: int, revisitIntervalMs: int, silentRevisitIntervalMs: int, failuresToGiveUp: int)

  datatype Listed = Listed(endpoint: Endpoint, own: bool, routable: bool)

  const FEATURE_TRIES := 2
  const MIN_BATCH := 4
  const MAX_BATCH := 4000
  const FEATURE_SHARE_DIVISOR := 4
  const DEFERRED_SCAN_PER_TICK := 2000
  const TRIM_PER_TICK := 20000

  /** The most feature queries any one entry is ever sent. */
  const MAX_FEATURE_QUERIES := 8

  // --- Entries -----------------------------------------------------------------

  function NewEntry(key: Key): Entry {
    Entry(key, Catalog.New, 0, 0, false, false, Progress(false, false, false, false, 0))
  }

  predicate FeaturesDone(p: Progress) {
    p.samples && p.items && p.peers && p.unknown
  }

  /** How many checks have been settled. */
  function Tested(p: Progress): nat {
    (if p.samples then 1 else 0) + (if p.items then 1 else 0) + (if p.peers then 1 else 0) + if p.unknown then 1 else 0
  }

  function NextCheck(p: Progress): Check {
    if !p.samples then Samples else if !p.items then Items else if !p.peers then Peers else Unknown
  }

  function Settle(p: Progress, check: Check): Progress {
    match check
    case Samples => p.(samples := true, tries := 0)
    case Items => p.(items := true, tries := 0)
    case Peers => p.(peers := true, tries := 0)
    case Unknown => p.(unknown := true, tries := 0)
  }

  predicate IsIPv4(key: Key) {
    IsMapped(key.address)
  }

  function AgeMs(stamp: UInt32, epochMs: int, now: int): Option<int> {
    if stamp == 0 then None else Some((Catalog.StampAt(epochMs, now) - stamp) * Catalog.TICK_MS)
  }

  /** Asked long enough ago; a node never asked is as old as can be. */
  predicate Due(e: Entry, minAgeMs: int, epochMs: int, now: int) {
    minAgeMs <= 0 || AgeMs(e.lastQueried, epochMs, now).None? || AgeMs(e.lastQueried, epochMs, now).value >= minAgeMs
  }

  // --- Where references are held -----------------------------------------------

  function Count(queue: seq<Ref>, r: Ref): nat {
    multiset(queue)[r]
  }

  /** One if `r` is in hand: taken from one place and not yet in the next. */
  function InHand(hand: Option<Ref>, r: Ref): nat {
    if hand == Some(r) then 1 else 0
  }

  lemma Pushed(queue: seq<Ref>, ref: Ref)
    ensures forall r :: Count(queue + [ref], r) == Count(queue, r) + InHand(Some(ref), r)
  {}

  lemma Popped(queue: seq<Ref>)
    requires queue != []
    ensures forall r :: Count(queue, r) == Count(queue[1..], r) + InHand(Some(queue[0]), r)
  {
    assert queue == [queue[0]] + queue[1..];
  }

  function RefsOf(deferred: seq<Deferred>): (refs: seq<Ref>)
    ensures |refs| == |deferred|
  {
    seq(|deferred|, (i: nat) requires i < |deferred| => deferred[i].ref)
  }

  lemma DeferredPushed(deferred: seq<Deferred>, d: Deferred)
    ensures forall r :: Count(RefsOf(deferred + [d]), r) == Count(RefsOf(deferred), r) + InHand(Some(d.ref), r)
  {
    assert RefsOf(deferred + [d]) == RefsOf(deferred) + [d.ref];
    Pushed(RefsOf(deferred), d.ref);
  }

  lemma DeferredPopped(deferred: seq<Deferred>)
    requires deferred != []
    ensures forall r :: Count(RefsOf(deferred), r) == Count(RefsOf(deferred[1..]), r) + InHand(Some(deferred[0].ref), r)
  {
    assert RefsOf(deferred)[1..] == RefsOf(deferred[1..]);
    Popped(RefsOf(deferred));
  }

  /** The five queues and the queries that are out. */
  datatype Schedule = Schedule(
    neverAsked: seq<Ref>, retry: seq<Ref>, revisit: seq<Ref>, revisitSilent: seq<Ref>, deferred: seq<Deferred>,
    asks: set<Ref>)

  /** In how many places of the schedule `r` is. */
  function Times(s: Schedule, r: Ref): nat {
    Count(s.neverAsked, r) + Count(s.retry, r) + Count(s.revisit, r) + Count(s.revisitSilent, r)
    + Count(RefsOf(s.deferred), r) + if r in s.asks then 1 else 0
  }

  // --- What every step keeps ---------------------------------------------------

  type Live = map<Ref, Entry>

  predicate HasNode(key: Key, nodes: Families) {
    if IsIPv4(key) then nodes.has4 else nodes.has6
  }

  /** How often an entry belongs in the schedule. */
  function Share(e: Entry): nat {
    if e.state.Unroutable? then 0 else 1
  }

  /** Every entry that can be reached is in exactly one place, once, and no other
      is anywhere. Only references that were handed out are held. */
  ghost predicate Scheduled(live: Live, s: Schedule, hand: Option<Ref>, allocations: nat) {
    && (forall r :: r in live ==> Times(s, r) + InHand(hand, r) == Share(live[r]))
    && (forall r: Ref :: r.generation > allocations ==> Times(s, r) + InHand(hand, r) == 0)
  }

  /** FeatureQueued says exactly that the entry is once in the feature queue or
      has one feature query out, and that query is for its next check. */
  ghost predicate Queued(live: Live, features: seq<Ref>, idle: Option<Ref>, checks: map<Ref, Check>, allocations: nat) {
    && (forall r :: r in live ==>
          Count(features, r) + InHand(idle, r) + (if r in checks then 1 else 0) == if live[r].queued then 1 else 0)
    && (forall r :: r in live && r in checks ==> !FeaturesDone(live[r].progress) && checks[r] == NextCheck(live[r].progress))
    && (forall r: Ref :: r.generation > allocations ==> Count(features, r) + InHand(idle, r) == 0 && r !in checks)
  }

  /** Feature queries sent, including the one that is out, against what they
      settled. */
  ghost predicate Metered(live: Live, spent: multiset<Ref>, checks: map<Ref, Check>, allocations: nat) {
    && (forall r :: r in live ==> live[r].progress.tries < FEATURE_TRIES)
    && (forall r :: r in live ==> spent[r] <= FEATURE_TRIES * Tested(live[r].progress) + live[r].progress.tries)
    && (forall r :: r in checks ==> spent[r] < MAX_FEATURE_QUERIES)
    && (forall r :: spent[r] <= MAX_FEATURE_QUERIES)
    && (forall r: Ref :: r.generation > allocations ==> spent[r] == 0)
  }

  /** One entry per address and port, each of a family there is a node for. */
  ghost predicate Catalogued(live: Live, allocations: nat, nodes: Families) {
    && (forall r :: r in live ==> r.generation <= allocations)
    && (forall r :: r in live ==> HasNode(live[r].key, nodes))
    && (forall r, s :: r in live && s in live && live[r].key == live[s].key ==> r == s)
  }

  /** An edit that does not concern the feature checks. */
  predicate SameChecks(e: Entry, f: Entry) {
    e.key == f.key && e.queued == f.queued && e.progress == f.progress
  }

  /** Entries may go; none comes, and the feature checks of the rest stay. */
  ghost predicate Shrinks(was: Live, now: Live) {
    forall r :: r in now ==> r in was && SameChecks(was[r], now[r])
  }

  /** Which entries can be reached does not change. */
  ghost predicate SameRoutes(was: Live, now: Live) {
    forall r :: r in now ==>
      r in was && was[r].key == now[r].key && (was[r].state.Unroutable? <==> now[r].state.Unroutable?)
  }

  ghost predicate SameKeys(was: Live, now: Live) {
    forall r :: r in now ==> r in was && was[r].key == now[r].key
  }

  lemma ShrinkKeepsSchedule(was: Live, now: Live, s: Schedule, hand: Option<Ref>, allocations: nat)
    requires SameRoutes(was, now) && Scheduled(was, s, hand, allocations)
    ensures Scheduled(now, s, hand, allocations)
  {
    hide Times;
  }

  lemma EditShrinks(live: Live, ref: Ref, e: Entry)
    requires ref in live && e.key == live[ref].key
    ensures SameKeys(live, live[ref := e])
    ensures SameChecks(live[ref], e) ==> Shrinks(live, live[ref := e])
    ensures (e.state.Unroutable? <==> live[ref].state.Unroutable?) ==> SameRoutes(live, live[ref := e])
  {}

  lemma ShrinkKeepsChecks(
    was: Live, now: Live, features: seq<Ref>, idle: Option<Ref>, checks: map<Ref, Check>, spent: multiset<Ref>,
    allocations: nat)
    requires Shrinks(was, now) && Queued(was, features, idle, checks, allocations) && Metered(was, spent, checks, allocations)
    ensures Queued(now, features, idle, checks, allocations) && Metered(now, spent, checks, allocations)
  {
    hide Count;
  }

  lemma ShrinkKeepsCatalogue(was: Live, now: Live, allocations: nat, nodes: Families)
    requires SameKeys(was, now) && Catalogued(was, allocations, nodes)
    ensures Catalogued(now, allocations, nodes)
  {
    hide HasNode;
  }

  /** Nothing at the head of `queue` is due. */
  predicate NoneDue(live: Live, queue: seq<Ref>, minAgeMs: int, epochMs: int, now: int) {
    queue != [] ==> queue[0] in live && !Due(live[queue[0]], minAgeMs, epochMs, now)
  }

  /** Of the references in `was` only stale ones are missing from `rest` and
      `taken`, and none is added. */
  ghost predicate Took(live: Live, was: seq<Ref>, rest: seq<Ref>, taken: Option<Ref>) {
    && (forall r :: Count(rest, r) + InHand(taken, r) <= Count(was, r))
    && (forall r :: r in live ==> Count(rest, r) + InHand(taken, r) == Count(was, r))
  }

  /** No reference appears from nowhere and no living one is lost. */
  ghost predicate Refiled(live: Live, s: Schedule, hand: Option<Ref>, s': Schedule, hand': Option<Ref>) {
    && (forall r :: Times(s', r) + InHand(hand', r) <= Times(s, r) + InHand(hand, r))
    && (forall r :: r in live ==> Times(s', r) + InHand(hand', r) == Times(s, r) + InHand(hand, r))
  }

  lemma RefilingKeeps(live: Live, s: Schedule, hand: Option<Ref>, s': Schedule, hand': Option<Ref>, allocations: nat)
    requires Refiled(live, s, hand, s', hand') && Scheduled(live, s, hand, allocations)
    ensures Scheduled(live, s', hand', allocations)
  {
    hide Times;
  }

  function Either(a: Option<Ref>, b: Option<Ref>): Option<Ref> {
    if a.Some? then a else b
  }

  /** Taking from the four queues in turn until there is one. */
  lemma TakingRefiles(live: Live, s: Schedule, s': Schedule, a: Option<Ref>, b: Option<Ref>, c: Option<Ref>, d: Option<Ref>)
    requires s'.deferred == s.deferred && s'.asks == s.asks
    requires Took(live, s.neverAsked, s'.neverAsked, a) && Took(live, s.retry, s'.retry, b)
    requires Took(live, s.revisit, s'.revisit, c) && Took(live, s.revisitSilent, s'.revisitSilent, d)
    requires (a.Some? ==> b.None?) && (Either(a, b).Some? ==> c.None?) && (Either(a, Either(b, c)).Some? ==> d.None?)
    ensures Refiled(live, s, None, s', Either(a, Either(b, Either(c, d))))
  {
    var taken := Either(a, Either(b, Either(c, d)));
    forall r
      ensures Times(s', r) + InHand(taken, r) <= Times(s, r)
      ensures r in live ==> Times(s', r) + InHand(taken, r) == Times(s, r)
    {
      hide Count, RefsOf;
      assert InHand(taken, r) == InHand(a, r) + InHand(b, r) + InHand(c, r) + InHand(d, r);
    }
  }

  // --- Steps of the schedule ----------------------------------------------------

  lemma AskKeeps(live: Live, s: Schedule, ref: Ref, allocations: nat)
    requires Scheduled(live, s, Some(ref), allocations) && ref in live
    ensures ref !in s.asks && Scheduled(live, s.(asks := s.asks + {ref}), None, allocations)
  {
    hide Count;
    var s' := s.(asks := s.asks + {ref});
    assert Times(s, ref) == 0;
    forall r ensures Times(s', r) == Times(s, r) + InHand(Some(ref), r) {}
  }

  lemma AnswerKeeps(live: Live, s: Schedule, ref: Ref, allocations: nat)
    requires Scheduled(live, s, None, allocations) && ref in s.asks
    ensures Scheduled(live, s.(asks := s.asks - {ref}), Some(ref), allocations)
    ensures ref in live ==> !live[ref].state.Unroutable?
    ensures |s.asks - {ref}| == |s.asks| - 1
  {
    hide Count;
    var s' := s.(asks := s.asks - {ref});
    assert Times(s, ref) >= 1;
    forall r ensures Times(s, r) == Times(s', r) + InHand(Some(ref), r) {}
  }

  lemma StaleKeeps(live: Live, s: Schedule, ref: Ref, allocations: nat)
    requires Scheduled(live, s, Some(ref), allocations) && ref !in live
    ensures Scheduled(live, s, None, allocations)
  {
    hide Times;
  }

  /** What would be dropped from the rounds is never found in them. */
  lemma NeverDropped(live: Live, s: Schedule, ref: Ref, allocations: nat, nodes: Families)
    requires Scheduled(live, s, Some(ref), allocations) && Catalogued(live, allocations, nodes) && ref in live
    ensures !live[ref].state.Unroutable? && HasNode(live[ref].key, nodes)
  {
    assert InHand(Some(ref), ref) == 1;
  }

  lemma PushKeeps(live: Live, s: Schedule, ref: Ref, first: bool, allocations: nat)
    requires Scheduled(live, s, Some(ref), allocations)
    ensures Scheduled(live, s.(neverAsked := s.neverAsked + [ref]), None, allocations)
    ensures Scheduled(live, s.(retry := s.retry + [ref]), None, allocations)
    ensures Scheduled(live, s.(revisit := s.revisit + [ref]), None, allocations)
    ensures Scheduled(live, s.(revisitSilent := s.revisitSilent + [ref]), None, allocations)
    ensures Scheduled(live, s.(deferred := s.deferred + [Deferred(ref, first)]), None, allocations)
  {
    hide Count, RefsOf;
    Pushed(s.neverAsked, ref);
    Pushed(s.retry, ref);
    Pushed(s.revisit, ref);
    Pushed(s.revisitSilent, ref);
    DeferredPushed(s.deferred, Deferred(ref, first));
  }

  lemma PopDeferredKeeps(live: Live, s: Schedule, allocations: nat)
    requires Scheduled(live, s, None, allocations) && s.deferred != []
    ensures Scheduled(live, s.(deferred := s.deferred[1..]), Some(s.deferred[0].ref), allocations)
  {
    hide Count, RefsOf;
    DeferredPopped(s.deferred);
  }

  // --- Steps of the feature checks ------------------------------------------------

  lemma PopFeatureKeeps(live: Live, features: seq<Ref>, checks: map<Ref, Check>, allocations: nat)
    requires Queued(live, features, None, checks, allocations) && features != []
    ensures Queued(live, features[1..], Some(features[0]), checks, allocations)
    ensures features[0] in live ==> live[features[0]].queued
  {
    hide Count;
    Popped(features);
  }

  lemma PushFeatureKeeps(live: Live, features: seq<Ref>, ref: Ref, checks: map<Ref, Check>, allocations: nat)
    requires Queued(live, features, Some(ref), checks, allocations)
    ensures Queued(live, features + [ref], None, checks, allocations)
  {
    hide Count;
    Pushed(features, ref);
  }

  lemma StaleFeatureKeeps(live: Live, features: seq<Ref>, ref: Ref, checks: map<Ref, Check>, allocations: nat)
    requires Queued(live, features, Some(ref), checks, allocations) && ref !in live
    ensures Queued(live, features, None, checks, allocations)
  {}

  /** Setting or clearing FeatureQueued as a reference comes in or goes. */
  lemma FlagKeeps(live: Live, features: seq<Ref>, ref: Ref, checks: map<Ref, Check>, allocations: nat)
    requires ref in live && ref.generation <= allocations
    ensures Queued(live, features, None, checks, allocations) && !live[ref].queued ==>
              Queued(live[ref := live[ref].(queued := true)], features, Some(ref), checks, allocations)
    ensures Queued(live, features, Some(ref), checks, allocations) ==>
              Queued(live[ref := live[ref].(queued := false)], features, None, checks, allocations)
  {
    hide Count;
  }

  /** One more feature query goes out, and it is within what the entry may get. */
  lemma AskFeatureKeeps(
    live: Live, features: seq<Ref>, ref: Ref, checks: map<Ref, Check>, spent: multiset<Ref>, allocations: nat)
    requires Queued(live, features, Some(ref), checks, allocations) && Metered(live, spent, checks, allocations)
    requires ref in live && !FeaturesDone(live[ref].progress)
    ensures ref !in checks
    ensures Queued(live, features, None, checks[ref := NextCheck(live[ref].progress)], allocations)
    ensures Metered(live, spent, checks[ref := NextCheck(live[ref].progress)], allocations)
  {
    hide Count;
    assert InHand(Some(ref), ref) == 1;
  }

  /** What an answer to a feature query settles. */
  function AfterCheck(p: Progress, check: Check, status: Status): Progress {
    match status
    case Throttled => p
    case Timeout =>
      var tries := if p.tries + 1 > 3 then 3 else p.tries + 1;
      if tries >= FEATURE_TRIES then Settle(p, check) else p.(tries := tries)
    case Response => Settle(p, check)
    case Error => Settle(p, check)
  }

  /** The answer to a query that counts settles its check, or costs one of the
      tries for it. */
  lemma AfterCheckPays(p: Progress, status: Status)
    requires !FeaturesDone(p) && p.tries < FEATURE_TRIES
    ensures var p' := AfterCheck(p, NextCheck(p), status);
            && p'.tries < FEATURE_TRIES
            && FEATURE_TRIES * Tested(p') + p'.tries
               >= FEATURE_TRIES * Tested(p) + p.tries + if status.Throttled? then 0 else 1
  {
    hide FeaturesDone, Settle, NextCheck;
    SettlesOne(p);
    TriesAreApart(p, if p.tries + 1 > 3 then 3 else p.tries + 1);
  }

  lemma SettlesOne(p: Progress)
    requires !FeaturesDone(p)
    ensures Settle(p, NextCheck(p)).tries == 0 && Tested(Settle(p, NextCheck(p))) == Tested(p) + 1
  {}

  lemma TriesAreApart(p: Progress, tries: nat)
    ensures Tested(p.(tries := tries)) == Tested(p)
  {}

  function Charged(spent: multiset<Ref>, ref: Ref, status: Status): multiset<Ref> {
    if status.Throttled? then spent else spent + multiset{ref}
  }

  lemma AnswerFeatureKeeps(
    live: Live, features: seq<Ref>, ref: Ref, checks: map<Ref, Check>, spent: multiset<Ref>, allocations: nat,
    status: Status)
    requires Queued(live, features, None, checks, allocations) && Metered(live, spent, checks, allocations)
    requires ref in checks && ref in live
    ensures live[ref].queued
    ensures var live' := live[ref := live[ref].(progress := AfterCheck(live[ref].progress, checks[ref], status))];
            && Queued(live', features, Some(ref), checks - {ref}, allocations)
            && Metered(live', Charged(spent, ref, status), checks - {ref}, allocations)
  {
    hide Count;
    AfterCheckPays(live[ref].progress, status);
    var live' := live[ref := live[ref].(progress := AfterCheck(live[ref].progress, checks[ref], status))];
    forall r | r in live' && r in checks - {ref}
      ensures !FeaturesDone(live'[r].progress) && checks[r] == NextCheck(live'[r].progress)
    {
      assert live'[r] == live[r];
    }
  }

  lemma StaleAnswerKeeps(
    live: Live, features: seq<Ref>, ref: Ref, checks: map<Ref, Check>, spent: multiset<Ref>, allocations: nat,
    status: Status)
    requires Queued(live, features, None, checks, allocations) && Metered(live, spent, checks, allocations)
    requires ref in checks && ref !in live
    ensures Queued(live, features, None, checks - {ref}, allocations)
    ensures Metered(live, Charged(spent, ref, status), checks - {ref}, allocations)
  {
    hide Count;
  }

  lemma FewerChecks(checks: map<Ref, Check>, ref: Ref)
    ensures ref in checks ==> |checks - {ref}| == |checks| - 1
  {
    if ref in checks {
      assert (checks - {ref}).Keys == checks.Keys - {ref};
    }
  }

  // --- Steps of the catalogue -------------------------------------------------------

  /** A new entry is a reference in hand, and nothing else changes. */
  lemma AllocateKeeps(live: Live, s: Schedule, allocations: nat, ref: Ref, key: Key)
    requires Scheduled(live, s, None, allocations) && ref.generation == allocations + 1
    ensures Scheduled(live[ref := NewEntry(key)], s, Some(ref), allocations + 1)
  {
    hide Count;
    assert Times(s, ref) + InHand(None, ref) == 0;
  }

  lemma AllocateKeepsChecks(
    live: Live, features: seq<Ref>, checks: map<Ref, Check>, spent: multiset<Ref>, allocations: nat, ref: Ref, key: Key)
    requires Queued(live, features, None, checks, allocations) && Metered(live, spent, checks, allocations)
    requires ref.generation == allocations + 1
    ensures var live' := live[ref := NewEntry(key)];
            && Queued(live', features, None, checks, allocations + 1) && Metered(live', spent, checks, allocations + 1)
  {
    hide Count;
  }

  lemma AllocateKeepsCatalogue(live: Live, allocations: nat, ref: Ref, key: Key, nodes: Families)
    requires Catalogued(live, allocations, nodes) && HasNode(key, nodes)
    requires ref.generation == allocations + 1 && forall r :: r in live ==> live[r].key != key
    ensures Catalogued(live[ref := NewEntry(key)], allocations + 1, nodes)
  {
    hide HasNode;
  }

  /** An address that cannot be reached leaves the schedule. */
  lemma UnroutableKeeps(live: Live, s: Schedule, ref: Ref, allocations: nat)
    requires Scheduled(live, s, Some(ref), allocations) && ref in live && !live[ref].state.Unroutable?
    ensures Scheduled(live[ref := live[ref].(state := Catalog.Unroutable)], s, None, allocations)
  {
    hide Times;
    assert InHand(Some(ref), ref) == 1;
  }

  /** Whether there is a node to ask an endpoint of this family through. */
  predicate CanAsk(e: Endpoint, nodes: Families) {
    if e.V4? then nodes.has4 else nodes.has6
  }

  /** An entry is asked through the family it was listed in, since an address is in one family however it was spelled. */
  lemma ListedHasNode(e: Endpoint, nodes: Families)
    ensures HasNode(Catalog.KeyOf(e), nodes) <==> CanAsk(e, nodes)
  {
    Catalog.FiledAsMapped(e);
  }

  // --- The entries behind the references ---------------------------------------------

  /** The crawler's entries are exactly the catalogue's, by current reference. */
  ghost predicate Linked(live: Live, entries: seq<Catalog.Entry>) {
    && (forall r: Ref :: r in live <==> Catalog.Current(entries, r))
    && (forall r: Ref :: r in live ==> live[r].key == entries[r.slot].key && live[r].state == entries[r.slot].state)
  }

  /** The entries whose references are still current. */
  function Surviving(live: Live, entries: seq<Catalog.Entry>): (r: Live)
    ensures forall x :: x in r <==> x in live && Catalog.Current(entries, x)
    ensures forall x :: x in r ==> r[x] == live[x]
  {
    map x | x in live && Catalog.Current(entries, x) :: live[x]
  }

  lemma SurvivingShrinks(live: Live, entries: seq<Catalog.Entry>)
    ensures var rest := Surviving(live, entries); SameKeys(live, rest) && Shrinks(live, rest) && SameRoutes(live, rest)
  {}

  /** Entries that went took their references with them. */
  lemma LinkedAfterTrim(live: Live, was: seq<Catalog.Entry>, now: seq<Catalog.Entry>)
    requires Linked(live, was)
    requires forall s :: s in Catalog.Live(now) ==> s in Catalog.Live(was) && now[s] == was[s]
    ensures Linked(Surviving(live, now), now)
  {
    forall r: Ref | Catalog.Current(now, r)
      ensures r in live && now[r.slot] == was[r.slot]
    {
      assert r.slot in Catalog.Live(now);
    }
  }

  /** A new entry, in a new slot or in that of one that went. */
  lemma LinkedAfterUpsert(
    live: Live, was: seq<Catalog.Entry>, now: seq<Catalog.Entry>, slot: UInt32, victim: int, key: Key, generation: UInt32,
    stamp: UInt32, allocations: nat)
    requires Linked(live, was) && slot < |now| && now[slot] == Catalog.Fresh(key, generation, stamp)
    requires Catalog.Live(now) == Catalog.Live(was) + {slot as int}
    requires forall s :: s in Catalog.Live(was) && s != victim ==> s != slot && s in Catalog.Live(now) && now[s] == was[s]
    requires victim in Catalog.Live(was) ==> victim == slot
    requires generation == allocations + 1 && forall r :: r in live ==> r.generation <= allocations
    ensures Catalog.Ref(slot, generation) !in live
    ensures Linked(Surviving(live, now)[Catalog.Ref(slot, generation) := NewEntry(key)], now)
  {
    var ref := Catalog.Ref(slot, generation);
    forall r: Ref | Catalog.Current(now, r) && r != ref
      ensures r in live && now[r.slot] == was[r.slot]
    {
      assert r.slot in Catalog.Live(now);
      assert r.slot != slot;
    }
  }

  /** Two entries with one key are one: the catalogue has each key once. */
  lemma LinkedFind(live: Live, entries: seq<Catalog.Entry>, key: Key, slot: int)
    requires Linked(live, entries) && Catalog.KeysDistinct(entries) && |entries| <= Catalog.MAX_CAP
    ensures key !in Catalog.IndexOf(entries) <==> forall r :: r in live ==> live[r].key != key
    ensures key in Catalog.IndexOf(entries) && slot == Catalog.IndexOf(entries)[key] ==>
              && 0 <= slot < |entries|
              && (var ref := Catalog.Ref(slot, entries[slot].generation); ref in live && live[ref].key == key)
  {
    Catalog.FindIsExact(entries, key);
    forall r | r in live
      ensures r.slot as int in Catalog.Live(entries)
    {
    }
    forall s | s in Catalog.Live(entries)
      ensures Catalog.Ref(s, entries[s].generation) in live
    {
      assert Catalog.Current(entries, Catalog.Ref(s, entries[s].generation));
    }
  }

  lemma LinkedEdit(live: Live, entries: seq<Catalog.Entry>, ref: Ref, e: Entry, entries': seq<Catalog.Entry>)
    requires Linked(live, entries) && ref in live && e.key == live[ref].key
    requires ref.slot < |entries| && entries' == entries[ref.slot := entries[ref.slot].(state := e.state)]
    ensures Linked(live[ref := e], entries')
  {
    forall r: Ref | r in live && r != ref
      ensures r.slot != ref.slot
    {
    }
  }
}
