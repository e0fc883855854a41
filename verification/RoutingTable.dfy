/**
 The BEP 5 routing table: buckets by shared prefix length with our own ID, of which
 only the last is ever split, each with a cache of replacements.
 */
module Routing {
  import opened Endpoints
  import opened NodeIds

  const K := 8
  const GOOD_WINDOW_MS := 900_000
  const BAD_FAIL_COUNT := 2
  const REMOVE_FAIL_COUNT := 5

  datatype RoutingNode = RoutingNode(
    id: NodeId,
    endpoint: Endpoint,
    version: seq<Byte>,
    firstSeen: int,
    lastResponse: int,
    lastQuery: int,
    lastPingSent: int,
    failCount: int,
    rttMs: int)

  datatype Standing = Good | Questionable | Bad

  datatype Bucket = Bucket(nodes: seq<RoutingNode>, replacements: seq<RoutingNode>, lastChanged: int)

  datatype InsertResult = Added | Updated | Replaced | Cached | Rejected

  function StateOf(n: RoutingNode, now: int): (s: Standing) {
    if n.failCount >= BAD_FAIL_COUNT then Bad
    else if n.failCount == 0 && n.lastResponse > 0
            && (now - n.lastResponse < GOOD_WINDOW_MS || (n.lastQuery > 0 && now - n.lastQuery < GOOD_WINDOW_MS)) then Good
    else Questionable
  }

  // --- Well-formed tables --------------------------------------------------------------

  ghost function Ids(nodes: seq<RoutingNode>): (b: multiset<NodeId>) {
    if nodes == [] then multiset{} else Ids(nodes[..|nodes| - 1]) + multiset{nodes[|nodes| - 1].id}
  }

  /** The identifiers a bucket holds, nodes and replacements together. */
  ghost function Bag(b: Bucket): (r: multiset<NodeId>) {
    Ids(b.nodes) + Ids(b.replacements)
  }

  /** An identifier belongs in bucket i: never our own, and sharing i bits with it, or at least i in the last bucket. */
  ghost predicate Belongs(self: NodeId, id: NodeId, i: int, isLast: bool) {
    id != self && if isLast then PrefixLength(self, id) >= i else PrefixLength(self, id) == i
  }

  ghost predicate BucketOk(self: NodeId, b: Bucket, i: int, isLast: bool) {
    && |b.nodes| <= K && |b.replacements| <= K
    && (forall x :: Bag(b)[x] <= 1)
    && (forall x :: x in Bag(b) ==> Belongs(self, x, i, isLast))
  }

  ghost predicate TableOk(self: NodeId, buckets: seq<Bucket>) {
    && 1 <= |buckets| <= BITS
    && forall i :: 0 <= i < |buckets| ==> BucketOk(self, buckets[i], i, i == |buckets| - 1)
  }

  ghost predicate Holds(buckets: seq<Bucket>, id: NodeId) {
    exists i :: 0 <= i < |buckets| && id in Bag(buckets[i])
  }

  function IndexFor(self: NodeId, buckets: seq<Bucket>, id: NodeId): (i: int)
    requires |buckets| > 0
    ensures 0 <= i < |buckets|
  {
    var p := PrefixLength(self, id);
    if p < |buckets| - 1 then p else |buckets| - 1
  }

  /** An identifier can only be in its own bucket, and there at most once, as node or as replacement. */
  lemma EachIdOnce(self: NodeId, buckets: seq<Bucket>, id: NodeId, i: nat)
    requires TableOk(self, buckets) && i < |buckets| && id in Bag(buckets[i])
    ensures i == IndexFor(self, buckets, id) && Bag(buckets[i])[id] == 1 && id != self
    ensures forall j :: 0 <= j < |buckets| && j != i ==> id !in Bag(buckets[j])
  {
    hide PrefixLength, Bag;
    assert BucketOk(self, buckets[i], i, i == |buckets| - 1);
    forall j | 0 <= j < |buckets| && id in Bag(buckets[j])
      ensures j == i
    {
      assert BucketOk(self, buckets[j], j, j == |buckets| - 1);
    }
  }

  // --- Bags ------------------------------------------------------------------------------

  lemma IdsPush(nodes: seq<RoutingNode>, n: RoutingNode)
    ensures Ids(nodes + [n]) == Ids(nodes) + multiset{n.id}
  {
    assert (nodes + [n])[..|nodes|] == nodes;
  }

  lemma {:induction false} IdsJoin(a: seq<RoutingNode>, b: seq<RoutingNode>)
    ensures Ids(a + b) == Ids(a) + Ids(b)
  {
    if b == [] {
      assert a + b == a;
    } else {
      var n := |b| - 1;
      assert (a + b)[..|a + b| - 1] == a + b[..n];
      IdsJoin(a, b[..n]);
    }
  }

  lemma IdsSplit(nodes: seq<RoutingNode>, j: nat)
    requires j < |nodes|
    ensures Ids(nodes) == Ids(nodes[..j]) + multiset{nodes[j].id} + Ids(nodes[j + 1..])
  {
    hide Ids;
    assert nodes == nodes[..j] + [nodes[j]] + nodes[j + 1..];
    IdsJoin(nodes[..j] + [nodes[j]], nodes[j + 1..]);
    IdsPush(nodes[..j], nodes[j]);
  }

  lemma IdsUpdate(nodes: seq<RoutingNode>, j: nat, n: RoutingNode)
    requires j < |nodes|
    ensures Ids(nodes[j := n]) == Ids(nodes) - multiset{nodes[j].id} + multiset{n.id}
    ensures nodes[j].id in Ids(nodes)
  {
    hide Ids;
    var r := nodes[j := n];
    IdsSplit(nodes, j);
    IdsSplit(r, j);
    assert r[..j] == nodes[..j] && r[j + 1..] == nodes[j + 1..];
  }

  lemma IdsErase(nodes: seq<RoutingNode>, j: nat)
    requires j < |nodes|
    ensures Ids(nodes[..j] + nodes[j + 1..]) == Ids(nodes) - multiset{nodes[j].id}
  {
    hide Ids;
    IdsSplit(nodes, j);
    IdsJoin(nodes[..j], nodes[j + 1..]);
  }

  lemma {:induction false} IdsHas(nodes: seq<RoutingNode>, id: NodeId)
    ensures id in Ids(nodes) <==> exists j :: 0 <= j < |nodes| && nodes[j].id == id
  {
    if nodes != [] { IdsHas(nodes[..|nodes| - 1], id); }
  }

  /** Fewer identifiers, or one more that belongs and was not there: still a good bucket. */
  lemma BagShrinks(self: NodeId, b: Bucket, b': Bucket, i: int, isLast: bool)
    requires BucketOk(self, b, i, isLast) && Bag(b') <= Bag(b) && |b'.nodes| <= K && |b'.replacements| <= K
    ensures BucketOk(self, b', i, isLast)
  {
    hide Bag, Belongs;
    forall x
      ensures Bag(b')[x] <= 1 && (x in Bag(b') ==> Belongs(self, x, i, isLast))
    {
      assert Bag(b')[x] <= Bag(b)[x];
    }
  }

  lemma BagGrows(self: NodeId, b: Bucket, b': Bucket, i: int, isLast: bool, id: NodeId)
    requires BucketOk(self, b, i, isLast) && Bag(b') <= Bag(b) + multiset{id} && |b'.nodes| <= K && |b'.replacements| <= K
    requires id !in Bag(b) && Belongs(self, id, i, isLast)
    ensures BucketOk(self, b', i, isLast)
  {
    hide Bag, Belongs;
    forall x
      ensures Bag(b')[x] <= 1 && (x in Bag(b') ==> Belongs(self, x, i, isLast))
    {
      assert Bag(b')[x] <= (Bag(b) + multiset{id})[x];
    }
  }

  lemma OneBucketChanged(self: NodeId, buckets: seq<Bucket>, i: nat, b: Bucket)
    requires TableOk(self, buckets) && i < |buckets| && BucketOk(self, b, i, i == |buckets| - 1)
    ensures TableOk(self, buckets[i := b])
  {
    hide BucketOk;
  }

  // --- Filtering -------------------------------------------------------------------------

  /** std::remove_if, keeping order. */
  function Keep(nodes: seq<RoutingNode>, wanted: RoutingNode -> bool): (r: seq<RoutingNode>)
    ensures |r| <= |nodes|
    ensures forall n :: n in r <==> n in nodes && wanted(n)
  {
    if nodes == [] then []
    else
      var front, n := Keep(nodes[..|nodes| - 1], wanted), nodes[|nodes| - 1];
      if wanted(n) then front + [n] else front
  }

  lemma {:induction false} KeepIds(nodes: seq<RoutingNode>, wanted: RoutingNode -> bool)
    ensures Ids(Keep(nodes, wanted)) <= Ids(nodes)
  {
    if nodes != [] {
      var n := |nodes| - 1;
      KeepIds(nodes[..n], wanted);
      IdsPush(Keep(nodes[..n], wanted), nodes[n]);
    }
  }

  /** Whether a node of bucket `last` moves out when that bucket is split. */
  predicate Moves(self: NodeId, n: RoutingNode, last: int) {
    PrefixLength(self, n.id) > last
  }

  /** One side of std::stable_partition. */
  function Side(self: NodeId, nodes: seq<RoutingNode>, last: int, moving: bool): (r: seq<RoutingNode>)
    ensures |r| <= |nodes|
    ensures forall n :: n in r <==> n in nodes && Moves(self, n, last) == moving
  {
    if nodes == [] then []
    else
      var front, n := Side(self, nodes[..|nodes| - 1], last, moving), nodes[|nodes| - 1];
      if Moves(self, n, last) == moving then front + [n] else front
  }

  /** The two sides together are what was there: nothing is lost or made. */
  lemma {:induction false} SidesConserve(self: NodeId, nodes: seq<RoutingNode>, last: int)
    ensures multiset(Side(self, nodes, last, false)) + multiset(Side(self, nodes, last, true)) == multiset(nodes)
  {
    hide Moves;
    if nodes != [] {
      var k, n := |nodes| - 1, nodes[|nodes| - 1];
      SidesConserve(self, nodes[..k], last);
      assert nodes == nodes[..k] + [n];
      CountPush(nodes[..k], n);
      CountPush(Side(self, nodes[..k], last, Moves(self, n, last)), n);
    }
  }

  lemma CountPush(nodes: seq<RoutingNode>, n: RoutingNode)
    ensures multiset(nodes + [n]) == multiset(nodes) + multiset{n}
  {
  }

  lemma {:induction false} SideIds(self: NodeId, nodes: seq<RoutingNode>, last: int)
    ensures Ids(Side(self, nodes, last, false)) + Ids(Side(self, nodes, last, true)) == Ids(nodes)
  {
    hide Moves;
    if nodes != [] {
      var k, n := |nodes| - 1, nodes[|nodes| - 1];
      SideIds(self, nodes[..k], last);
      IdsPush(Side(self, nodes[..k], last, Moves(self, n, last)), n);
    }
  }

  /** Every identifier on a side is on the right side. */
  lemma SideBelongs(self: NodeId, nodes: seq<RoutingNode>, last: int, moving: bool, id: NodeId)
    requires id in Ids(Side(self, nodes, last, moving))
    ensures (PrefixLength(self, id) > last) == moving
  {
    var side := Side(self, nodes, last, moving);
    IdsHas(side, id);
    var j :| 0 <= j < |side| && side[j].id == id;
    assert side[j] in side;
  }

  function SplitOld(self: NodeId, b: Bucket, last: int): (r: Bucket) {
    b.(nodes := Side(self, b.nodes, last, false), replacements := Side(self, b.replacements, last, false))
  }

  function SplitFresh(self: NodeId, b: Bucket, last: int): (r: Bucket) {
    b.(nodes := Side(self, b.nodes, last, true), replacements := Side(self, b.replacements, last, true))
  }

  lemma SplitOk(self: NodeId, b: Bucket, last: int)
    requires BucketOk(self, b, last, true)
    ensures BucketOk(self, SplitOld(self, b, last), last, false)
    ensures BucketOk(self, SplitFresh(self, b, last), last + 1, true)
    ensures Bag(SplitOld(self, b, last)) + Bag(SplitFresh(self, b, last)) == Bag(b)
  {
    hide Ids, Side, PrefixLength;
    SideIds(self, b.nodes, last);
    SideIds(self, b.replacements, last);
    var old', fresh' := SplitOld(self, b, last), SplitFresh(self, b, last);
    forall x
      ensures Bag(old')[x] <= 1 && Bag(fresh')[x] <= 1
      ensures x in Bag(old') ==> Belongs(self, x, last, false)
      ensures x in Bag(fresh') ==> Belongs(self, x, last + 1, true)
    {
      assert Bag(old')[x] + Bag(fresh')[x] == Bag(b)[x];
      if x in Ids(old'.nodes) { SideBelongs(self, b.nodes, last, false, x); }
      if x in Ids(old'.replacements) { SideBelongs(self, b.replacements, last, false, x); }
      if x in Ids(fresh'.nodes) { SideBelongs(self, b.nodes, last, true, x); }
      if x in Ids(fresh'.replacements) { SideBelongs(self, b.replacements, last, true, x); }
    }
  }

  function SplitTable(self: NodeId, buckets: seq<Bucket>): (r: seq<Bucket>)
    requires |buckets| > 0
  {
    var last := |buckets| - 1;
    buckets[last := SplitOld(self, buckets[last], last)] + [SplitFresh(self, buckets[last], last)]
  }

  /** Splitting keeps the table well formed and every node and replacement in it. */
  lemma SplitKeeps(self: NodeId, buckets: seq<Bucket>)
    requires TableOk(self, buckets) && |buckets| < BITS
    ensures TableOk(self, SplitTable(self, buckets))
    ensures forall id :: Holds(SplitTable(self, buckets), id) <==> Holds(buckets, id)
  {
    hide BucketOk, Bag, SplitOld, SplitFresh;
    var last, r := |buckets| - 1, SplitTable(self, buckets);
    SplitOk(self, buckets[last], last);
    forall id
      ensures Holds(r, id) <==> Holds(buckets, id)
    {
      if Holds(buckets, id) {
        var i :| 0 <= i < |buckets| && id in Bag(buckets[i]);
        assert i < last ==> r[i] == buckets[i];
        assert id in Bag(r[i]) || id in Bag(r[last + 1]);
      }
      if Holds(r, id) {
        var i :| 0 <= i < |r| && id in Bag(r[i]);
        assert id in Bag(buckets[if i < last then i else last]);
      }
    }
  }

  // --- Who stays ---------------------------------------------------------------------------

  /** n is a node of the table, with all its particulars. */
  ghost predicate Present(buckets: seq<Bucket>, n: RoutingNode) {
    exists i :: 0 <= i < |buckets| && n in buckets[i].nodes
  }

  /** n is somebody's replacement. */
  ghost predicate Spare(buckets: seq<Bucket>, n: RoutingNode) {
    exists i :: 0 <= i < |buckets| && n in buckets[i].replacements
  }

  lemma SplitPresent(self: NodeId, buckets: seq<Bucket>, n: RoutingNode)
    requires |buckets| > 0
    ensures Present(SplitTable(self, buckets), n) <==> Present(buckets, n)
  {
    hide Moves;
    var last, r := |buckets| - 1, SplitTable(self, buckets);
    if Present(buckets, n) {
      var i :| 0 <= i < |buckets| && n in buckets[i].nodes;
      assert i < last ==> n in r[i].nodes;
      assert i == last ==> n in r[last].nodes || n in r[last + 1].nodes;
    }
    if Present(r, n) {
      var i :| 0 <= i < |r| && n in r[i].nodes;
      assert n in buckets[if i < last then i else last].nodes;
    }
  }

  predicate CanSplit(buckets: seq<Bucket>, index: int) {
    index == |buckets| - 1 && |buckets| < BITS
  }

  predicate HasBad(nodes: seq<RoutingNode>) {
    exists j :: 0 <= j < |nodes| && nodes[j].failCount >= BAD_FAIL_COUNT
  }

  /** A node with this ID could enter without displacing one that is still good. */
  predicate Room(self: NodeId, buckets: seq<Bucket>, id: NodeId)
    requires |buckets| > 0
  {
    var i := IndexFor(self, buckets, id);
    |buckets[i].nodes| < K || CanSplit(buckets, i) || HasBad(buckets[i].nodes)
  }

  /** The bucket for this ID is full and will not be split. */
  predicate Stuck(self: NodeId, buckets: seq<Bucket>, id: NodeId)
    requires |buckets| > 0
  {
    var i := IndexFor(self, buckets, id);
    |buckets[i].nodes| >= K && !CanSplit(buckets, i)
  }

  /** What is stuck stays so: only the last bucket is ever split. */
  lemma SplitKeepsStuck(self: NodeId, buckets: seq<Bucket>, id: NodeId)
    requires 0 < |buckets| < BITS && Stuck(self, buckets, id)
    ensures |SplitTable(self, buckets)| > 0 && Stuck(self, SplitTable(self, buckets), id)
  {
    hide PrefixLength, SplitOld, SplitFresh;
  }

  lemma BucketKeepsStuck(self: NodeId, buckets: seq<Bucket>, i: nat, b: Bucket, id: NodeId)
    requires i < |buckets| && |b.nodes| >= |buckets[i].nodes| && Stuck(self, buckets, id)
    ensures Stuck(self, buckets[i := b], id)
  {
    hide PrefixLength;
  }

  /** Another of `others` has the address of n, and is still in the table unless it was bad. */
  ghost predicate Rivalled(table: seq<Bucket>, n: RoutingNode, others: seq<RoutingNode>) {
    exists m :: m in others && m != n && HostOf(m.endpoint) == HostOf(n.endpoint)
                && (Present(table, m) || m.failCount >= BAD_FAIL_COUNT)
  }

  /** A good node that made it into the table, or could not because its bucket is full or,
      where `onePerIp` holds for its address, because another has that address. */
  ghost predicate SettledIn(self: NodeId, table: seq<Bucket>, n: RoutingNode, onePerIp: Host -> bool,
                            others: seq<RoutingNode>)
    requires |table| > 0
  {
    && n.failCount < BAD_FAIL_COUNT
    && (Present(table, n) || Stuck(self, table, n.id) || (onePerIp(HostOf(n.endpoint)) && Rivalled(table, n, others)))
  }

  /** What one insertion does for good nodes: those settled stay settled, and so
      is the new one. */
  lemma Settling(self: NodeId, before: seq<Bucket>, after: seq<Bucket>, node: RoutingNode, r: InsertResult,
                 onePerIp: Host -> bool, others: seq<RoutingNode>)
    requires |before| > 0 && |after| > 0
    requires forall n :: Present(before, n) && (r != Replaced || n.failCount < BAD_FAIL_COUNT) ==> Present(after, n)
    requires forall id :: Stuck(self, before, id) ==> Stuck(self, after, id)
    requires || Present(after, node) || Stuck(self, after, node.id) || node.id == self
             || (onePerIp(HostOf(node.endpoint)) && Rivalled(after, node, others))
    ensures forall n, o :: SettledIn(self, before, n, onePerIp, o) ==> SettledIn(self, after, n, onePerIp, o)
    ensures node.id != self && node.failCount < BAD_FAIL_COUNT ==> SettledIn(self, after, node, onePerIp, others)
  {
    hide Present, Stuck;
    forall n, o | Rivalled(before, n, o)
      ensures Rivalled(after, n, o)
    {
      var m :| m in o && m != n && HostOf(m.endpoint) == HostOf(n.endpoint)
               && (Present(before, m) || m.failCount >= BAD_FAIL_COUNT);
      assert Present(after, m) || m.failCount >= BAD_FAIL_COUNT;
    }
  }

  /** An address that is taken is taken by another node. */
  lemma TakenByAnother(buckets: seq<Bucket>, node: RoutingNode, others: seq<RoutingNode>)
    requires !Holds(buckets, node.id) && (forall n :: Present(buckets, n) ==> n in others)
    requires exists n :: Present(buckets, n) && HostOf(n.endpoint) == HostOf(node.endpoint)
    ensures Rivalled(buckets, node, others)
  {
    hide Present, Holds;
    UnknownNode(buckets, node.id);
    var m :| Present(buckets, m) && HostOf(m.endpoint) == HostOf(node.endpoint);
    assert m in others && m != node;
  }

  /** A cache of at most K that gained a node: whoever is missing was heard from
      no later than any that stayed. */
  predicate CacheKept(before: seq<RoutingNode>, after: seq<RoutingNode>) {
    && (forall n :: n in after ==> n in before)
    && (forall n :: n in before && n !in after ==>
          |after| == K && forall m :: m in after ==> n.lastResponse <= m.lastResponse)
  }

  lemma NotInBucket(self: NodeId, buckets: seq<Bucket>, id: NodeId)
    requires TableOk(self, buckets) && !Holds(buckets, id) && id != self
    ensures var i := IndexFor(self, buckets, id);
            id !in Bag(buckets[i]) && Belongs(self, id, i, i == |buckets| - 1)
  {
    hide PrefixLength, Bag;
    var i := IndexFor(self, buckets, id);
    assert id !in Bag(buckets[i]);
  }

  /** After changing one bucket, who is held: what was, less that bucket's losses, plus its gains. */
  lemma HoldsAfter(buckets: seq<Bucket>, i: nat, b: Bucket, id: NodeId)
    requires i < |buckets| && Bag(b) <= Bag(buckets[i]) + multiset{id}
    ensures forall x :: Holds(buckets[i := b], x) ==> Holds(buckets, x) || x == id
  {
    hide Bag;
    var r := buckets[i := b];
    forall x | Holds(r, x)
      ensures Holds(buckets, x) || x == id
    {
      var k :| 0 <= k < |r| && x in Bag(r[k]);
      assert x in Bag(buckets[k]) || x == id;
    }
  }

  lemma PresentAfter(buckets: seq<Bucket>, i: nat, b: Bucket)
    requires i < |buckets|
    ensures forall n :: Present(buckets[i := b], n) ==> Present(buckets, n) || n in b.nodes
    ensures forall n :: Present(buckets, n) && (n in buckets[i].nodes ==> n in b.nodes) ==> Present(buckets[i := b], n)
    ensures forall n :: n in b.nodes ==> Present(buckets[i := b], n)
    ensures forall n :: n in buckets[i].nodes ==> Present(buckets, n)
  {
    var r := buckets[i := b];
    forall n | Present(r, n)
      ensures Present(buckets, n) || n in b.nodes
    {
      var k :| 0 <= k < |r| && n in r[k].nodes;
      assert k != i ==> n in buckets[k].nodes;
    }
    forall n | Present(buckets, n) && (n in buckets[i].nodes ==> n in b.nodes)
      ensures Present(r, n)
    {
      var k :| 0 <= k < |buckets| && n in buckets[k].nodes;
      assert n in r[k].nodes;
    }
    forall n | n in b.nodes
      ensures Present(r, n)
    {
      assert n in r[i].nodes;
    }
  }

  class RoutingTable {
    var self: NodeId
    const restrictOnePerIp: bool
    const isLocal: Host -> bool
    const isValid: Endpoint -> bool
    var buckets: seq<Bucket>

    ghost predicate Valid()
      reads this
    {
      TableOk(self, buckets)
    }

    constructor (self: NodeId, restrictOnePerIp: bool, isLocal: Host -> bool, isValid: Endpoint -> bool)
      ensures Valid() && this.self == self && buckets == [Bucket([], [], 0)]
    {
      this.self, this.restrictOnePerIp, this.isLocal, this.isValid := self, restrictOnePerIp, isLocal, isValid;
      buckets := [Bucket([], [], 0)];
    }

    method IpInUse(host: Host) returns (r: bool)
      ensures r <==> exists n :: Present(buckets, n) && HostOf(n.endpoint) == host
    {
      for i := 0 to |buckets|
        invariant forall k, j :: 0 <= k < i && 0 <= j < |buckets[k].nodes| ==> HostOf(buckets[k].nodes[j].endpoint) != host
      {
        for j := 0 to |buckets[i].nodes|
          invariant forall k :: 0 <= k < j ==> HostOf(buckets[i].nodes[k].endpoint) != host
        {
          if HostOf(buckets[i].nodes[j].endpoint) == host {
            assert Present(buckets, buckets[i].nodes[j]);
            return true;
          }
        }
      }
      return false;
    }

    /** The first bad node of a bucket, or -1. */
    method FindBad(nodes: seq<RoutingNode>, now: int) returns (j: int)
      ensures -1 <= j < |nodes| && (j == -1 <==> !HasBad(nodes)) && (j >= 0 ==> nodes[j].failCount >= BAD_FAIL_COUNT)
    {
      for k := 0 to |nodes|
        invariant forall m :: 0 <= m < k ==> nodes[m].failCount < BAD_FAIL_COUNT
      {
        if StateOf(nodes[k], now) == Bad {
          return k;
        }
      }
      return -1;
    }

    /** Position of the replacement heard from longest ago. */
    method Oldest(cache: seq<RoutingNode>) returns (j: int)
      requires cache != []
      ensures 0 <= j < |cache| && forall k :: 0 <= k < |cache| ==> cache[j].lastResponse <= cache[k].lastResponse
    {
      j := 0;
      for k := 1 to |cache|
        invariant 0 <= j < k && forall m :: 0 <= m < k ==> cache[j].lastResponse <= cache[m].lastResponse
      {
        if cache[k].lastResponse < cache[j].lastResponse {
          j := k;
        }
      }
    }

    /** Changes one bucket, which stays good. */
    method SetBucket(i: int, b: Bucket)
      requires Valid() && 0 <= i < |buckets| && BucketOk(self, b, i, i == |buckets| - 1)
      modifies `buckets
      ensures Valid() && buckets == old(buckets)[i := b]
    {
      hide BucketOk;
      OneBucketChanged(self, buckets, i, b);
      buckets := buckets[i := b];
    }

    method Split()
      requires Valid() && |buckets| < BITS
      modifies `buckets
      ensures Valid() && buckets == SplitTable(self, old(buckets))
    {
      hide BucketOk, SplitOld, SplitFresh;
      SplitKeeps(self, buckets);
      var last := |buckets| - 1;
      var b := buckets[last];
      buckets := buckets[last := SplitOld(self, b, last)];
      buckets := buckets + [SplitFresh(self, b, last)];
    }

    /** What an insertion may change: it makes room by splitting, and gives up a bad node at most. */
    ghost predicate Inserted(before: seq<Bucket>, node: RoutingNode, r: InsertResult)
      requires |before| > 0
      reads this
    {
      && (forall id :: Holds(buckets, id) ==> Holds(before, id) || id == node.id)
      && (forall n :: Present(before, n) && (r != Replaced || n.failCount < BAD_FAIL_COUNT) ==> Present(buckets, n))
      && (forall n :: Present(buckets, n) ==> Present(before, n) || n == node)
      && (r == Added || r == Replaced ==> Present(buckets, node) && Room(self, before, node.id))
      && (r == Rejected ==> buckets == before)
      && r != Updated
      && |buckets| > 0
      && (forall id :: Stuck(self, before, id) ==> Stuck(self, buckets, id))
      // Cached only where there was no place to be had.
      && (r == Cached ==>
            var b := buckets[IndexFor(self, buckets, node.id)];
            && Stuck(self, buckets, node.id) && !HasBad(b.nodes)
            && (node !in b.replacements ==>
                  |b.replacements| == K && forall m :: m in b.replacements ==> node.lastResponse <= m.lastResponse))
    }

    /** Whether one node per address turns this endpoint away. */
    ghost predicate AddressTaken(before: seq<Bucket>, endpoint: Endpoint)
      reads this
    {
      && restrictOnePerIp && !isLocal(HostOf(endpoint))
      && exists n :: Present(before, n) && HostOf(n.endpoint) == HostOf(endpoint)
    }

    /** Puts a node not yet known into its bucket, splitting while that helps. */
    method Insert(node: RoutingNode, now: int) returns (r: InsertResult)
      requires Valid() && !Holds(buckets, node.id)
      modifies `buckets
      ensures Valid() && Inserted(old(buckets), node, r)
      ensures r == Rejected <==> node.id == self || AddressTaken(old(buckets), node.endpoint)
    {
      hide BucketOk, PrefixLength, Bag, SplitTable, Present, Stuck, Holds;
      if node.id == self {
        return Rejected;
      }
      if restrictOnePerIp && !isLocal(HostOf(node.endpoint)) {
        var used := IpInUse(HostOf(node.endpoint));
        if used {
          return Rejected;
        }
      }
      MakeSpace(node.id);
      r := Place(node, now);
    }

    /** Splits until the node's bucket has room or cannot be split; at most 160 times. */
    method MakeSpace(id: NodeId)
      requires Valid() && id != self && !Holds(buckets, id)
      modifies `buckets
      ensures Valid() && !Holds(buckets, id)
      ensures forall x :: Holds(buckets, x) <==> Holds(old(buckets), x)
      ensures forall n :: Present(buckets, n) <==> Present(old(buckets), n)
      ensures buckets == old(buckets) || Room(self, old(buckets), id)
      ensures forall x :: Stuck(self, old(buckets), x) ==> Stuck(self, buckets, x)
      ensures var i := IndexFor(self, buckets, id); |buckets[i].nodes| < K || !CanSplit(buckets, i)
    {
      hide BucketOk, PrefixLength, Bag, SplitTable, Present, Holds, Stuck;
      while true
        invariant Valid() && !Holds(buckets, id)
        invariant forall x :: Holds(buckets, x) <==> Holds(old(buckets), x)
        invariant forall n :: Present(buckets, n) <==> Present(old(buckets), n)
        invariant buckets == old(buckets) || Room(self, old(buckets), id)
        invariant forall x :: Stuck(self, old(buckets), x) ==> Stuck(self, buckets, x)
        decreases BITS - |buckets|
      {
        var i := IndexFor(self, buckets, id);
        if |buckets[i].nodes| < K || !CanSplit(buckets, i) {
          return;
        }
        ghost var before := buckets;
        SplitKeeps(self, buckets);
        forall n
          ensures Present(SplitTable(self, buckets), n) <==> Present(buckets, n)
        {
          SplitPresent(self, buckets, n);
        }
        forall x | Stuck(self, buckets, x)
          ensures Stuck(self, SplitTable(self, buckets), x)
        {
          SplitKeepsStuck(self, buckets, x);
        }
        SplitGrows(self, buckets);
        Split();
      }
    }

    method Place(node: RoutingNode, now: int) returns (r: InsertResult)
      requires Valid() && !Holds(buckets, node.id) && node.id != self
      requires var i := IndexFor(self, buckets, node.id); |buckets[i].nodes| < K || !CanSplit(buckets, i)
      modifies `buckets
      ensures Valid() && r in {Added, Replaced, Cached} && Inserted(old(buckets), node, r)
    {
      hide BucketOk, PrefixLength, Bag, Present, Holds, Belongs, Stuck;
      var i := IndexFor(self, buckets, node.id);
      var b := buckets[i];
      StuckHere(self, buckets, node.id);
      NotInBucket(self, buckets, node.id);
      BucketSizes(self, b, i, i == |buckets| - 1);
      var b';
      b', r := Fill(b, node, now);
      BagGrows(self, b, b', i, i == |buckets| - 1, node.id);
      HoldsAfter(buckets, i, b', node.id);
      PresentAfter(buckets, i, b');
      forall x | Stuck(self, buckets, x)
        ensures Stuck(self, buckets[i := b'], x)
      {
        BucketKeepsStuck(self, buckets, i, b', x);
      }
      SetBucket(i, b');
    }

    /** The bucket with the node in a free place, in a bad node's place or in the
        cache. */
    method Fill(b: Bucket, node: RoutingNode, now: int) returns (b': Bucket, r: InsertResult)
      requires |b.nodes| <= K && |b.replacements| <= K
      ensures Bag(b') <= Bag(b) + multiset{node.id} && |b'.nodes| <= K && |b'.replacements| <= K
      ensures r == if |b.nodes| < K then Added else if HasBad(b.nodes) then Replaced else Cached
      ensures forall n :: n in b.nodes && (r != Replaced || n.failCount < BAD_FAIL_COUNT) ==> n in b'.nodes
      ensures forall n :: n in b'.nodes ==> n in b.nodes || n == node
      ensures r != Cached ==> node in b'.nodes
      ensures |b'.nodes| >= |b.nodes|
      ensures r == Cached ==> b'.nodes == b.nodes && CacheKept(b.replacements + [node], b'.replacements)
    {
      hide Bag, CacheKept;
      if |b.nodes| < K {
        b' := b.(nodes := b.nodes + [node], lastChanged := now);
        r := Added;
        PushBag(b, b', node);
      } else {
        var j := FindBad(b.nodes, now);
        if j != -1 {
          b' := b.(nodes := b.nodes[j := node], lastChanged := now);
          r := Replaced;
          ReplaceBag(b, b', j, node);
        } else {
          var cache := AddToCache(b.replacements, node);
          b' := b.(replacements := cache);
          r := Cached;
          CacheBag(b, b', node);
        }
      }
      PlacedNode(b, b', node, r);
    }

    /** The cache keeps the K heard from most recently. */
    method AddToCache(cache: seq<RoutingNode>, node: RoutingNode) returns (r: seq<RoutingNode>)
      requires |cache| <= K
      ensures |r| <= K && Ids(r) <= Ids(cache) + multiset{node.id}
      ensures CacheKept(cache + [node], r)
    {
      hide Ids;
      r := cache + [node];
      IdsPush(cache, node);
      if |r| > K {
        var j := Oldest(r);
        IdsErase(r, j);
        OldestGoes(r, j);
        r := r[..j] + r[j + 1..];
      }
    }

    // --- Events -------------------------------------------------------------------------

    /** The first node with this endpoint, bucket by bucket; -1 when there is none. */
    method Locate(endpoint: Endpoint) returns (i: int, j: int)
      ensures i == -1 ==> forall n :: Present(buckets, n) ==> n.endpoint != endpoint
      ensures i != -1 ==> 0 <= i < |buckets| && 0 <= j < |buckets[i].nodes| && buckets[i].nodes[j].endpoint == endpoint
    {
      for k := 0 to |buckets|
        invariant forall b, m :: 0 <= b < k && 0 <= m < |buckets[b].nodes| ==> buckets[b].nodes[m].endpoint != endpoint
      {
        for m := 0 to |buckets[k].nodes|
          invariant forall x :: 0 <= x < m ==> buckets[k].nodes[x].endpoint != endpoint
        {
          if buckets[k].nodes[m].endpoint == endpoint {
            return k, m;
          }
        }
      }
      return -1, -1;
    }

    /** Rewrites one node's particulars, but not its identifier. */
    method EditNode(i: int, j: int, n: RoutingNode, changed: int)
      requires Valid() && 0 <= i < |buckets| && 0 <= j < |buckets[i].nodes| && n.id == buckets[i].nodes[j].id
      modifies `buckets
      ensures Valid() && Present(buckets, n) && |buckets| == |old(buckets)|
      ensures forall id :: Holds(buckets, id) ==> Holds(old(buckets), id)
      ensures Swapped(old(buckets), buckets, old(buckets)[i].nodes[j], n)
      ensures n in buckets[i].nodes && forall k :: 0 <= k < |buckets| ==> buckets[k].replacements == old(buckets)[k].replacements
    {
      hide BucketOk, Bag, Present, Holds;
      var b := buckets[i];
      var b' := b.(nodes := b.nodes[j := n], lastChanged := changed);
      EditBag(b, b', j, n);
      BucketSizes(self, b, i, i == |buckets| - 1);
      BagShrinks(self, b, b', i, i == |buckets| - 1);
      HoldsAfter(buckets, i, b', n.id);
      InBag(buckets, i, j);
      PresentAfter(buckets, i, b');
      EditedNodes(b.nodes, j, n);
      forall m | Present(buckets, m) && m != b.nodes[j]
        ensures Present(buckets[i := b'], m)
      {
        assert m in buckets[i].nodes ==> m in b'.nodes;
      }
      SetBucket(i, b');
      OnlyNode(self, buckets, n);
      SwapIs(old(buckets), buckets, b.nodes[j], n);
    }

    /** Removes a bucket's nodes at this endpoint. */
    method DropEndpoint(i: int, endpoint: Endpoint)
      requires Valid() && 0 <= i < |buckets|
      modifies `buckets
      ensures Valid() && |buckets| == |old(buckets)|
      ensures forall id :: Holds(buckets, id) ==> Holds(old(buckets), id)
      ensures forall n :: Present(old(buckets), n) && n.endpoint != endpoint ==> Present(buckets, n)
      ensures forall n :: Present(buckets, n) ==> Present(old(buckets), n)
      ensures NoneAt(buckets[i].nodes, endpoint)
      ensures forall k :: 0 <= k < |buckets| && k != i ==> buckets[k] == old(buckets)[k]
    {
      hide BucketOk, Bag, Present, Holds;
      var b := buckets[i];
      var wanted := (n: RoutingNode) => n.endpoint != endpoint;
      var b' := b.(nodes := Keep(b.nodes, wanted));
      KeepBag(b, b', wanted);
      BucketSizes(self, b, i, i == |buckets| - 1);
      BagShrinks(self, b, b', i, i == |buckets| - 1);
      HoldsLess(buckets, i, b');
      PresentAfter(buckets, i, b');
      forall m | Present(buckets, m) && m.endpoint != endpoint
        ensures Present(buckets[i := b'], m)
      {
        assert m in buckets[i].nodes ==> m in b'.nodes;
      }
      SetBucket(i, b');
    }

    /** Removes cached copies, everywhere, that share the endpoint or, if given, the identifier. */
    method DropCached(endpoint: Endpoint, id: NodeId, byId: bool)
      requires Valid()
      modifies `buckets
      ensures Valid() && |buckets| == |old(buckets)|
      ensures forall x :: Holds(buckets, x) ==> Holds(old(buckets), x)
      ensures forall k :: 0 <= k < |buckets| ==> buckets[k].nodes == old(buckets)[k].nodes
      ensures byId ==> forall k :: 0 <= k < |buckets| ==> id !in Ids(buckets[k].replacements)
      ensures forall k :: 0 <= k < |buckets| ==> NoneAt(buckets[k].replacements, endpoint)
    {
      hide BucketOk, Bag, Holds, Ids, NoneAt;
      for k := 0 to |buckets|
        invariant Valid() && |buckets| == |old(buckets)|
        invariant forall x :: Holds(buckets, x) ==> Holds(old(buckets), x)
        invariant forall m :: 0 <= m < |buckets| ==> buckets[m].nodes == old(buckets)[m].nodes
        invariant byId ==> forall m :: 0 <= m < k ==> id !in Ids(buckets[m].replacements)
        invariant forall m :: 0 <= m < k ==> NoneAt(buckets[m].replacements, endpoint)
      {
        DropCachedIn(k, endpoint, id, byId);
      }
    }

    method DropCachedIn(k: int, endpoint: Endpoint, id: NodeId, byId: bool)
      requires Valid() && 0 <= k < |buckets|
      modifies `buckets
      ensures Valid() && |buckets| == |old(buckets)|
      ensures forall x :: Holds(buckets, x) ==> Holds(old(buckets), x)
      ensures forall m :: 0 <= m < |buckets| && m != k ==> buckets[m] == old(buckets)[m]
      ensures buckets[k].nodes == old(buckets)[k].nodes && (byId ==> id !in Ids(buckets[k].replacements))
      ensures NoneAt(buckets[k].replacements, endpoint)
    {
      hide BucketOk, Bag, Holds, Ids, Keep;
      var b := buckets[k];
      var wanted := (n: RoutingNode) => n.endpoint != endpoint && !(byId && n.id == id);
      var b' := b.(replacements := Keep(b.replacements, wanted));
      KeepCacheBag(b, b', wanted);
      if byId {
        NotKept(b.replacements, wanted, id);
      }
      BucketSizes(self, b, k, k == |buckets| - 1);
      BagShrinks(self, b, b', k, k == |buckets| - 1);
      HoldsLess(buckets, k, b');
      SetBucket(k, b');
    }

    predicate WouldAccept(id: NodeId)
      requires |buckets| > 0
      reads this
    {
      && id != self
      && (forall j :: 0 <= j < |buckets[IndexFor(self, buckets, id)].nodes| ==>
            buckets[IndexFor(self, buckets, id)].nodes[j].id != id)
      && Room(self, buckets, id)
    }

    /** A node met for the first time. */
    function Met(id: NodeId, endpoint: Endpoint, version: seq<Byte>, rttMs: int, now: int): RoutingNode {
      RoutingNode(id, endpoint, version, now, now, 0, 0, 0, rttMs)
    }

    /** A known node that answered: round-trip times are smoothed, a version once seen is kept. */
    function Refreshed(n: RoutingNode, version: seq<Byte>, rttMs: int, now: int): RoutingNode {
      var rtt := if rttMs < 0 then n.rttMs else if n.rttMs < 0 then rttMs else (n.rttMs * 3 + rttMs) / 4;
      n.(lastResponse := now, failCount := 0, rttMs := rtt, version := if version == [] then n.version else version)
    }

    /** A node that had stopped answering and now answers from elsewhere. */
    function Rehomed(n: RoutingNode, endpoint: Endpoint, version: seq<Byte>, rttMs: int, now: int): RoutingNode {
      n.(endpoint := endpoint, lastResponse := now, failCount := 0, rttMs := rttMs, version := version)
    }

    /** There was no place for a node with this ID. */
    ghost predicate NoPlace(id: NodeId)
      requires |buckets| > 0
      reads this
    {
      Stuck(self, buckets, id) && !HasBad(buckets[IndexFor(self, buckets, id)].nodes)
    }

    /** A node answered: it is refreshed, re-homed, inserted, cached or turned away. */
    method HeardFrom(id: NodeId, endpoint: Endpoint, version: seq<Byte>, rttMs: int, now: int) returns (r: InsertResult)
      requires Valid()
      modifies `buckets
      ensures Valid()
      ensures r in {Added, Replaced} ==> Present(buckets, Met(id, endpoint, version, rttMs, now))
      ensures r == Updated ==>
                || (exists n :: Present(old(buckets), n) && n.id == id && n.endpoint == endpoint
                                && Present(buckets, Refreshed(n, version, rttMs, now)))
                || (exists n :: Present(old(buckets), n) && n.id == id && n.failCount >= BAD_FAIL_COUNT
                                && Present(buckets, Rehomed(n, endpoint, version, rttMs, now)))
      ensures r == Cached ==> NoPlace(id)
      ensures forall x :: Holds(buckets, x) ==> Holds(old(buckets), x) || x == id
      ensures forall n :: Present(old(buckets), n) && n.endpoint != endpoint && n.id != id && n.failCount < BAD_FAIL_COUNT ==>
                Present(buckets, n)
      ensures id == self || !isValid(endpoint) ==> r == Rejected && buckets == old(buckets)
      // The same ID from elsewhere does not displace a node that still answers.
      ensures forall n :: Present(old(buckets), n) && n.id == id && n.endpoint != endpoint && n.failCount < BAD_FAIL_COUNT ==>
                r == Rejected && Present(buckets, n)
      ensures r == Rejected ==>
                || id == self || !isValid(endpoint) || GoodNode(old(buckets), id)
                || AddressTaken(old(buckets), endpoint)
      // For a node heard of for the first time that is exact.
      ensures (forall n :: Present(old(buckets), n) ==> n.endpoint != endpoint && n.id != id) ==>
                (r == Rejected <==> id == self || !isValid(endpoint) || AddressTaken(old(buckets), endpoint))
      ensures (r == Added || r == Replaced) && (forall n :: Present(old(buckets), n) ==> n.endpoint != endpoint && n.id != id) ==>
                old(WouldAccept(id))
    {
      hide BucketOk, Bag, Present, Holds, Room;
      if id == self || !isValid(endpoint) {
        return Rejected;
      }
      var i, j := Locate(endpoint);
      if i != -1 {
        var n := buckets[i].nodes[j];
        HasNode(buckets, i, j);
        OnlyNode(self, buckets, n);
        if n.id == id {
          EditNode(i, j, Refreshed(n, version, rttMs, now), now);
          return Updated;
        }
        DropEndpoint(i, endpoint);
      }
      r := Meet(id, endpoint, version, rttMs, now);
    }

    /** The second half: nobody at this endpoint goes by another identifier any more. */
    method Meet(id: NodeId, endpoint: Endpoint, version: seq<Byte>, rttMs: int, now: int)
      returns (r: InsertResult)
      requires Valid() && id != self
      modifies `buckets
      ensures Valid()
      ensures r in {Added, Replaced} ==> Present(buckets, Met(id, endpoint, version, rttMs, now))
      ensures r == Updated ==> exists n :: Present(old(buckets), n) && n.id == id && n.failCount >= BAD_FAIL_COUNT
                                           && Present(buckets, Rehomed(n, endpoint, version, rttMs, now))
      ensures r == Cached ==> NoPlace(id)
      ensures forall x :: Holds(buckets, x) ==> Holds(old(buckets), x) || x == id
      ensures forall n :: Present(old(buckets), n) && n.id != id && n.failCount < BAD_FAIL_COUNT ==> Present(buckets, n)
      ensures forall n :: Present(old(buckets), n) && n.id == id && n.failCount < BAD_FAIL_COUNT ==>
                r == Rejected && Present(buckets, n)
      // Turned away for nothing else than that, or for its address.
      ensures r == Rejected <==> GoodNode(old(buckets), id) || (!NodeWith(old(buckets), id) && AddressTaken(old(buckets), endpoint))
      ensures r == Added || r == Replaced ==> old(WouldAccept(id))
    {
      hide BucketOk, Bag, Present, Holds, Room, PrefixLength;
      var i := IndexFor(self, buckets, id);
      var j := FindId(buckets[i].nodes, id);
      if j != -1 {
        var n := buckets[i].nodes[j];
        HasNode(buckets, i, j);
        OnlyNode(self, buckets, n);
        if StateOf(n, now) != Bad {
          return Rejected;
        }
        EditNode(i, j, Rehomed(n, endpoint, version, rttMs, now), now);
        return Updated;
      }
      DropCached(endpoint, id, true);
      IsUnknown(self, buckets, id);
      UnknownNode(buckets, id);
      SameNodes(old(buckets), buckets);
      SameRoom(self, old(buckets), buckets, id);
      r := Insert(Met(id, endpoint, version, rttMs, now), now);
    }

    method FindId(nodes: seq<RoutingNode>, id: NodeId) returns (j: int)
      ensures -1 <= j < |nodes| && (j == -1 ==> forall k :: 0 <= k < |nodes| ==> nodes[k].id != id)
      ensures j >= 0 ==> nodes[j].id == id
    {
      for k := 0 to |nodes|
        invariant forall m :: 0 <= m < k ==> nodes[m].id != id
      {
        if nodes[k].id == id {
          return k;
        }
      }
      return -1;
    }

    /** A node we know sent us a query: exactly its last query changes. */
    method QueriedBy(id: NodeId, endpoint: Endpoint, now: int) returns (known: bool, ghost n: RoutingNode)
      requires Valid()
      modifies `buckets
      ensures Valid() && (!known ==> unchanged(this))
      ensures !known ==> (forall m :: Present(buckets, m) ==> m.endpoint != endpoint)
                         || (Present(buckets, n) && n.endpoint == endpoint && n.id != id)
      ensures known ==> Present(old(buckets), n) && n.id == id && n.endpoint == endpoint
      ensures known ==> Swapped(old(buckets), buckets, n, n.(lastQuery := now))
      ensures forall x :: Holds(buckets, x) ==> Holds(old(buckets), x)
    {
      hide BucketOk, Bag, Present, Holds, Swapped;
      var i, j := Locate(endpoint);
      n := RoutingNode(id, endpoint, [], 0, 0, 0, 0, 0, 0);
      if i == -1 {
        return false, n;
      }
      HasNode(buckets, i, j);
      n := buckets[i].nodes[j];
      if buckets[i].nodes[j].id != id {
        return false, n;
      }
      EditNode(i, j, buckets[i].nodes[j].(lastQuery := now), buckets[i].lastChanged);
      return true, n;
    }

    /** A query timed out: the node is marked, and once bad gives way to a replacement or, in the end, to none. */
    method Failed(endpoint: Endpoint, now: int) returns (ghost i: int, ghost j: int)
      requires Valid()
      modifies `buckets
      ensures Valid() && |buckets| == |old(buckets)|
      // Not a node: it is no longer a replacement either.
      ensures i == -1 ==>
                && (forall n :: Present(old(buckets), n) ==> n.endpoint != endpoint)
                && (forall k :: 0 <= k < |buckets| ==> NoneAt(buckets[k].replacements, endpoint))
      ensures i != -1 ==> 0 <= i < |buckets| && 0 <= j < |old(buckets)[i].nodes| && old(buckets)[i].nodes[j].endpoint == endpoint
      ensures i != -1 ==> AfterFailure(old(buckets), buckets, i, j)
      ensures forall x :: Holds(buckets, x) ==> Holds(old(buckets), x)
      ensures forall n :: Present(old(buckets), n) && n.endpoint != endpoint ==> Present(buckets, n)
    {
      hide BucketOk, Bag, Present, Holds, PrefixLength;
      var k, m := Locate(endpoint);
      i, j := k, m;
      if k == -1 {
        DropCached(endpoint, self, false);
        SameNodes(old(buckets), buckets);
        return;
      }
      var n := buckets[k].nodes[m];
      n := n.(failCount := n.failCount + 1);
      var b := buckets[k];
      if StateOf(n, now) != Bad {
        EditNode(k, m, n, b.lastChanged);
      } else if b.replacements != [] {
        var best := Newest(b.replacements);
        Promote(k, m, best, now);
      } else {
        EditNode(k, m, n, b.lastChanged);
        if n.failCount >= REMOVE_FAIL_COUNT {
          ghost var mid := buckets;
          DropEndpoint(k, endpoint);
          RemovedIs(self, old(buckets), mid, buckets, k, b.nodes[m], n);
        }
      }
    }

    method Newest(cache: seq<RoutingNode>) returns (j: int)
      requires cache != []
      ensures 0 <= j < |cache| && forall k :: 0 <= k < |cache| ==> cache[k].lastResponse <= cache[j].lastResponse
    {
      j := 0;
      for k := 1 to |cache|
        invariant 0 <= j < k && forall m :: 0 <= m < k ==> cache[m].lastResponse <= cache[j].lastResponse
      {
        if cache[j].lastResponse < cache[k].lastResponse {
          j := k;
        }
      }
    }

    /** A replacement takes a bad node's place. */
    method Promote(i: int, j: int, best: int, now: int)
      requires Valid() && 0 <= i < |buckets| && 0 <= j < |buckets[i].nodes| && 0 <= best < |buckets[i].replacements|
      modifies `buckets
      ensures Valid() && |buckets| == |old(buckets)|
      ensures forall x :: Holds(buckets, x) ==> Holds(old(buckets), x)
      ensures Swapped(old(buckets), buckets, old(buckets)[i].nodes[j], old(buckets)[i].replacements[best])
    {
      hide BucketOk, Bag, Present, Holds, Swapped;
      var b := buckets[i];
      var n := b.replacements[best];
      var b' := Bucket(b.nodes[j := n], b.replacements[..best] + b.replacements[best + 1..], now);
      PromoteBag(b, b', j, best);
      BucketSizes(self, b, i, i == |buckets| - 1);
      BagShrinks(self, b, b', i, i == |buckets| - 1);
      HoldsLess(buckets, i, b');
      PresentAfter(buckets, i, b');
      EditedNodes(b.nodes, j, n);
      forall m | Present(buckets, m) && m != b.nodes[j]
        ensures Present(buckets[i := b'], m)
      {
        assert m in buckets[i].nodes ==> m in b'.nodes;
      }
      PromotedOut(self, buckets, i, j, best, b');
      SetBucket(i, b');
      SwapIs(old(buckets), buckets, b.nodes[j], n);
    }

    // --- Re-keying, queries ---------------------------------------------------------------

    /** The addresses that are held to one node. */
    ghost function OnePerIp(): (r: Host -> bool) {
      (h: Host) => restrictOnePerIp && !isLocal(h)
    }

    /** Inserts a list of nodes, none of which the table knows. Everyone it holds or is given is in `others`. */
    method InsertAll(nodes: seq<RoutingNode>, ghost known: multiset<NodeId>, ghost others: seq<RoutingNode>, now: int)
      requires Valid() && (forall x :: Holds(buckets, x) ==> x in known)
      requires forall x :: (known + Ids(nodes))[x] <= 1
      requires forall n :: Present(buckets, n) || n in nodes ==> n in others
      modifies `buckets
      ensures Valid() && (forall x :: Holds(buckets, x) ==> x in known + Ids(nodes))
      ensures forall n :: Present(buckets, n) ==> Present(old(buckets), n) || n in nodes
      ensures |old(buckets)| > 0 && |buckets| > 0
      ensures forall n, o :: SettledIn(self, old(buckets), n, OnePerIp(), o) ==> SettledIn(self, buckets, n, OnePerIp(), o)
      ensures forall n :: n in nodes && n.id != self && n.failCount < BAD_FAIL_COUNT ==>
                SettledIn(self, buckets, n, OnePerIp(), others)
    {
      hide TableOk, Holds, Present, Ids, IndexFor, Room, Stuck, SettledIn, Rivalled;
      NotEmpty(self, buckets);
      assert nodes[..0] == [];
      NoIds();
      for k := 0 to |nodes|
        invariant Valid() && (forall x :: Holds(buckets, x) ==> x in known + Ids(nodes[..k]))
        invariant forall n :: Present(buckets, n) ==> Present(old(buckets), n) || n in nodes
        invariant |buckets| > 0
        invariant forall n, o :: SettledIn(self, old(buckets), n, OnePerIp(), o) ==> SettledIn(self, buckets, n, OnePerIp(), o)
        invariant forall i :: 0 <= i < k && nodes[i].id != self && nodes[i].failCount < BAD_FAIL_COUNT ==>
                    SettledIn(self, buckets, nodes[i], OnePerIp(), others)
      {
        NextIsNew(nodes, k, known);
        IdsNext(nodes, k);
        ghost var before := buckets;
        var r := Insert(nodes[k], now);
        if r == Rejected && nodes[k].id != self {
          TakenByAnother(before, nodes[k], others);
        }
        Settling(self, before, buckets, nodes[k], r, OnePerIp(), others);
      }
      assert nodes[..|nodes|] == nodes;
    }

    /** Re-keys the table around a new own ID. Nobody is invented, and the new own ID is dropped. */
    method Rebuild(newSelf: NodeId, now: int) returns (ghost nodes: seq<RoutingNode>, ghost cached: seq<RoutingNode>)
      requires Valid()
      modifies `self, `buckets
      ensures Valid() && self == newSelf && |buckets| > 0
      ensures forall x :: Holds(buckets, x) ==> Holds(old(buckets), x)
      ensures forall n :: n in nodes <==> Present(old(buckets), n)
      ensures forall n :: n in cached <==> Spare(old(buckets), n)
      ensures forall n :: Present(buckets, n) ==> n in nodes || n in cached
      // Every good node is kept if there is a place for it; only another node can have its address.
      ensures forall n :: n in nodes && n.id != newSelf && n.failCount < BAD_FAIL_COUNT ==>
                SettledIn(self, buckets, n, OnePerIp(), nodes)
      // And so is every good replacement.
      ensures forall n :: n in cached && n.id != newSelf && n.failCount < BAD_FAIL_COUNT ==>
                SettledIn(self, buckets, n, OnePerIp(), nodes + cached)
    {
      hide TableOk, Holds, Ids, Bag, AllIds, SettledIn, Spare;
      var all, spare := Collect();
      nodes, cached := all, spare;
      AllIdsOnce(self, buckets);
      AllIdsHeld(buckets);
      OnceEach(Ids(nodes), Ids(cached), AllIds(buckets));
      self := newSelf;
      buckets := [Bucket([], [], now)];
      FreshTable(self, now);
      InsertAll(all, multiset{}, nodes, now);
      InsertAll(spare, Ids(nodes), nodes + cached, now);
    }

    method Collect() returns (nodes: seq<RoutingNode>, cached: seq<RoutingNode>)
      ensures Ids(nodes) + Ids(cached) == AllIds(buckets)
      ensures forall n :: n in nodes <==> Present(buckets, n)
      ensures forall n :: n in cached <==> Spare(buckets, n)
    {
      hide Ids;
      nodes, cached := [], [];
      assert buckets[..0] == [];
      NoIds();
      for i := 0 to |buckets|
        invariant Ids(nodes) + Ids(cached) == AllIds(buckets[..i])
        invariant forall n :: n in nodes <==> Present(buckets[..i], n)
        invariant forall n :: n in cached <==> Spare(buckets[..i], n)
      {
        assert buckets[..i + 1][..i] == buckets[..i];
        IdsJoin(nodes, buckets[i].nodes);
        IdsJoin(cached, buckets[i].replacements);
        PresentNext(buckets, i);
        SpareNext(buckets, i);
        nodes := nodes + buckets[i].nodes;
        cached := cached + buckets[i].replacements;
      }
      assert buckets[..|buckets|] == buckets;
    }

    /** A random ID for refreshing bucket i falls in bucket i. */
    method RandomIdInBucket(random: NodeId, i: int) returns (id: NodeId)
      requires Valid() && 0 <= i < |buckets|
      ensures IndexFor(self, buckets, id) == i
    {
      hide PrefixLength, BucketOk;
      id := RandomWithPrefix(random, self, i, i != |buckets| - 1);
    }

    /** Eligible for `closest`. */
    predicate Eligible(n: RoutingNode, includeBad: bool) {
      includeBad || n.failCount < BAD_FAIL_COUNT
    }

    /** The `count` nodes nearest the target, nearest first, bad ones left out unless asked for. */
    method Closest(target: NodeId, count: nat, includeBad: bool) returns (r: seq<RoutingNode>)
      requires Valid()
      ensures |r| <= count
      ensures forall i :: 0 <= i < |r| ==> Present(buckets, r[i]) && Eligible(r[i], includeBad)
      ensures forall i, j :: 0 <= i < j < |r| ==> Closer(target, r[i].id, r[j].id)
      ensures forall n :: Present(buckets, n) && Eligible(n, includeBad) && n !in r ==>
                |r| == count && forall i :: 0 <= i < |r| ==> Closer(target, r[i].id, n.id)
    {
      hide TableOk, PrefixLength, Closer, Distance, Ids;
      var all := Candidates(includeBad);
      var s := Sort(target, all);
      SortedIds(all, s);
      r := if |s| > count then s[..count] else s;
      NearestFirst(target, s, |r|);
      forall n | Present(buckets, n) && Eligible(n, includeBad) && n !in r
        ensures |r| == count && forall i :: 0 <= i < |r| ==> Closer(target, r[i].id, n.id)
      {
        assert n in multiset(all);
        assert n in s;
        BeyondThePrefix(target, s, |r|, n);
      }
      forall i | 0 <= i < |r|
        ensures Present(buckets, r[i]) && Eligible(r[i], includeBad)
      {
        assert r[i] == s[i] && s[i] in multiset(s);
        assert s[i] in all;
      }
    }

    method Candidates(includeBad: bool) returns (all: seq<RoutingNode>)
      requires Valid()
      ensures forall n :: n in all <==> Present(buckets, n) && Eligible(n, includeBad)
      ensures forall x :: Ids(all)[x] <= 1
    {
      hide TableOk, PrefixLength, Ids, AllIds;
      all := [];
      NoIds();
      assert buckets[..0] == [];
      NoAllIds();
      for i := 0 to |buckets|
        invariant forall n :: n in all <==> Present(buckets[..i], n) && Eligible(n, includeBad)
        invariant Ids(all) <= AllIds(buckets[..i])
      {
        var wanted := (n: RoutingNode) => includeBad || StateOf(n, 0) != Bad;
        var more := Keep(buckets[i].nodes, wanted);
        KeepIds(buckets[i].nodes, wanted);
        IdsJoin(all, more);
        AllIdsNext(buckets, i);
        PresentNext(buckets, i);
        all := all + more;
      }
      assert buckets[..|buckets|] == buckets;
      AllIdsOnce(self, buckets);
      FewerIds(Ids(all), AllIds(buckets));
    }
  }

  // --- Whole runs ------------------------------------------------------------------------

  /** Any one event. */
  method Event(t: RoutingTable)
    requires t.Valid()
    modifies t
    ensures t.Valid()
  {
    hide TableOk;
    var id: NodeId, endpoint: Endpoint, version: seq<Byte>, rttMs: int, now: int := *, *, *, *, *;
    if
    case true => var r := t.HeardFrom(id, endpoint, version, rttMs, now);
    case true => var known, n := t.QueriedBy(id, endpoint, now);
    case true => var i, j := t.Failed(endpoint, now);
    case true => var nodes, cached := t.Rebuild(id, now);
  }

  /**
   After any events: bucket i below the last holds exactly the IDs sharing i bits with
   our own and the last those sharing at least its index, at most K nodes and K
   replacements each, at most 160 buckets; no ID is held twice, and never our own.
   */
  method AnyRun(self: NodeId, restrictOnePerIp: bool, isLocal: Host -> bool, isValid: Endpoint -> bool, events: nat)
    returns (t: RoutingTable)
    ensures 1 <= |t.buckets| <= BITS
    ensures forall i :: 0 <= i < |t.buckets| ==> |t.buckets[i].nodes| <= K && |t.buckets[i].replacements| <= K
    ensures forall i, x :: 0 <= i < |t.buckets| && x in Bag(t.buckets[i]) ==>
              x != t.self &&
              if i < |t.buckets| - 1 then PrefixLength(t.self, x) == i else PrefixLength(t.self, x) >= i
    ensures forall x :: AllIds(t.buckets)[x] <= 1
    ensures !Holds(t.buckets, t.self)
  {
    hide Bag, PrefixLength, AllIds;
    t := new RoutingTable(self, restrictOnePerIp, isLocal, isValid);
    for k := 0 to events
      invariant t.Valid() && fresh(t)
    {
      Event(t);
    }
    AllIdsOnce(t.self, t.buckets);
    forall i | 0 <= i < |t.buckets|
      ensures BucketOk(t.self, t.buckets[i], i, i == |t.buckets| - 1)
    {
    }
  }

  lemma SplitGrows(self: NodeId, buckets: seq<Bucket>)
    requires |buckets| > 0
    ensures |SplitTable(self, buckets)| == |buckets| + 1
  {
  }

  lemma StuckHere(self: NodeId, buckets: seq<Bucket>, id: NodeId)
    requires |buckets| > 0
    ensures var i := IndexFor(self, buckets, id); Stuck(self, buckets, id) <==> |buckets[i].nodes| >= K && !CanSplit(buckets, i)
  {
  }

  lemma OldestGoes(cache: seq<RoutingNode>, j: nat)
    requires j < |cache| == K + 1 && forall k :: 0 <= k < |cache| ==> cache[j].lastResponse <= cache[k].lastResponse
    ensures CacheKept(cache, cache[..j] + cache[j + 1..])
  {
    var after := cache[..j] + cache[j + 1..];
    forall k | 0 <= k < |cache| && k != j
      ensures cache[k] in after
    {
      assert after[if k < j then k else k - 1] == cache[k];
    }
    forall m | m in after
      ensures m in cache && cache[j].lastResponse <= m.lastResponse
    {
      var k :| 0 <= k < |after| && after[k] == m;
      assert m == cache[if k < j then k else k + 1];
    }
  }

  predicate NoneAt(nodes: seq<RoutingNode>, endpoint: Endpoint) {
    forall n :: n in nodes ==> n.endpoint != endpoint
  }

  /** What a failure of node j of bucket i leaves: the node marked, the replacement
      heard from last in its place, or nobody at that endpoint in its bucket. */
  ghost predicate AfterFailure(before: seq<Bucket>, after: seq<Bucket>, i: int, j: int)
    requires 0 <= i < |before| == |after| && 0 <= j < |before[i].nodes|
  {
    var was := before[i].nodes[j];
    var n := was.(failCount := was.failCount + 1);
    var spare := before[i].replacements;
    if n.failCount < BAD_FAIL_COUNT || (spare == [] && n.failCount < REMOVE_FAIL_COUNT) then Swapped(before, after, was, n)
    else if spare == [] then
      && NoneAt(after[i].nodes, was.endpoint)
      && (forall m :: Present(after, m) ==> Present(before, m))
      && (forall m :: Present(before, m) && m.endpoint != was.endpoint ==> Present(after, m))
    else
      exists best :: best in spare && Swapped(before, after, was, best)
                     && forall m :: m in spare ==> m.lastResponse <= best.lastResponse
  }

  lemma RemovedIs(self: NodeId, before: seq<Bucket>, mid: seq<Bucket>, after: seq<Bucket>, i: nat, was: RoutingNode, n: RoutingNode)
    requires TableOk(self, mid) && |mid| == |after| && i < |mid| && n in mid[i].nodes && n.endpoint == was.endpoint
    requires Swapped(before, mid, was, n) && (forall m :: Present(after, m) ==> Present(mid, m))
    requires NoneAt(after[i].nodes, was.endpoint) && forall k :: 0 <= k < |mid| && k != i ==> after[k] == mid[k]
    requires forall m :: Present(mid, m) && m.endpoint != was.endpoint ==> Present(after, m)
    ensures forall m :: Present(after, m) ==> Present(before, m)
    ensures forall m :: Present(before, m) && m.endpoint != was.endpoint ==> Present(after, m)
  {
    hide BucketOk, PrefixLength;
    assert after == mid[i := after[i]];
    GoneFrom(self, mid, i, after[i], n);
  }

  lemma {:induction false} IdsTwice(nodes: seq<RoutingNode>, j: nat, k: nat)
    requires j < k < |nodes| && nodes[j].id == nodes[k].id
    ensures Ids(nodes)[nodes[j].id] >= 2
  {
    var n := |nodes| - 1;
    if k < n {
      IdsTwice(nodes[..n], j, k);
    } else {
      IdsHas(nodes[..n], nodes[j].id);
      assert nodes[..n][j].id == nodes[j].id;
    }
  }

  /** A node is the only one with its identifier. */
  lemma OnlyNode(self: NodeId, buckets: seq<Bucket>, n: RoutingNode)
    requires TableOk(self, buckets) && Present(buckets, n)
    ensures forall m :: Present(buckets, m) && m.id == n.id ==> m == n
  {
    hide PrefixLength, BucketOk, Ids;
    forall m | Present(buckets, m) && m.id == n.id
      ensures m == n
    {
      var a, x := Position(buckets, n);
      var b, y := Position(buckets, m);
      IdsHas(buckets[a].nodes, n.id);
      IdsHas(buckets[b].nodes, n.id);
      EachIdOnce(self, buckets, n.id, a);
      EachIdOnce(self, buckets, n.id, b);
      if x < y {
        IdsTwice(buckets[a].nodes, x, y);
      } else if y < x {
        IdsTwice(buckets[a].nodes, y, x);
      }
    }
  }

  lemma Position(buckets: seq<Bucket>, n: RoutingNode) returns (i: int, j: int)
    requires Present(buckets, n)
    ensures 0 <= i < |buckets| && 0 <= j < |buckets[i].nodes| && buckets[i].nodes[j] == n
  {
    i :| 0 <= i < |buckets| && n in buckets[i].nodes;
    j :| 0 <= j < |buckets[i].nodes| && buckets[i].nodes[j] == n;
  }

  /** `came` is in the place of `gone`; nobody else came or went. */
  ghost predicate Swapped(before: seq<Bucket>, after: seq<Bucket>, gone: RoutingNode, came: RoutingNode) {
    forall m :: Present(after, m) <==> (Present(before, m) && m != gone) || m == came
  }

  lemma SwapIs(before: seq<Bucket>, after: seq<Bucket>, gone: RoutingNode, came: RoutingNode)
    requires Present(after, came) && (gone == came || !Present(after, gone))
    requires forall m :: Present(before, m) && m != gone ==> Present(after, m)
    requires forall m :: Present(after, m) ==> Present(before, m) || m == came
    ensures Swapped(before, after, gone, came)
  {
    hide Present;
  }

  /** A node whose bucket no longer has it is nowhere else. */
  lemma GoneFrom(self: NodeId, buckets: seq<Bucket>, i: nat, b: Bucket, n: RoutingNode)
    requires TableOk(self, buckets) && i < |buckets| && n in buckets[i].nodes && n !in b.nodes
    ensures !Present(buckets[i := b], n)
  {
    hide BucketOk, PrefixLength, Ids;
    IdsHas(buckets[i].nodes, n.id);
    EachIdOnce(self, buckets, n.id, i);
    forall k | 0 <= k < |buckets| && k != i
      ensures n !in buckets[k].nodes
    {
      IdsHas(buckets[k].nodes, n.id);
    }
  }

  lemma PromotedOut(self: NodeId, buckets: seq<Bucket>, i: nat, j: nat, best: nat, b: Bucket)
    requires TableOk(self, buckets) && i < |buckets| && j < |buckets[i].nodes| && best < |buckets[i].replacements|
    requires b.nodes == buckets[i].nodes[j := buckets[i].replacements[best]]
    ensures !Present(buckets[i := b], buckets[i].nodes[j])
  {
    hide PrefixLength, Ids;
    var was := buckets[i];
    var n := was.nodes[j];
    IdsHas(was.nodes, n.id);
    IdsHas(was.replacements, n.id);
    assert Bag(was)[n.id] <= 1;
    forall k | 0 <= k < |b.nodes|
      ensures b.nodes[k] != n
    {
      if k < j && was.nodes[k].id == n.id {
        IdsTwice(was.nodes, k, j);
      } else if k > j && was.nodes[k].id == n.id {
        IdsTwice(was.nodes, j, k);
      }
    }
    GoneFrom(self, buckets, i, b, n);
  }

  ghost predicate NodeWith(buckets: seq<Bucket>, id: NodeId) {
    exists n :: Present(buckets, n) && n.id == id
  }

  /** A node with this ID that still answers. */
  ghost predicate GoodNode(buckets: seq<Bucket>, id: NodeId) {
    exists n :: Present(buckets, n) && n.id == id && n.failCount < BAD_FAIL_COUNT
  }

  lemma UnknownNode(buckets: seq<Bucket>, id: NodeId)
    requires !Holds(buckets, id)
    ensures forall n :: Present(buckets, n) ==> n.id != id
  {
    hide Ids, Bag;
    forall n | Present(buckets, n)
      ensures n.id != id
    {
      var i, j := Position(buckets, n);
      InBag(buckets, i, j);
    }
  }

  lemma BucketSizes(self: NodeId, b: Bucket, i: int, isLast: bool)
    requires BucketOk(self, b, i, isLast)
    ensures |b.nodes| <= K && |b.replacements| <= K
  {
  }

  lemma PushBag(b: Bucket, b': Bucket, node: RoutingNode)
    requires b'.nodes == b.nodes + [node] && b'.replacements == b.replacements
    ensures Bag(b') <= Bag(b) + multiset{node.id}
  {
    hide Ids;
    IdsPush(b.nodes, node);
  }

  lemma ReplaceBag(b: Bucket, b': Bucket, j: nat, node: RoutingNode)
    requires j < |b.nodes| && b'.nodes == b.nodes[j := node] && b'.replacements == b.replacements
    ensures Bag(b') <= Bag(b) + multiset{node.id}
  {
    hide Ids;
    IdsUpdate(b.nodes, j, node);
  }

  lemma CacheBag(b: Bucket, b': Bucket, node: RoutingNode)
    requires b'.nodes == b.nodes && Ids(b'.replacements) <= Ids(b.replacements) + multiset{node.id}
    ensures Bag(b') <= Bag(b) + multiset{node.id}
  {
  }

  /** Each way of placing a node keeps the others, but for one bad node replaced. */
  lemma PlacedNode(b: Bucket, b': Bucket, node: RoutingNode, r: InsertResult)
    requires r == Added ==> b'.nodes == b.nodes + [node]
    requires r == Replaced ==> exists j :: 0 <= j < |b.nodes| && b.nodes[j].failCount >= BAD_FAIL_COUNT && b'.nodes == b.nodes[j := node]
    requires r == Cached ==> b'.nodes == b.nodes
    requires r in {Added, Replaced, Cached}
    ensures forall n :: n in b.nodes && (r != Replaced || n.failCount < BAD_FAIL_COUNT) ==> n in b'.nodes
    ensures forall n :: n in b'.nodes ==> n in b.nodes || n == node
    ensures r != Cached ==> node in b'.nodes
  {
    if r == Replaced {
      var j :| 0 <= j < |b.nodes| && b.nodes[j].failCount >= BAD_FAIL_COUNT && b'.nodes == b.nodes[j := node];
      assert b'.nodes[j] == node;
      forall n | n in b.nodes && n.failCount < BAD_FAIL_COUNT
        ensures n in b'.nodes
      {
        var k :| 0 <= k < |b.nodes| && b.nodes[k] == n;
        assert b'.nodes[k] == n;
      }
    }
  }

  lemma EditBag(b: Bucket, b': Bucket, j: nat, n: RoutingNode)
    requires j < |b.nodes| && b'.nodes == b.nodes[j := n] && b'.replacements == b.replacements && n.id == b.nodes[j].id
    ensures Bag(b') <= Bag(b) && Bag(b') <= Bag(b) + multiset{n.id}
  {
    hide Ids;
    IdsUpdate(b.nodes, j, n);
  }

  lemma PromoteBag(b: Bucket, b': Bucket, j: nat, best: nat)
    requires j < |b.nodes| && best < |b.replacements| && b'.nodes == b.nodes[j := b.replacements[best]]
    requires b'.replacements == b.replacements[..best] + b.replacements[best + 1..]
    ensures Bag(b') <= Bag(b)
  {
    hide Ids;
    IdsUpdate(b.nodes, j, b.replacements[best]);
    IdsErase(b.replacements, best);
    IdsUpdate(b.replacements, best, b.replacements[best]);
  }

  lemma KeepBag(b: Bucket, b': Bucket, wanted: RoutingNode -> bool)
    requires b'.nodes == Keep(b.nodes, wanted) && b'.replacements == b.replacements
    ensures Bag(b') <= Bag(b)
  {
    hide Ids, Keep;
    KeepIds(b.nodes, wanted);
  }

  lemma KeepCacheBag(b: Bucket, b': Bucket, wanted: RoutingNode -> bool)
    requires b'.nodes == b.nodes && b'.replacements == Keep(b.replacements, wanted)
    ensures Bag(b') <= Bag(b)
  {
    hide Ids, Keep;
    KeepIds(b.replacements, wanted);
  }

  lemma NotKept(nodes: seq<RoutingNode>, wanted: RoutingNode -> bool, id: NodeId)
    requires forall n :: n in nodes && n.id == id ==> !wanted(n)
    ensures id !in Ids(Keep(nodes, wanted))
  {
    hide Ids;
    var r := Keep(nodes, wanted);
    IdsHas(r, id);
    forall j | 0 <= j < |r|
      ensures r[j].id != id
    {
      assert r[j] in r;
    }
  }

  lemma EditedNodes(nodes: seq<RoutingNode>, j: nat, n: RoutingNode)
    requires j < |nodes|
    ensures n in nodes[j := n]
    ensures forall m :: m in nodes && m != nodes[j] ==> m in nodes[j := n]
    ensures forall m :: m in nodes[j := n] ==> m in nodes || m == n
  {
    var r := nodes[j := n];
    assert r[j] == n;
    forall m | m in nodes && m != nodes[j]
      ensures m in r
    {
      var k :| 0 <= k < |nodes| && nodes[k] == m;
      assert r[k] == m;
    }
  }

  lemma HoldsLess(buckets: seq<Bucket>, i: nat, b: Bucket)
    requires i < |buckets| && Bag(b) <= Bag(buckets[i])
    ensures forall x :: Holds(buckets[i := b], x) ==> Holds(buckets, x)
  {
    hide Bag;
    var r := buckets[i := b];
    forall x | Holds(r, x)
      ensures Holds(buckets, x)
    {
      var k :| 0 <= k < |r| && x in Bag(r[k]);
      assert x in Bag(buckets[k]);
    }
  }

  lemma InBag(buckets: seq<Bucket>, i: nat, j: nat)
    requires i < |buckets| && j < |buckets[i].nodes|
    ensures Holds(buckets, buckets[i].nodes[j].id)
  {
    IdsHas(buckets[i].nodes, buckets[i].nodes[j].id);
    assert buckets[i].nodes[j].id in Bag(buckets[i]);
  }

  lemma HasNode(buckets: seq<Bucket>, i: nat, j: nat)
    requires i < |buckets| && j < |buckets[i].nodes|
    ensures Present(buckets, buckets[i].nodes[j])
  {
  }

  /** Not among its own bucket's nodes, nor cached anywhere: not in the table. */
  lemma IsUnknown(self: NodeId, buckets: seq<Bucket>, id: NodeId)
    requires TableOk(self, buckets)
    requires forall j :: 0 <= j < |buckets[IndexFor(self, buckets, id)].nodes| ==> buckets[IndexFor(self, buckets, id)].nodes[j].id != id
    requires forall k :: 0 <= k < |buckets| ==> id !in Ids(buckets[k].replacements)
    ensures !Holds(buckets, id)
  {
    hide Ids, PrefixLength;
    if Holds(buckets, id) {
      var i :| 0 <= i < |buckets| && id in Bag(buckets[i]);
      EachIdOnce(self, buckets, id, i);
      IdsHas(buckets[i].nodes, id);
    }
  }

  lemma SameNodes(a: seq<Bucket>, b: seq<Bucket>)
    requires |a| == |b| && forall k :: 0 <= k < |b| ==> b[k].nodes == a[k].nodes
    ensures forall n :: Present(a, n) <==> Present(b, n)
  {
    forall n
      ensures Present(a, n) <==> Present(b, n)
    {
      if Present(a, n) {
        var i :| 0 <= i < |a| && n in a[i].nodes;
        assert n in b[i].nodes;
      }
      if Present(b, n) {
        var i :| 0 <= i < |b| && n in b[i].nodes;
        assert n in a[i].nodes;
      }
    }
  }

  lemma SameRoom(self: NodeId, a: seq<Bucket>, b: seq<Bucket>, id: NodeId)
    requires |a| == |b| > 0 && forall k :: 0 <= k < |b| ==> b[k].nodes == a[k].nodes
    ensures Room(self, a, id) <==> Room(self, b, id)
  {
    hide PrefixLength;
  }

  // --- The table as a whole -------------------------------------------------------------------

  ghost function AllIds(buckets: seq<Bucket>): (r: multiset<NodeId>) {
    if buckets == [] then multiset{} else AllIds(buckets[..|buckets| - 1]) + Bag(buckets[|buckets| - 1])
  }

  lemma NoIds()
    ensures Ids([]) == multiset{}
  {
  }

  lemma NoAllIds()
    ensures AllIds([]) == multiset{}
  {
  }

  lemma AllIdsNext(buckets: seq<Bucket>, i: nat)
    requires i < |buckets|
    ensures AllIds(buckets[..i + 1]) == AllIds(buckets[..i]) + Bag(buckets[i])
    ensures Ids(buckets[i].nodes) <= Bag(buckets[i])
  {
    assert buckets[..i + 1][..i] == buckets[..i];
  }

  lemma PresentNext(buckets: seq<Bucket>, i: nat)
    requires i < |buckets|
    ensures forall n :: Present(buckets[..i + 1], n) <==> Present(buckets[..i], n) || n in buckets[i].nodes
  {
    forall n
      ensures Present(buckets[..i + 1], n) <==> Present(buckets[..i], n) || n in buckets[i].nodes
    {
      if n in buckets[i].nodes { assert n in buckets[..i + 1][i].nodes; }
      if Present(buckets[..i], n) {
        var k :| 0 <= k < i && n in buckets[..i][k].nodes;
        assert n in buckets[..i + 1][k].nodes;
      }
    }
  }

  lemma SpareNext(buckets: seq<Bucket>, i: nat)
    requires i < |buckets|
    ensures forall n :: Spare(buckets[..i + 1], n) <==> Spare(buckets[..i], n) || n in buckets[i].replacements
  {
    forall n
      ensures Spare(buckets[..i + 1], n) <==> Spare(buckets[..i], n) || n in buckets[i].replacements
    {
      if n in buckets[i].replacements { assert n in buckets[..i + 1][i].replacements; }
      if Spare(buckets[..i], n) {
        var k :| 0 <= k < i && n in buckets[..i][k].replacements;
        assert n in buckets[..i + 1][k].replacements;
      }
    }
  }

  /** How often an identifier occurs in the first k buckets. */
  lemma {:induction false} CountUpTo(self: NodeId, buckets: seq<Bucket>, k: nat, x: NodeId)
    requires TableOk(self, buckets) && k <= |buckets|
    ensures AllIds(buckets[..k])[x] <= 1
    ensures x in AllIds(buckets[..k]) <==> exists i :: 0 <= i < k && x in Bag(buckets[i])
  {
    hide TableOk, Bag;
    if k > 0 {
      CountUpTo(self, buckets, k - 1, x);
      assert buckets[..k][..k - 1] == buckets[..k - 1];
      if x in Bag(buckets[k - 1]) {
        EachIdOnce(self, buckets, x, k - 1);
      }
    }
  }

  /** Across the whole table, nodes and replacements alike, no identifier occurs twice. */
  lemma AllIdsOnce(self: NodeId, buckets: seq<Bucket>)
    requires TableOk(self, buckets)
    ensures forall x :: AllIds(buckets)[x] <= 1
  {
    assert buckets[..|buckets|] == buckets;
    forall x
      ensures AllIds(buckets)[x] <= 1
    {
      CountUpTo(self, buckets, |buckets|, x);
    }
  }

  lemma {:induction false} AllIdsHeld(buckets: seq<Bucket>)
    ensures forall x :: x in AllIds(buckets) <==> Holds(buckets, x)
  {
    hide Bag;
    if buckets != [] {
      var n := |buckets| - 1;
      AllIdsHeld(buckets[..n]);
      forall x
        ensures x in AllIds(buckets) <==> Holds(buckets, x)
      {
        if Holds(buckets[..n], x) {
          var i :| 0 <= i < n && x in Bag(buckets[..n][i]);
          assert x in Bag(buckets[i]);
        }
        if Holds(buckets, x) {
          var i :| 0 <= i <= n && x in Bag(buckets[i]);
          if i < n { assert x in Bag(buckets[..n][i]); }
        }
      }
    }
  }

  lemma FewerIds(a: multiset<NodeId>, b: multiset<NodeId>)
    requires a <= b && forall x :: b[x] <= 1
    ensures forall x :: a[x] <= 1
  {
  }

  lemma OnceEach(a: multiset<NodeId>, b: multiset<NodeId>, all: multiset<NodeId>)
    requires a + b == all && forall x :: all[x] <= 1
    ensures forall x :: (multiset{} + a)[x] <= 1
    ensures forall x :: (a + b)[x] <= 1
  {
    forall x
      ensures (multiset{} + a)[x] <= 1
    {
      assert all[x] == a[x] + b[x];
    }
  }

  lemma FreshTable(self: NodeId, now: int)
    ensures TableOk(self, [Bucket([], [], now)])
    ensures forall x :: !Holds([Bucket([], [], now)], x)
    ensures forall n :: !Present([Bucket([], [], now)], n)
  {
    hide PrefixLength;
    var b := [Bucket([], [], now)];
    assert Bag(b[0]) == multiset{};
    assert b[0].nodes == [];
  }

  lemma NotEmpty(self: NodeId, buckets: seq<Bucket>)
    requires TableOk(self, buckets)
    ensures |buckets| > 0
  {
  }

  lemma NextIsNew(nodes: seq<RoutingNode>, k: nat, known: multiset<NodeId>)
    requires k < |nodes| && forall x :: (known + Ids(nodes))[x] <= 1
    ensures nodes[k].id !in known + Ids(nodes[..k])
  {
    hide Ids;
    IdsSplit(nodes, k);
    OnceInAll(known, Ids(nodes[..k]), Ids(nodes[k + 1..]), Ids(nodes), nodes[k].id);
  }

  lemma IdsNext(nodes: seq<RoutingNode>, k: nat)
    requires k < |nodes|
    ensures Ids(nodes[..k + 1]) == Ids(nodes[..k]) + multiset{nodes[k].id}
  {
    hide Ids;
    assert nodes[..k + 1] == nodes[..k] + [nodes[k]];
    IdsPush(nodes[..k], nodes[k]);
  }

  /** What is counted once, and once here, is nowhere else. */
  lemma OnceInAll(known: multiset<NodeId>, front: multiset<NodeId>, back: multiset<NodeId>, all: multiset<NodeId>, x: NodeId)
    requires all == front + multiset{x} + back && (known + all)[x] <= 1
    ensures x !in known + front
  {
    assert all[x] == front[x] + 1 + back[x];
    assert (known + all)[x] == known[x] + all[x];
  }

  // --- Sorting by distance --------------------------------------------------------------------

  ghost predicate ByDistance(target: NodeId, s: seq<RoutingNode>) {
    forall i, j :: 0 <= i < j < |s| ==> Distance(target, s[i].id) <= Distance(target, s[j].id)
  }

  /** std::sort by distance. */
  method Sort(target: NodeId, all: seq<RoutingNode>) returns (s: seq<RoutingNode>)
    ensures multiset(s) == multiset(all) && ByDistance(target, s)
  {
    hide Distance;
    s := [];
    for k := 0 to |all|
      invariant multiset(s) == multiset(all[..k]) && ByDistance(target, s)
    {
      assert all[..k + 1] == all[..k] + [all[k]];
      s := SortedInsert(target, s, all[k]);
    }
    assert all[..|all|] == all;
  }

  method SortedInsert(target: NodeId, s: seq<RoutingNode>, n: RoutingNode) returns (r: seq<RoutingNode>)
    requires ByDistance(target, s)
    ensures multiset(r) == multiset(s) + multiset{n} && ByDistance(target, r)
  {
    hide Distance;
    var p := |s|;
    while p > 0
      invariant 0 <= p <= |s|
      invariant forall k :: p <= k < |s| ==> Distance(target, n.id) <= Distance(target, s[k].id)
    {
      var nearer := IsCloser(target, n.id, s[p - 1].id);
      if !nearer {
        break;
      }
      p := p - 1;
    }
    r := s[..p] + [n] + s[p..];
    InsertCount(s, p, n);
    InsertOrder(target, s, p, n);
  }

  lemma InsertCount(s: seq<RoutingNode>, p: nat, n: RoutingNode)
    requires p <= |s|
    ensures multiset(s[..p] + [n] + s[p..]) == multiset(s) + multiset{n}
  {
    assert s == s[..p] + s[p..];
    assert multiset(s[..p] + [n] + s[p..]) == multiset(s[..p]) + multiset([n]) + multiset(s[p..]);
  }

  lemma EraseCount(s: seq<RoutingNode>, j: nat)
    requires j < |s|
    ensures multiset(s[..j] + s[j + 1..]) == multiset(s) - multiset{s[j]}
  {
    assert s == s[..j] + [s[j]] + s[j + 1..];
    assert multiset(s) == multiset(s[..j]) + multiset([s[j]]) + multiset(s[j + 1..]);
  }

  lemma InsertOrder(target: NodeId, s: seq<RoutingNode>, p: nat, n: RoutingNode)
    requires ByDistance(target, s) && p <= |s|
    requires forall k :: p <= k < |s| ==> Distance(target, n.id) <= Distance(target, s[k].id)
    requires p > 0 ==> Distance(target, s[p - 1].id) <= Distance(target, n.id)
    ensures ByDistance(target, s[..p] + [n] + s[p..])
  {
    hide Distance;
    var r := s[..p] + [n] + s[p..];
    assert forall k :: 0 <= k < |r| ==> r[k] == if k < p then s[k] else if k == p then n else s[k - 1];
  }

  ghost predicate DistinctIds(s: seq<RoutingNode>) {
    forall i, j :: 0 <= i < j < |s| ==> s[i].id != s[j].id
  }

  lemma SortedIds(all: seq<RoutingNode>, s: seq<RoutingNode>)
    requires multiset(s) == multiset(all) && forall x :: Ids(all)[x] <= 1
    ensures DistinctIds(s)
  {
    SameIds(s, all);
    forall i, j | 0 <= i < j < |s|
      ensures s[i].id != s[j].id
    {
      IdsSplit(s, j);
      IdsHas(s[..j], s[i].id);
      assert s[..j][i].id == s[i].id;
      assert Ids(all)[s[i].id] <= 1;
    }
  }

  /** Equal contents have equal identifiers. */
  lemma {:induction false} SameIds(a: seq<RoutingNode>, b: seq<RoutingNode>)
    requires multiset(a) == multiset(b)
    ensures Ids(a) == Ids(b)
  {
    hide Ids;
    if a == [] {
      assert |multiset(b)| == 0;
      assert b == [];
    } else {
      var k := |a| - 1;
      assert a[k] in multiset(b);
      var j :| 0 <= j < |b| && b[j] == a[k];
      var b' := b[..j] + b[j + 1..];
      EraseCount(b, j);
      EraseCount(a, k);
      assert a[..k] + a[k + 1..] == a[..k];
      SameIds(a[..k], b');
      assert a == a[..k] + [a[k]];
      IdsPush(a[..k], a[k]);
      IdsErase(b, j);
      IdsUpdate(b, j, b[j]);
    }
  }

  lemma NearestFirst(target: NodeId, s: seq<RoutingNode>, n: nat)
    requires ByDistance(target, s) && DistinctIds(s) && n <= |s|
    ensures forall i, j :: 0 <= i < j < n ==> Closer(target, s[i].id, s[j].id)
  {
    hide Closer, Distance;
    forall i, j | 0 <= i < j < n
      ensures Closer(target, s[i].id, s[j].id)
    {
      CloserIsDistance(target, s[i].id, s[j].id);
    }
  }

  lemma BeyondThePrefix(target: NodeId, s: seq<RoutingNode>, n: nat, x: RoutingNode)
    requires ByDistance(target, s) && DistinctIds(s) && n <= |s| && x in s && x !in s[..n]
    ensures n < |s| && forall i :: 0 <= i < n ==> Closer(target, s[i].id, x.id)
  {
    hide Closer, Distance;
    forall i | 0 <= i < n
      ensures s[i] != x
    {
      assert s[..n][i] == s[i];
    }
    var k :| 0 <= k < |s| && s[k] == x;
    NearestFirst(target, s, |s|);
  }
}
