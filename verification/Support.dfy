/** The per-address token bucket. Balances are real numbers; times are milliseconds that never go back. */
module RateLimits {
  import opened Endpoints
  import opened Numbers

  datatype Bucket = Bucket(tokens: real, last: int)

  type Buckets = map<Host, Bucket>

  datatype Limit = Limit(rate: real, burst: real)

  /** One query let through. */
  datatype Hit = Hit(host: Host, at: int)

  ghost predicate Sane(limit: Limit) {
    limit.rate > 0.0 && limit.burst >= 0.0
  }

  /** Tokens earned over ms milliseconds. */
  function Earned(limit: Limit, ms: int): (t: real) {
    ms as real * limit.rate / 1000.0
  }

  lemma EarnedAdds(limit: Limit, a: int, b: int)
    requires Sane(limit)
    ensures Earned(limit, a + b) == Earned(limit, a) + Earned(limit, b)
    ensures b >= 0 ==> Earned(limit, b) >= 0.0
  {
    assert (a + b) as real == a as real + b as real;
  }

  /** What an address may draw on at time now: a full bucket when none is kept. */
  function Level(limit: Limit, buckets: Buckets, h: Host, now: int): (t: real) {
    if h in buckets then MinReal(limit.burst, buckets[h].tokens + Earned(limit, now - buckets[h].last)) else limit.burst
  }

  ghost predicate BucketsOk(limit: Limit, buckets: Buckets, now: int) {
    forall h :: h in buckets ==> 0.0 <= buckets[h].tokens <= limit.burst && buckets[h].last <= now
  }

  function AfterAllow(limit: Limit, buckets: Buckets, h: Host, now: int): (r: Buckets) {
    var level := Level(limit, buckets, h, now);
    buckets[h := Bucket(if level < 1.0 then level else level - 1.0, now)]
  }

  /** How long a bucket takes to fill, in whole milliseconds, rounded down as the source does. */
  function RefillMs(limit: Limit): (ms: int)
    requires limit.rate != 0.0
  {
    (limit.burst / limit.rate * 1000.0).Floor
  }

  function AfterPrune(limit: Limit, buckets: Buckets, now: int): (r: Buckets)
    requires limit.rate != 0.0
  {
    map h | h in buckets && now - buckets[h].last <= RefillMs(limit) :: buckets[h]
  }

  // --- Levels over time ----------------------------------------------------------

  lemma LevelGrows(limit: Limit, buckets: Buckets, h: Host, a: int, b: int)
    requires Sane(limit) && BucketsOk(limit, buckets, a) && a <= b
    ensures 0.0 <= Level(limit, buckets, h, a) <= Level(limit, buckets, h, b) <= limit.burst
    ensures Level(limit, buckets, h, b) <= Level(limit, buckets, h, a) + Earned(limit, b - a)
  {
    EarnedAdds(limit, a, b - a);
    if h in buckets {
      EarnedAdds(limit, a - buckets[h].last, b - a);
      EarnedAdds(limit, 0, a - buckets[h].last);
    }
  }

  lemma AllowKeeps(limit: Limit, buckets: Buckets, h: Host, now: int)
    requires Sane(limit) && BucketsOk(limit, buckets, now)
    ensures BucketsOk(limit, AfterAllow(limit, buckets, h, now), now)
    ensures forall g :: Level(limit, AfterAllow(limit, buckets, h, now), g, now) ==
              Level(limit, buckets, g, now) - if g == h && Level(limit, buckets, h, now) >= 1.0 then 1.0 else 0.0
  {
    LevelGrows(limit, buckets, h, now, now);
    EarnedAdds(limit, 0, 0);
    var after := AfterAllow(limit, buckets, h, now);
    assert Level(limit, after, h, now) == after[h].tokens;
  }

  /** A bucket old enough to prune is full. */
  lemma PrunedIsFull(limit: Limit, b: Bucket, now: int)
    requires Sane(limit) && b.tokens >= 0.0 && now - b.last > RefillMs(limit)
    ensures b.tokens + Earned(limit, now - b.last) >= limit.burst
  {
    var x := limit.burst / limit.rate * 1000.0;
    assert (now - b.last) as real >= RefillMs(limit) as real + 1.0 > x;
    FullAfter(limit.rate, limit.burst, (now - b.last) as real);
  }

  lemma FullAfter(rate: real, burst: real, ms: real)
    requires rate > 0.0 && ms >= burst / rate * 1000.0
    ensures ms * rate / 1000.0 >= burst
  {
    var q := burst / rate;
    assert q * rate == burst;
    assert ms * rate >= q * 1000.0 * rate by { Scale(q * 1000.0, ms, rate); }
    assert q * 1000.0 * rate == 1000.0 * burst;
  }

  lemma Scale(a: real, b: real, r: real)
    requires a <= b && r > 0.0
    ensures a * r <= b * r
  {
    assert (b - a) * r >= 0.0;
  }

  lemma PruneKeeps(limit: Limit, buckets: Buckets, now: int)
    requires Sane(limit) && BucketsOk(limit, buckets, now)
    ensures BucketsOk(limit, AfterPrune(limit, buckets, now), now)
    ensures forall h :: Level(limit, AfterPrune(limit, buckets, now), h, now) == Level(limit, buckets, h, now)
  {
    forall h
      ensures Level(limit, AfterPrune(limit, buckets, now), h, now) == Level(limit, buckets, h, now)
    {
      if h in buckets && now - buckets[h].last > RefillMs(limit) {
        PrunedIsFull(limit, buckets[h], now);
      }
    }
  }

  // --- Pruning is invisible --------------------------------------------------------

  datatype Op = Allow(host: Host, at: int) | Prune(at: int)

  predicate Ordered(ops: seq<Op>, now: int) {
    ops == [] || (now <= ops[0].at && Ordered(ops[1..], ops[0].at))
  }

  /** The answers a limiter gives over a run. */
  function Answers(limit: Limit, buckets: Buckets, ops: seq<Op>): (r: seq<bool>)
    requires limit.rate != 0.0
    decreases |ops|
  {
    if ops == [] then []
    else match ops[0]
      case Allow(h, t) => [Level(limit, buckets, h, t) >= 1.0] + Answers(limit, AfterAllow(limit, buckets, h, t), ops[1..])
      case Prune(t) => Answers(limit, AfterPrune(limit, buckets, t), ops[1..])
  }

  function WithoutPrunes(ops: seq<Op>): (r: seq<Op>) {
    if ops == [] then []
    else if ops[0].Prune? then WithoutPrunes(ops[1..]) else [ops[0]] + WithoutPrunes(ops[1..])
  }

  /** p is q with some buckets dropped that are full by now. */
  ghost predicate Alike(limit: Limit, p: Buckets, q: Buckets, now: int) {
    && (forall h :: h in p ==> h in q && p[h] == q[h])
    && (forall h :: h in q && h !in p ==> q[h].tokens + Earned(limit, now - q[h].last) >= limit.burst)
  }

  lemma AlikeLater(limit: Limit, p: Buckets, q: Buckets, now: int, later: int)
    requires Sane(limit) && Alike(limit, p, q, now) && now <= later
    ensures Alike(limit, p, q, later)
    ensures forall h :: Level(limit, p, h, later) == Level(limit, q, h, later)
  {
    forall h | h in q && h !in p
      ensures q[h].tokens + Earned(limit, later - q[h].last) >= limit.burst
    {
      EarnedAdds(limit, now - q[h].last, later - now);
    }
  }

  lemma PruneAlike(limit: Limit, p: Buckets, q: Buckets, now: int)
    requires Sane(limit) && BucketsOk(limit, p, now) && Alike(limit, p, q, now)
    ensures Alike(limit, AfterPrune(limit, p, now), q, now)
  {
    forall h | h in q && h !in AfterPrune(limit, p, now)
      ensures q[h].tokens + Earned(limit, now - q[h].last) >= limit.burst
    {
      if h in p { PrunedIsFull(limit, p[h], now); }
    }
  }

  /** Pruned at any times or never, a limiter answers alike. */
  lemma {:induction false} PruningIsInvisible(limit: Limit, p: Buckets, q: Buckets, ops: seq<Op>, now: int)
    requires Sane(limit) && BucketsOk(limit, p, now) && BucketsOk(limit, q, now)
    requires Alike(limit, p, q, now) && Ordered(ops, now)
    ensures Answers(limit, p, ops) == Answers(limit, q, WithoutPrunes(ops))
    decreases |ops|
  {
    if ops != [] {
      var t := ops[0].at;
      AlikeLater(limit, p, q, now, t);
      match ops[0]
      case Allow(h, _) =>
        AllowKeeps(limit, p, h, t);
        AllowKeeps(limit, q, h, t);
        PruningIsInvisible(limit, AfterAllow(limit, p, h, t), AfterAllow(limit, q, h, t), ops[1..], t);
        var rest := WithoutPrunes(ops[1..]);
        assert ([ops[0]] + rest)[1..] == rest;
      case Prune(_) =>
        PruneKeeps(limit, p, t);
        PruneAlike(limit, p, q, t);
        PruningIsInvisible(limit, AfterPrune(limit, p, t), q, ops[1..], t);
    }
  }

  // --- The rate over any window -----------------------------------------------------

  function Hits(log: seq<Hit>, h: Host): (n: nat) {
    if log == [] then 0 else Hits(log[..|log| - 1], h) + if log[|log| - 1].host == h then 1 else 0
  }

  /** Since any logged hit, hits plus what is left never exceed the burst plus what has been earned. */
  ghost predicate Paid(limit: Limit, buckets: Buckets, log: seq<Hit>, now: int) {
    && (forall i :: 0 <= i < |log| ==> log[i].at <= now)
    && (forall i, h :: 0 <= i < |log| ==>
          Hits(log[i..], h) as real + Level(limit, buckets, h, now) <= limit.burst + Earned(limit, now - log[i].at))
  }

  /** Hits i to j, both included, of any one address. */
  ghost predicate WindowOk(limit: Limit, log: seq<Hit>, i: int, j: int, h: Host)
    requires 0 <= i <= j < |log|
  {
    Hits(log[i..j + 1], h) as real <= limit.burst + Earned(limit, log[j].at - log[i].at)
  }

  predicate InOrder(log: seq<Hit>) {
    forall i, j :: 0 <= i <= j < |log| ==> log[i].at <= log[j].at
  }

  ghost predicate Windowed(limit: Limit, log: seq<Hit>) {
    InOrder(log) && forall i, j, h :: 0 <= i <= j < |log| ==> WindowOk(limit, log, i, j, h)
  }

  /** Hits of an address from one time to another, both included. */
  function HitsIn(log: seq<Hit>, h: Host, from: int, to: int): (n: nat) {
    if log == [] then 0
    else
      var last := log[|log| - 1];
      HitsIn(log[..|log| - 1], h, from, to) + if last.host == h && from <= last.at <= to then 1 else 0
  }

  lemma {:induction false} HitsInConcat(a: seq<Hit>, b: seq<Hit>, h: Host, from: int, to: int)
    ensures HitsIn(a + b, h, from, to) == HitsIn(a, h, from, to) + HitsIn(b, h, from, to)
  {
    if b == [] {
      assert a + b == a;
    } else {
      assert (a + b)[..|a + b| - 1] == a + b[..|b| - 1];
      HitsInConcat(a, b[..|b| - 1], h, from, to);
    }
  }

  lemma {:induction false} HitsOutside(log: seq<Hit>, h: Host, from: int, to: int)
    requires forall i :: 0 <= i < |log| ==> !(from <= log[i].at <= to)
    ensures HitsIn(log, h, from, to) == 0
  {
    if log != [] {
      HitsOutside(log[..|log| - 1], h, from, to);
    }
  }

  lemma {:induction false} HitsInside(log: seq<Hit>, h: Host, from: int, to: int)
    requires forall i :: 0 <= i < |log| ==> from <= log[i].at <= to
    ensures HitsIn(log, h, from, to) == Hits(log, h)
  {
    if log != [] {
      HitsInside(log[..|log| - 1], h, from, to);
    }
  }

  /** The first hit that is not before `time`. */
  lemma {:induction false} FirstFrom(log: seq<Hit>, time: int) returns (i: nat)
    requires InOrder(log)
    ensures i <= |log|
    ensures forall k :: 0 <= k < i ==> log[k].at < time
    ensures forall k :: i <= k < |log| ==> log[k].at >= time
  {
    if log == [] || log[|log| - 1].at < time {
      i := |log|;
    } else {
      i := FirstFrom(log[..|log| - 1], time);
    }
  }

  /** A window holds exactly the hits between two places of the log. */
  lemma HitsInSlice(log: seq<Hit>, h: Host, from: int, to: int, i: nat, j: nat)
    requires i <= j <= |log| && forall k :: 0 <= k < |log| ==> (i <= k < j <==> from <= log[k].at <= to)
    ensures HitsIn(log, h, from, to) == Hits(log[i..j], h)
  {
    hide Hits, HitsIn;
    var inside := log[i..j];
    assert log == log[..i] + inside + log[j..];
    HitsInConcat(log[..i] + inside, log[j..], h, from, to);
    HitsInConcat(log[..i], inside, h, from, to);
    HitsOutside(log[..i], h, from, to);
    HitsOutside(log[j..], h, from, to);
    HitsInside(inside, h, from, to);
  }

  /** Whatever the window, an address is let through at most the burst plus what the window earns. */
  lemma HitsInWindow(limit: Limit, log: seq<Hit>, h: Host, from: int, to: int)
    requires Sane(limit) && Windowed(limit, log) && from <= to
    ensures HitsIn(log, h, from, to) as real <= limit.burst + Earned(limit, to - from)
  {
    hide Earned, Hits, HitsIn;
    var i := FirstFrom(log, from);
    var j := FirstFrom(log, to + 1);
    EarnedAdds(limit, 0, to - from);
    if j <= i {
      HitsOutside(log, h, from, to);
    } else {
      HitsInSlice(log, h, from, to, i, j);
      var earned := log[j - 1].at - log[i].at;
      assert WindowOk(limit, log, i, j - 1, h) && log[i..j - 1 + 1] == log[i..j];
      EarnedAdds(limit, earned, to - from - earned);
    }
  }

  lemma PaidLater(limit: Limit, buckets: Buckets, log: seq<Hit>, now: int, later: int)
    requires Sane(limit) && BucketsOk(limit, buckets, now) && Paid(limit, buckets, log, now) && now <= later
    ensures Paid(limit, buckets, log, later)
  {
    forall i, h | 0 <= i < |log|
      ensures Hits(log[i..], h) as real + Level(limit, buckets, h, later) <= limit.burst + Earned(limit, later - log[i].at)
    {
      LevelGrows(limit, buckets, h, now, later);
      EarnedAdds(limit, now - log[i].at, later - now);
    }
  }

  lemma HitsOneMore(log: seq<Hit>, hit: Hit, i: nat, h: Host)
    requires i <= |log|
    ensures Hits((log + [hit])[i..], h) == Hits(log[i..], h) + if hit.host == h then 1 else 0
  {
    var s := (log + [hit])[i..];
    assert s[..|s| - 1] == log[i..];
  }

  lemma PaidHit(limit: Limit, buckets: Buckets, log: seq<Hit>, h: Host, now: int)
    requires Sane(limit) && BucketsOk(limit, buckets, now) && Paid(limit, buckets, log, now)
    requires Level(limit, buckets, h, now) >= 1.0
    ensures Paid(limit, AfterAllow(limit, buckets, h, now), log + [Hit(h, now)], now)
  {
    hide AfterAllow, Level, Earned, Hits, BucketsOk;
    var log', after := log + [Hit(h, now)], AfterAllow(limit, buckets, h, now);
    AllowKeeps(limit, buckets, h, now);
    forall i, g | 0 <= i < |log'|
      ensures Hits(log'[i..], g) as real + Level(limit, after, g, now) <= limit.burst + Earned(limit, now - log'[i].at)
    {
      HitsOneMore(log, Hit(h, now), i, g);
      if i == |log| {
        PaidFirst(limit, buckets, log, g, now);
      }
    }
  }

  /** The hit just let through, by itself. */
  lemma PaidFirst(limit: Limit, buckets: Buckets, log: seq<Hit>, g: Host, now: int)
    requires Sane(limit) && BucketsOk(limit, buckets, now)
    ensures Hits(log[|log|..], g) == 0 && Level(limit, buckets, g, now) <= limit.burst && Earned(limit, now - now) == 0.0
  {
    LevelGrows(limit, buckets, g, now, now);
  }

  lemma WindowedHit(limit: Limit, buckets: Buckets, log: seq<Hit>, h: Host, now: int)
    requires Sane(limit) && BucketsOk(limit, buckets, now) && Windowed(limit, log)
    requires Paid(limit, AfterAllow(limit, buckets, h, now), log + [Hit(h, now)], now)
    ensures Windowed(limit, log + [Hit(h, now)])
  {
    hide Level, AfterAllow, BucketsOk, WindowOk;
    AllowKeeps(limit, buckets, h, now);
    var after, log' := AfterAllow(limit, buckets, h, now), log + [Hit(h, now)];
    assert forall i :: 0 <= i < |log'| ==> log'[i].at <= now;
    forall i, j, g | 0 <= i <= j < |log'|
      ensures WindowOk(limit, log', i, j, g)
    {
      if j < |log| {
        WindowStays(limit, log, Hit(h, now), i, j, g);
      } else {
        WindowEnds(limit, after, log', now, i, g);
      }
    }
  }

  lemma WindowStays(limit: Limit, log: seq<Hit>, hit: Hit, i: nat, j: nat, g: Host)
    requires i <= j < |log| && WindowOk(limit, log, i, j, g)
    ensures WindowOk(limit, log + [hit], i, j, g)
  {
    hide Earned, Hits;
    assert (log + [hit])[i..j + 1] == log[i..j + 1];
  }

  lemma WindowEnds(limit: Limit, buckets: Buckets, log: seq<Hit>, now: int, i: nat, g: Host)
    requires Sane(limit) && BucketsOk(limit, buckets, now) && Paid(limit, buckets, log, now)
    requires i < |log| && log[|log| - 1].at == now
    ensures WindowOk(limit, log, i, |log| - 1, g)
  {
    hide Earned, Hits, Level;
    assert log[i..|log|] == log[i..];
    LevelGrows(limit, buckets, g, now, now);
  }

  // --- The limiter ------------------------------------------------------------------

  class RateLimiter {
    const limit: Limit
    var buckets: Buckets
    /** The engine's clock when last looked at. */
    var clock: int
    /** Every query let through, in order. */
    ghost var log: seq<Hit>

    ghost predicate Valid()
      reads this
    {
      && Sane(limit)
      && BucketsOk(limit, buckets, clock)
      && Paid(limit, buckets, log, clock)
      && Windowed(limit, log)
    }

    constructor (rate: real, burst: real, now: int)
      requires rate > 0.0 && burst >= 0.0
      ensures Valid() && limit == Limit(rate, burst) && buckets == map[] && log == [] && clock == now
    {
      limit := Limit(rate, burst);
      buckets := map[];
      log := [];
      clock := now;
    }

    /** Lets a query through if the address has a token to spend. */
    method Allow(h: Host, now: int) returns (ok: bool)
      requires Valid() && clock <= now
      modifies this
      ensures Valid() && clock == now
      ensures ok <==> old(Level(limit, buckets, h, now)) >= 1.0
      ensures buckets == old(AfterAllow(limit, buckets, h, now))
      ensures log == old(log) + if ok then [Hit(h, now)] else []
    {
      hide Level, BucketsOk, Paid, Windowed, AfterAllow;
      BucketsLater(limit, buckets, clock, now);
      PaidLater(limit, buckets, log, clock, now);
      AllowKeeps(limit, buckets, h, now);
      ok := Draw(h, now);
      clock := now;
      if ok {
        PaidHit(limit, old(buckets), log, h, now);
        WindowedHit(limit, old(buckets), log, h, now);
        log := log + [Hit(h, now)];
      } else {
        PaidRefusal(limit, old(buckets), buckets, log, now);
      }
    }

    method Draw(h: Host, now: int) returns (ok: bool)
      modifies `buckets
      ensures ok <==> old(Level(limit, buckets, h, now)) >= 1.0
      ensures buckets == old(AfterAllow(limit, buckets, h, now))
    {
      ghost var was := buckets;
      if h !in buckets {
        MadeFull(limit, buckets, h, now);
        buckets := buckets[h := Bucket(limit.burst, now)];
      }
      var b := buckets[h];
      var tokens := MinReal(limit.burst, b.tokens + Earned(limit, now - b.last));
      assert tokens == Level(limit, was, h, now);
      ok := tokens >= 1.0;
      buckets := buckets[h := Bucket(if ok then tokens - 1.0 else tokens, now)];
      assert buckets == was[h := Bucket(if ok then tokens - 1.0 else tokens, now)];
      DrawnIs(limit, was, h, now, tokens, buckets);
    }

    /** Forgets buckets that have had time to fill; no answer changes. */
    method Prune(now: int)
      requires Valid() && clock <= now
      modifies this
      ensures Valid() && clock == now && log == old(log)
      ensures buckets == old(AfterPrune(limit, buckets, now))
      ensures forall h :: Level(limit, buckets, h, now) == old(Level(limit, buckets, h, now))
    {
      hide Level, BucketsOk, Paid, Windowed, AfterPrune;
      BucketsLater(limit, buckets, clock, now);
      PaidLater(limit, buckets, log, clock, now);
      PruneKeeps(limit, buckets, now);
      Sweep(now);
      PaidRefusal(limit, old(buckets), buckets, log, now);
      clock := now;
    }

    method Sweep(now: int)
      requires Sane(limit)
      modifies `buckets
      ensures buckets == old(AfterPrune(limit, buckets, now))
    {
      var refillMs := RefillMs(limit);
      var todo := buckets.Keys;
      while todo != {}
        invariant todo <= buckets.Keys <= old(buckets).Keys
        invariant forall h :: h in buckets ==> buckets[h] == old(buckets)[h]
        invariant forall h :: h in old(buckets) && h !in todo ==>
                    (h in buckets <==> now - old(buckets)[h].last <= refillMs)
      {
        var h :| h in todo;
        todo := todo - {h};
        if now - buckets[h].last > refillMs {
          buckets := buckets - {h};
        }
      }
      assert buckets == old(AfterPrune(limit, buckets, now));
    }
  }

  lemma DrawnIs(limit: Limit, was: Buckets, h: Host, now: int, tokens: real, after: Buckets)
    requires tokens == Level(limit, was, h, now)
    requires after == was[h := Bucket(if tokens >= 1.0 then tokens - 1.0 else tokens, now)]
    ensures after == AfterAllow(limit, was, h, now)
  {
    hide Level;
  }

  /** A bucket made full on the spot holds what an address without one may draw on. */
  lemma MadeFull(limit: Limit, was: Buckets, h: Host, now: int)
    requires h !in was
    ensures MinReal(limit.burst, limit.burst + Earned(limit, now - now)) == Level(limit, was, h, now)
  {
  }

  lemma BucketsLater(limit: Limit, buckets: Buckets, now: int, later: int)
    requires BucketsOk(limit, buckets, now) && now <= later
    ensures BucketsOk(limit, buckets, later)
  {
  }

  lemma PaidRefusal(limit: Limit, buckets: Buckets, after: Buckets, log: seq<Hit>, now: int)
    requires Paid(limit, buckets, log, now)
    requires forall g :: Level(limit, after, g, now) == Level(limit, buckets, g, now)
    ensures Paid(limit, after, log, now)
  {
  }

  /** With the default limit, at most 4 queries to one address in any second and 22 in any ten. */
  lemma DefaultLimitFigures(log: seq<Hit>, h: Host, time: int)
    requires Windowed(Limit(2.0, 2.0), log)
    ensures HitsIn(log, h, time, time + 1000) <= 4
    ensures HitsIn(log, h, time, time + 10000) <= 22
  {
    HitsInWindow(Limit(2.0, 2.0), log, h, time, time + 1000);
    HitsInWindow(Limit(2.0, 2.0), log, h, time, time + 10000);
  }
}

/** How many endpoints a second may be contacted afresh. */
module ContactBudgets {
  import opened Endpoints
  import opened Numbers

  const WINDOW_MS := 180_000

  datatype Budget = Budget(recent: map<Endpoint, int>, contacts: int, limit: int, balance: real, last: int)

  predicate IsLimited(b: Budget) {
    b.limit > 0
  }

  predicate IsLive(b: Budget, to: Endpoint, now: int) {
    to in b.recent && now - b.recent[to] < WINDOW_MS
  }

  function Earned(limit: int, ms: int): (t: real) {
    ms as real * limit as real / 1000.0
  }

  function Refilled(b: Budget, now: int): (r: Budget) {
    if now > b.last then
      b.(balance := MinReal(b.limit as real, b.balance + Earned(b.limit, now - b.last)), last := now)
    else b
  }

  /** Whether a datagram may go to `to` now; asking may top the balance up. */
  function Allowed(b: Budget, to: Endpoint, now: int): (r: (bool, Budget)) {
    if !IsLimited(b) || IsLive(b, to, now) then (true, b)
    else var b' := Refilled(b, now); (b'.balance >= 1.0, b')
  }

  /** A datagram went to `to`: a new endpoint is charged for. */
  function Recorded(b: Budget, to: Endpoint, now: int): (r: Budget) {
    var b' := b.(recent := b.recent[to := now]);
    if IsLive(b, to, now) then b'
    else
      var charged := b'.(contacts := b'.contacts + 1);
      if IsLimited(b) then
        var filled := Refilled(charged, now);
        filled.(balance := filled.balance - 1.0)
      else charged
  }

  function Pruned(b: Budget, now: int): (r: Budget) {
    b.(recent := map e | e in b.recent && now - b.recent[e] < WINDOW_MS :: b.recent[e])
  }

  function WithLimit(b: Budget, contactsPerSecond: int, now: int): (r: Budget) {
    var n := if contactsPerSecond > 0 then contactsPerSecond else 0;
    if n == b.limit then b
    else b.(limit := n, balance := if IsLimited(b) then MinReal(b.balance, n as real) else n as real, last := now)
  }

  // --- Runs --------------------------------------------------------------------------

  /** Ask: a query held back or refused elsewhere. Send: allowed to go, and recorded if the OS took it. */
  datatype Op = Ask(to: Endpoint, at: int) | Send(to: Endpoint, at: int, taken: bool) | Prune(at: int)

  predicate Ordered(ops: seq<Op>, now: int) {
    ops == [] || (now <= ops[0].at && Ordered(ops[1..], ops[0].at))
  }

  function After(b: Budget, op: Op): (r: Budget) {
    match op
    case Ask(to, t) => Allowed(b, to, t).1
    case Send(to, t, taken) =>
      var (ok, b') := Allowed(b, to, t);
      if ok && taken then Recorded(b', to, t) else b'
    case Prune(t) => Pruned(b, t)
  }

  function Run(b: Budget, ops: seq<Op>): (r: Budget)
    decreases |ops|
  {
    if ops == [] then b else Run(After(b, ops[0]), ops[1..])
  }

  function Answers(b: Budget, ops: seq<Op>): (r: seq<bool>)
    decreases |ops|
  {
    if ops == [] then []
    else if ops[0].Prune? then Answers(After(b, ops[0]), ops[1..])
    else [Allowed(b, ops[0].to, ops[0].at).0] + Answers(After(b, ops[0]), ops[1..])
  }

  function WithoutPrunes(ops: seq<Op>): (r: seq<Op>) {
    if ops == [] then []
    else if ops[0].Prune? then WithoutPrunes(ops[1..]) else [ops[0]] + WithoutPrunes(ops[1..])
  }

  /** p is q with some endpoints forgotten that no longer count as live. */
  ghost predicate Alike(p: Budget, q: Budget, now: int) {
    && p == q.(recent := p.recent)
    && (forall e :: e in p.recent ==> e in q.recent && p.recent[e] == q.recent[e])
    && (forall e :: e in q.recent && e !in p.recent ==> now - q.recent[e] >= WINDOW_MS)
  }

  lemma AlikeStep(p: Budget, q: Budget, op: Op, now: int)
    requires Alike(p, q, now) && now <= op.at && !op.Prune?
    ensures Allowed(p, op.to, op.at).0 == Allowed(q, op.to, op.at).0
    ensures Alike(After(p, op), After(q, op), op.at)
  {
    assert IsLive(p, op.to, op.at) <==> IsLive(q, op.to, op.at);
  }

  /** Pruned at any times or never, the budget gives the same answers and counts the same contacts. */
  lemma {:induction false} PruningIsInvisible(p: Budget, q: Budget, ops: seq<Op>, now: int)
    requires Alike(p, q, now) && Ordered(ops, now)
    ensures Answers(p, ops) == Answers(q, WithoutPrunes(ops))
    ensures Run(p, ops).contacts == Run(q, WithoutPrunes(ops)).contacts
    ensures Run(p, ops).balance == Run(q, WithoutPrunes(ops)).balance
    decreases |ops|
  {
    if ops != [] {
      var op := ops[0];
      if op.Prune? {
        assert Alike(After(p, op), q, op.at);
        PruningIsInvisible(After(p, op), q, ops[1..], op.at);
      } else {
        AlikeStep(p, q, op, now);
        PruningIsInvisible(After(p, op), After(q, op), ops[1..], op.at);
        var rest := WithoutPrunes(ops[1..]);
        assert ([op] + rest)[1..] == rest;
      }
    }
  }

  // --- The rate of new contacts -------------------------------------------------------

  ghost predicate Sound(b: Budget, now: int) {
    b.limit > 0 && 0.0 <= b.balance <= b.limit as real && b.last <= now
  }

  /** What could be spent at time t. */
  function Available(b: Budget, t: int): (r: real) {
    MinReal(b.limit as real, b.balance + Earned(b.limit, t - b.last))
  }

  lemma EarnedAdds(limit: int, a: int, b: int)
    requires limit > 0
    ensures Earned(limit, a + b) == Earned(limit, a) + Earned(limit, b)
    ensures b >= 0 ==> Earned(limit, b) >= 0.0
  {
    assert (a + b) as real == a as real + b as real;
  }

  lemma AvailableGrows(b: Budget, now: int, t: int)
    requires Sound(b, now) && now <= t
    ensures 0.0 <= Available(b, now) <= Available(b, t) <= Available(b, now) + Earned(b.limit, t - now)
    ensures Available(b, t) <= b.limit as real
  {
    EarnedAdds(b.limit, now - b.last, t - now);
    EarnedAdds(b.limit, 0, now - b.last);
  }

  /** Topping up changes nothing that can be seen later. */
  lemma RefillKeeps(b: Budget, t: int)
    requires Sound(b, t)
    ensures Sound(Refilled(b, t), t) && Available(Refilled(b, t), t) == Available(b, t)
    ensures Refilled(b, t).balance == Available(b, t)
    ensures Refilled(b, t) == b.(balance := Available(b, t), last := t)
  {
    EarnedAdds(b.limit, 0, t - b.last);
    EarnedAdds(b.limit, 0, 0);
  }

  /** A new contact costs exactly one; nothing else costs anything, and the balance stays sound. */
  lemma StepPays(b: Budget, op: Op)
    requires Sound(b, op.at)
    ensures Sound(After(b, op), op.at) && After(b, op).limit == b.limit
    ensures After(b, op).contacts >= b.contacts
    ensures (After(b, op).contacts - b.contacts) as real + Available(After(b, op), op.at) == Available(b, op.at)
  {
    EarnedAdds(b.limit, 0, 0);
    RefillKeeps(b, op.at);
    match op
    case Ask(to, t) =>
    case Prune(t) =>
    case Send(to, t, taken) =>
      var (ok, b') := Allowed(b, to, t);
      if ok && taken && !IsLive(b, to, t) {
        assert b' == Refilled(b, t);
        assert Refilled(b'.(recent := b'.recent[to := t]).(contacts := b'.contacts + 1), t)
          == b'.(recent := b'.recent[to := t], contacts := b'.contacts + 1);
      }
  }

  ghost predicate Within(ops: seq<Op>, from: int, to: int) {
    Ordered(ops, from) && forall i :: 0 <= i < |ops| ==> ops[i].at <= to
  }

  /**
   From any state a run can reach, the new contacts made between two times are at
   most one second's worth plus what the time between them earns, and the balance
   never goes below zero.
   */
  lemma {:induction false} NewContactsAreBounded(b: Budget, ops: seq<Op>, from: int, to: int)
    requires Sound(b, from) && from <= to && Within(ops, from, to)
    ensures Sound(Run(b, ops), to) && Run(b, ops).limit == b.limit && Run(b, ops).contacts >= b.contacts
    ensures (Run(b, ops).contacts - b.contacts) as real + Available(Run(b, ops), to)
              <= Available(b, from) + Earned(b.limit, to - from)
    ensures (Run(b, ops).contacts - b.contacts) as real <= b.limit as real + Earned(b.limit, to - from)
    decreases |ops|
  {
    AvailableGrows(b, from, to);
    if ops != [] {
      var op := ops[0];
      AvailableGrows(b, from, op.at);
      StepPays(b, op);
      var b' := After(b, op);
      NewContactsAreBounded(b', ops[1..], op.at, to);
      EarnedAdds(b.limit, op.at - from, to - op.at);
      AvailableGrows(Run(b', ops[1..]), to, to);
    }
  }

  /** Turning a limit on starts it with one full second's allowance. */
  lemma LimitStartsSound(b: Budget, contactsPerSecond: int, now: int)
    requires contactsPerSecond > 0 && !IsLimited(b)
    ensures Sound(WithLimit(b, contactsPerSecond, now), now)
  {
  }

  class ContactBudget {
    var recent: map<Endpoint, int>
    var contacts: int
    var limit: int
    var balance: real
    var last: int

    function View(): (b: Budget)
      reads this
    {
      Budget(recent, contacts, limit, balance, last)
    }

    constructor ()
      ensures View() == Budget(map[], 0, 0, 0.0, 0)
    {
      recent, contacts, limit, balance, last := map[], 0, 0, 0.0, 0;
    }

    method SetLimit(contactsPerSecond: int, now: int)
      modifies this
      ensures View() == old(WithLimit(View(), contactsPerSecond, now))
    {
      var n := if contactsPerSecond > 0 then contactsPerSecond else 0;
      if n == limit {
        return;
      }
      var wasLimited := limit > 0;
      limit := n;
      if !wasLimited {
        balance := limit as real;
      } else {
        balance := MinReal(balance, limit as real);
      }
      last := now;
    }

    method Refill(now: int)
      modifies this
      ensures View() == old(Refilled(View(), now))
    {
      if now > last {
        balance := MinReal(limit as real, balance + (now - last) as real * limit as real / 1000.0);
        last := now;
      }
    }

    method Allows(to: Endpoint, now: int) returns (ok: bool)
      modifies this
      ensures (ok, View()) == old(Allowed(View(), to, now))
    {
      if limit <= 0 || IsLive(View(), to, now) {
        return true;
      }
      Refill(now);
      return balance >= 1.0;
    }

    method Record(to: Endpoint, now: int)
      modifies this
      ensures View() == old(Recorded(View(), to, now))
    {
      var live := IsLive(View(), to, now);
      recent := recent[to := now];
      if live {
        return;
      }
      contacts := contacts + 1;
      if limit > 0 {
        Refill(now);
        balance := balance - 1.0;
      }
    }

    method Prune(now: int)
      modifies this
      ensures View() == old(Pruned(View(), now))
    {
      var todo := recent.Keys;
      while todo != {}
        invariant todo <= recent.Keys <= old(recent).Keys
        invariant View() == old(View()).(recent := recent)
        invariant forall e :: e in recent ==> recent[e] == old(recent)[e]
        invariant forall e :: e in old(recent) && e !in todo ==> (e in recent <==> now - old(recent)[e] < WINDOW_MS)
      {
        var e :| e in todo;
        todo := todo - {e};
        if now - recent[e] >= WINDOW_MS {
          recent := recent - {e};
        }
      }
      assert recent == old(Pruned(View(), now)).recent;
    }
  }
}
