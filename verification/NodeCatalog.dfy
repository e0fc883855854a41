/**
 The scan's node catalogue: stable slots, a free list, per-state counts, and an
 open-addressing index by address and port (see ProbeTable). `Catalog.Index` is
 the plain map the whole structure stands for.
 */
module Catalog {
  import opened Endpoints
  import opened ProbeTable
  import opened Numbers

  /** What an entry is filed under: sixteen address bytes and a port. */
  datatype Key = Key(address: Address, port: UInt16)

  datatype State = New | Responsive | Silent | Gone | Unroutable

  datatype Entry = Entry(
    key: Key,
    state: State,
    inUse: bool,
    generation: UInt32,
    firstSeen: UInt32,
    lastListed: UInt32,
    lastAnswered: UInt32)

  datatype Ref = Ref(slot: UInt32, generation: UInt32)

  const MAX_CAP := 50_000_000
  const INITIAL_TABLE_SIZE := 1024
  const VICTIM_SAMPLE := 16
  const TICK_MS := 100
  /** Generations run through 1 .. 2^32 - 1; zero is skipped. */
  const GENERATIONS := 0xffff_ffff

  // --- Keys ----------------------------------------------------------------------

  /** The sixteen bytes an address is filed under; IPv4 in its v4-mapped form. */
  function AddressBytes(e: Endpoint): (a: Address) {
    match e
    case V4(v4, _) =>
      seq(10, _ => 0) + [0xff, 0xff]
      + [v4 / 0x100_0000, v4 / 0x1_0000 % 0x100, v4 / 0x100 % 0x100, v4 % 0x100]
    case V6(v6, _) => v6
  }

  function KeyOf(e: Endpoint): (k: Key) {
    Key(AddressBytes(e), e.port)
  }

  lemma SplitAddress(v: UInt32)
    ensures v == v / 0x100_0000 * 0x100_0000 + v / 0x1_0000 % 0x100 * 0x1_0000 + v / 0x100 % 0x100 * 0x100 + v % 0x100
  {
    assert v / 0x100_0000 == v / 0x1_0000 / 0x100 && v / 0x1_0000 == v / 0x100 / 0x100;
  }

  lemma JoinAddress(a: Byte, b: Byte, c: Byte, d: Byte)
    ensures var v := a * 0x100_0000 + b * 0x1_0000 + c * 0x100 + d;
            v / 0x100_0000 == a && v / 0x1_0000 % 0x100 == b && v / 0x100 % 0x100 == c && v % 0x100 == d
  {
    var v := a * 0x100_0000 + b * 0x1_0000 + c * 0x100 + d;
    assert v / 0x100 == a * 0x1_0000 + b * 0x100 + c;
    assert v / 0x1_0000 == v / 0x100 / 0x100 == a * 0x100 + b;
    assert v / 0x100_0000 == v / 0x1_0000 / 0x100 == a;
  }

  lemma FiledAsMapped(e: Endpoint)
    ensures IsMapped(AddressBytes(e)) <==> e.V4?
  {
    if e.V4? {
      assert AddressBytes(e)[..10] == seq(10, _ => 0) == [0, 0, 0, 0, 0, 0, 0, 0, 0, 0];
    }
  }

  /** Filing an endpoint and reading it back gives the endpoint: an entry says what was put in. */
  lemma KeyReadsBack(e: Endpoint)
    ensures Normalized(AddressBytes(e), e.port) == e
  {
    FiledAsMapped(e);
    if e.V4? {
      SplitAddress(e.v4);
    }
  }

  /** Two endpoints share a catalogue entry exactly when they are equal. */
  lemma KeysIdentifyEndpoints(e: Endpoint, f: Endpoint)
    ensures KeyOf(e) == KeyOf(f) <==> e == f
  {
    KeyReadsBack(e);
    KeyReadsBack(f);
  }

  /** However an address is spelled, its endpoint is filed under the sixteen bytes it was made from. */
  lemma NormalizedKey(a: Address, port: UInt16)
    ensures KeyOf(Normalized(a, port)) == Key(a, port)
  {
    if IsMapped(a) {
      JoinAddress(a[12], a[13], a[14], a[15]);
      assert a == a[..10] + [a[10], a[11], a[12], a[13], a[14], a[15]] && a[..10] == seq(10, _ => 0);
      assert AddressBytes(Normalized(a, port)) == a;
    }
  }

  /** A moment in ticks since the catalogue's epoch; zero is kept for "never". */
  function StampAt(epochMs: int, nowMs: int): (t: UInt32) {
    ((if nowMs > epochMs then (nowMs - epochMs) / TICK_MS else 0) + 1) % 0x1_0000_0000
  }

  // --- What the containers mean -------------------------------------------------

  ghost function Live(entries: seq<Entry>): set<int> {
    set s | 0 <= s < |entries| && entries[s].inUse
  }

  ghost function InState(entries: seq<Entry>, st: State): set<int> {
    set s | 0 <= s < |entries| && entries[s].inUse && entries[s].state == st
  }

  ghost function Homes(entries: seq<Entry>, hash: Key -> nat, n: nat): (h: seq<nat>)
    requires n > 0
    ensures |h| == |entries|
    ensures forall s :: 0 <= s < |h| ==> h[s] == hash(entries[s].key) % n
  {
    seq(|entries|, s requires 0 <= s < |entries| => hash(entries[s].key) % n)
  }

  ghost predicate KeysDistinct(entries: seq<Entry>) {
    forall s, t :: 0 <= s < t < |entries| && entries[s].inUse && entries[t].inUse
      ==> entries[s].key != entries[t].key
  }

  /** The plain map from address and port to slot that the catalogue stands for. */
  ghost function IndexOf(entries: seq<Entry>): (m: map<Key, int>) {
    if entries == [] then map[]
    else
      var n := |entries| - 1;
      if entries[n].inUse then IndexOf(entries[..n])[entries[n].key := n] else IndexOf(entries[..n])
  }

  predicate TableSize(n: nat) {
    n == INITIAL_TABLE_SIZE || (n > INITIAL_TABLE_SIZE && n % 2 == 0 && TableSize(n / 2))
  }

  ghost predicate IndexOk(entries: seq<Entry>, table: seq<int>, hash: Key -> nat, S: set<int>) {
    && |table| > 0
    && var home := Homes(entries, hash, |table|);
       Shaped(table, home) && WellProbed(table, home) && Holds(table, S)
  }

  /** Free slots and live slots share out the array between them. */
  ghost predicate FreeOk(entries: seq<Entry>, free: seq<int>) {
    && |entries| <= MAX_CAP
    && (forall i :: 0 <= i < |free| ==> 0 <= free[i] < |entries| && !entries[free[i]].inUse)
    && (forall i, j :: 0 <= i < j < |free| ==> free[i] != free[j])
    && (forall s :: 0 <= s < |entries| && !entries[s].inUse ==> s in free)
  }

  ghost predicate CountsOk(entries: seq<Entry>, counts: seq<int>) {
    && |counts| == 5
    && (forall st: State :: counts[Ordinal(st)] == |InState(entries, st)|)
  }

  function Clamp(cap: int): (r: int)
    ensures 0 <= r <= MAX_CAP
  {
    if cap < 0 then 0 else if cap > MAX_CAP then MAX_CAP else cap
  }

  function Ordinal(st: State): (i: nat)
    ensures i < 5
  {
    match st case New => 0 case Responsive => 1 case Silent => 2 case Gone => 3 case Unroutable => 4
  }

  /** The generation the n-th allocation is stamped with. */
  function GenerationOf(n: nat): (g: UInt32)
    ensures 1 <= g
  {
    1 + n % GENERATIONS
  }

  /** `born[s]` is the number of the allocation slot s holds; no two live slots share one. */
  ghost predicate GenerationsOk(entries: seq<Entry>, born: seq<nat>, allocs: nat) {
    && |born| == |entries|
    && (forall s :: 0 <= s < |entries| && entries[s].inUse ==>
          born[s] < allocs && entries[s].generation == GenerationOf(born[s]))
    && (forall s, t :: 0 <= s < t < |entries| && entries[s].inUse && entries[t].inUse ==> born[s] != born[t])
  }

  /** Size, free list, per-state counts and generations all describe the same entries. */
  ghost predicate SlotsOk(entries: seq<Entry>, free: seq<int>, size: int, counts: seq<int>, born: seq<nat>, allocs: nat) {
    && size == |Live(entries)|
    && FreeOk(entries, free)
    && CountsOk(entries, counts)
    && GenerationsOk(entries, born, allocs)
  }

  /** The table is at most half full, and indexes exactly the live slots. */
  ghost predicate TableOk(entries: seq<Entry>, table: seq<int>, hash: Key -> nat) {
    && (table == [] ==> Live(entries) == {})
    && (table != [] ==> TableSize(|table|) && IndexOk(entries, table, hash, Live(entries)))
    && 2 * |Live(entries)| <= |table|
  }

  predicate Current(entries: seq<Entry>, ref: Ref) {
    ref.slot < |entries| && entries[ref.slot].inUse && entries[ref.slot].generation == ref.generation
  }

  /**
   A reference taken from allocation n reads as current exactly when its slot is
   live and holds an allocation a whole number of generation cycles from n; so
   within the first 2^32 - 1 allocations, exactly while the slot still holds n.
   */
  lemma RefIsCurrentWhileItsAllocationLives(entries: seq<Entry>, born: seq<nat>, allocs: nat, slot: UInt32, n: nat)
    requires GenerationsOk(entries, born, allocs) && n < allocs
    ensures Current(entries, Ref(slot, GenerationOf(n)))
            <==> slot < |entries| && entries[slot].inUse && (born[slot] - n) % GENERATIONS == 0
    ensures allocs <= GENERATIONS ==>
              (Current(entries, Ref(slot, GenerationOf(n)))
               <==> slot < |entries| && entries[slot].inUse && born[slot] == n)
  {
    if slot < |entries| && entries[slot].inUse {
      SameCycle(born[slot], n);
    }
  }

  lemma SameCycle(a: nat, b: nat)
    ensures a % GENERATIONS == b % GENERATIONS <==> (a - b) % GENERATIONS == 0
    ensures a < GENERATIONS && b < GENERATIONS ==> (a % GENERATIONS == b % GENERATIONS <==> a == b)
  {
  }

  // --- Eviction order -----------------------------------------------------------

  function EvictionRank(st: State): (r: int)
    ensures 1 <= r <= 4
  {
    match st case Unroutable => 4 case Silent => 3 case Gone => 3 case New => 2 case Responsive => 1
  }

  function LastSign(e: Entry): (r: UInt32) {
    var m := if e.lastAnswered >= e.lastListed then e.lastAnswered else e.lastListed;
    if m >= e.firstSeen then m else e.firstSeen
  }

  /** a is given up before b. */
  predicate Beats(a: Entry, b: Entry) {
    || EvictionRank(a.state) > EvictionRank(b.state)
    || (EvictionRank(a.state) == EvictionRank(b.state) && LastSign(a) < LastSign(b))
  }

  // --- Small facts the operations use -------------------------------------------

  lemma HomesMayChangeElsewhere(table: seq<int>, home: seq<nat>, home': seq<nat>, S: set<int>)
    requires Shaped(table, home) && WellProbed(table, home) && Holds(table, S)
    requires |home| <= |home'| && forall s :: 0 <= s < |home'| ==> home'[s] < |table|
    requires forall s :: s in S && 0 <= s < |home| ==> home'[s] == home[s]
    ensures Shaped(table, home') && WellProbed(table, home')
  {
    forall c, x | 0 <= c < |table| && 0 <= x < |table| && table[c] != NO_SLOT
                  && OnPath(table, home', table[c], x, c)
      ensures table[x] != NO_SLOT
    {
      assert OnPath(table, home, table[c], x, c);
    }
  }

  /** Changing one entry leaves every other slot's membership alone. */
  lemma OneEntryChanged(entries: seq<Entry>, slot: nat, e: Entry)
    requires slot < |entries|
    ensures Live(entries[slot := e]) == if e.inUse then Live(entries) + {slot} else Live(entries) - {slot}
    ensures forall st: State :: InState(entries[slot := e], st) ==
              if e.inUse && e.state == st then InState(entries, st) + {slot} else InState(entries, st) - {slot}
  {
  }

  /** The counts after one entry changed, from the counts before. */
  lemma CountChanged(entries: seq<Entry>, slot: nat, e: Entry, st: State)
    requires slot < |entries|
    ensures |InState(entries[slot := e], st)| == |InState(entries, st)|
              - (if entries[slot].inUse && entries[slot].state == st then 1 else 0)
              + (if e.inUse && e.state == st then 1 else 0)
    ensures |Live(entries[slot := e])| == |Live(entries)|
              - (if entries[slot].inUse then 1 else 0) + (if e.inUse then 1 else 0)
  {
    OneEntryChanged(entries, slot, e);
  }

  ghost function Upto(n: nat): (r: set<int>)
    ensures |r| == n && forall x :: x in r <==> 0 <= x < n
  {
    if n == 0 then {} else Upto(n - 1) + {n - 1}
  }

  /** Live entries whose state comes no earlier than the k-th. */
  ghost function LiveFrom(entries: seq<Entry>, k: nat): set<int> {
    set s | 0 <= s < |entries| && entries[s].inUse && Ordinal(entries[s].state) >= k
  }

  lemma PeelState(entries: seq<Entry>, st: State)
    ensures |LiveFrom(entries, Ordinal(st))| == |InState(entries, st)| + |LiveFrom(entries, Ordinal(st) + 1)|
  {
    forall s
      ensures s in LiveFrom(entries, Ordinal(st)) <==> s in InState(entries, st) || s in LiveFrom(entries, Ordinal(st) + 1)
      ensures !(s in InState(entries, st) && s in LiveFrom(entries, Ordinal(st) + 1))
    {
      if 0 <= s < |entries| {
        SameOrdinal(entries[s].state, st);
      }
    }
    assert LiveFrom(entries, Ordinal(st)) == InState(entries, st) + LiveFrom(entries, Ordinal(st) + 1);
  }

  lemma SameOrdinal(a: State, b: State)
    ensures Ordinal(a) == Ordinal(b) <==> a == b
  {
  }

  /** Every live entry is in exactly one state. */
  lemma LiveSum(entries: seq<Entry>)
    ensures |Live(entries)| == |InState(entries, New)| + |InState(entries, Responsive)|
      + |InState(entries, Silent)| + |InState(entries, Gone)| + |InState(entries, Unroutable)|
  {
    assert Live(entries) == LiveFrom(entries, 0);
    PeelState(entries, New);
    PeelState(entries, Responsive);
    PeelState(entries, Silent);
    PeelState(entries, Gone);
    PeelState(entries, Unroutable);
    assert LiveFrom(entries, 5) == {};
  }

  lemma {:induction false} IndexHas(entries: seq<Entry>, s: int)
    requires KeysDistinct(entries) && s in Live(entries)
    ensures entries[s].key in IndexOf(entries) && IndexOf(entries)[entries[s].key] == s
  {
    var n := |entries| - 1;
    if s < n { IndexHas(entries[..n], s); }
  }

  lemma {:induction false} IndexGives(entries: seq<Entry>, k: Key)
    requires k in IndexOf(entries)
    ensures IndexOf(entries)[k] in Live(entries) && entries[IndexOf(entries)[k]].key == k
  {
    var n := |entries| - 1;
    if !(entries[n].inUse && entries[n].key == k) { IndexGives(entries[..n], k); }
  }

  /** Every cell probed for `key` before cell i holds some other entry. */
  ghost predicate Missed(entries: seq<Entry>, table: seq<int>, start: nat, i: nat, key: Key)
    requires start < |table| && i < |table|
    requires forall c :: 0 <= c < |table| && table[c] != NO_SLOT ==> 0 <= table[c] < |entries|
  {
    forall x :: 0 <= x < |table| && Dist(start, x, |table|) < Dist(start, i, |table|) ==>
      table[x] != NO_SLOT && entries[table[x]].key != key
  }

  /** A probe that meets an empty cell has proved the key absent. */
  lemma ProbeMiss(entries: seq<Entry>, table: seq<int>, hash: Key -> nat, key: Key, i: nat)
    requires KeysDistinct(entries) && IndexOk(entries, table, hash, Live(entries))
    requires i < |table| && table[i] == NO_SLOT
    requires Missed(entries, table, hash(key) % |table|, i, key)
    ensures key !in IndexOf(entries)
  {
    var n := |table|;
    var start := hash(key) % n;
    var home := Homes(entries, hash, n);
    forall s | s in Live(entries)
      ensures entries[s].key != key
    {
      var c :| 0 <= c < n && c != -1 && table[c] == s;
      assert !OnPath(table, home, table[c], i, c);
    }
    if key in IndexOf(entries) { IndexGives(entries, key); }
  }

  lemma ProbeHit(entries: seq<Entry>, table: seq<int>, hash: Key -> nat, i: nat)
    requires KeysDistinct(entries) && IndexOk(entries, table, hash, Live(entries))
    requires i < |table| && table[i] != NO_SLOT
    ensures entries[table[i]].key in IndexOf(entries) && IndexOf(entries)[entries[table[i]].key] == table[i]
  {
    IndexHas(entries, table[i]);
  }

  lemma EmptyTableOk(entries: seq<Entry>, hash: Key -> nat, n: nat)
    requires n > 0
    ensures IndexOk(entries, seq(n, _ => NO_SLOT), hash, {})
  {
  }

  lemma LiveGrows(entries: seq<Entry>, s: nat)
    requires s < |entries|
    ensures Live(entries[..s + 1]) == if entries[s].inUse then Live(entries[..s]) + {s} else Live(entries[..s])
    ensures |Live(entries[..s + 1])| <= |Live(entries)|
  {
    SubsetCount(Live(entries[..s + 1]), Live(entries));
  }

  lemma CountsAfter(entries: seq<Entry>, counts: seq<int>, slot: nat, e: Entry, counts': seq<int>)
    requires slot < |entries| && CountsOk(entries, counts) && |counts'| == 5
    requires forall st: State :: counts'[Ordinal(st)] == counts[Ordinal(st)]
               - (if entries[slot].inUse && entries[slot].state == st then 1 else 0)
               + (if e.inUse && e.state == st then 1 else 0)
    ensures CountsOk(entries[slot := e], counts')
  {
    forall st: State
      ensures counts'[Ordinal(st)] == |InState(entries[slot := e], st)|
    {
      CountChanged(entries, slot, e, st);
    }
  }

  /** Freeing a slot takes exactly its key out of the plain map. */
  lemma IndexAfterRelease(entries: seq<Entry>, slot: nat)
    requires KeysDistinct(entries) && slot in Live(entries)
    ensures var after := entries[slot := entries[slot].(inUse := false)];
            && KeysDistinct(after)
            && IndexOf(after) == IndexOf(entries) - {entries[slot].key}
  {
    var after := entries[slot := entries[slot].(inUse := false)];
    assert KeysDistinct(after);
    var m, m' := IndexOf(entries) - {entries[slot].key}, IndexOf(after);
    forall k | k in m
      ensures k in m' && m'[k] == m[k]
    {
      IndexGives(entries, k);
      IndexHas(after, m[k]);
    }
    forall k | k in m'
      ensures k in m
    {
      IndexGives(after, k);
      IndexHas(entries, m'[k]);
      IndexHas(entries, slot);
    }
  }

  lemma KeysAfterFill(entries: seq<Entry>, slot: nat, e: Entry)
    requires KeysDistinct(entries) && slot < |entries| && !entries[slot].inUse
    requires e.key !in IndexOf(entries)
    ensures KeysDistinct(entries[slot := e])
  {
    forall s | s in Live(entries)
      ensures entries[s].key != e.key
    {
      IndexHas(entries, s);
    }
  }

  /** Filling a free slot adds exactly its key to the plain map. */
  lemma IndexAfterFill(entries: seq<Entry>, slot: nat, e: Entry)
    requires KeysDistinct(entries) && slot < |entries| && !entries[slot].inUse && e.inUse
    requires e.key !in IndexOf(entries) && KeysDistinct(entries[slot := e])
    ensures IndexOf(entries[slot := e]) == IndexOf(entries)[e.key := slot]
  {
    var after := entries[slot := e];
    var m, m' := IndexOf(entries)[e.key := slot], IndexOf(after);
    forall k | k in m
      ensures k in m' && m'[k] == m[k]
    {
      if k != e.key { IndexGives(entries, k); }
      IndexHas(after, m[k]);
    }
    forall k | k in m'
      ensures k in m
    {
      IndexGives(after, k);
      if m'[k] != slot { IndexHas(entries, m'[k]); }
    }
  }

  lemma FreeAfterRelease(entries: seq<Entry>, free: seq<int>, slot: nat)
    requires FreeOk(entries, free) && slot in Live(entries)
    ensures FreeOk(entries[slot := entries[slot].(inUse := false)], free + [slot])
  {
    var after, free' := entries[slot := entries[slot].(inUse := false)], free + [slot];
    forall s | 0 <= s < |after| && !after[s].inUse
      ensures s in free'
    {
      if s == slot { assert free'[|free|] == s; }
    }
  }

  lemma SlotsAfterRelease(entries: seq<Entry>, free: seq<int>, size: int, counts: seq<int>, born: seq<nat>,
                          allocs: nat, slot: nat)
    requires SlotsOk(entries, free, size, counts, born, allocs) && slot in Live(entries)
    ensures var k := Ordinal(entries[slot].state);
            SlotsOk(entries[slot := entries[slot].(inUse := false)], free + [slot], size - 1,
                    counts[k := counts[k] - 1], born, allocs)
  {
    var k, e := Ordinal(entries[slot].state), entries[slot].(inUse := false);
    FreeAfterRelease(entries, free, slot);
    CountsAfter(entries, counts, slot, e, counts[k := counts[k] - 1]);
    CountChanged(entries, slot, e, e.state);
  }

  lemma TableAfterRelease(entries: seq<Entry>, table: seq<int>, table': seq<int>, hash: Key -> nat, slot: nat)
    requires TableOk(entries, table, hash) && slot in Live(entries)
    requires |table'| == |table| && IndexOk(entries, table', hash, Live(entries) - {slot})
    ensures TableOk(entries[slot := entries[slot].(inUse := false)], table', hash)
  {
    var e := entries[slot].(inUse := false);
    OneEntryChanged(entries, slot, e);
    CountChanged(entries, slot, e, e.state);
    IndexOkSameKeys(entries, entries[slot := e], table', hash, Live(entries) - {slot});
  }

  /** Fewer live entries never break the index's load bound, and homes follow keys alone. */
  lemma IndexOkSameKeys(entries: seq<Entry>, entries': seq<Entry>, table: seq<int>, hash: Key -> nat, S: set<int>)
    requires IndexOk(entries, table, hash, S) && |entries| == |entries'|
    requires forall s :: 0 <= s < |entries| ==> entries'[s].key == entries[s].key
    ensures IndexOk(entries', table, hash, S)
  {
    assert Homes(entries, hash, |table|) == Homes(entries', hash, |table|);
  }

  function Blank(): (e: Entry)
    ensures !e.inUse
  {
    Entry(Key(seq(16, _ => 0), 0), New, false, 0, 0, 0, 0)
  }

  /** The array with at most one blank slot added at the end. */
  ghost function Padded(entries: seq<Entry>, n: nat): seq<Entry> {
    if n == |entries| + 1 then entries + [Blank()] else entries
  }

  lemma PaddingKeeps(entries: seq<Entry>, n: nat)
    ensures Live(Padded(entries, n)) == Live(entries)
    ensures forall st: State :: InState(Padded(entries, n), st) == InState(entries, st)
    ensures IndexOf(Padded(entries, n)) == IndexOf(entries)
    ensures KeysDistinct(entries) ==> KeysDistinct(Padded(entries, n))
  {
    assert (entries + [Blank()])[..|entries|] == entries;
  }

  /** The free list holds every free slot but the one being filled. */
  ghost predicate FreeBut(entries: seq<Entry>, free: seq<int>, slot: int) {
    && |entries| <= MAX_CAP
    && slot !in free
    && (forall i :: 0 <= i < |free| ==> 0 <= free[i] < |entries| && !entries[free[i]].inUse)
    && (forall i, j :: 0 <= i < j < |free| ==> free[i] != free[j])
    && (forall s :: 0 <= s < |entries| && !entries[s].inUse && s != slot ==> s in free)
  }

  /** The slot an allocation takes: the one freed last, or a new one at the end. */
  function NextFree(free: seq<int>, end: int): int {
    if free == [] then end else free[|free| - 1]
  }

  /** What a newly added node's entry looks like. */
  function Fresh(key: Key, generation: UInt32, firstSeen: UInt32): (e: Entry) {
    Entry(key, New, true, generation, firstSeen, 0, 0)
  }

  lemma SlotsAfterFill(entries: seq<Entry>, free: seq<int>, counts: seq<int>, born: seq<nat>, allocs: nat,
                       slot: nat, e: Entry)
    requires slot < |entries| && !entries[slot].inUse && FreeBut(entries, free, slot)
    requires CountsOk(entries, counts) && GenerationsOk(entries, born, allocs)
    requires e.inUse && e.state == New && e.generation == GenerationOf(allocs)
    ensures SlotsOk(entries[slot := e], free, |Live(entries)| + 1, counts[0 := counts[0] + 1],
                    born[slot := allocs], allocs + 1)
  {
    CountsAfter(entries, counts, slot, e, counts[0 := counts[0] + 1]);
    CountChanged(entries, slot, e, New);
    var after := entries[slot := e];
    assert forall s :: 0 <= s < |after| && !after[s].inUse ==> s in free;
  }

  lemma PaddingKeepsCounts(entries: seq<Entry>, n: nat, counts: seq<int>, born: seq<nat>, born': seq<nat>, allocs: nat)
    requires CountsOk(entries, counts) && GenerationsOk(entries, born, allocs)
    requires born <= born' && |born'| == |Padded(entries, n)|
    ensures CountsOk(Padded(entries, n), counts) && GenerationsOk(Padded(entries, n), born', allocs)
  {
    PaddingKeeps(entries, n);
  }

  /** Everything a fill establishes, from the slot the allocator returned. */
  lemma FillKeeps(entries: seq<Entry>, n: nat, slot: nat, e: Entry)
    requires var padded := Padded(entries, n); slot < |padded| && !padded[slot].inUse
    requires KeysDistinct(entries) && e.inUse && e.key !in IndexOf(entries)
    ensures var after := Padded(entries, n)[slot := e];
            && KeysDistinct(after)
            && IndexOf(after) == IndexOf(entries)[e.key := slot]
            && slot !in Live(entries)
            && Live(after) == Live(entries) + {slot}
  {
    PaddingKeeps(entries, n);
    var padded := Padded(entries, n);
    OneEntryChanged(padded, slot, e);
    hide Padded;
    KeysAfterFill(padded, slot, e);
    IndexAfterFill(padded, slot, e);
  }

  lemma GenerationAdvances(allocs: nat)
    ensures GenerationOf(allocs + 1) == if GenerationOf(allocs) == GENERATIONS then 1 else GenerationOf(allocs) + 1
  {
  }

  lemma TableReadyForFill(entries: seq<Entry>, entries': seq<Entry>, table: seq<int>, hash: Key -> nat, slot: nat)
    requires IndexOk(entries, table, hash, Live(entries))
    requires |entries| <= |entries'| && slot !in Live(entries)
    requires forall s :: 0 <= s < |entries| && s != slot ==> entries'[s] == entries[s]
    ensures IndexOk(entries', table, hash, Live(entries))
  {
    HomesMayChangeElsewhere(table, Homes(entries, hash, |table|), Homes(entries', hash, |table|), Live(entries));
  }

  /** Changing anything but key and use leaves the plain map alone. */
  lemma {:induction false} EditKeeps(entries: seq<Entry>, slot: nat, e: Entry)
    requires slot < |entries| && e.key == entries[slot].key && e.inUse == entries[slot].inUse
    ensures Live(entries[slot := e]) == Live(entries) && IndexOf(entries[slot := e]) == IndexOf(entries)
    ensures KeysDistinct(entries) ==> KeysDistinct(entries[slot := e])
  {
    var n, after := |entries| - 1, entries[slot := e];
    if slot < n {
      EditKeeps(entries[..n], slot, e);
      assert after[..n] == entries[..n][slot := e];
    } else {
      assert after[..n] == entries[..n];
    }
  }

  /** One entry leaves state `from` and joins state `to`. */
  function CountsAfterMove(counts: seq<int>, from: State, to: State): (c: seq<int>)
    requires |counts| == 5
    ensures |c| == 5
    ensures forall st: State :: c[Ordinal(st)] ==
              counts[Ordinal(st)] - (if st == from then 1 else 0) + (if st == to then 1 else 0)
  {
    var c := counts[Ordinal(from) := counts[Ordinal(from)] - 1];
    c[Ordinal(to) := c[Ordinal(to)] + 1]
  }

  lemma SlotsAfterSetState(entries: seq<Entry>, free: seq<int>, size: int, counts: seq<int>, born: seq<nat>,
                           allocs: nat, slot: nat, to: State)
    requires SlotsOk(entries, free, size, counts, born, allocs) && slot in Live(entries)
    ensures SlotsOk(entries[slot := entries[slot].(state := to)], free, size,
                    CountsAfterMove(counts, entries[slot].state, to), born, allocs)
  {
    hide CountsAfterMove;
    var e := entries[slot].(state := to);
    var c := CountsAfterMove(counts, entries[slot].state, to);
    CountsAfter(entries, counts, slot, e, c);
    OneEntryChanged(entries, slot, e);
    assert Live(entries) + {slot} == Live(entries);
  }

  /** Noting a sign of life changes nothing the books see. */
  lemma SlotsAfterSign(entries: seq<Entry>, free: seq<int>, size: int, counts: seq<int>, born: seq<nat>, allocs: nat,
                       slot: nat, listed: UInt32, answered: UInt32)
    requires SlotsOk(entries, free, size, counts, born, allocs) && slot in Live(entries)
    ensures SlotsOk(entries[slot := entries[slot].(lastListed := listed, lastAnswered := answered)], free, size, counts, born, allocs)
  {
    var e := entries[slot].(lastListed := listed, lastAnswered := answered);
    var r := entries[slot := e];
    assert Live(r) == Live(entries);
    assert InState(r, New) == InState(entries, New) && InState(r, Responsive) == InState(entries, Responsive);
    assert InState(r, Silent) == InState(entries, Silent) && InState(r, Gone) == InState(entries, Gone);
    assert InState(r, Unroutable) == InState(entries, Unroutable);
  }

  lemma TableAfterEdit(entries: seq<Entry>, table: seq<int>, hash: Key -> nat, slot: nat, e: Entry)
    requires TableOk(entries, table, hash) && slot in Live(entries) && e.inUse && e.key == entries[slot].key
    ensures TableOk(entries[slot := e], table, hash)
  {
    EditKeeps(entries, slot, e);
    if table != [] {
      IndexOkSameKeys(entries, entries[slot := e], table, hash, Live(entries));
    }
  }

  lemma SlotsFacts(entries: seq<Entry>, free: seq<int>, size: int, counts: seq<int>, born: seq<nat>, allocs: nat)
    requires SlotsOk(entries, free, size, counts, born, allocs)
    ensures size == |Live(entries)| && |born| == |entries| <= MAX_CAP && |counts| == 5
    ensures forall s :: s in Live(entries) ==> 0 <= s < |entries|
  {
  }

  lemma TableFacts(entries: seq<Entry>, table: seq<int>, hash: Key -> nat)
    requires TableOk(entries, table, hash) && table != []
    ensures TableSize(|table|) && IndexOk(entries, table, hash, Live(entries)) && 2 * |Live(entries)| <= |table|
  {
  }

  lemma LiveInUse(entries: seq<Entry>, s: int)
    requires s in Live(entries)
    ensures 0 <= s < |entries| && entries[s].inUse
  {
  }

  lemma TableIndexes(entries: seq<Entry>, table: seq<int>, hash: Key -> nat)
    requires TableSize(|table|) && IndexOk(entries, table, hash, Live(entries)) && 2 * |Live(entries)| <= |table|
    ensures TableOk(entries, table, hash)
  {
  }

  lemma AllInUse(entries: seq<Entry>, free: seq<int>)
    requires FreeOk(entries, free) && free == []
    ensures |Live(entries)| == |entries|
  {
    assert Live(entries) == Upto(|entries|);
  }

  /** The size is the sum of the per-state counts. */
  lemma SizeIsSumOfCounts(entries: seq<Entry>, counts: seq<int>)
    requires CountsOk(entries, counts)
    ensures |Live(entries)| == counts[0] + counts[1] + counts[2] + counts[3] + counts[4]
  {
    LiveSum(entries);
    assert counts[Ordinal(New)] == counts[0] && counts[Ordinal(Responsive)] == counts[1]
      && counts[Ordinal(Silent)] == counts[2] && counts[Ordinal(Gone)] == counts[3] && counts[Ordinal(Unroutable)] == counts[4];
  }

  lemma {:induction false} DistinctCount(s: seq<int>)
    requires forall i, j :: 0 <= i < j < |s| ==> s[i] != s[j]
    ensures |set x | x in s| == |s|
  {
    if s != [] {
      var n := |s| - 1;
      DistinctCount(s[..n]);
      assert (set x | x in s) == (set x | x in s[..n]) + {s[n]};
    }
  }

  /** Live and free slots together are the whole array. */
  lemma LiveAndFreeCoverTheArray(entries: seq<Entry>, free: seq<int>)
    requires FreeOk(entries, free)
    ensures |Live(entries)| + |free| == |entries|
    ensures forall s :: 0 <= s < |entries| ==> (s in Live(entries) <==> s !in free)
  {
    DistinctCount(free);
    var f := set x | x in free;
    assert Live(entries) + f == Upto(|entries|) && Live(entries) !! f;
  }

  // --- The catalogue -------------------------------------------------------------

  class NodeCatalog {
    /** The seeded hash: any function of the key will do. */
    const hash: Key -> nat
    var epochMs: int
    var entries: seq<Entry>
    var free: seq<int>
    var table: seq<int>
    var size: int
    var cap: int
    var evicted: int
    var nextGeneration: UInt32
    var counts: seq<int>
    /** Allocations made so far, and the number of the one each slot holds. */
    ghost var allocs: nat
    ghost var born: seq<nat>

    ghost predicate Valid()
      reads this
    {
      && 0 <= cap <= MAX_CAP
      && nextGeneration == GenerationOf(allocs)
      && SlotsOk(entries, free, size, counts, born, allocs)
      && KeysDistinct(entries)
      && TableOk(entries, table, hash)
    }

    /** Address and port to slot, for every live entry. */
    ghost function Index(): (m: map<Key, int>)
      reads this
      requires Valid()
    {
      IndexOf(entries)
    }

    constructor (cap: int, hash: Key -> nat, nowMs: int)
      ensures Valid() && Index() == map[] && size == 0
      ensures this.hash == hash && this.cap == Clamp(cap) && allocs == 0
    {
      this.hash := hash;
      this.cap := Clamp(cap);
      epochMs := nowMs;
      entries, free, table, size, evicted := [], [], [], 0, 0;
      nextGeneration := 1;
      counts := [0, 0, 0, 0, 0];
      allocs, born := 0, [];
    }

    /** Every reference taken before goes stale; the generation counter carries on. */
    method Clear(nowMs: int)
      requires Valid()
      modifies this
      ensures Valid() && Index() == map[] && size == 0 && evicted == 0
      ensures cap == old(cap) && allocs == old(allocs) && nextGeneration == old(nextGeneration)
    {
      entries, free, table, size, evicted := [], [], [], 0, 0;
      counts := [0, 0, 0, 0, 0];
      epochMs := nowMs;
      born := [];
    }

    method SetCap(newCap: int)
      requires Valid()
      modifies `cap
      ensures Valid() && cap == Clamp(newCap)
    {
      cap := Clamp(newCap);
    }

    function Stamp(nowMs: int): (t: UInt32)
      reads this
    {
      StampAt(epochMs, nowMs)
    }

    // --- Index -------------------------------------------------------------------

    /** The cell holding `key`, or -1 when no live entry has it. */
    method FindIndex(key: Key) returns (i: int)
      requires Valid()
      ensures i == -1 <==> key !in Index()
      ensures i != -1 ==> 0 <= i < |table| && key in Index() && table[i] == Index()[key]
    {
      if |table| == 0 {
        if key in Index() { IndexGives(entries, key); }
        return -1;
      }
      i := Probe(key, Live(entries));
      if table[i] == NO_SLOT {
        ProbeMiss(entries, table, hash, key, i);
        i := -1;
      } else {
        ProbeHit(entries, table, hash, i);
      }
    }

    /** Walks from the key's home to the first cell that is empty or holds the key. */
    method Probe(key: Key, ghost S: set<int>) returns (i: nat)
      requires IndexOk(entries, table, hash, S) && |S| < |table|
      ensures i < |table| && Missed(entries, table, hash(key) % |table|, i, key)
      ensures table[i] == NO_SLOT || entries[table[i]].key == key
    {
      var n := |table|;
      ghost var e := EmptyCellExists(table, S);
      hide WellProbed, HoldsExcept;
      var start := hash(key) % n;
      i := start;
      while table[i] != NO_SLOT && entries[table[i]].key != key
        invariant 0 <= i < n
        invariant Dist(start, i, n) <= Dist(start, e, n)
        invariant Missed(entries, table, start, i, key)
        decreases Dist(i, e, n)
      {
        i := Next(i, n);
      }
    }

    method Find(endpoint: Endpoint) returns (slot: int)
      requires Valid()
      ensures slot == if KeyOf(endpoint) in Index() then Index()[KeyOf(endpoint)] else NO_SLOT
      ensures slot != NO_SLOT ==> 0 <= slot < |entries| && entries[slot].inUse && entries[slot].key == KeyOf(endpoint)
    {
      var i := FindIndex(KeyOf(endpoint));
      if i != -1 { IndexGives(entries, KeyOf(endpoint)); }
      slot := if i == -1 then NO_SLOT else table[i];
    }

    /** Files `slot` in the first empty cell of its path. */
    method InsertIndex(slot: int, ghost S: set<int>)
      requires IndexOk(entries, table, hash, S) && |S| < |table|
      requires 0 <= slot < |entries| && slot != NO_SLOT && slot !in S
      modifies `table
      ensures |table| == |old(table)| && IndexOk(entries, table, hash, S + {slot})
    {
      var n := |table|;
      ghost var home := Homes(entries, hash, n);
      ghost var e := EmptyCellExists(table, S);
      var i := hash(entries[slot].key) % n;
      while table[i] != NO_SLOT
        invariant 0 <= i < n
        invariant Dist(home[slot], i, n) <= Dist(home[slot], e, n)
        invariant forall x :: 0 <= x < n && Dist(home[slot], x, n) < Dist(home[slot], i, n) ==> table[x] != NO_SLOT
        decreases Dist(i, e, n)
      {
        i := Next(i, n);
      }
      InsertKeeps(table, home, S, slot, i);
      table := table[i := slot];
    }

    /** Only `slot` leaves the index. */
    method EraseIndex(slot: int)
      requires Valid() && slot in Live(entries)
      modifies `table
      ensures |table| == |old(table)| && IndexOk(entries, table, hash, Live(entries) - {slot})
    {
      IndexHas(entries, slot);
      var i := FindIndex(entries[slot].key);
      BackwardShift(i, Live(entries));
    }

    /** Empties cell i, moving later cells back so that every remaining slot stays reachable from its home. */
    method BackwardShift(start: nat, ghost S: set<int>)
      requires IndexOk(entries, table, hash, S) && |S| < |table|
      requires start < |table| && table[start] != NO_SLOT
      modifies `table
      ensures |table| == |old(table)| && IndexOk(entries, table, hash, S - {old(table[start])})
    {
      var n := |table|;
      var i: nat, j: nat := start, start;
      ghost var home := Homes(entries, hash, n);
      ghost var kept := S - {table[start]};
      ghost var e := EmptyCellExists(table, S);
      ShiftStart(table, home, S, i);
      while true
        invariant |table| == n && Deleting(table, home, kept, i, j, e)
        decreases Dist(j, e, n)
      {
        DeletingStep(table, home, kept, i, j, e);
        j := Next(j, n);
        if table[j] == NO_SLOT {
          break;
        }
        var first := hash(entries[table[j]].key) % n;
        if !StaysPut(i, j, first) {
          table := table[i := table[j]];
          i := j;
        }
      }
      table := table[i := NO_SLOT];
    }

    /** Doubles the table (or makes the first one) and files every live slot afresh. */
    method GrowTable()
      requires table == [] || TableSize(|table|)
      requires 2 * |Live(entries)| <= |table| && |entries| <= MAX_CAP
      modifies `table
      ensures |table| == (if old(table) == [] then INITIAL_TABLE_SIZE else 2 * |old(table)|) && TableSize(|table|)
      ensures IndexOk(entries, table, hash, Live(entries))
    {
      var n := if |table| == 0 then INITIAL_TABLE_SIZE else |table| * 2;
      table := seq(n, _ => NO_SLOT);
      EmptyTableOk(entries, hash, n);
      hide IndexOk, Live;
      ghost var filed: set<int> := {};
      for s := 0 to |entries|
        invariant |table| == n
        invariant filed == Live(entries[..s]) && |filed| < n
        invariant IndexOk(entries, table, hash, filed)
      {
        LiveGrows(entries, s);
        if entries[s].inUse {
          InsertIndex(s, filed);
          filed := filed + {s};
        }
      }
      assert entries[..|entries|] == entries;
    }

    // --- Slots -------------------------------------------------------------------

    /** A free slot, or a new one at the end; either way it leaves the free list. */
    method Allocate() returns (slot: int)
      requires FreeOk(entries, free) && |born| == |entries| && (free == [] ==> |entries| < MAX_CAP)
      modifies `entries, `free, `born
      ensures entries == Padded(old(entries), |entries|) && |born| == |entries| && old(born) <= born
      ensures slot == NextFree(old(free), |old(entries)|)
      ensures 0 <= slot < |entries| && !entries[slot].inUse && FreeBut(entries, free, slot)
    {
      if |free| != 0 {
        slot := free[|free| - 1];
        free := free[..|free| - 1];
        return;
      }
      entries := entries + [Blank()];
      born := born + [0];
      slot := |entries| - 1;
    }

    /** The live entry to give up: of all when there are few, else of a random sample. */
    method PickVictim() returns (best: int, ghost sample: set<int>)
      requires Live(entries) != {} && |entries| <= MAX_CAP
      ensures best in Live(entries) && best in sample && sample <= Live(entries)
      ensures forall s :: s in sample ==> !Beats(entries[s], entries[best])
      ensures |entries| <= VICTIM_SAMPLE * 4 ==> sample == Live(entries)
    {
      if |entries| <= VICTIM_SAMPLE * 4 {
        best := ScanAll();
        sample := Live(entries);
        return;
      }
      best, sample := NO_SLOT, {};
      var bestRank, bestSign, found, draws := -1, 0, 0, 0;
      while draws < VICTIM_SAMPLE * 8 && found < VICTIM_SAMPLE
        invariant Leads(best, bestRank, bestSign, sample)
      {
        var s: int :| 0 <= s < |entries|;
        if entries[s].inUse {
          best, bestRank, bestSign := Consider(s, best, bestRank, bestSign, sample);
          sample := sample + {s};
          found := found + 1;
        }
        draws := draws + 1;
      }
      if best == NO_SLOT {
        best := ScanAll();
        sample := Live(entries);
      }
    }

    /** Of the slots in `seen`, `best` is the one to give up first; NO_SLOT while none has been seen. */
    ghost predicate Leads(best: int, bestRank: int, bestSign: int, seen: set<int>)
      reads this
    {
      && seen <= Live(entries)
      && (best == NO_SLOT ==> seen == {} && bestRank == -1)
      && (best != NO_SLOT ==>
            && best in seen && bestRank == EvictionRank(entries[best].state) && bestSign == LastSign(entries[best])
            && forall s :: s in seen ==> !Beats(entries[s], entries[best]))
    }

    method Consider(s: int, best: int, bestRank: int, bestSign: int, ghost seen: set<int>)
      returns (best': int, rank: int, sign: int)
      requires s in Live(entries) && s != NO_SLOT && Leads(best, bestRank, bestSign, seen)
      ensures Leads(best', rank, sign, seen + {s})
    {
      rank, sign := EvictionRank(entries[s].state), LastSign(entries[s]);
      if rank > bestRank || (rank == bestRank && sign < bestSign) {
        best' := s;
      } else {
        best', rank, sign := best, bestRank, bestSign;
      }
    }

    method ScanAll() returns (best: int)
      requires Live(entries) != {} && |entries| <= MAX_CAP
      ensures best in Live(entries) && forall s :: s in Live(entries) ==> !Beats(entries[s], entries[best])
    {
      best := NO_SLOT;
      var bestRank, bestSign := -1, 0;
      ghost var seen: set<int> := {};
      for s := 0 to |entries|
        invariant seen == set x | x in Live(entries) && x < s
        invariant Leads(best, bestRank, bestSign, seen)
      {
        if entries[s].inUse {
          best, bestRank, bestSign := Consider(s, best, bestRank, bestSign, seen);
          seen := seen + {s};
        }
      }
      assert seen == Live(entries);
    }

    /** The bookkeeping of a release, apart from the index. */
    method FreeSlot(slot: int)
      requires SlotsOk(entries, free, size, counts, born, allocs) && slot in Live(entries)
      modifies `counts, `size, `entries, `free
      ensures SlotsOk(entries, free, size, counts, born, allocs)
      ensures size == old(size) - 1 && free == old(free) + [slot]
      ensures entries == old(entries)[slot := old(entries[slot]).(inUse := false)]
    {
      SlotsAfterRelease(entries, free, size, counts, born, allocs, slot);
      var e := entries[slot];
      counts := counts[Ordinal(e.state) := counts[Ordinal(e.state)] - 1];
      size := size - 1;
      entries := entries[slot := e.(inUse := false)];
      free := free + [slot];
    }

    /** Drops a live entry; only its key leaves the index, and no other entry changes. */
    method Release(slot: int)
      requires Valid() && slot in Live(entries)
      modifies `table, `counts, `size, `entries, `free
      ensures Valid() && Index() == old(Index()) - {old(entries[slot].key)}
      ensures size == old(size) - 1 && free == old(free) + [slot] && |table| == |old(table)|
      ensures entries == old(entries)[slot := old(entries[slot]).(inUse := false)]
    {
      ghost var before := table;
      hide SlotsOk, TableOk, KeysDistinct, IndexOf, IndexOk;
      EraseIndex(slot);
      IndexAfterRelease(entries, slot);
      TableAfterRelease(entries, before, table, hash, slot);
      FreeSlot(slot);
    }

    /** Puts a new entry in a free slot, everything but the index. */
    method FillSlot(key: Key, firstSeen: UInt32) returns (slot: int)
      requires SlotsOk(entries, free, size, counts, born, allocs) && nextGeneration == GenerationOf(allocs)
      requires KeysDistinct(entries) && key !in IndexOf(entries)
      requires free == [] ==> |entries| < MAX_CAP
      modifies `entries, `free, `counts, `size, `born, `allocs, `nextGeneration
      ensures SlotsOk(entries, free, size, counts, born, allocs) && nextGeneration == GenerationOf(allocs)
      ensures KeysDistinct(entries) && IndexOf(entries) == old(IndexOf(entries))[key := slot]
      ensures slot !in old(Live(entries)) && Live(entries) == old(Live(entries)) + {slot}
      ensures slot == NextFree(old(free), |old(entries)|)
      ensures size == old(size) + 1 && allocs == old(allocs) + 1
      ensures 0 <= slot < |entries| <= MAX_CAP && |entries| >= |old(entries)| && born[slot] == old(allocs)
      ensures entries[slot] == Fresh(key, old(nextGeneration), firstSeen)
      ensures forall s :: 0 <= s < |old(entries)| && s != slot ==> entries[s] == old(entries)[s] && born[s] == old(born)[s]
    {
      hide SlotsOk, KeysDistinct, IndexOf, Live, CountsOk, GenerationsOk, FreeBut;
      SlotsFacts(entries, free, size, counts, born, allocs);
      ghost var was := entries;
      slot := AllocateCounted();
      var e := Fresh(key, nextGeneration, firstSeen);
      FillKeeps(was, |entries|, slot, e);
      WriteEntry(slot, e);
    }

    /** Stores a new entry in an empty slot and counts it. */
    method WriteEntry(slot: int, e: Entry)
      requires 0 <= slot < |entries| && !entries[slot].inUse && FreeBut(entries, free, slot)
      requires CountsOk(entries, counts) && GenerationsOk(entries, born, allocs) && size == |Live(entries)|
      requires e.inUse && e.state == New && e.generation == nextGeneration == GenerationOf(allocs)
      modifies `entries, `counts, `size, `born, `allocs, `nextGeneration
      ensures SlotsOk(entries, free, size, counts, born, allocs) && nextGeneration == GenerationOf(allocs)
      ensures size == old(size) + 1 && allocs == old(allocs) + 1
      ensures entries == old(entries)[slot := e] && |born| == |entries| && born == old(born)[slot := old(allocs)]
    {
      SlotsAfterFill(entries, free, counts, born, allocs, slot, e);
      GenerationAdvances(allocs);
      entries := entries[slot := e];
      nextGeneration := (nextGeneration + 1) % 0x1_0000_0000;
      if nextGeneration == 0 {
        nextGeneration := 1;
      }
      counts := counts[0 := counts[0] + 1];
      size := size + 1;
      born := born[slot := allocs];
      allocs := allocs + 1;
    }

    method AllocateCounted() returns (slot: int)
      requires SlotsOk(entries, free, size, counts, born, allocs) && (free == [] ==> |entries| < MAX_CAP)
      modifies `entries, `free, `born
      ensures entries == Padded(old(entries), |entries|) && |entries| >= |old(entries)| && old(born) <= born
      ensures slot == NextFree(old(free), |old(entries)|)
      ensures 0 <= slot < |entries| && !entries[slot].inUse && FreeBut(entries, free, slot)
      ensures CountsOk(entries, counts) && GenerationsOk(entries, born, allocs) && size == |Live(entries)|
      ensures |born| == |entries| <= MAX_CAP
    {
      slot := Allocate();
      PaddingKeepsCounts(old(entries), |entries|, counts, old(born), born, allocs);
      PaddingKeeps(old(entries), |entries|);
    }

    // --- Operations ----------------------------------------------------------------

    /** Evicts one entry: the key that leaves is the victim's, and nothing else changes. */
    method Evict() returns (ghost victim: int)
      requires Valid() && size > 0
      modifies `table, `counts, `size, `entries, `free, `evicted
      ensures Valid() && victim in old(Live(entries)) && size == old(size) - 1 && evicted == old(evicted) + 1
      ensures Index() == old(Index()) - {old(entries[victim].key)}
      ensures entries == old(entries)[victim := old(entries[victim]).(inUse := false)]
      ensures free == old(free) + [victim]
      ensures |entries| <= VICTIM_SAMPLE * 4 ==>
                forall s :: s in old(Live(entries)) ==> !Beats(old(entries[s]), old(entries[victim]))
    {
      var best, sample := PickVictim();
      victim := best;
      hide TableOk, KeysDistinct, IndexOf;
      Release(best);
      evicted := evicted + 1;
    }

    /** Evicts while over the cap, at most maxEvictions times. */
    method Trim(maxEvictions: int) returns (n: int)
      requires Valid()
      modifies `table, `counts, `size, `entries, `free, `evicted
      ensures Valid()
      ensures n >= 0 && size == old(size) - n && evicted == old(evicted) + n
      ensures n == 0 || (n <= maxEvictions && size >= cap)
      ensures size <= cap || n >= maxEvictions
      ensures forall k :: k in Index() ==> k in old(Index()) && Index()[k] == old(Index())[k]
      ensures forall s :: s in Live(entries) ==> s in old(Live(entries)) && entries[s] == old(entries[s])
    {
      hide TableOk, KeysDistinct, IndexOf;
      n := 0;
      while size > cap && n < maxEvictions
        invariant Valid() && n >= 0 && size == old(size) - n && evicted == old(evicted) + n
        invariant n == 0 || (n <= maxEvictions && size >= cap)
        invariant forall k :: k in Index() ==> k in old(Index()) && Index()[k] == old(Index())[k]
        invariant |entries| == |old(entries)|
        invariant forall s :: s in Live(entries) ==> s in old(Live(entries)) && entries[s] == old(entries[s])
      {
        ghost var victim := Evict();
        n := n + 1;
      }
    }

    /** Grows the table when one more entry would leave it over half full. */
    method EnsureSpace()
      requires Valid()
      modifies `table
      ensures Valid() && 2 * (size + 1) <= |table| && table != []
    {
      if (size + 1) * 2 > |table| {
        GrowTable();
      }
    }

    /** Room for one more entry: a victim goes if the catalogue is full, and the table grows if it is half full. */
    method MakeRoom() returns (ghost victim: int)
      requires Valid() && cap > 0
      modifies `table, `counts, `size, `entries, `free, `evicted
      ensures Valid() && 2 * (size + 1) <= |table| && table != [] && (free == [] ==> |entries| < MAX_CAP)
      ensures victim == NO_SLOT <==> old(size) < cap
      ensures victim == NO_SLOT ==> Index() == old(Index()) && size == old(size) && entries == old(entries)
      ensures victim != NO_SLOT ==>
                && victim in old(Live(entries)) && size == old(size) - 1
                && Index() == old(Index()) - {old(entries[victim].key)}
                && entries == old(entries)[victim := old(entries[victim]).(inUse := false)]
                && free == old(free) + [victim]
    {
      hide TableOk, KeysDistinct, IndexOf;
      victim := NO_SLOT;
      if size >= cap {
        victim := Evict();
      } else if free == [] {
        AllInUse(entries, free);
      }
      EnsureSpace();
    }

    /** Adds an entry for a key not yet present. */
    method Add(key: Key, nowMs: int) returns (slot: int)
      requires Valid() && key !in Index()
      requires 2 * (size + 1) <= |table| && table != [] && (free == [] ==> |entries| < MAX_CAP)
      modifies `table, `entries, `free, `counts, `size, `born, `allocs, `nextGeneration
      ensures Valid() && Index() == old(Index())[key := slot] && size == old(size) + 1
      ensures 0 <= slot < |entries| && entries[slot] == Fresh(key, old(nextGeneration), Stamp(nowMs))
      ensures slot !in old(Live(entries)) && |entries| >= |old(entries)| && Live(entries) == old(Live(entries)) + {slot}
      ensures slot == NextFree(old(free), |old(entries)|)
      ensures born[slot] == old(allocs) && allocs == old(allocs) + 1
      ensures forall s :: 0 <= s < |old(entries)| && s != slot ==> entries[s] == old(entries)[s] && born[s] == old(born)[s]
    {
      hide IndexOk, SlotsOk, KeysDistinct, IndexOf, Live, TableSize, TableOk;
      ghost var was := entries;
      TableFacts(entries, table, hash);
      SlotsFacts(entries, free, size, counts, born, allocs);
      slot := FillSlot(key, Stamp(nowMs));
      TableReadyForFill(was, entries, table, hash, slot);
      InsertIndex(slot, Live(was));
      SlotsFacts(entries, free, size, counts, born, allocs);
      TableIndexes(entries, table, hash);
    }

    /** The entry for `endpoint`, added if new; an entry makes way first when the catalogue is full. */
    method Upsert(endpoint: Endpoint, nowMs: int) returns (slot: int, added: bool, ghost victim: int)
      requires Valid()
      modifies this
      ensures Valid() && cap == old(cap) && epochMs == old(epochMs)
      ensures !added <==> KeyOf(endpoint) in old(Index()) || cap == 0
      ensures !added ==> slot == (if KeyOf(endpoint) in old(Index()) then old(Index())[KeyOf(endpoint)] else NO_SLOT)
      ensures !added ==> unchanged(this)
      ensures added ==> (victim != NO_SLOT <==> old(size) >= cap)
      ensures added && victim == NO_SLOT ==> Index() == old(Index())[KeyOf(endpoint) := slot] && size == old(size) + 1
      ensures added && victim != NO_SLOT ==>
                && victim in old(Live(entries)) && size == old(size)
                && Index() == (old(Index()) - {old(entries[victim].key)})[KeyOf(endpoint) := slot]
      ensures added ==>
                && 0 <= slot < |entries| && entries[slot] == Fresh(KeyOf(endpoint), old(nextGeneration), Stamp(nowMs))
                && born[slot] == old(allocs) && allocs == old(allocs) + 1
      ensures added ==> forall s :: s in old(Live(entries)) && s != victim ==>
                          s != slot && s in Live(entries) && entries[s] == old(entries[s]) && born[s] == old(born[s])
      // Every other entry stays as it is, and the new one takes the victim's slot.
      ensures added && victim != NO_SLOT ==> slot == victim
      ensures added ==> Live(entries) == old(Live(entries)) + {slot}
      ensures size <= if old(size) > cap then old(size) else cap
    {
      hide SlotsOk, TableOk, KeysDistinct, IndexOf;
      added, victim := false, NO_SLOT;
      var key := KeyOf(endpoint);
      var i := FindIndex(key);
      if i != -1 {
        slot := table[i];
        return;
      }
      if cap <= 0 {
        slot := NO_SLOT;
        return;
      }
      ghost var was := entries;
      victim := MakeRoom();
      if victim != NO_SLOT {
        OneEntryChanged(was, victim, entries[victim]);
      }
      slot := Add(key, nowMs);
      added := true;
    }

    predicate IsCurrent(ref: Ref)
      reads this
    {
      Current(entries, ref)
    }

    /** What callers write into an entry that eviction goes by: when it was last listed and last answered. */
    method NoteSigns(slot: int, listed: UInt32, answered: UInt32)
      requires Valid() && slot in Live(entries)
      modifies `entries
      ensures Valid() && Index() == old(Index())
      ensures entries == old(entries)[slot := old(entries[slot]).(lastListed := listed, lastAnswered := answered)]
    {
      hide KeysDistinct, IndexOf, TableOk, Live, SlotsOk;
      SlotsFacts(entries, free, size, counts, born, allocs);
      LiveInUse(entries, slot);
      var e := entries[slot].(lastListed := listed, lastAnswered := answered);
      EditKeeps(entries, slot, e);
      SlotsAfterSign(entries, free, size, counts, born, allocs, slot, listed, answered);
      TableAfterEdit(entries, table, hash, slot, e);
      entries := entries[slot := e];
    }

    /** Moves a live entry to another state; the counts follow. */
    method SetState(slot: int, state: State)
      requires Valid() && slot in Live(entries)
      modifies `entries, `counts
      ensures Valid() && Index() == old(Index())
      ensures entries == old(entries)[slot := old(entries[slot]).(state := state)]
      ensures counts[Ordinal(state)] == old(counts[Ordinal(state)]) + if old(entries[slot]).state == state then 0 else 1
    {
      hide KeysDistinct, IndexOf, TableOk, Live, SlotsOk, CountsAfterMove;
      SlotsFacts(entries, free, size, counts, born, allocs);
      var e := entries[slot];
      if e.state == state {
        return;
      }
      var e' := e.(state := state);
      LiveInUse(entries, slot);
      EditKeeps(entries, slot, e');
      SlotsAfterSetState(entries, free, size, counts, born, allocs, slot, state);
      TableAfterEdit(entries, table, hash, slot, e');
      counts := CountsAfterMove(counts, e.state, state);
      entries := entries[slot := e'];
    }
  }

  // --- Whole runs ------------------------------------------------------------------

  datatype Op =
    | OpUpsert(endpoint: Endpoint, nowMs: int)
    | OpTrim(maxEvictions: int)
    | OpSetCap(cap: int)
    | OpSetState(slot: int, state: State)
    | OpNoteSigns(slot: int, listed: UInt32, answered: UInt32)
    | OpClear(nowMs: int)

  method Apply(c: NodeCatalog, op: Op)
    requires c.Valid()
    modifies c
    ensures c.Valid()
  {
    match op
    case OpUpsert(endpoint, nowMs) => var slot, added, victim := c.Upsert(endpoint, nowMs);
    case OpTrim(n) => var evicted := c.Trim(n);
    case OpSetCap(cap) => c.SetCap(cap);
    case OpSetState(slot, state) =>
      if 0 <= slot < |c.entries| && c.entries[slot].inUse {
        c.SetState(slot, state);
      }
    case OpNoteSigns(slot, listed, answered) =>
      if 0 <= slot < |c.entries| && c.entries[slot].inUse {
        c.NoteSigns(slot, listed, answered);
      }
    case OpClear(nowMs) => c.Clear(nowMs);
  }

  /**
   After any operations at all, `Find` gives the slot of the one live entry with
   that address and port, or NO_SLOT exactly when there is none, and every count agrees.
   */
  method FindAfterAnyRun(cap: int, hash: Key -> nat, startMs: int, ops: seq<Op>, probe: Endpoint)
    returns (c: NodeCatalog, slot: int)
    ensures slot == NO_SLOT <==> forall s :: s in Live(c.entries) ==> c.entries[s].key != KeyOf(probe)
    ensures slot != NO_SLOT ==>
              && slot in Live(c.entries)
              && forall s :: s in Live(c.entries) ==> (c.entries[s].key == KeyOf(probe) <==> s == slot)
    ensures c.size == |Live(c.entries)| == |c.entries| - |c.free|
    ensures |c.counts| == 5 && c.size == c.counts[0] + c.counts[1] + c.counts[2] + c.counts[3] + c.counts[4]
    ensures 2 * c.size <= |c.table|
  {
    c := new NodeCatalog(cap, hash, startMs);
    for i := 0 to |ops|
      invariant c.Valid() && fresh(c)
    {
      Apply(c, ops[i]);
    }
    slot := c.Find(probe);
    FindIsExact(c.entries, KeyOf(probe));
    SizeIsSumOfCounts(c.entries, c.counts);
    LiveAndFreeCoverTheArray(c.entries, c.free);
  }

  /**
   Past 2^32 - 1 allocations the guard fails: a catalogue of one place, shared in turn by
   two endpoints, comes round to where the very first reference, its entry long dropped,
   reads as current again.
   */
  method StaleRefCanComeBack(hash: Key -> nat, nowMs: int, a: Endpoint, b: Endpoint) returns (c: NodeCatalog, slot: UInt32)
    requires KeyOf(a) != KeyOf(b)
    ensures c.Valid() && c.allocs == GENERATIONS + 1
    ensures slot < |c.born| && c.born[slot] == GENERATIONS
    ensures c.IsCurrent(Ref(slot, GenerationOf(0)))
  {
    hide SlotsOk, TableOk, KeysDistinct, IndexOf, HoldsOnly, GenerationOf, AddressBytes;
    c := new NodeCatalog(1, hash, nowMs);
    slot := First(c, a, nowMs);
    for k := 0 to GENERATIONS
      invariant fresh(c) && c.allocs == k + 1 && HoldsOnly(c, if k % 2 == 0 then a else b, slot)
      invariant slot < |c.born| && c.born[slot] == k
    {
      Replace(c, if k % 2 == 0 then a else b, if k % 2 == 0 then b else a, slot, nowMs);
    }
    ReadsAs(c, if GENERATIONS % 2 == 0 then a else b, slot);
  }

  /** A catalogue of one place, with this endpoint in it. */
  ghost predicate HoldsOnly(c: NodeCatalog, e: Endpoint, slot: int)
    reads c
  {
    c.Valid() && c.cap == 1 && c.size == 1 && c.Index() == map[KeyOf(e) := slot] && Live(c.entries) == {slot}
  }

  method First(c: NodeCatalog, e: Endpoint, nowMs: int) returns (slot: UInt32)
    requires c.Valid() && c.cap == 1 && c.size == 0 && c.allocs == 0 && c.Index() == map[]
    modifies c
    ensures HoldsOnly(c, e, slot) && c.allocs == 1 && slot < |c.born| && c.born[slot] == 0
  {
    hide SlotsOk, TableOk, KeysDistinct, IndexOf;
    SlotsFacts(c.entries, c.free, c.size, c.counts, c.born, c.allocs);
    var at, added, victim := c.Upsert(e, nowMs);
    SlotsFacts(c.entries, c.free, c.size, c.counts, c.born, c.allocs);
    slot := at;
  }

  method Replace(c: NodeCatalog, e: Endpoint, f: Endpoint, slot: UInt32, nowMs: int)
    requires HoldsOnly(c, e, slot) && KeyOf(e) != KeyOf(f)
    modifies c
    ensures HoldsOnly(c, f, slot) && c.allocs == old(c.allocs) + 1 && slot < |c.born| && c.born[slot] == old(c.allocs)
  {
    hide SlotsOk, TableOk, KeysDistinct, IndexOf;
    SlotsFacts(c.entries, c.free, c.size, c.counts, c.born, c.allocs);
    FindIsExact(c.entries, KeyOf(e));
    var at, added, victim := c.Upsert(f, nowMs);
    SlotsFacts(c.entries, c.free, c.size, c.counts, c.born, c.allocs);
  }

  lemma ReadsAs(c: NodeCatalog, e: Endpoint, slot: UInt32)
    requires HoldsOnly(c, e, slot) && slot < |c.born| && c.born[slot] == GENERATIONS
    ensures c.Valid() && c.IsCurrent(Ref(slot, GenerationOf(0)))
  {
    hide TableOk, KeysDistinct, IndexOf;
    assert slot in Live(c.entries);
  }

  lemma FindIsExact(entries: seq<Entry>, k: Key)
    requires KeysDistinct(entries) && |entries| <= MAX_CAP
    ensures k !in IndexOf(entries) <==> forall s :: s in Live(entries) ==> entries[s].key != k
    ensures k in IndexOf(entries) ==>
              forall s :: s in Live(entries) ==> (entries[s].key == k <==> s == IndexOf(entries)[k])
    ensures k in IndexOf(entries) ==> IndexOf(entries)[k] in Live(entries) && IndexOf(entries)[k] != NO_SLOT
  {
    forall s | s in Live(entries)
      ensures entries[s].key in IndexOf(entries) && IndexOf(entries)[entries[s].key] == s
    {
      IndexHas(entries, s);
    }
    if k in IndexOf(entries) {
      IndexGives(entries, k);
    }
  }
}
