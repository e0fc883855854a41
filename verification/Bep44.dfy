/**
 BEP 44 storage: a value put here is kept as the very bytes it arrived in, and a
 get reply carries those bytes where the getter's decoder will find them.
 */
module Bep44 {
  import opened Endpoints
  import opened NodeIds
  import opened Bencode
  import opened BencodeContext
  import opened BencodeLaws
  import opened Options

  const MAX_DEPTH := 32
  const MAX_VALUE_BYTES := 1000
  const MAX_SALT_BYTES := 64
  const PUBLIC_KEY_BYTES := 32
  const SIGNATURE_BYTES := 64
  const MAX_ITEMS := 1000
  const ITEM_TTL_MS := 2 * 60 * 60 * 1000

  // --- Dictionary access -------------------------------------------------------------

  /** Index of a key, or -1. */
  function IndexOf(entries: seq<Entry>, key: Bytes): (i: int)
    ensures -1 <= i < |entries|
    ensures i >= 0 ==> entries[i].key == key
    ensures i == -1 ==> forall k :: 0 <= k < |entries| ==> entries[k].key != key
  {
    if entries == [] then -1
    else if entries[|entries| - 1].key == key then |entries| - 1
    else IndexOf(entries[..|entries| - 1], key)
  }

  /** BValue::find. */
  function Find(v: BValue, key: Bytes): (r: Option<BValue>) {
    if v.node.Dict? && IndexOf(v.node.entries, key) >= 0 then Some(v.node.entries[IndexOf(v.node.entries, key)].value) else None
  }

  function StringAt(v: BValue, key: Bytes): (r: Option<Bytes>) {
    match Find(v, key)
    case Some(w) => if w.node.String? then Some(w.node.bytes) else None
    case None => None
  }

  function IntegerAt(v: BValue, key: Bytes): (r: Option<int>) {
    match Find(v, key)
    case Some(w) => if w.node.Integer? then Some(w.node.n) else None
    case None => None
  }

  /** insert_or_assign. */
  function Assign(entries: seq<Entry>, key: Bytes, value: BValue): (r: seq<Entry>) {
    var i := IndexOf(entries, key);
    if i >= 0 then entries[i := Entry(key, value)] else Emplace(entries, key, value)
  }

  ghost predicate EntryFits(e: Entry, depth: nat, max: int) {
    |e.key| < LENGTH_LIMIT && Fits(e.value, depth, max)
  }

  ghost predicate AllFit(entries: seq<Entry>, depth: nat, max: int) {
    forall i :: 0 <= i < |entries| ==> EntryFits(entries[i], depth, max)
  }

  lemma {:induction false} AllFitEntries(entries: seq<Entry>, depth: nat, max: int)
    requires AllFit(entries, depth, max)
    ensures FitEntries(entries, depth, max)
  {
    hide Fits;
    if entries != [] {
      assert EntryFits(entries[0], depth, max);
      forall i | 0 <= i < |entries[1..]|
        ensures EntryFits(entries[1..][i], depth, max)
      {
        assert entries[1..][i] == entries[i + 1];
      }
      AllFitEntries(entries[1..], depth, max);
    }
  }

  /** Emplacing puts one new entry where the keys before it are smaller and those after it larger. */
  lemma {:induction false} EmplaceAt(entries: seq<Entry>, key: Bytes, value: BValue) returns (at: nat)
    requires SortedKeys(entries) && !HasKey(entries, key)
    ensures at <= |entries| && Emplace(entries, key, value) == entries[..at] + [Entry(key, value)] + entries[at..]
    ensures forall i :: 0 <= i < at ==> Less(entries[i].key, key)
    ensures forall i :: at <= i < |entries| ==> Less(key, entries[i].key)
  {
    hide Less;
    var n := |entries| - 1;
    if entries == [] || Less(entries[n].key, key) {
      at := |entries|;
      forall i | 0 <= i < |entries|
        ensures Less(entries[i].key, key)
      {
        if i < n { LessTransitive(entries[i].key, entries[n].key, key); }
      }
      assert entries[..at] == entries && entries[at..] == [];
    } else {
      at := EmplaceAt(entries[..n], key, value);
      LessTotal(entries[n].key, key);
      assert entries[..n][at..] + [entries[n]] == entries[at..] && entries[..n][..at] == entries[..at];
    }
  }

  lemma EmplaceKeeps(entries: seq<Entry>, key: Bytes, value: BValue) returns (at: nat)
    requires SortedKeys(entries) && !HasKey(entries, key)
    ensures at <= |entries| && Emplace(entries, key, value) == entries[..at] + [Entry(key, value)] + entries[at..]
    ensures SortedKeys(Emplace(entries, key, value))
  {
    hide Less, Emplace;
    at := EmplaceAt(entries, key, value);
    var r := Emplace(entries, key, value);
    assert forall k :: 0 <= k < |r| ==> r[k] == if k < at then entries[k] else if k == at then Entry(key, value) else entries[k - 1];
  }

  lemma AssignKeeps(entries: seq<Entry>, key: Bytes, value: BValue, depth: nat, max: int)
    requires SortedKeys(entries) && AllFit(entries, depth, max) && EntryFits(Entry(key, value), depth, max)
    ensures SortedKeys(Assign(entries, key, value)) && AllFit(Assign(entries, key, value), depth, max)
    ensures exists i :: 0 <= i < |Assign(entries, key, value)| && Assign(entries, key, value)[i] == Entry(key, value)
    ensures forall e :: e in entries && e.key != key ==> e in Assign(entries, key, value)
  {
    hide EntryFits, Emplace, IndexOf;
    var i, r := IndexOf(entries, key), Assign(entries, key, value);
    if i >= 0 {
      assert r[i] == Entry(key, value);
      forall e | e in entries && e.key != key
        ensures e in r
      {
        var k :| 0 <= k < |entries| && entries[k] == e;
        assert r[k] == e;
      }
    } else {
      var at := EmplaceKeeps(entries, key, value);
      assert r[at] == Entry(key, value);
      assert entries == entries[..at] + entries[at..];
    }
  }

  lemma SortedIndex(entries: seq<Entry>, i: nat)
    requires SortedKeys(entries) && i < |entries|
    ensures IndexOf(entries, entries[i].key) == i
  {
    var j := IndexOf(entries, entries[i].key);
    if j < i { LessAsymmetric(entries[j].key, entries[i].key); }
    if i < j { LessAsymmetric(entries[i].key, entries[j].key); }
  }

  lemma {:induction false} EntriesMatchAt(entries: seq<Entry>, ws: seq<Entry>, data: Bytes, i: nat)
    requires EntriesMatch(entries, ws, data) && i < |entries|
    ensures |ws| == |entries| && ws[i].key == entries[i].key && Matches(entries[i].value, ws[i].value, data)
  {
    if i > 0 {
      EntriesMatchAt(entries[1..], ws[1..], data, i - 1);
    } else if |entries| > 1 {
      EntriesMatchAt(entries[1..], ws[1..], data, 0);
    }
  }

  /** What a sorted dictionary holds under a key is what its decoding holds there. */
  lemma MatchFind(entries: seq<Entry>, ws: seq<Entry>, data: Bytes, i: nat)
    requires SortedKeys(entries) && EntriesMatch(entries, ws, data) && i < |entries|
    ensures IndexOf(ws, entries[i].key) == i && i < |ws| && Matches(entries[i].value, ws[i].value, data)
  {
    hide Matches, EntriesMatch, Less;
    EntriesMatchAt(entries, ws, data, i);
    forall k | 0 <= k < |entries|
      ensures ws[k].key == entries[k].key
    {
      EntriesMatchAt(entries, ws, data, k);
    }
    assert SortedKeys(ws);
    SortedIndex(ws, i);
  }

  // --- Values taken from a datagram -------------------------------------------------------

  /** v is what the decoder makes of the bytes where v says it sat. */
  ghost predicate Parsed(v: BValue, data: Bytes, depth: nat, max: int) {
    && 0 <= v.rawStart <= |data|
    && ParseValue(data, v.rawStart, depth, max).Ok? && ParseValue(data, v.rawStart, depth, max).value == v
  }

  ghost predicate AllParsed(entries: seq<Entry>, data: Bytes, depth: nat, max: int) {
    forall i :: 0 <= i < |entries| ==> Parsed(entries[i].value, data, depth, max)
  }

  lemma {:induction false} EmplaceParsed(entries: seq<Entry>, key: Bytes, v: BValue, data: Bytes, depth: nat, max: int)
    requires AllParsed(entries, data, depth, max) && Parsed(v, data, depth, max)
    ensures AllParsed(Emplace(entries, key, v), data, depth, max)
  {
    hide Parsed;
    var n := |entries| - 1;
    if entries != [] && !Less(entries[n].key, key) {
      EmplaceParsed(entries[..n], key, v, data, depth, max);
    }
  }

  lemma {:induction false} PairsParsed(data: Bytes, p: nat, depth: nat, max: int, dict: seq<Entry>, previous: seq<Bytes>)
    requires p <= |data| && AllParsed(dict, data, depth + 1, max)
    requires ParsePairs(data, p, depth, max, dict, previous).Ok?
    ensures AllParsed(ParsePairs(data, p, depth, max, dict, previous).value, data, depth + 1, max)
    decreases |data| - p
  {
    hide ParseString, ParseValue, Emplace, HasKey, KeyWarnings, AllParsed;
    if data[p] != E {
      var k := ParseString(data, p);
      var v := ParseValue(data, k.pos, depth + 1, max);
      ValueParsed(data, k.pos, depth + 1, max);
      EmplaceParsed(dict, k.value, v.value, data, depth + 1, max);
      var dict' := if HasKey(dict, k.value) then dict else Emplace(dict, k.value, v.value);
      PairsParsed(data, v.pos, depth, max, dict', [k.value]);
    }
  }

  lemma ValueParsed(data: Bytes, p: nat, depth: nat, max: int)
    requires p <= |data| && ParseValue(data, p, depth, max).Ok?
    ensures Parsed(ParseValue(data, p, depth, max).value, data, depth, max)
  {
  }

  lemma FoundIsParsed(v: BValue, data: Bytes, depth: nat, max: int, key: Bytes)
    requires Parsed(v, data, depth, max) && Find(v, key).Some?
    ensures Parsed(Find(v, key).value, data, depth + 1, max)
  {
    hide ParsePairs, ParseItems, ParseInteger, ParseString, IndexOf;
    var p := v.rawStart;
    assert ParseNode(data, p, depth, max).Ok? && ParseNode(data, p, depth, max).value == v.node;
    assert AllParsed([], data, depth + 1, max);
    PairsParsed(data, p + 1, depth, max, [], []);
  }

  /** The bytes of any decoded value are, by themselves, one whole value at that depth: the same value, moved. */
  lemma SpanStandsAlone(v: BValue, data: Bytes, depth: nat, max: int)
    requires Parsed(v, data, depth, max)
    ensures Whole(RawSpan(v, data), depth, max)
    ensures ParseValue(RawSpan(v, data), 0, depth, max).value == Shift(v, -v.rawStart)
  {
    var p := v.rawStart;
    SpanIsExact(data, p, depth, max);
    var raw := RawSpan(v, data);
    var n := ParseValue(data, p, depth, max).pos - p;
    assert raw == data[p..p + n] && raw[0..n] == raw;
    AgreeSlices(data, p, raw, 0, n);
    ValueAgrees(data, p, raw, 0, depth, max);
  }

  /** raw is one whole value when decoded at this depth. */
  ghost predicate Whole(raw: Bytes, depth: nat, max: int) {
    raw != [] && ParseValue(raw, 0, depth, max).Ok? && ParseValue(raw, 0, depth, max).pos == |raw|
  }

  // --- Messages -----------------------------------------------------------------------------

  const KEY_A: Bytes := [97]
  const KEY_IP: Bytes := [105, 112]
  const KEY_K: Bytes := [107]
  const KEY_R: Bytes := [114]
  const KEY_T: Bytes := [116]
  const KEY_V: Bytes := [118]
  const KEY_Y: Bytes := [121]
  const KEY_CAS: Bytes := [99, 97, 115]
  const KEY_SALT: Bytes := [115, 97, 108, 116]
  const KEY_SEQ: Bytes := [115, 101, 113]
  const KEY_SIG: Bytes := [115, 105, 103]
  const KEY_TOKEN: Bytes := [116, 111, 107, 101, 110]

  /** A value built in code has no span. */
  function Built(node: Node): (v: BValue) {
    BValue(node, -1, 0)
  }

  /** encodeResponse's dictionary; `ip` and `version` are left out when empty. */
  function Response(tid: Bytes, values: seq<Entry>, ip: Bytes, version: Bytes): (v: BValue) {
    Built(Dict(
      (if ip == [] then [] else [Entry(KEY_IP, Built(String(ip)))])
      + [Entry(KEY_R, Built(Dict(values))), Entry(KEY_T, Built(String(tid)))]
      + (if version == [] then [] else [Entry(KEY_V, Built(String(version)))])
      + [Entry(KEY_Y, Built(String(KEY_R)))]))
  }

  lemma KeysInOrder()
    ensures Less(KEY_IP, KEY_R) && Less(KEY_R, KEY_T) && Less(KEY_T, KEY_V) && Less(KEY_V, KEY_Y)
    ensures Less(KEY_IP, KEY_T) && Less(KEY_IP, KEY_V) && Less(KEY_IP, KEY_Y)
    ensures Less(KEY_R, KEY_V) && Less(KEY_R, KEY_Y) && Less(KEY_T, KEY_Y)
  {
  }

  lemma ResponseFits(tid: Bytes, values: seq<Entry>, ip: Bytes, version: Bytes)
    requires |tid| < LENGTH_LIMIT && |ip| < LENGTH_LIMIT && |version| < LENGTH_LIMIT
    requires SortedKeys(values) && AllFit(values, 2, MAX_DEPTH)
    ensures Fits(Response(tid, values, ip, version), 0, MAX_DEPTH)
    ensures SortedKeys(Response(tid, values, ip, version).node.entries)
  {
    hide Less;
    KeysInOrder();
    AllFitEntries(values, 2, MAX_DEPTH);
    assert Fits(Built(Dict(values)), 1, MAX_DEPTH);
    var entries := Response(tid, values, ip, version).node.entries;
    assert AllFit(entries, 1, MAX_DEPTH);
    AllFitEntries(entries, 1, MAX_DEPTH);
  }

  /** Whatever else a reply carries, its getter's decoder finds under r and v exactly the bytes put there. */
  lemma ReplyEchoes(tid: Bytes, values: seq<Entry>, ip: Bytes, version: Bytes, raw: Bytes, i: nat)
    requires |tid| < LENGTH_LIMIT && |ip| < LENGTH_LIMIT && |version| < LENGTH_LIMIT
    requires SortedKeys(values) && AllFit(values, 2, MAX_DEPTH)
    requires i < |values| && values[i] == Entry(KEY_V, Built(PreEncoded(raw)))
    ensures Echoed(Encode(Response(tid, values, ip, version)), raw)
  {
    hide Encode, Fits, AllFit, SortedKeys, Less, IndexOf, EntriesMatch;
    var reply := Response(tid, values, ip, version);
    var entries := reply.node.entries;
    var data := Encode(reply);
    ResponseFits(tid, values, ip, version);
    DecodeOfEncode(reply, MAX_DEPTH);
    var r := if ip == [] then 0 else 1;
    assert entries[r] == Entry(KEY_R, Built(Dict(values)));
    var root := Decode(data, MAX_DEPTH).value;
    MatchFind(entries, root.node.entries, data, r);
    var body := root.node.entries[r].value;
    MatchFind(values, body.node.entries, data, i);
  }

  /** A string or an integer of a reply is found there too. */
  lemma ReplyCarries(tid: Bytes, values: seq<Entry>, ip: Bytes, version: Bytes, key: Bytes, node: Node)
    requires |tid| < LENGTH_LIMIT && |ip| < LENGTH_LIMIT && |version| < LENGTH_LIMIT
    requires SortedKeys(values) && AllFit(values, 2, MAX_DEPTH)
    requires Entry(key, Built(node)) in values && (node.String? || node.Integer?)
    ensures Carries(Encode(Response(tid, values, ip, version)), key, node)
  {
    hide Encode, Fits, AllFit, SortedKeys, Less, IndexOf, EntriesMatch;
    var reply := Response(tid, values, ip, version);
    var entries := reply.node.entries;
    var data := Encode(reply);
    var i :| 0 <= i < |values| && values[i] == Entry(key, Built(node));
    ResponseFits(tid, values, ip, version);
    DecodeOfEncode(reply, MAX_DEPTH);
    var r := if ip == [] then 0 else 1;
    assert entries[r] == Entry(KEY_R, Built(Dict(values)));
    var root := Decode(data, MAX_DEPTH).value;
    MatchFind(entries, root.node.entries, data, r);
    MatchFind(values, root.node.entries[r].value.node.entries, data, i);
  }

  /** Decoding the datagram, r and then `key` leads to this value. */
  ghost predicate Carries(data: Bytes, key: Bytes, node: Node) {
    && Decode(data, MAX_DEPTH).Ok?
    && Find(Decode(data, MAX_DEPTH).value, KEY_R).Some?
    && Find(Find(Decode(data, MAX_DEPTH).value, KEY_R).value, key).Some?
    && Find(Find(Decode(data, MAX_DEPTH).value, KEY_R).value, key).value.node == node
  }

  /** Decoding the datagram, r and then v leads to a value whose span is raw. */
  ghost predicate Echoed(data: Bytes, raw: Bytes) {
    && Decode(data, MAX_DEPTH).Ok?
    && Find(Decode(data, MAX_DEPTH).value, KEY_R).Some?
    && Find(Find(Decode(data, MAX_DEPTH).value, KEY_R).value, KEY_V).Some?
    && RawSpan(Find(Find(Decode(data, MAX_DEPTH).value, KEY_R).value, KEY_V).value, data) == raw
  }

  // --- Storage --------------------------------------------------------------------------------

  datatype MutableItem = MutableItem(publicKey: Bytes, salt: Bytes, signature: Bytes, value: Bytes, sequence: int)

  /** Ed25519 as far as this node can tell. */
  datatype Verdict = Unavailable | Bad | Good

  datatype PutReply = Accepted | NotAQuery | BadToken | BadValue | TooBig | BadKey | SaltTooLong | NeedsSequence
                    | NotSupported | InvalidSignature | CasMismatch | SequenceTooLow

  const SALT_PREFIX: Bytes := [52, 58, 115, 97, 108, 116]
  const SEQ_PREFIX: Bytes := [51, 58, 115, 101, 113, 105]
  const V_PREFIX: Bytes := [101, 49, 58, 118]

  /** What a mutable item's signature covers. */
  function SigningBuffer(salt: Bytes, sequence: int, raw: Bytes): (b: Bytes) {
    (if salt == [] then [] else SALT_PREFIX + EncodeString(salt)) + SEQ_PREFIX + Number(sequence) + V_PREFIX + raw
  }

  function SaltOf(args: BValue): Bytes {
    if StringAt(args, KEY_SALT).Some? then StringAt(args, KEY_SALT).value else []
  }

  /** A put with a valid token and a value of a size that can be stored. */
  predicate WellFormed(datagram: Bytes, tokenValid: Bytes -> bool) {
    var args, raw := Arguments(datagram), SentBytes(datagram);
    && args.node.Dict?
    && StringAt(args, KEY_TOKEN).Some? && tokenValid(StringAt(args, KEY_TOKEN).value)
    && 0 < |raw| <= MAX_VALUE_BYTES
  }

  /** A stored item, of either kind. */
  datatype Slot = Fixed(target: NodeId) | Signed(target: NodeId)

  /** Every item has its time, and nothing else has one. */
  ghost predicate Dated(fixed: set<NodeId>, signed: set<NodeId>, at: map<Slot, int>) {
    forall x :: x in at <==> match x case Fixed(t) => t in fixed case Signed(t) => t in signed
  }

  lemma DatedPut(fixed: set<NodeId>, signed: set<NodeId>, at: map<Slot, int>, t: NodeId, now: int)
    requires Dated(fixed, signed, at)
    ensures Dated(fixed + {t}, signed, at[Fixed(t) := now]) && Dated(fixed, signed + {t}, at[Signed(t) := now])
    ensures Fixed(t) in at <==> t in fixed
    ensures Signed(t) in at <==> t in signed
  {
  }

  lemma DatedErase(fixed: set<NodeId>, signed: set<NodeId>, at: map<Slot, int>, x: Slot)
    requires Dated(fixed, signed, at) && x in at
    ensures x.Fixed? ==> x.target in fixed && Dated(fixed - {x.target}, signed, at - {x})
    ensures x.Signed? ==> x.target in signed && Dated(fixed, signed - {x.target}, at - {x})
  {
  }

  /** At most one item went, the one stored longest ago, and only to make room. */
  ghost predicate MadeRoom(before: map<Slot, int>, after: map<Slot, int>, full: bool) {
    forall s :: s in before && s !in after ==>
      && full && (forall x :: x in before ==> before[s] <= before[x])
      && (forall x :: x in before && x !in after ==> x == s)
  }

  class ItemNode {
    const sha1: Bytes -> NodeId
    const verify: (Bytes, Bytes, Bytes) -> Verdict
    var immutables: map<NodeId, Bytes>
    var mutables: map<NodeId, MutableItem>
    /** When each item was last put. */
    var storedAt: map<Slot, int>

    ghost predicate Storable(raw: Bytes) {
      Whole(raw, 2, MAX_DEPTH) && |raw| <= MAX_VALUE_BYTES
    }

    /** Immutable items hash to their target; mutable ones are signed, and filed under key and salt. */
    ghost predicate Valid()
      reads this
    {
      && FixedOk(immutables) && SignedOk(mutables) && Dated(immutables.Keys, mutables.Keys, storedAt)
      && |immutables| + |mutables| <= MAX_ITEMS
    }

    ghost predicate FixedOk(items: map<NodeId, Bytes>) {
      forall t :: t in items ==> Storable(items[t]) && sha1(items[t]) == t
    }

    ghost predicate SignedOk(items: map<NodeId, MutableItem>) {
      forall t :: t in items ==> MutableOk(t, items[t])
    }

    lemma FixedKeeps(items: map<NodeId, Bytes>, t: NodeId, raw: Bytes)
      requires FixedOk(items)
      ensures FixedOk(items - {t}) && (Storable(raw) && sha1(raw) == t ==> FixedOk(items[t := raw]))
      ensures t in items ==> |items - {t}| == |items| - 1
      ensures t !in items ==> |items[t := raw]| == |items| + 1
      ensures (items - {t}).Keys == items.Keys - {t} && items[t := raw].Keys == items.Keys + {t}
    {
      hide Storable;
      assert (items - {t}).Keys == items.Keys - {t} && items[t := raw].Keys == items.Keys + {t};
    }

    lemma SignedKeeps(items: map<NodeId, MutableItem>, t: NodeId, item: MutableItem)
      requires SignedOk(items)
      ensures SignedOk(items - {t}) && (MutableOk(t, item) ==> SignedOk(items[t := item]))
      ensures t in items ==> |items - {t}| == |items| - 1 && |items[t := item]| == |items|
      ensures t !in items ==> |items[t := item]| == |items| + 1
      ensures (items - {t}).Keys == items.Keys - {t} && items[t := item].Keys == items.Keys + {t}
    {
      hide MutableOk;
      assert (items - {t}).Keys == items.Keys - {t} && items[t := item].Keys == items.Keys + {t};
      if t in items {
        assert items.Keys + {t} == items.Keys;
      }
    }

    ghost predicate Full()
      reads this
    {
      |immutables| + |mutables| == MAX_ITEMS
    }

    ghost predicate MutableOk(t: NodeId, item: MutableItem) {
      && Storable(item.value) && InRange(item.sequence)
      && |item.publicKey| == PUBLIC_KEY_BYTES && |item.signature| == SIGNATURE_BYTES && |item.salt| <= MAX_SALT_BYTES
      && t == sha1(item.publicKey + item.salt)
      && verify(item.signature, SigningBuffer(item.salt, item.sequence, item.value), item.publicKey) == Good
    }

    constructor (sha1: Bytes -> NodeId, verify: (Bytes, Bytes, Bytes) -> Verdict)
      ensures Valid() && immutables == map[] && mutables == map[] && storedAt == map[]
    {
      this.sha1, this.verify := sha1, verify;
      immutables, mutables, storedAt := map[], map[], map[];
    }

    /** The item stored longest ago. */
    method Oldest() returns (victim: Slot)
      requires storedAt.Keys != {}
      ensures victim in storedAt && forall x :: x in storedAt ==> storedAt[victim] <= storedAt[x]
    {
      var todo := storedAt.Keys;
      victim :| victim in todo;
      while todo != {}
        invariant todo <= storedAt.Keys && victim in storedAt
        invariant forall x :: x in storedAt && x !in todo ==> storedAt[victim] <= storedAt[x]
      {
        var x :| x in todo;
        if storedAt[x] < storedAt[victim] {
          victim := x;
        }
        todo := todo - {x};
      }
    }

    /** Drops the item stored longest ago when full. */
    method MakeRoom()
      requires Valid()
      modifies this
      ensures Valid() && |immutables| + |mutables| < MAX_ITEMS
      ensures forall t :: t in immutables ==> t in old(immutables) && immutables[t] == old(immutables)[t]
      ensures forall t :: t in mutables ==> t in old(mutables) && mutables[t] == old(mutables)[t]
      ensures forall x :: x in storedAt ==> x in old(storedAt) && storedAt[x] == old(storedAt)[x]
      ensures MadeRoom(old(storedAt), storedAt, old(Full()))
    {
      hide FixedOk, SignedOk, Dated;
      if |immutables| + |mutables| < MAX_ITEMS {
        return;
      }
      Occupied();
      var victim := Oldest();
      Erase(victim);
    }

    lemma Occupied()
      requires Valid() && Full()
      ensures storedAt.Keys != {}
    {
      hide FixedOk, SignedOk;
      if immutables.Keys != {} {
        var t :| t in immutables.Keys;
        assert Fixed(t) in storedAt;
      } else {
        assert |immutables| == |immutables.Keys| == 0;
        assert mutables.Keys != {};
        var t :| t in mutables.Keys;
        assert Signed(t) in storedAt;
      }
    }

    method PutImmutable(raw: Bytes, now: int)
      requires Valid() && Storable(raw)
      modifies this
      ensures Valid() && sha1(raw) in immutables && storedAt[Fixed(sha1(raw))] == now
      ensures sha1(raw) !in old(immutables) ==> immutables[sha1(raw)] == raw
      // Known bytes are refreshed, and nothing else changes.
      ensures sha1(raw) in old(immutables) ==>
                immutables == old(immutables) && mutables == old(mutables) && storedAt == old(storedAt)[Fixed(sha1(raw)) := now]
      ensures forall t :: t in immutables && t != sha1(raw) ==> t in old(immutables) && immutables[t] == old(immutables)[t]
      ensures forall t :: t in mutables ==> t in old(mutables) && mutables[t] == old(mutables)[t]
      ensures forall x :: x in storedAt && x != Fixed(sha1(raw)) ==> x in old(storedAt) && storedAt[x] == old(storedAt)[x]
      ensures MadeRoom(old(storedAt), storedAt, old(Full()))
    {
      hide Storable, Valid;
      var target := sha1(raw);
      if target in immutables {
        RefreshFixed(target, now);
      } else {
        MakeRoom();
        StoreFixed(raw, now);
      }
    }

    method StoreFixed(raw: Bytes, now: int)
      requires Valid() && Storable(raw) && sha1(raw) !in immutables && |immutables| + |mutables| < MAX_ITEMS
      modifies `immutables, `storedAt
      ensures Valid() && immutables == old(immutables)[sha1(raw) := raw] && storedAt == old(storedAt)[Fixed(sha1(raw)) := now]
    {
      hide Storable, FixedOk, SignedOk, Dated;
      FixedKeeps(immutables, sha1(raw), raw);
      DatedPut(immutables.Keys, mutables.Keys, storedAt, sha1(raw), now);
      immutables := immutables[sha1(raw) := raw];
      storedAt := storedAt[Fixed(sha1(raw)) := now];
    }

    method RefreshFixed(target: NodeId, now: int)
      requires Valid() && target in immutables
      modifies `storedAt
      ensures Valid() && storedAt == old(storedAt)[Fixed(target) := now]
    {
      hide Storable, FixedOk, SignedOk, Dated;
      DatedPut(immutables.Keys, mutables.Keys, storedAt, target, now);
      assert immutables.Keys + {target} == immutables.Keys;
      storedAt := storedAt[Fixed(target) := now];
    }

    /** A newer sequence number replaces, the same refreshes, an older one is refused. */
    method PutMutable(target: NodeId, item: MutableItem, cas: Option<int>, now: int) returns (reply: PutReply)
      requires Valid() && MutableOk(target, item)
      modifies this
      ensures Valid()
      ensures reply ==
              if cas.Some? && (target !in old(mutables) || old(mutables)[target].sequence != cas.value) then CasMismatch
              else if target in old(mutables) && item.sequence < old(mutables)[target].sequence then SequenceTooLow
              else Accepted
      ensures reply != Accepted ==> unchanged(this)
      ensures reply == Accepted ==>
                && target in mutables && mutables[target].sequence == item.sequence && storedAt[Signed(target)] == now
      ensures reply == Accepted ==>
                mutables[target] == if Held(old(mutables), target, item.sequence) then old(mutables)[target] else item
      ensures target in old(mutables) ==> target in mutables && mutables[target].sequence >= old(mutables)[target].sequence
      ensures forall t :: t in immutables ==> t in old(immutables) && immutables[t] == old(immutables)[t]
      ensures forall t :: t in mutables && t != target ==> t in old(mutables) && mutables[t] == old(mutables)[t]
      ensures forall x :: x in storedAt && x != Signed(target) ==> x in old(storedAt) && storedAt[x] == old(storedAt)[x]
      ensures MadeRoom(old(storedAt), storedAt, old(Full()))
    {
      hide MutableOk, Valid;
      if target in mutables {
        var held := mutables[target];
        if cas.Some? && held.sequence != cas.value {
          return CasMismatch;
        }
        if item.sequence < held.sequence {
          return SequenceTooLow;
        }
        if item.sequence > held.sequence {
          Store(target, item, now);
        } else {
          Refresh(target, now);
        }
        return Accepted;
      }
      if cas.Some? {
        return CasMismatch;
      }
      MakeRoom();
      Store(target, item, now);
      return Accepted;
    }

    /** Exactly the items put too long ago go. */
    method Expire(now: int)
      requires Valid()
      modifies this
      ensures Valid()
      ensures forall x :: x in storedAt <==> x in old(storedAt) && now - old(storedAt)[x] < ITEM_TTL_MS
      ensures forall x :: x in storedAt ==> storedAt[x] == old(storedAt)[x]
      ensures forall t :: t in immutables ==> t in old(immutables) && immutables[t] == old(immutables)[t]
      ensures forall t :: t in mutables ==> t in old(mutables) && mutables[t] == old(mutables)[t]
    {
      hide Valid;
      var todo := storedAt.Keys;
      while todo != {}
        invariant Valid() && todo <= storedAt.Keys <= old(storedAt).Keys
        invariant forall x :: x in old(storedAt) && x !in todo ==> (x in storedAt <==> now - old(storedAt)[x] < ITEM_TTL_MS)
        invariant forall x :: x in storedAt ==> storedAt[x] == old(storedAt)[x]
        invariant forall t :: t in immutables ==> t in old(immutables) && immutables[t] == old(immutables)[t]
        invariant forall t :: t in mutables ==> t in old(mutables) && mutables[t] == old(mutables)[t]
      {
        var x :| x in todo;
        todo := todo - {x};
        if now - storedAt[x] >= ITEM_TTL_MS {
          Erase(x);
        }
      }
    }

    method Erase(x: Slot)
      requires Valid() && x in storedAt
      modifies this
      ensures Valid() && storedAt == old(storedAt) - {x} && |immutables| + |mutables| == old(|immutables| + |mutables|) - 1
      ensures forall t :: t in immutables ==> t in old(immutables) && immutables[t] == old(immutables)[t]
      ensures forall t :: t in mutables ==> t in old(mutables) && mutables[t] == old(mutables)[t]
    {
      hide Valid;
      match x
      case Fixed(t) => EraseFixed(t);
      case Signed(t) => EraseSigned(t);
    }

    method EraseFixed(t: NodeId)
      requires Valid() && Fixed(t) in storedAt
      modifies `immutables, `storedAt
      ensures Valid() && storedAt == old(storedAt) - {Fixed(t)}
      ensures immutables == old(immutables) - {t} && |immutables| == |old(immutables)| - 1
    {
      hide FixedOk, SignedOk, Dated;
      DatedErase(immutables.Keys, mutables.Keys, storedAt, Fixed(t));
      FixedKeeps(immutables, t, []);
      immutables := immutables - {t};
      storedAt := storedAt - {Fixed(t)};
    }

    method EraseSigned(t: NodeId)
      requires Valid() && Signed(t) in storedAt
      modifies `mutables, `storedAt
      ensures Valid() && storedAt == old(storedAt) - {Signed(t)}
      ensures mutables == old(mutables) - {t} && |mutables| == |old(mutables)| - 1
    {
      hide FixedOk, SignedOk, Dated;
      DatedErase(immutables.Keys, mutables.Keys, storedAt, Signed(t));
      SignedKeeps(mutables, t, MutableItem([], [], [], [], 0));
      mutables := mutables - {t};
      storedAt := storedAt - {Signed(t)};
    }

    /** Stores an item where there is one already, or room for one. */
    method Store(target: NodeId, item: MutableItem, now: int)
      requires Valid() && MutableOk(target, item) && (target in mutables || |immutables| + |mutables| < MAX_ITEMS)
      modifies `mutables, `storedAt
      ensures Valid() && mutables == old(mutables)[target := item] && storedAt == old(storedAt)[Signed(target) := now]
    {
      hide MutableOk, FixedOk, SignedOk, Dated;
      SignedKeeps(mutables, target, item);
      DatedPut(immutables.Keys, mutables.Keys, storedAt, target, now);
      mutables := mutables[target := item];
      storedAt := storedAt[Signed(target) := now];
    }

    method Refresh(target: NodeId, now: int)
      requires Valid() && target in mutables
      modifies `storedAt
      ensures Valid() && storedAt == old(storedAt)[Signed(target) := now]
    {
      hide MutableOk, FixedOk, SignedOk, Dated;
      DatedPut(immutables.Keys, mutables.Keys, storedAt, target, now);
      assert mutables.Keys + {target} == mutables.Keys;
      storedAt := storedAt[Signed(target) := now];
    }

    /** An item with as high a sequence number is held already. */
    ghost predicate Held(items: map<NodeId, MutableItem>, target: NodeId, sequence: int) {
      target in items && items[target].sequence >= sequence
    }

    /** Where a signed item is filed: under the hash of its key and salt. */
    function ItemTarget(args: BValue): NodeId {
      match StringAt(args, KEY_K)
      case Some(key) => sha1(key + SaltOf(args))
      case None => sha1([])
    }

    /** The item these arguments describe was signed by its key over exactly these
        bytes, and its sequence number is now the one held. */
    ghost predicate Put(args: BValue, raw: Bytes, items: map<NodeId, MutableItem>) {
      var key, sequence, signature := StringAt(args, KEY_K), IntegerAt(args, KEY_SEQ), StringAt(args, KEY_SIG);
      && key.Some? && sequence.Some? && signature.Some?
      && verify(signature.value, SigningBuffer(SaltOf(args), sequence.value, raw), key.value) == Good
      && ItemTarget(args) in items && items[ItemTarget(args)].sequence == sequence.value
    }

    /** A signed put with all it needs, whose signature holds, past compare-and-swap and
        with no lower sequence number than the one held. */
    ghost predicate Acceptable(args: BValue, raw: Bytes, items: map<NodeId, MutableItem>) {
      var key, sequence, signature := StringAt(args, KEY_K), IntegerAt(args, KEY_SEQ), StringAt(args, KEY_SIG);
      var cas, target := IntegerAt(args, KEY_CAS), ItemTarget(args);
      && key.Some? && |key.value| == PUBLIC_KEY_BYTES && |SaltOf(args)| <= MAX_SALT_BYTES
      && sequence.Some? && signature.Some? && |signature.value| == SIGNATURE_BYTES
      && verify(signature.value, SigningBuffer(SaltOf(args), sequence.value, raw), key.value) == Good
      && (cas.Some? ==> target in items && items[target].sequence == cas.value)
      && (target in items ==> items[target].sequence <= sequence.value)
    }

    /** Nothing with as high a sequence number was held. */
    ghost predicate Newer(args: BValue, items: map<NodeId, MutableItem>) {
      ItemTarget(args) !in items ||
      (IntegerAt(args, KEY_SEQ).Some? && items[ItemTarget(args)].sequence < IntegerAt(args, KEY_SEQ).value)
    }

    /** A put query: on success the value is stored as the bytes it was sent in. */
    method HandlePut(datagram: Bytes, tokenValid: Bytes -> bool, now: int) returns (reply: PutReply, ghost raw: Bytes)
      requires Valid()
      modifies this
      ensures Valid()
      ensures reply != Accepted ==> unchanged(this)
      ensures reply == Accepted ==> SentAs(datagram, raw) && |raw| <= MAX_VALUE_BYTES
      ensures reply == Accepted ==> WellFormed(datagram, tokenValid)
      ensures WellFormed(datagram, tokenValid) && StringAt(Arguments(datagram), KEY_K).None? ==> reply == Accepted
      ensures reply == Accepted && StringAt(Arguments(datagram), KEY_K).None? ==>
                && sha1(raw) in immutables
                && (sha1(raw) !in old(immutables) ==> immutables[sha1(raw)] == raw)
      ensures WellFormed(datagram, tokenValid) && StringAt(Arguments(datagram), KEY_K).Some? ==>
                (reply == Accepted <==> Acceptable(Arguments(datagram), SentBytes(datagram), old(mutables)))
      ensures reply == Accepted && StringAt(Arguments(datagram), KEY_K).Some? ==>
                && Put(Arguments(datagram), raw, mutables)
                && (Newer(Arguments(datagram), old(mutables)) ==> mutables[ItemTarget(Arguments(datagram))].value == raw)
    {
      hide Decode, IndexOf, Whole, SigningBuffer;
      raw := [];
      var decoded := Decode(datagram, MAX_DEPTH);
      if decoded.Fail? || Find(decoded.value, KEY_A).None? || !Find(decoded.value, KEY_A).value.node.Dict? {
        return NotAQuery, raw;
      }
      var args := Find(decoded.value, KEY_A).value;
      var token := StringAt(args, KEY_TOKEN);
      if token.None? || !tokenValid(token.value) {
        return BadToken, raw;
      }
      if Find(args, KEY_V).None? {
        return BadValue, raw;
      }
      var bytes := RawSpan(Find(args, KEY_V).value, datagram);
      ArgumentStandsAlone(datagram);
      raw := bytes;
      if bytes == [] {
        return BadValue, raw;
      }
      if |bytes| > MAX_VALUE_BYTES {
        return TooBig, raw;
      }
      var key := StringAt(args, KEY_K);
      if key.None? {
        PutImmutable(bytes, now);
        return Accepted, raw;
      }
      reply := PutSigned(args, key.value, bytes, now);
    }

    method PutSigned(args: BValue, key: Bytes, bytes: Bytes, now: int) returns (reply: PutReply)
      requires Valid() && Storable(bytes) && (forall n :: IntegerAt(args, KEY_SEQ) == Some(n) ==> InRange(n))
      requires StringAt(args, KEY_K) == Some(key)
      modifies this
      ensures Valid() && (reply != Accepted ==> unchanged(this))
      ensures reply == Accepted <==> Acceptable(args, bytes, old(mutables))
      ensures reply == Accepted ==> Put(args, bytes, mutables)
      ensures reply == Accepted && Newer(args, old(mutables)) ==> mutables[ItemTarget(args)].value == bytes
    {
      hide IndexOf, Whole, SigningBuffer;
      if |key| != PUBLIC_KEY_BYTES {
        return BadKey;
      }
      var salt := SaltOf(args);
      if |salt| > MAX_SALT_BYTES {
        return SaltTooLong;
      }
      var sequence, signature := IntegerAt(args, KEY_SEQ), StringAt(args, KEY_SIG);
      if sequence.None? || signature.None? || |signature.value| != SIGNATURE_BYTES {
        return NeedsSequence;
      }
      var verdict := verify(signature.value, SigningBuffer(salt, sequence.value, bytes), key);
      if verdict == Unavailable {
        return NotSupported;
      }
      if verdict == Bad {
        return InvalidSignature;
      }
      var item := MutableItem(key, salt, signature.value, bytes, sequence.value);
      reply := PutMutable(sha1(key + salt), item, IntegerAt(args, KEY_CAS), now);
    }

    /** A get reply: whatever is stored under the target is echoed byte for byte. */
    method HandleGet(target: NodeId, knownSequence: Option<int>, base: seq<Entry>, tid: Bytes, ip: Bytes, version: Bytes)
      returns (datagram: Bytes)
      requires Valid() && SortedKeys(base) && AllFit(base, 2, MAX_DEPTH)
      requires |tid| < LENGTH_LIMIT && |ip| < LENGTH_LIMIT && |version| < LENGTH_LIMIT
      ensures target in immutables ==> Echoed(datagram, immutables[target])
      ensures target !in immutables && target in mutables
              && (knownSequence.None? || mutables[target].sequence > knownSequence.value) ==>
                && Echoed(datagram, mutables[target].value)
                && Carries(datagram, KEY_SIG, String(mutables[target].signature))
      // The key and the sequence number go with a signed item even if the getter has it already.
      ensures target !in immutables && target in mutables ==>
                && Carries(datagram, KEY_K, String(mutables[target].publicKey))
                && Carries(datagram, KEY_SEQ, Integer(mutables[target].sequence))
    {
      hide Carries, IndexOf, Emplace, Less, SortedKeys, AllFit, Encode, Echoed, Assign, SigningBuffer;
      var values := base;
      if target in immutables {
        values := WithPreEncoded(values, immutables[target]);
        ghost var i :| 0 <= i < |values| && values[i] == Entry(KEY_V, Built(PreEncoded(immutables[target])));
        ReplyEchoes(tid, values, ip, version, immutables[target], i);
      } else if target in mutables {
        var item := mutables[target];
        values := WithField(values, KEY_K, String(item.publicKey));
        values := WithField(values, KEY_SEQ, Integer(item.sequence));
        if knownSequence.None? || item.sequence > knownSequence.value {
          values := WithField(values, KEY_SIG, String(item.signature));
          values := WithPreEncoded(values, item.value);
          ghost var i :| 0 <= i < |values| && values[i] == Entry(KEY_V, Built(PreEncoded(item.value)));
          ReplyEchoes(tid, values, ip, version, item.value, i);
          ReplyCarries(tid, values, ip, version, KEY_SIG, String(item.signature));
        }
        ReplyCarries(tid, values, ip, version, KEY_K, String(item.publicKey));
        ReplyCarries(tid, values, ip, version, KEY_SEQ, Integer(item.sequence));
      }
      datagram := Encode(Response(tid, values, ip, version));
    }

    method WithField(values: seq<Entry>, key: Bytes, node: Node) returns (r: seq<Entry>)
      requires SortedKeys(values) && AllFit(values, 2, MAX_DEPTH) && EntryFits(Entry(key, Built(node)), 2, MAX_DEPTH)
      ensures SortedKeys(r) && AllFit(r, 2, MAX_DEPTH)
      ensures Entry(key, Built(node)) in r && forall e :: e in values && e.key != key ==> e in r
    {
      hide SortedKeys, AllFit, EntryFits;
      AssignKeeps(values, key, Built(node), 2, MAX_DEPTH);
      r := Assign(values, key, Built(node));
    }

    method WithPreEncoded(values: seq<Entry>, raw: Bytes) returns (r: seq<Entry>)
      requires SortedKeys(values) && AllFit(values, 2, MAX_DEPTH) && Storable(raw)
      ensures SortedKeys(r) && AllFit(r, 2, MAX_DEPTH)
      ensures exists i :: 0 <= i < |r| && r[i] == Entry(KEY_V, Built(PreEncoded(raw)))
      ensures forall e :: e in values && e.key != KEY_V ==> e in r
    {
      hide SortedKeys, AllFit;
      AssignKeeps(values, KEY_V, Built(PreEncoded(raw)), 2, MAX_DEPTH);
      r := Assign(values, KEY_V, Built(PreEncoded(raw)));
    }
  }

  /** The argument dictionary of a query datagram. */
  function Arguments(datagram: Bytes): (v: BValue) {
    var decoded := Decode(datagram, MAX_DEPTH);
    if decoded.Ok? && Find(decoded.value, KEY_A).Some? then Find(decoded.value, KEY_A).value else Built(Invalid)
  }

  /** raw is the very span of a, then v, in the datagram. */
  ghost predicate SentAs(datagram: Bytes, raw: Bytes) {
    Find(Arguments(datagram), KEY_V).Some? && RawSpan(Find(Arguments(datagram), KEY_V).value, datagram) == raw
  }

  lemma ArgumentStandsAlone(datagram: Bytes)
    requires Decode(datagram, MAX_DEPTH).Ok? && Find(Decode(datagram, MAX_DEPTH).value, KEY_A).Some?
    requires Find(Arguments(datagram), KEY_V).Some?
    ensures Whole(RawSpan(Find(Arguments(datagram), KEY_V).value, datagram), 2, MAX_DEPTH)
    ensures forall n :: IntegerAt(Arguments(datagram), KEY_SEQ) == Some(n) ==> InRange(n)
  {
    hide ParseValue, IndexOf, Whole, RawSpan;
    var root := Decode(datagram, MAX_DEPTH).value;
    ValueParsed(datagram, 0, 0, MAX_DEPTH);
    FoundIsParsed(root, datagram, 0, MAX_DEPTH, KEY_A);
    var args := Arguments(datagram);
    FoundIsParsed(args, datagram, 1, MAX_DEPTH, KEY_V);
    SpanStandsAlone(Find(args, KEY_V).value, datagram, 2, MAX_DEPTH);
    if IntegerAt(args, KEY_SEQ).Some? {
      FoundIsParsed(args, datagram, 1, MAX_DEPTH, KEY_SEQ);
      ParsedIntegerInRange(Find(args, KEY_SEQ).value, datagram, 2, MAX_DEPTH);
    }
  }

  lemma ParsedIntegerInRange(v: BValue, data: Bytes, depth: nat, max: int)
    requires Parsed(v, data, depth, max) && v.node.Integer?
    ensures InRange(v.node.n)
  {
    hide ParseItems, ParsePairs, ParseString;
    assert ParseNode(data, v.rawStart, depth, max).value == v.node;
  }

  /**
   Put, then get: the value an accepted put carried, canonical or not, comes back to any
   getter as the span of v in the reply, byte for byte; or, if its target was already
   taken, the bytes stored first, which have the same hash or the same sequence number.
   */
  method PutThenGet(node: ItemNode, datagram: Bytes, tokenValid: Bytes -> bool, now: int,
                    base: seq<Entry>, tid: Bytes, ip: Bytes, version: Bytes)
    returns (reply: PutReply, answer: Bytes, ghost raw: Bytes, ghost stored: Bytes)
    requires node.Valid() && SortedKeys(base) && AllFit(base, 2, MAX_DEPTH)
    requires |tid| < LENGTH_LIMIT && |ip| < LENGTH_LIMIT && |version| < LENGTH_LIMIT
    modifies node
    ensures reply == Accepted ==> SentAs(datagram, raw)
    ensures reply == Accepted && StringAt(Arguments(datagram), KEY_K).None? ==>
              && Echoed(answer, stored) && node.sha1(stored) == node.sha1(raw)
              && (node.sha1(raw) !in old(node.immutables) ==> stored == raw)
    // A signed item, unless some immutable value has the very hash it is filed under.
    ensures reply == Accepted && StringAt(Arguments(datagram), KEY_K).Some?
            && node.ItemTarget(Arguments(datagram)) !in node.immutables ==>
              Echoed(answer, stored) && (node.Newer(Arguments(datagram), old(node.mutables)) ==> stored == raw)
  {
    hide Decode, IndexOf, Echoed, SentAs, Whole, SigningBuffer, WellFormed;
    reply, raw := node.HandlePut(datagram, tokenValid, now);
    answer, stored := [], [];
    if reply != Accepted {
      return;
    }
    if StringAt(Arguments(datagram), KEY_K).None? {
      var target := node.sha1(SentBytes(datagram));
      SentBytesAre(datagram, raw);
      stored := node.immutables[target];
      answer := node.HandleGet(target, None, base, tid, ip, version);
    } else {
      var target := node.ItemTarget(Arguments(datagram));
      stored := node.mutables[target].value;
      answer := node.HandleGet(target, None, base, tid, ip, version);
    }
  }

  function SentBytes(datagram: Bytes): (raw: Bytes) {
    match Find(Arguments(datagram), KEY_V)
    case Some(v) => RawSpan(v, datagram)
    case None => []
  }

  lemma SentBytesAre(datagram: Bytes, raw: Bytes)
    requires SentAs(datagram, raw)
    ensures SentBytes(datagram) == raw
  {
  }
}
