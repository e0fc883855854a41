/** The decoder and the encoder undo each other, both ways round. */
module BencodeLaws {
  import opened Endpoints
  import opened Bencode
  import opened BencodeContext

  /** `bytes` stand in data at p. */
  ghost predicate At(data: Bytes, p: nat, bytes: Bytes) {
    Agree(bytes, 0, data, p, |bytes|)
  }

  lemma AtSplit(data: Bytes, p: nat, a: Bytes, b: Bytes)
    requires At(data, p, a + b)
    ensures At(data, p, a) && At(data, p + |a|, b)
  {
    assert forall i :: 0 <= i < |a| ==> a[i] == (a + b)[i];
    assert forall i :: 0 <= i < |b| ==> b[i] == (a + b)[|a| + i];
    forall i | 0 <= i < |b|
      ensures b[i] == data[i - 0 + (p + |a|)]
    {
      assert (a + b)[|a| + i] == data[|a| + i - 0 + p];
    }
  }

  lemma AtStart(data: Bytes, p: nat, a: Bytes)
    requires At(data, p, a)
    ensures p + |a| <= |data| && data[p..p + |a|] == a
  {
  }

  // --- Decimal numbers ----------------------------------------------------------------

  lemma {:induction false} DecimalShape(n: nat)
    ensures forall i :: 0 <= i < |Decimal(n)| ==> IsDigit(Decimal(n)[i])
    ensures |Decimal(n)| > 1 || n > 0 ==> Decimal(n)[0] != ZERO
  {
    if n >= 10 { DecimalShape(n / 10); }
  }

  function Pow10(k: nat): (r: nat) {
    if k == 0 then 1 else 10 * Pow10(k - 1)
  }

  lemma {:induction false} DecimalLength(n: nat, k: nat)
    requires 1 <= k && n < Pow10(k)
    ensures |Decimal(n)| <= k
  {
    if n >= 10 { DecimalLength(n / 10, k - 1); }
  }

  /** Lengths below this have at most ten digits. */
  const LENGTH_LIMIT := 10_000_000_000

  lemma TenDigits(n: nat)
    requires n < LENGTH_LIMIT
    ensures |Decimal(n)| <= 10
  {
    assert Pow10(5) == 100_000;
    assert Pow10(10) == 10 * (10 * (10 * (10 * (10 * Pow10(5)))));
    DecimalLength(n, 10);
  }

  lemma {:induction false} MagnitudeOfDecimal(data: Bytes, p: nat, n: nat)
    requires n <= MAX_UINT64 && At(data, p, Decimal(n))
    ensures Magnitude(data, p, 0) == Magnitude(data, p + |Decimal(n)|, n)
  {
    if n < 10 {
      assert data[p] == Decimal(n)[0];
    } else {
      AtSplit(data, p, Decimal(n / 10), [ZERO + n % 10]);
      MagnitudeOfDecimal(data, p, n / 10);
      var q := p + |Decimal(n / 10)|;
      AgreeAt([ZERO + n % 10], 0, data, q, 1, 0);
      assert data[q] == ZERO + n % 10;
    }
  }

  lemma {:induction false} LengthOfDecimal(data: Bytes, p: nat, n: nat)
    requires At(data, p, Decimal(n)) && |Decimal(n)| <= 10
    ensures Length(data, p, p, 0) == Length(data, p, p + |Decimal(n)|, n)
  {
    if n < 10 {
      assert data[p] == Decimal(n)[0];
    } else {
      AtSplit(data, p, Decimal(n / 10), [ZERO + n % 10]);
      LengthOfDecimal(data, p, n / 10);
      var q := p + |Decimal(n / 10)|;
      AgreeAt([ZERO + n % 10], 0, data, q, 1, 0);
      assert data[q] == ZERO + n % 10;
    }
  }

  /** Digits read after a nonzero start spell the number in canonical form. */
  lemma {:induction false} MagnitudeSpells(data: Bytes, s: nat, p: nat, acc: nat)
    requires s < p <= |data| && 0 < acc <= MAX_UINT64 && Decimal(acc) == data[s..p]
    requires Magnitude(data, p, acc).Done?
    ensures var r := Magnitude(data, p, acc); Decimal(r.value) == data[s..r.pos]
    decreases |data| - p
  {
    if p < |data| && IsDigit(data[p]) {
      assert data[s..p + 1] == data[s..p] + [data[p]];
      MagnitudeSpells(data, s, p + 1, acc * 10 + (data[p] - ZERO));
    }
  }

  lemma {:induction false} LengthSpells(data: Bytes, s: nat, p: nat, acc: nat)
    requires s < p <= |data| && 0 < acc && p - s <= 10 && Decimal(acc) == data[s..p]
    requires Length(data, s, p, acc).Done?
    ensures var r := Length(data, s, p, acc); Decimal(r.value) == data[s..r.pos]
    decreases |data| - p
  {
    if p < |data| && IsDigit(data[p]) {
      assert data[s..p + 1] == data[s..p] + [data[p]];
      LengthSpells(data, s, p + 1, acc * 10 + data[p] - ZERO);
    }
  }

  /** Digits with no leading zero are the number's own spelling. */
  lemma CanonicalMagnitude(data: Bytes, s: nat)
    requires s < |data|
    requires var r := Magnitude(data, s, 0); r.Done? && r.pos > s && (r.pos - s > 1 ==> data[s] != ZERO)
    ensures var r := Magnitude(data, s, 0); Decimal(r.value) == data[s..r.pos]
  {
    var r := Magnitude(data, s, 0);
    var d := data[s] - ZERO;
    assert r == Magnitude(data, s + 1, d);
    assert data[s..s + 1] == [data[s]] == Decimal(d);
    if d > 0 {
      MagnitudeSpells(data, s, s + 1, d);
    }
  }

  lemma CanonicalLength(data: Bytes, s: nat)
    requires s < |data|
    requires var r := Length(data, s, s, 0); r.Done? && r.pos > s && (r.pos - s > 1 ==> data[s] != ZERO)
    ensures var r := Length(data, s, s, 0); Decimal(r.value) == data[s..r.pos]
  {
    var r := Length(data, s, s, 0);
    var d := data[s] - ZERO;
    assert r == Length(data, s, s + 1, d);
    assert data[s..s + 1] == [data[s]] == Decimal(d);
    if d > 0 {
      LengthSpells(data, s, s + 1, d);
    }
  }

  // --- Scalars ------------------------------------------------------------------------

  predicate InRange(n: int) {
    -MAX_INT64 - 1 <= n <= MAX_INT64
  }

  function EncodeInteger(n: int): (r: Bytes) {
    [I] + Number(n) + [E]
  }

  /** Where the digits of an encoded integer are, and what surrounds them. */
  lemma IntegerParts(data: Bytes, p: nat, n: int)
    requires At(data, p, EncodeInteger(n))
    ensures p + 1 < |data| && data[p] == I
    ensures n < 0 <==> data[p + 1] == MINUS
    ensures var digits := if n < 0 then p + 2 else p + 1;
            var m := if n < 0 then -n else n;
            && At(data, digits, Decimal(m))
            && digits + |Decimal(m)| < |data| && data[digits + |Decimal(m)|] == E
            && digits + |Decimal(m)| + 1 == p + |EncodeInteger(n)|
            && data[digits] == Decimal(m)[0]
  {
    hide Decimal, Agree;
    var m := if n < 0 then -n else n;
    AtSplit(data, p, [I] + Number(n), [E]);
    AtSplit(data, p, [I], Number(n));
    AgreeAt([I], 0, data, p, 1, 0);
    AgreeAt([E], 0, data, p + 1 + |Number(n)|, 1, 0);
    AgreeAt(Number(n), 0, data, p + 1, |Number(n)|, 0);
    DecimalShape(m);
    if n < 0 {
      AtSplit(data, p + 1, [MINUS], Decimal(m));
      AgreeAt(Decimal(m), 0, data, p + 2, |Decimal(m)|, 0);
    }
  }

  /** A canonical integer decodes exactly when it fits in 64 signed bits. */
  lemma IntegerRoundTrip(data: Bytes, p: nat, n: int)
    requires At(data, p, EncodeInteger(n)) && InRange(n)
    ensures ParseInteger(data, p) == Ok(Integer(n), p + |EncodeInteger(n)|, [])
  {
    hide Number, EncodeInteger;
    IntegerParts(data, p, n);
    var m := if n < 0 then -n else n;
    var digits := if n < 0 then p + 2 else p + 1;
    MagnitudeOfDecimal(data, digits, m);
    DecimalShape(m);
  }

  lemma {:induction false} DecimalInjective(m: nat, n: nat)
    requires Decimal(m) == Decimal(n)
    ensures m == n
  {
    var a, b := Decimal(m), Decimal(n);
    assert a[|a| - 1] == b[|b| - 1];
    if m >= 10 && n >= 10 {
      assert a[..|a| - 1] == Decimal(m / 10) && b[..|b| - 1] == Decimal(n / 10);
      DecimalInjective(m / 10, n / 10);
    }
  }

  lemma BigIntegerRefused(data: Bytes, p: nat, n: int)
    requires At(data, p, EncodeInteger(n)) && !InRange(n)
    ensures ParseInteger(data, p).Fail?
  {
    hide Number, EncodeInteger;
    IntegerParts(data, p, n);
    var m := if n < 0 then -n else n;
    var digits := if n < 0 then p + 2 else p + 1;
    if ParseInteger(data, p).Ok? {
      DecimalShape(m);
      DigitRun(data, digits, m);
      CanonicalMagnitude(data, digits);
      AtStart(data, digits, Decimal(m));
      DecimalInjective(m, Magnitude(data, digits, 0).value);
    }
  }

  /** Digits end where the spelled number ends. */
  lemma DigitRun(data: Bytes, s: nat, m: nat)
    requires At(data, s, Decimal(m)) && s + |Decimal(m)| < |data| && !IsDigit(data[s + |Decimal(m)|])
    requires Magnitude(data, s, 0).Done?
    ensures Magnitude(data, s, 0).pos == s + |Decimal(m)|
  {
    DecimalShape(m);
    var e, f := Magnitude(data, s, 0).pos, s + |Decimal(m)|;
    assert forall k :: s <= k < f ==> data[k] == Decimal(m)[k - s];
  }

  lemma StringRoundTrip(data: Bytes, p: nat, s: Bytes)
    requires |s| < LENGTH_LIMIT && At(data, p, EncodeString(s))
    ensures ParseString(data, p) == Ok(s, p + |EncodeString(s)|, []) && p < |data| && IsDigit(data[p])
  {
    var n := |Decimal(|s|)|;
    TenDigits(|s|);
    DecimalShape(|s|);
    AtSplit(data, p, Decimal(|s|) + [COLON], s);
    AtSplit(data, p, Decimal(|s|), [COLON]);
    AgreeAt([COLON], 0, data, p + n, 1, 0);
    AgreeAt(Decimal(|s|), 0, data, p, n, 0);
    AtStart(data, p + n + 1, s);
    LengthOfDecimal(data, p, |s|);
  }

  lemma StringReencodes(data: Bytes, p: nat)
    requires p < |data| && IsDigit(data[p]) && ParseString(data, p).Ok? && ParseString(data, p).warnings == []
    ensures EncodeString(ParseString(data, p).value) == data[p..ParseString(data, p).pos]
  {
    var r, l := ParseString(data, p), Length(data, p, p, 0);
    assert l.pos > p by { assert Length(data, p, p, 0) == Length(data, p, p + 1, data[p] - ZERO); }
    CanonicalLength(data, p);
    var e := l.pos;
    assert data[p..r.pos] == data[p..e] + [data[e]] + data[e + 1..r.pos];
  }

  lemma IntegerReencodes(data: Bytes, p: nat)
    requires p < |data| && data[p] == I && ParseInteger(data, p).Ok? && ParseInteger(data, p).warnings == []
    ensures EncodeInteger(ParseInteger(data, p).value.n) == data[p..ParseInteger(data, p).pos]
  {
    hide Magnitude, Decimal;
    var r := ParseInteger(data, p);
    var negative := p + 1 < |data| && data[p + 1] == MINUS;
    var digits := if negative then p + 2 else p + 1;
    CanonicalMagnitude(data, digits);
    var e := Magnitude(data, digits, 0).pos;
    if negative {
      assert data[p..r.pos] == [I] + ([MINUS] + data[digits..e]) + [E];
    } else {
      assert data[p..r.pos] == [I] + data[digits..e] + [E];
    }
  }

  // --- Key order -----------------------------------------------------------------------

  lemma {:induction false} LessTransitive(a: Bytes, b: Bytes, c: Bytes)
    requires Less(a, b) && Less(b, c)
    ensures Less(a, c)
  {
    if a != [] && a[0] == b[0] && b[0] == c[0] { LessTransitive(a[1..], b[1..], c[1..]); }
  }

  lemma {:induction false} LessAsymmetric(a: Bytes, b: Bytes)
    requires Less(a, b)
    ensures !Less(b, a) && a != b
  {
    if a != [] && a[0] == b[0] { LessAsymmetric(a[1..], b[1..]); }
  }

  lemma {:induction false} LessTotal(a: Bytes, b: Bytes)
    ensures Less(a, b) || Less(b, a) || a == b
  {
    if a != [] && b != [] && a[0] == b[0] {
      LessTotal(a[1..], b[1..]);
      assert a == [a[0]] + a[1..] && b == [b[0]] + b[1..];
    }
  }

  ghost predicate SortedKeys(entries: seq<Entry>) {
    forall i, j :: 0 <= i < j < |entries| ==> Less(entries[i].key, entries[j].key)
  }

  /** Every key of `entries` comes before `key`. */
  ghost predicate AllBefore(entries: seq<Entry>, key: Bytes) {
    forall i :: 0 <= i < |entries| ==> Less(entries[i].key, key)
  }

  lemma NewLastKey(entries: seq<Entry>, key: Bytes, v: BValue)
    requires SortedKeys(entries) && AllBefore(entries, key)
    ensures !HasKey(entries, key) && Emplace(entries, key, v) == entries + [Entry(key, v)]
    ensures SortedKeys(entries + [Entry(key, v)])
  {
    forall i | 0 <= i < |entries|
      ensures entries[i].key != key
    {
      LessAsymmetric(entries[i].key, key);
    }
  }

  // --- Encode, then decode ---------------------------------------------------------------

  /**
   What the encoder can be trusted with at a given depth: integers of 64 bits, lengths
   of at most ten digits, keys in order, nesting within the limit, and pre-encoded
   bytes that are themselves one whole value at that depth.
   */
  ghost predicate Fits(v: BValue, depth: nat, max: int)
    decreases v, 2
  {
    match v.node
    case Invalid => false
    case Integer(n) => InRange(n)
    case String(s) => |s| < LENGTH_LIMIT
    case PreEncoded(raw) => ParseValue(raw, 0, depth, max).Ok? && ParseValue(raw, 0, depth, max).pos == |raw|
    case List(items) => depth < max && FitItems(items, depth + 1, max)
    case Dict(entries) => depth < max && SortedKeys(entries) && FitEntries(entries, depth + 1, max)
  }

  ghost predicate FitItems(items: seq<BValue>, depth: nat, max: int)
    decreases items, 0
  {
    items == [] || (Fits(items[0], depth, max) && FitItems(items[1..], depth, max))
  }

  ghost predicate FitEntries(entries: seq<Entry>, depth: nat, max: int)
    decreases entries, 0
  {
    entries == []
    || (|entries[0].key| < LENGTH_LIMIT && Fits(entries[0].value, depth, max) && FitEntries(entries[1..], depth, max))
  }

  /** w, decoded from data, is v: the same value, and for pre-encoded bytes those bytes. */
  ghost predicate Matches(v: BValue, w: BValue, data: Bytes)
    decreases v, 2
  {
    match v.node
    case Invalid => false
    case Integer(n) => w.node == v.node
    case String(s) => w.node == v.node
    case PreEncoded(raw) => RawSpan(w, data) == raw
    case List(items) => w.node.List? && ItemsMatch(items, w.node.items, data)
    case Dict(entries) => w.node.Dict? && EntriesMatch(entries, w.node.entries, data)
  }

  ghost predicate ItemsMatch(items: seq<BValue>, ws: seq<BValue>, data: Bytes)
    decreases items, 0
  {
    if items == [] then ws == []
    else ws != [] && Matches(items[0], ws[0], data) && ItemsMatch(items[1..], ws[1..], data)
  }

  ghost predicate EntriesMatch(entries: seq<Entry>, ws: seq<Entry>, data: Bytes)
    decreases entries, 0
  {
    if entries == [] then ws == []
    else
      && ws != [] && ws[0].key == entries[0].key && Matches(entries[0].value, ws[0].value, data)
      && EntriesMatch(entries[1..], ws[1..], data)
  }

  /** No pre-encoded bytes anywhere inside. */
  ghost predicate Plain(v: BValue)
    decreases v, 2
  {
    match v.node
    case PreEncoded(_) => false
    case List(items) => PlainItems(items)
    case Dict(entries) => PlainEntries(entries)
    case _ => true
  }

  ghost predicate PlainItems(items: seq<BValue>)
    decreases items, 0
  {
    items == [] || (Plain(items[0]) && PlainItems(items[1..]))
  }

  ghost predicate PlainEntries(entries: seq<Entry>)
    decreases entries, 0
  {
    entries == [] || (Plain(entries[0].value) && PlainEntries(entries[1..]))
  }

  /** The decoder read exactly `n` bytes at p and made v of them, silently if v is plain. */
  ghost predicate ReadsAs(data: Bytes, p: nat, n: nat, v: BValue, depth: nat, max: int)
    requires p <= |data|
  {
    var r := ParseValue(data, p, depth, max);
    r.Ok? && r.pos == p + n && Matches(v, r.value, data) && (Plain(v) ==> r.warnings == [])
  }

  lemma {:induction false} ValueRoundTrip(v: BValue, data: Bytes, p: nat, depth: nat, max: int)
    requires Fits(v, depth, max) && At(data, p, Encode(v))
    ensures p <= |data| && ReadsAs(data, p, |Encode(v)|, v, depth, max)
    decreases v, 3
  {
    match v.node
    case Integer(n) =>
      IntegerParts(data, p, n);
      IntegerRoundTrip(data, p, n);
    case String(s) =>
      StringRoundTrip(data, p, s);
    case PreEncoded(raw) =>
      ValueAgrees(raw, 0, data, p, depth, max);
      SpanIsExact(data, p, depth, max);
      AtStart(data, p, raw);
    case List(items) =>
      ListParts(data, p, L, EncodeItems(items));
      ItemsRoundTrip(items, data, p + 1, depth, max);
    case Dict(entries) =>
      ListParts(data, p, D, EncodeEntries(entries));
      EntriesRoundTrip(entries, data, p + 1, depth, max, [], []);
  }

  lemma ListParts(data: Bytes, p: nat, b: Byte, inside: Bytes)
    requires At(data, p, [b] + inside + [E])
    ensures p < |data| && data[p] == b && At(data, p + 1, inside + [E])
  {
    assert [b] + inside + [E] == [b] + (inside + [E]);
    AtSplit(data, p, [b], inside + [E]);
    AgreeAt([b], 0, data, p, 1, 0);
  }

  lemma {:induction false} ItemsRoundTrip(items: seq<BValue>, data: Bytes, p: nat, depth: nat, max: int)
    requires FitItems(items, depth + 1, max) && At(data, p, EncodeItems(items) + [E])
    ensures p <= |data|
    ensures var r := ParseItems(data, p, depth, max);
            && r.Ok? && r.pos == p + |EncodeItems(items)| + 1 && ItemsMatch(items, r.value, data)
            && (PlainItems(items) ==> r.warnings == [])
    decreases items, 2
  {
    hide ParseValue, Encode, Fits, Plain, Matches;
    if items == [] {
      assert EncodeItems(items) + [E] == [E];
      AgreeAt([E], 0, data, p, 1, 0);
    } else {
      var first, rest := Encode(items[0]), EncodeItems(items[1..]) + [E];
      assert EncodeItems(items) + [E] == first + rest;
      AtSplit(data, p, first, rest);
      ValueRoundTrip(items[0], data, p, depth + 1, max);
      ItemsRoundTrip(items[1..], data, p + |first|, depth, max);
      ValueStarts(data, p, depth + 1, max);
      var v := ParseValue(data, p, depth + 1, max).value;
      var tail := ParseItems(data, p + |first|, depth, max).value;
      assert ([v] + tail)[1..] == tail;
    }
  }

  lemma ValueStarts(data: Bytes, p: nat, depth: nat, max: int)
    requires p <= |data| && ParseValue(data, p, depth, max).Ok?
    ensures p < |data| && data[p] != E
  {
  }

  lemma {:induction false} EntriesRoundTrip(entries: seq<Entry>, data: Bytes, p: nat, depth: nat, max: int,
                                            dict: seq<Entry>, previous: seq<Bytes>)
    requires FitEntries(entries, depth + 1, max) && At(data, p, EncodeEntries(entries) + [E])
    requires SortedKeys(entries) && SortedKeys(dict)
    requires forall i :: 0 <= i < |entries| ==> AllBefore(dict, entries[i].key)
    requires if dict == [] then previous == [] else previous == [dict[|dict| - 1].key]
    ensures p <= |data|
    ensures var r := ParsePairs(data, p, depth, max, dict, previous);
            && r.Ok? && r.pos == p + |EncodeEntries(entries)| + 1
            && dict <= r.value && EntriesMatch(entries, r.value[|dict|..], data)
            && (PlainEntries(entries) ==> r.warnings == [])
    decreases entries, 2
  {
    hide ParsePairs, ParseString, ParseValue, EncodeString, Encode, Fits, HasKey, Emplace, KeyWarnings, Less, Matches, EntriesMatch, Plain;
    if entries == [] {
      assert EncodeEntries(entries) + [E] == [E];
      AgreeAt([E], 0, data, p, 1, 0);
      PairsEnd(data, p, depth, max, dict, previous);
    } else {
      var key, v := entries[0].key, entries[0].value;
      EntryParts(entries, data, p);
      var q := p + |EncodeString(key)|;
      StringRoundTrip(data, p, key);
      ValueRoundTrip(v, data, q, depth + 1, max);
      var w := ParseValue(data, q, depth + 1, max).value;
      NewLastKey(dict, key, w);
      QuietKey(dict, previous, key, q);
      PairsStep(data, p, depth, max, dict, previous);
      var dict' := dict + [Entry(key, w)];
      BeforeTheRest(entries, dict, w);
      EntriesRoundTrip(entries[1..], data, q + |Encode(v)|, depth, max, dict', [key]);
      OneMoreEntry(entries, data, dict, key, w, ParsePairs(data, q + |Encode(v)|, depth, max, dict', [key]).value);
    }
  }

  lemma PairsEnd(data: Bytes, p: nat, depth: nat, max: int, dict: seq<Entry>, previous: seq<Bytes>)
    requires p < |data| && data[p] == E
    ensures ParsePairs(data, p, depth, max, dict, previous) == Ok(dict, p + 1, [])
    ensures EntriesMatch([], dict[|dict|..], data)
  {
  }

  lemma EntryParts(entries: seq<Entry>, data: Bytes, p: nat)
    requires entries != [] && At(data, p, EncodeEntries(entries) + [E])
    ensures var key, v := EncodeString(entries[0].key), Encode(entries[0].value);
            && At(data, p, key) && At(data, p + |key|, v)
            && At(data, p + |key| + |v|, EncodeEntries(entries[1..]) + [E])
            && |EncodeEntries(entries)| == |key| + |v| + |EncodeEntries(entries[1..])|
  {
    hide EncodeString, Encode;
    var key, v := EncodeString(entries[0].key), Encode(entries[0].value);
    var rest := EncodeEntries(entries[1..]) + [E];
    assert EncodeEntries(entries) + [E] == key + (v + rest);
    AtSplit(data, p, key, v + rest);
    AtSplit(data, p + |key|, v, rest);
  }

  /** One turn of the dictionary loop over a new key in order. */
  lemma PairsStep(data: Bytes, p: nat, depth: nat, max: int, dict: seq<Entry>, previous: seq<Bytes>)
    requires p < |data| && IsDigit(data[p]) && ParseString(data, p).Ok?
    requires var k := ParseString(data, p);
             && k.warnings == [] && !HasKey(dict, k.value) && KeyWarnings(dict, previous, k.value, k.pos) == []
             && ParseValue(data, k.pos, depth + 1, max).Ok?
    ensures var k := ParseString(data, p);
            var v := ParseValue(data, k.pos, depth + 1, max);
            var rest := ParsePairs(data, v.pos, depth, max, Emplace(dict, k.value, v.value), [k.value]);
            rest.Ok? ==> ParsePairs(data, p, depth, max, dict, previous) == Ok(rest.value, rest.pos, v.warnings + rest.warnings)
  {
    hide ParseString, ParseValue, HasKey, Emplace, KeyWarnings;
    var k := ParseString(data, p);
    var v := ParseValue(data, k.pos, depth + 1, max);
    assert [] + [] + v.warnings == v.warnings;
  }

  lemma BeforeTheRest(entries: seq<Entry>, dict: seq<Entry>, w: BValue)
    requires entries != [] && SortedKeys(entries) && forall i :: 0 <= i < |entries| ==> AllBefore(dict, entries[i].key)
    ensures SortedKeys(entries[1..])
    ensures forall i :: 0 <= i < |entries[1..]| ==> AllBefore(dict + [Entry(entries[0].key, w)], entries[1..][i].key)
  {
    assert forall i :: 0 <= i < |entries[1..]| ==> entries[1..][i] == entries[i + 1];
  }

  lemma QuietKey(dict: seq<Entry>, previous: seq<Bytes>, key: Bytes, at: int)
    requires AllBefore(dict, key) && !HasKey(dict, key)
    requires if dict == [] then previous == [] else previous == [dict[|dict| - 1].key]
    ensures KeyWarnings(dict, previous, key, at) == []
  {
    if dict != [] { LessAsymmetric(dict[|dict| - 1].key, key); }
  }

  lemma OneMoreEntry(entries: seq<Entry>, data: Bytes, dict: seq<Entry>, key: Bytes, w: BValue, all: seq<Entry>)
    requires entries != [] && entries[0].key == key && Matches(entries[0].value, w, data)
    requires dict + [Entry(key, w)] <= all && EntriesMatch(entries[1..], all[|dict| + 1..], data)
    ensures dict <= all && EntriesMatch(entries, all[|dict|..], data)
  {
    var tail := all[|dict|..];
    assert tail[0] == (dict + [Entry(key, w)])[|dict|] && tail[1..] == all[|dict| + 1..];
  }

  /** Whatever fits, decoding what was encoded gives it back, whole and without complaint. */
  lemma DecodeOfEncode(v: BValue, max: int)
    requires Fits(v, 0, max)
    ensures var r := Decode(Encode(v), max);
            r.Ok? && r.pos == |Encode(v)| && Matches(v, r.value, Encode(v)) && (Plain(v) ==> r.warnings == [])
  {
    ValueRoundTrip(v, Encode(v), 0, 0, max);
  }

  lemma IntegerValue(data: Bytes, max: int)
    requires data != [] && data[0] == I
    ensures ParseValue(data, 0, 0, max).Ok? <==> ParseInteger(data, 0).Ok?
    ensures ParseValue(data, 0, 0, max).Ok? ==> ParseValue(data, 0, 0, max).value.node == ParseInteger(data, 0).value
  {
    hide ParseInteger;
    assert ParseNode(data, 0, 0, max) == ParseInteger(data, 0);
  }

  /** Exactly the integers of 64 signed bits are accepted. */
  lemma IntegersAccepted(n: int, max: int)
    ensures Decode(EncodeInteger(n), max).Ok? <==> InRange(n)
    ensures InRange(n) ==> Decode(EncodeInteger(n), max).value.node == Integer(n)
  {
    hide ParseInteger, EncodeInteger, ParseValue;
    var data := EncodeInteger(n);
    IntegerParts(data, 0, n);
    IntegerValue(data, max);
    if InRange(n) {
      IntegerRoundTrip(data, 0, n);
    } else {
      BigIntegerRefused(data, 0, n);
    }
  }

  predicate AllDigits(digits: Bytes) {
    forall k :: 0 <= k < |digits| ==> IsDigit(digits[k])
  }

  /** The number that `digits`, read after acc, spell; leading zeros count for nothing. */
  function Spelled(acc: nat, digits: Bytes): (n: nat)
    requires AllDigits(digits)
    ensures n >= acc
    decreases |digits|
  {
    if digits == [] then acc else Spelled(acc * 10 + (digits[0] - ZERO), digits[1..])
  }

  /** An integer as anyone may write it: leading zeros and a negative zero included. */
  function Spelling(negative: bool, digits: Bytes): (r: Bytes) {
    [I] + (if negative then [MINUS] else []) + digits + [E]
  }

  function SpelledValue(negative: bool, digits: Bytes): (n: int)
    requires AllDigits(digits)
  {
    var n: int := Spelled(0, digits);
    if negative then -n else n
  }

  /** The scan reads exactly the number spelled, if that is no more than 64 bits. */
  lemma {:induction false} MagnitudeReads(data: Bytes, p: nat, q: nat, acc: nat)
    requires p <= q <= |data| && acc <= MAX_UINT64 && AllDigits(data[p..q]) && (q == |data| || !IsDigit(data[q]))
    ensures Spelled(acc, data[p..q]) <= MAX_UINT64 ==> Magnitude(data, p, acc) == Done(q, Spelled(acc, data[p..q]))
    ensures Spelled(acc, data[p..q]) > MAX_UINT64 ==> Magnitude(data, p, acc).Stopped?
    decreases q - p
  {
    if p < q {
      assert data[p..q][0] == data[p] && data[p..q][1..] == data[p + 1..q];
      var digit := data[p] - ZERO;
      if acc <= (MAX_UINT64 - digit) / 10 {
        MagnitudeReads(data, p + 1, q, acc * 10 + digit);
      }
    }
  }

  /** An integer, however it is spelled, is accepted exactly when it fits in 64 signed bits. */
  lemma AnySpellingAccepted(negative: bool, digits: Bytes, max: int)
    requires digits != [] && AllDigits(digits)
    ensures Decode(Spelling(negative, digits), max).Ok? <==> InRange(SpelledValue(negative, digits))
    ensures InRange(SpelledValue(negative, digits)) ==>
              Decode(Spelling(negative, digits), max).value.node == Integer(SpelledValue(negative, digits))
  {
    hide ParseValue;
    var data := Spelling(negative, digits);
    var p := if negative then 2 else 1;
    var q := p + |digits|;
    assert data[p..q] == digits && data[q] == E && data[0] == I;
    assert data[1] == if negative then MINUS else digits[0];
    IntegerValue(data, max);
    MagnitudeReads(data, p, q, 0);
  }

  /** And nothing else is: an accepted integer is a sign or none, digits and an end. */
  lemma AcceptedIsSpelled(data: Bytes, pos: nat) returns (negative: bool, digits: Bytes)
    requires pos < |data| && data[pos] == I && ParseInteger(data, pos).Ok?
    ensures digits != [] && AllDigits(digits) && data[pos..ParseInteger(data, pos).pos] == Spelling(negative, digits)
    ensures ParseInteger(data, pos).value == Integer(SpelledValue(negative, digits)) && InRange(SpelledValue(negative, digits))
  {
    negative := pos + 1 < |data| && data[pos + 1] == MINUS;
    var p := if negative then pos + 2 else pos + 1;
    var q := Magnitude(data, p, 0).pos;
    digits := data[p..q];
    MagnitudeReads(data, p, q, 0);
    assert data[pos..q + 1] == Spelling(negative, digits);
  }

  // --- Decode, then encode ---------------------------------------------------------------

  lemma {:induction false} ValueReencodes(data: Bytes, p: nat, depth: nat, max: int)
    requires p <= |data| && ParseValue(data, p, depth, max).Ok? && ParseValue(data, p, depth, max).warnings == []
    ensures var r := ParseValue(data, p, depth, max); Encode(r.value) == data[p..r.pos]
    decreases |data| - p, 3
  {
    hide ParseInteger, ParseString, ParseItems, ParsePairs, EncodeString, EncodeItems, EncodeEntries, EncodeInteger;
    var r := ParseValue(data, p, depth, max);
    assert ParseNode(data, p, depth, max).Ok?;
    if data[p] == I {
      IntegerReencodes(data, p);
      EncodeIs(r.value);
    } else if IsDigit(data[p]) {
      StringReencodes(data, p);
    } else if data[p] == L {
      ItemsReencode(data, p + 1, depth, max);
      assert data[p..r.pos] == [L] + data[p + 1..r.pos];
      assert [L] + EncodeItems(r.value.node.items) + [E] == [L] + (EncodeItems(r.value.node.items) + [E]);
    } else {
      NoKeysYet();
      PairsReencode(data, p + 1, depth, max, [], []);
      assert data[p..r.pos] == [D] + data[p + 1..r.pos];
      assert [D] + EncodeEntries(r.value.node.entries) + [E] == [D] + (EncodeEntries(r.value.node.entries) + [E]);
    }
  }

  lemma EncodeIs(v: BValue)
    requires v.node.Integer?
    ensures Encode(v) == EncodeInteger(v.node.n)
  {
  }

  lemma NoKeysYet()
    ensures EncodeEntries([]) == [] && SortedKeys([])
  {
  }

  lemma {:induction false} ItemsReencode(data: Bytes, p: nat, depth: nat, max: int)
    requires p <= |data| && ParseItems(data, p, depth, max).Ok? && ParseItems(data, p, depth, max).warnings == []
    ensures var r := ParseItems(data, p, depth, max); EncodeItems(r.value) + [E] == data[p..r.pos]
    decreases |data| - p, 4
  {
    hide ParseValue, Encode;
    var r := ParseItems(data, p, depth, max);
    if data[p] == E {
      assert data[p..r.pos] == [E];
    } else {
      var v := ParseValue(data, p, depth + 1, max);
      var rest := ParseItems(data, v.pos, depth, max);
      ValueReencodes(data, p, depth + 1, max);
      ItemsReencode(data, v.pos, depth, max);
      assert r.value[0] == v.value && r.value[1..] == rest.value;
      assert data[p..r.pos] == data[p..v.pos] + data[v.pos..r.pos];
      assert Encode(v.value) + EncodeItems(rest.value) + [E] == Encode(v.value) + (EncodeItems(rest.value) + [E]);
    }
  }

  lemma {:induction false} EncodeOneMore(entries: seq<Entry>, e: Entry)
    ensures EncodeEntries(entries + [e]) == EncodeEntries(entries) + (EncodeString(e.key) + Encode(e.value))
  {
    hide EncodeString, Encode;
    if entries == [] {
      assert [e][1..] == [];
      assert EncodeEntries([e][1..]) == [];
    } else {
      assert (entries + [e])[1..] == entries[1..] + [e];
      EncodeOneMore(entries[1..], e);
    }
  }

  /** A key that drew no warning is new and comes last. */
  lemma QuietKeyIsLast(dict: seq<Entry>, previous: seq<Bytes>, key: Bytes, at: int)
    requires SortedKeys(dict) && KeyWarnings(dict, previous, key, at) == []
    requires if dict == [] then previous == [] else previous == [dict[|dict| - 1].key]
    ensures AllBefore(dict, key)
  {
    if dict != [] {
      var last := dict[|dict| - 1].key;
      LessTotal(last, key);
      forall i | 0 <= i < |dict|
        ensures Less(dict[i].key, key)
      {
        if i < |dict| - 1 { LessTransitive(dict[i].key, last, key); }
      }
    }
  }

  lemma {:induction false} PairsReencode(data: Bytes, p: nat, depth: nat, max: int, dict: seq<Entry>, previous: seq<Bytes>)
    requires p <= |data| && SortedKeys(dict)
    requires if dict == [] then previous == [] else previous == [dict[|dict| - 1].key]
    requires ParsePairs(data, p, depth, max, dict, previous).Ok? && ParsePairs(data, p, depth, max, dict, previous).warnings == []
    ensures var r := ParsePairs(data, p, depth, max, dict, previous);
            EncodeEntries(r.value) + [E] == EncodeEntries(dict) + data[p..r.pos]
    decreases |data| - p, 4
  {
    hide ParseString, ParseValue, HasKey, Emplace, KeyWarnings, EncodeString, Encode, EncodeEntries, SortedKeys, AllBefore;
    var r := ParsePairs(data, p, depth, max, dict, previous);
    if data[p] == E {
      assert data[p..r.pos] == [E];
    } else {
      var k := ParseString(data, p);
      var v := ParseValue(data, k.pos, depth + 1, max);
      QuietKeyIsLast(dict, previous, k.value, k.pos);
      NewLastKey(dict, k.value, v.value);
      var dict' := dict + [Entry(k.value, v.value)];
      StringReencodes(data, p);
      ValueReencodes(data, k.pos, depth + 1, max);
      PairsReencode(data, v.pos, depth, max, dict', [k.value]);
      EncodeOneMore(dict, Entry(k.value, v.value));
      JoinSlices(data, p, k.pos, v.pos, r.pos, EncodeEntries(dict));
    }
  }

  lemma JoinSlices(data: Bytes, a: nat, b: nat, c: nat, d: nat, front: Bytes)
    requires a <= b <= c <= d <= |data|
    ensures front + (data[a..b] + data[b..c]) + data[c..d] == front + data[a..d]
  {
    assert data[a..d] == data[a..b] + data[b..c] + data[c..d];
  }

  /** Input decoded without error or warning is what the encoder would have written. */
  lemma EncodeOfDecode(data: Bytes, max: int)
    requires Decode(data, max).Ok? && Decode(data, max).warnings == []
    ensures Encode(Decode(data, max).value) == data
  {
    ValueReencodes(data, 0, 0, max);
    assert data[0..|data|] == data;
  }
}
