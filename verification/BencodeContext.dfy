/**
 Decoding a value depends on nothing but the bytes it consumes and its depth:
 the same bytes anywhere else decode to the same value, moved.
 */
module BencodeContext {
  import opened Endpoints
  import opened Bencode

  /** The n bytes of a at p are those of b at q. */
  ghost predicate Agree(a: Bytes, p: nat, b: Bytes, q: nat, n: int) {
    && 0 <= n && p + n <= |a| && q + n <= |b|
    && forall i :: p <= i < p + n ==> a[i] == b[i - p + q]
  }

  lemma AgreeSlices(a: Bytes, p: nat, b: Bytes, q: nat, n: nat)
    requires p + n <= |a| && q + n <= |b| && a[p..p + n] == b[q..q + n]
    ensures Agree(a, p, b, q, n)
  {
    forall i | p <= i < p + n
      ensures a[i] == b[i - p + q]
    {
      assert a[p..p + n][i - p] == b[q..q + n][i - p];
    }
  }

  lemma AgreePart(a: Bytes, p: nat, b: Bytes, q: nat, n: int, k: nat, m: int)
    requires Agree(a, p, b, q, n) && 0 <= m && k + m <= n
    ensures Agree(a, p + k, b, q + k, m)
    ensures a[p + k..p + k + m] == b[q + k..q + k + m]
  {
  }

  /** A value whose spans all moved by d. */
  ghost function Shift(v: BValue, d: int): (r: BValue)
    decreases v, 2
  {
    BValue(ShiftNode(v.node, d), v.rawStart + d, v.rawLength)
  }

  ghost function ShiftNode(n: Node, d: int): (r: Node)
    decreases n, 1
  {
    match n
    case List(items) => List(ShiftItems(items, d))
    case Dict(entries) => Dict(ShiftEntries(entries, d))
    case _ => n
  }

  ghost function ShiftItems(items: seq<BValue>, d: int): (r: seq<BValue>)
    ensures |r| == |items|
    decreases items, 0
  {
    if items == [] then [] else [Shift(items[0], d)] + ShiftItems(items[1..], d)
  }

  ghost function ShiftEntries(entries: seq<Entry>, d: int): (r: seq<Entry>)
    ensures |r| == |entries|
    ensures forall i :: 0 <= i < |r| ==> r[i].key == entries[i].key
    decreases entries, 0
  {
    if entries == [] then []
    else ShiftEntries(entries[..|entries| - 1], d)
         + [Entry(entries[|entries| - 1].key, Shift(entries[|entries| - 1].value, d))]
  }

  ghost function ShiftWarnings(w: seq<Warning>, d: int): (r: seq<Warning>)
    ensures |r| == |w|
    ensures forall i :: 0 <= i < |w| ==> r[i] == Warning(w[i].at + d, w[i].what)
  {
    seq(|w|, i requires 0 <= i < |w| => Warning(w[i].at + d, w[i].what))
  }

  lemma ShiftWarningsJoin(a: seq<Warning>, b: seq<Warning>, d: int)
    ensures ShiftWarnings(a + b, d) == ShiftWarnings(a, d) + ShiftWarnings(b, d)
  {
  }

  lemma ShiftWarnIf(cond: bool, at: int, what: Oddity, d: int)
    ensures ShiftWarnings(WarnIf(cond, at, what), d) == WarnIf(cond, at + d, what)
  {
  }

  // --- Scalars -----------------------------------------------------------------------

  lemma {:induction false} MagnitudeAgrees(a: Bytes, p: nat, b: Bytes, q: nat, acc: nat)
    requires p <= |a| && acc <= MAX_UINT64
    requires var r := Magnitude(a, p, acc); r.Done? && r.pos < |a| && Agree(a, p, b, q, r.pos - p + 1)
    ensures var r := Magnitude(a, p, acc); Magnitude(b, q, acc) == Done(q + (r.pos - p), r.value)
    decreases |a| - p
  {
    assert a[p] == b[q];
    if IsDigit(a[p]) {
      MagnitudeAgrees(a, p + 1, b, q + 1, acc * 10 + (a[p] - ZERO));
    }
  }

  lemma {:induction false} LengthAgrees(a: Bytes, start: nat, p: nat, b: Bytes, start': nat, q: nat, acc: nat)
    requires start <= p <= |a| && p - start <= 10 && start' <= q && q - start' == p - start
    requires var r := Length(a, start, p, acc); r.Done? && r.pos < |a| && Agree(a, p, b, q, r.pos - p + 1)
    ensures var r := Length(a, start, p, acc); Length(b, start', q, acc) == Done(q + (r.pos - p), r.value)
    decreases |a| - p
  {
    assert a[p] == b[q];
    if IsDigit(a[p]) {
      LengthAgrees(a, start, p + 1, b, start', q + 1, acc * 10 + a[p] - ZERO);
    }
  }

  lemma AgreeAt(a: Bytes, p: nat, b: Bytes, q: nat, n: int, k: nat)
    requires Agree(a, p, b, q, n) && k < n
    ensures p + k < |a| && q + k < |b| && a[p + k] == b[q + k]
  {
  }

  lemma FinishAgrees(a: Bytes, b: Bytes, negative: bool, digits: nat, e: nat, m: nat, d: int)
    requires digits <= e < |a| && 0 <= digits + d && e + d < |b|
    requires FinishInteger(a, negative, digits, e, m).Ok? && a[e] == b[e + d] && a[digits] == b[digits + d]
    ensures var r := FinishInteger(a, negative, digits, e, m);
            FinishInteger(b, negative, digits + d, e + d, m) == Ok(r.value, e + 1 + d, ShiftWarnings(r.warnings, d))
  {
    hide WarnIf, ShiftWarnings;
    ShiftWarnIf(e - digits > 1 && a[digits] == ZERO, e, ZerosInInteger, d);
    ShiftWarnIf(negative && m == 0, e, NegativeZero, d);
    ShiftWarningsJoin(WarnIf(e - digits > 1 && a[digits] == ZERO, e, ZerosInInteger),
                      WarnIf(negative && m == 0, e, NegativeZero), d);
  }

  lemma IntegerAgrees(a: Bytes, p: nat, b: Bytes, q: nat)
    requires p < |a| && ParseInteger(a, p).Ok? && Agree(a, p, b, q, ParseInteger(a, p).pos - p)
    ensures var r := ParseInteger(a, p);
            ParseInteger(b, q) == Ok(r.value, q + (r.pos - p), ShiftWarnings(r.warnings, q - p))
  {
    hide Magnitude, FinishInteger, Agree;
    var d := q - p;
    var negative := p + 1 < |a| && a[p + 1] == MINUS;
    var digits := if negative then p + 2 else p + 1;
    var e := Magnitude(a, digits, 0).pos;
    AgreeAt(a, p, b, q, e + 1 - p, 1);
    AgreeAt(a, p, b, q, e + 1 - p, digits - p);
    AgreeAt(a, p, b, q, e + 1 - p, e - p);
    AgreePart(a, p, b, q, e + 1 - p, digits - p, e + 1 - digits);
    MagnitudeAgrees(a, digits, b, digits + d, 0);
    FinishAgrees(a, b, negative, digits, e, Magnitude(a, digits, 0).value, d);
  }

  lemma StringAgrees(a: Bytes, p: nat, b: Bytes, q: nat)
    requires p <= |a| && ParseString(a, p).Ok? && Agree(a, p, b, q, ParseString(a, p).pos - p)
    ensures var r := ParseString(a, p);
            ParseString(b, q) == Ok(r.value, q + (r.pos - p), ShiftWarnings(r.warnings, q - p))
  {
    var d, n := q - p, ParseString(a, p).pos - p;
    var e := Length(a, p, p, 0).pos;
    AgreePart(a, p, b, q, n, 0, e + 1 - p);
    LengthAgrees(a, p, p, b, q, q, 0);
    AgreePart(a, p, b, q, n, e + 1 - p, n - (e + 1 - p));
    assert a[e] == b[e + d] && a[p] == b[q];
    ShiftWarnIf(e - p > 1 && a[p] == ZERO, e, ZerosInLength, d);
  }

  // --- Values ------------------------------------------------------------------------

  /** The same bytes elsewhere decode to the same value, moved. */
  lemma {:induction false} ValueAgrees(a: Bytes, p: nat, b: Bytes, q: nat, depth: nat, max: int)
    requires p <= |a| && ParseValue(a, p, depth, max).Ok? && Agree(a, p, b, q, ParseValue(a, p, depth, max).pos - p)
    ensures var r := ParseValue(a, p, depth, max);
            ParseValue(b, q, depth, max) == Ok(Shift(r.value, q - p), q + (r.pos - p), ShiftWarnings(r.warnings, q - p))
    decreases |a| - p, 3
  {
    hide ParseNode, Agree, ShiftNode, ShiftWarnings;
    NodeAgrees(a, p, b, q, depth, max);
  }

  lemma {:induction false} NodeAgrees(a: Bytes, p: nat, b: Bytes, q: nat, depth: nat, max: int)
    requires p <= |a| && ParseNode(a, p, depth, max).Ok? && Agree(a, p, b, q, ParseNode(a, p, depth, max).pos - p)
    ensures var r := ParseNode(a, p, depth, max);
            ParseNode(b, q, depth, max) == Ok(ShiftNode(r.value, q - p), q + (r.pos - p), ShiftWarnings(r.warnings, q - p))
    decreases |a| - p, 2
  {
    hide ParseInteger, ParseString, ParseItems, ParsePairs, Agree, ShiftItems, ShiftEntries, ShiftWarnings;
    var n := ParseNode(a, p, depth, max).pos - p;
    AgreeAt(a, p, b, q, n, 0);
    if a[p] == I {
      IntegerAgrees(a, p, b, q);
    } else if IsDigit(a[p]) {
      StringAgrees(a, p, b, q);
    } else {
      AgreePart(a, p, b, q, n, 1, n - 1);
      if a[p] == L {
        ItemsAgree(a, p + 1, b, q + 1, depth, max);
      } else {
        ShiftNothing(q - p);
        PairsAgree(a, p + 1, b, q + 1, depth, max, [], [], []);
      }
    }
  }

  lemma ShiftNothing(d: int)
    ensures ShiftEntries([], d) == []
  {
  }

  lemma {:induction false} ItemsAgree(a: Bytes, p: nat, b: Bytes, q: nat, depth: nat, max: int)
    requires p <= |a| && ParseItems(a, p, depth, max).Ok? && Agree(a, p, b, q, ParseItems(a, p, depth, max).pos - p)
    ensures var r := ParseItems(a, p, depth, max);
            ParseItems(b, q, depth, max) == Ok(ShiftItems(r.value, q - p), q + (r.pos - p), ShiftWarnings(r.warnings, q - p))
    decreases |a| - p, 4
  {
    hide ParseValue, ParseItems, Agree, ShiftWarnings, Shift;
    var r := ParseItems(a, p, depth, max);
    var n, d := r.pos - p, q - p;
    ItemsStep(a, p, depth, max);
    AgreeAt(a, p, b, q, n, 0);
    ItemsStep(b, q, depth, max);
    NoShiftedWarnings(d);
    if a[p] != E {
      var v := ParseValue(a, p, depth + 1, max);
      AgreePart(a, p, b, q, n, 0, v.pos - p);
      ValueAgrees(a, p, b, q, depth + 1, max);
      AgreePart(a, p, b, q, n, v.pos - p, r.pos - v.pos);
      ItemsAgree(a, v.pos, b, v.pos + d, depth, max);
      var rest := ParseItems(a, v.pos, depth, max);
      ShiftWarningsJoin(v.warnings, rest.warnings, d);
      assert r.value[1..] == rest.value;
    }
  }

  /** A list that goes on: its first item, then the rest. */
  lemma ItemsStep(a: Bytes, p: nat, depth: nat, max: int)
    requires p <= |a|
    ensures ParseItems(a, p, depth, max).Ok? ==> p < |a|
    ensures p < |a| && a[p] == E ==> ParseItems(a, p, depth, max) == Ok([], p + 1, [])
    ensures p < |a| && a[p] != E ==>
              var v := ParseValue(a, p, depth + 1, max);
              && (v.Fail? ==> ParseItems(a, p, depth, max).Fail?)
              && (v.Ok? ==>
                    var rest := ParseItems(a, v.pos, depth, max);
                    if rest.Ok? then ParseItems(a, p, depth, max) == Ok([v.value] + rest.value, rest.pos, v.warnings + rest.warnings)
                    else ParseItems(a, p, depth, max).Fail?)
  {
    hide ParseValue;
  }

  /** A dictionary that goes on: its first pair, then the rest. */
  lemma PairsStep(a: Bytes, p: nat, depth: nat, max: int, dict: seq<Entry>, previous: seq<Bytes>)
    requires p <= |a|
    ensures ParsePairs(a, p, depth, max, dict, previous).Ok? ==> p < |a| && (a[p] == E || IsDigit(a[p]))
    ensures p < |a| && a[p] == E ==> ParsePairs(a, p, depth, max, dict, previous) == Ok(dict, p + 1, [])
    ensures p < |a| && a[p] != E && IsDigit(a[p]) ==>
              var k, r := ParseString(a, p), ParsePairs(a, p, depth, max, dict, previous);
              && (k.Fail? ==> r.Fail?)
              && (k.Ok? ==>
                    var v := ParseValue(a, k.pos, depth + 1, max);
                    && (v.Fail? ==> r.Fail?)
                    && (v.Ok? ==>
                          var dict' := if HasKey(dict, k.value) then dict else Emplace(dict, k.value, v.value);
                          var rest := ParsePairs(a, v.pos, depth, max, dict', [k.value]);
                          if rest.Ok?
                          then r == Ok(rest.value, rest.pos,
                                       k.warnings + KeyWarnings(dict, previous, k.value, k.pos) + v.warnings + rest.warnings)
                          else r.Fail?))
  {
    hide ParseString, ParseValue, HasKey, Emplace, KeyWarnings;
  }

  lemma ShiftHasKey(entries: seq<Entry>, key: Bytes, d: int)
    ensures HasKey(ShiftEntries(entries, d), key) == HasKey(entries, key)
  {
    var r := ShiftEntries(entries, d);
    assert forall i :: 0 <= i < |r| ==> r[i].key == entries[i].key;
  }

  lemma {:induction false} ShiftEmplace(entries: seq<Entry>, key: Bytes, v: BValue, d: int)
    ensures ShiftEntries(Emplace(entries, key, v), d) == Emplace(ShiftEntries(entries, d), key, Shift(v, d))
  {
    var n := |entries| - 1;
    if entries != [] && !Less(entries[n].key, key) {
      ShiftEmplace(entries[..n], key, v, d);
      var e := Emplace(entries[..n], key, v);
      assert (e + [entries[n]])[..|e|] == e;
      var s := ShiftEntries(entries, d);
      assert s[..n] == ShiftEntries(entries[..n], d);
    } else {
      assert (entries + [Entry(key, v)])[..|entries|] == entries;
    }
  }

  lemma {:induction false} PairsAgree(a: Bytes, p: nat, b: Bytes, q: nat, depth: nat, max: int,
                                      dict: seq<Entry>, dict': seq<Entry>, previous: seq<Bytes>)
    requires p <= |a| && dict' == ShiftEntries(dict, q - p)
    requires ParsePairs(a, p, depth, max, dict, previous).Ok?
    requires Agree(a, p, b, q, ParsePairs(a, p, depth, max, dict, previous).pos - p)
    ensures var r := ParsePairs(a, p, depth, max, dict, previous);
            ParsePairs(b, q, depth, max, dict', previous)
              == Ok(ShiftEntries(r.value, q - p), q + (r.pos - p), ShiftWarnings(r.warnings, q - p))
    decreases |a| - p, 4
  {
    hide ParseString, ParseValue, ParsePairs, HasKey, Emplace, KeyWarnings, Agree, ShiftEntries, ShiftWarnings, Shift;
    var r := ParsePairs(a, p, depth, max, dict, previous);
    var n, d := r.pos - p, q - p;
    PairsStep(a, p, depth, max, dict, previous);
    AgreeAt(a, p, b, q, n, 0);
    PairsStep(b, q, depth, max, dict', previous);
    NoShiftedWarnings(d);
    if a[p] != E {
      var k := ParseString(a, p);
      var v := ParseValue(a, k.pos, depth + 1, max);
      PairAgreeParts(a, p, b, q, k.pos - p, v.pos - p, n);
      StringAgrees(a, p, b, q);
      ValueAgrees(a, k.pos, b, k.pos + d, depth + 1, max);
      var next := if HasKey(dict, k.value) then dict else Emplace(dict, k.value, v.value);
      ShiftHasKey(dict, k.value, d);
      ShiftEmplace(dict, k.value, v.value, d);
      PairsAgree(a, v.pos, b, v.pos + d, depth, max, next, ShiftEntries(next, d), [k.value]);
      PairWarnings(k.warnings, dict, previous, k.value, k.pos, v.warnings,
                   ParsePairs(a, v.pos, depth, max, next, [k.value]).warnings, d);
    }
  }

  lemma PairAgreeParts(a: Bytes, p: nat, b: Bytes, q: nat, k: nat, v: nat, n: nat)
    requires k <= v <= n && p <= |a| && Agree(a, p, b, q, n)
    ensures Agree(a, p, b, q, k) && Agree(a, p + k, b, q + k, v - k) && Agree(a, p + v, b, q + v, n - v)
  {
    AgreePart(a, p, b, q, n, 0, k);
    AgreePart(a, p, b, q, n, k, v - k);
    AgreePart(a, p, b, q, n, v, n - v);
  }

  lemma NoShiftedWarnings(d: int)
    ensures ShiftWarnings([], d) == []
  {
  }

  lemma PairWarnings(w: seq<Warning>, dict: seq<Entry>, previous: seq<Bytes>, key: Bytes, at: int,
                     w': seq<Warning>, w'': seq<Warning>, d: int)
    ensures ShiftWarnings(w + KeyWarnings(dict, previous, key, at) + w' + w'', d)
            == ShiftWarnings(w, d) + KeyWarnings(ShiftEntries(dict, d), previous, key, at + d)
               + ShiftWarnings(w', d) + ShiftWarnings(w'', d)
  {
    ShiftHasKey(dict, key, d);
    var kw := KeyWarnings(dict, previous, key, at);
    assert ShiftWarnings(kw, d) == KeyWarnings(ShiftEntries(dict, d), previous, key, at + d);
    ShiftWarningsJoin(w, kw, d);
    ShiftWarningsJoin(w + kw, w', d);
    ShiftWarningsJoin(w + kw + w', w'', d);
  }

  /** Every decoded value's span is exactly the bytes it consumed. */
  lemma SpanIsExact(data: Bytes, pos: nat, depth: nat, max: int)
    requires pos <= |data| && ParseValue(data, pos, depth, max).Ok?
    ensures var r := ParseValue(data, pos, depth, max); RawSpan(r.value, data) == data[pos..r.pos]
  {
  }
}
