/**
 160-bit Kademlia identifiers and their XOR metric. Bytes are bit vectors; the
 metric is read as a number (`Distance`), and identifiers also as 160 bits (`BitAt`).
 */
module NodeIds {

  const SIZE := 20
  const BITS := 160

  type NodeId = b: seq<bv8> | |b| == SIZE witness seq(SIZE, _ => 0)

  // --- Bits of a byte ------------------------------------------------------------

  /** `0x80 >> k`. */
  function Mask(k: nat): (m: bv8)
    requires k < 8
  {
    match k
    case 0 => 0x80 case 1 => 0x40 case 2 => 0x20 case 3 => 0x10
    case 4 => 0x08 case 5 => 0x04 case 6 => 0x02 case _ => 0x01
  }

  predicate Bit(b: bv8, k: nat)
    requires k < 8
  {
    b & Mask(k) != 0
  }

  /** `std::countl_zero` of a byte. */
  function LeadingZeros(x: bv8): (n: nat)
    ensures n <= 8 && (n == 8 <==> x == 0)
  {
    if x & 0x80 != 0 then 0 else if x & 0x40 != 0 then 1 else if x & 0x20 != 0 then 2 else if x & 0x10 != 0 then 3
    else if x & 0x08 != 0 then 4 else if x & 0x04 != 0 then 5 else if x & 0x02 != 0 then 6 else if x & 0x01 != 0 then 7
    else 8
  }

  lemma ZeroBit(x: bv8, k: nat)
    requires k < 8
    ensures k < LeadingZeros(x) ==> x & Mask(k) == 0
    ensures k == LeadingZeros(x) ==> x & Mask(k) != 0
  {
  }

  lemma LeadingZerosBit(a: bv8, b: bv8, k: nat)
    requires k < 8
    ensures k < LeadingZeros(a ^ b) ==> (Bit(a, k) <==> Bit(b, k))
    ensures k == LeadingZeros(a ^ b) ==> (Bit(a, k) <==> !Bit(b, k))
  {
    hide Mask, LeadingZeros, Bit;
    ZeroBit(a ^ b, k);
    SameBit(a, b, k);
  }

  lemma SameBit(a: bv8, b: bv8, k: nat)
    requires k < 8
    ensures (Bit(a, k) <==> Bit(b, k)) <==> (a ^ b) & Mask(k) == 0
  {
  }

  lemma ByteFromBits(a: bv8, b: bv8)
    requires forall k :: 0 <= k < 8 ==> (Bit(a, k) <==> Bit(b, k))
    ensures a == b
  {
    assert Bit(a, 0) <==> Bit(b, 0);
    assert Bit(a, 1) <==> Bit(b, 1);
    assert Bit(a, 2) <==> Bit(b, 2);
    assert Bit(a, 3) <==> Bit(b, 3);
    assert Bit(a, 4) <==> Bit(b, 4);
    assert Bit(a, 5) <==> Bit(b, 5);
    assert Bit(a, 6) <==> Bit(b, 6);
    assert Bit(a, 7) <==> Bit(b, 7);
  }

  /** The k-th bit of an identifier, most significant first. */
  predicate BitAt(id: NodeId, k: nat)
    requires k < BITS
  {
    Bit(id[k / 8], k % 8)
  }

  lemma IdFromBits(a: NodeId, b: NodeId)
    requires forall k :: 0 <= k < BITS ==> (BitAt(a, k) <==> BitAt(b, k))
    ensures a == b
  {
    forall i | 0 <= i < SIZE
      ensures a[i] == b[i]
    {
      forall k | 0 <= k < 8
        ensures Bit(a[i], k) <==> Bit(b[i], k)
      {
        assert BitAt(a, i * 8 + k) <==> BitAt(b, i * 8 + k);
      }
      ByteFromBits(a[i], b[i]);
    }
  }

  // --- The metric ------------------------------------------------------------------

  function Xor(a: NodeId, b: NodeId): (r: NodeId)
    ensures forall i :: 0 <= i < SIZE ==> r[i] == a[i] ^ b[i]
  {
    seq(SIZE, i requires 0 <= i < SIZE => a[i] ^ b[i])
  }

  function ByteValue(b: bv8): (v: nat)
    ensures v < 256
  {
    b as nat
  }

  /** Big-endian value of a byte string. */
  function Value(s: seq<bv8>): (v: nat) {
    if s == [] then 0 else Value(s[..|s| - 1]) * 256 + ByteValue(s[|s| - 1])
  }

  function Distance(target: NodeId, id: NodeId): (d: nat) {
    Value(Xor(id, target))
  }

  lemma ByteOrder(a: bv8, b: bv8)
    ensures a < b <==> ByteValue(a) < ByteValue(b)
  {
  }

  /** Big-endian numbers compare by their first difference. */
  lemma ValueOrder(a: seq<bv8>, b: seq<bv8>, i: nat)
    requires |a| == |b| && i < |a| && a[..i] == b[..i] && a[i] < b[i]
    ensures Value(a) < Value(b)
  {
    ByteOrder(a[i], b[i]);
    DigitOrder(a, b, i);
  }

  lemma {:induction false} DigitOrder(a: seq<bv8>, b: seq<bv8>, i: nat)
    requires |a| == |b| && i < |a| && a[..i] == b[..i] && ByteValue(a[i]) < ByteValue(b[i])
    ensures Value(a) < Value(b)
  {
    hide ByteValue;
    var n := |a| - 1;
    if i == n {
      assert a[..n] == b[..n];
    } else {
      assert a[..n][..i] == a[..i] && b[..n][..i] == b[..i];
      DigitOrder(a[..n], b[..n], i);
      HigherDigit(Value(a[..n]), Value(b[..n]), ByteValue(a[n]), ByteValue(b[n]));
    }
  }

  lemma HigherDigit(x: nat, y: nat, p: nat, q: nat)
    requires x < y && p < 256
    ensures x * 256 + p < y * 256 + q
  {
  }

  /** First index at which two identifiers differ, or SIZE. */
  function FirstDifference(a: NodeId, b: NodeId, from: nat): (i: nat)
    requires from <= SIZE
    ensures from <= i <= SIZE
    ensures forall k :: from <= k < i ==> a[k] == b[k]
    ensures i < SIZE ==> a[i] != b[i]
    decreases SIZE - from
  {
    if from == SIZE || a[from] != b[from] then from else FirstDifference(a, b, from + 1)
  }

  /** True if a is strictly closer to target than b. */
  function Closer(target: NodeId, a: NodeId, b: NodeId): (r: bool) {
    var i := FirstDifference(a, b, 0);
    i < SIZE && a[i] ^ target[i] < b[i] ^ target[i]
  }

  lemma XorInjective(a: bv8, b: bv8, t: bv8)
    ensures a ^ t == b ^ t <==> a == b
  {
  }

  lemma XorFirstDifference(target: NodeId, a: NodeId, b: NodeId, i: nat)
    requires i < SIZE && a[..i] == b[..i]
    ensures Xor(a, target)[..i] == Xor(b, target)[..i]
  {
    assert forall k :: 0 <= k < i ==> a[k] == a[..i][k] && b[k] == b[..i][k];
  }

  /** The byte-by-byte comparison is the order of XOR distances, and distance identifies an ID. */
  lemma CloserIsDistance(target: NodeId, a: NodeId, b: NodeId)
    ensures Closer(target, a, b) <==> Distance(target, a) < Distance(target, b)
    ensures Distance(target, a) == Distance(target, b) <==> a == b
  {
    hide Distance;
    var i := FirstDifference(a, b, 0);
    if i < SIZE {
      assert a[..i] == b[..i];
      FirstByteDecides(target, a, b, i);
    } else {
      assert a == b;
    }
  }

  lemma FirstByteDecides(target: NodeId, a: NodeId, b: NodeId, i: nat)
    requires i < SIZE && a[..i] == b[..i] && a[i] != b[i]
    ensures a[i] ^ target[i] < b[i] ^ target[i] <==> Distance(target, a) < Distance(target, b)
    ensures Distance(target, a) != Distance(target, b)
  {
    hide Value, Xor;
    var x, y := Xor(a, target), Xor(b, target);
    XorFirstDifference(target, a, b, i);
    XorAt(a, target, i);
    XorAt(b, target, i);
    XorInjective(a[i], b[i], target[i]);
    if x[i] < y[i] {
      ValueOrder(x, y, i);
    } else {
      ValueOrder(y, x, i);
    }
  }

  lemma XorAt(a: NodeId, b: NodeId, i: nat)
    requires i < SIZE
    ensures Xor(a, b)[i] == a[i] ^ b[i]
  {
  }

  // --- Shared prefixes --------------------------------------------------------------

  /** Number of leading bits a and b share. */
  function PrefixLength(a: NodeId, b: NodeId): (n: nat)
    ensures n <= BITS
  {
    var i := FirstDifference(a, b, 0);
    if i == SIZE then BITS else i * 8 + LeadingZeros(a[i] ^ b[i])
  }

  lemma PrefixLengthBit(a: NodeId, b: NodeId, k: nat)
    requires k < BITS
    ensures k < PrefixLength(a, b) ==> (BitAt(a, k) <==> BitAt(b, k))
    ensures k == PrefixLength(a, b) ==> (BitAt(a, k) <==> !BitAt(b, k))
  {
    hide Bit, LeadingZeros;
    var i := FirstDifference(a, b, 0);
    if k / 8 == i {
      LeadingZerosBit(a[i], b[i], k % 8);
    } else if k / 8 > i {
      ByteDiffers(a[i], b[i]);
    }
  }

  /** The shared prefix, bit for bit: equal before it ends, different where it ends. */
  lemma PrefixLengthBits(a: NodeId, b: NodeId)
    ensures var n := PrefixLength(a, b);
            && (forall k :: 0 <= k < n ==> (BitAt(a, k) <==> BitAt(b, k)))
            && (n < BITS ==> (BitAt(a, n) <==> !BitAt(b, n)))
            && (n == BITS <==> a == b)
  {
    hide PrefixLength, BitAt;
    var n := PrefixLength(a, b);
    forall k | 0 <= k < n
      ensures BitAt(a, k) <==> BitAt(b, k)
    {
      PrefixLengthBit(a, b, k);
    }
    if n < BITS {
      PrefixLengthBit(a, b, n);
    } else {
      IdFromBits(a, b);
    }
  }

  /** The prefix length is determined by the bits alone. */
  lemma PrefixLengthIs(a: NodeId, b: NodeId, n: nat)
    requires n <= BITS
    requires forall k :: 0 <= k < n ==> (BitAt(a, k) <==> BitAt(b, k))
    ensures PrefixLength(a, b) >= n
    ensures n < BITS && (BitAt(a, n) <==> !BitAt(b, n)) ==> PrefixLength(a, b) == n
  {
    PrefixLengthBits(a, b);
    var m := PrefixLength(a, b);
    assert m < BITS ==> (BitAt(a, m) <==> !BitAt(b, m));
  }

  lemma LongerZeros(x: bv8, y: bv8)
    requires LeadingZeros(x) > LeadingZeros(y)
    ensures x < y
  {
  }

  lemma PrefixOrder(t: NodeId, a: NodeId, b: NodeId)
    requires PrefixLength(t, a) > PrefixLength(t, b)
    ensures var i, j := FirstDifference(t, a, 0), FirstDifference(t, b, 0);
            && j <= i && j < SIZE
            && (j == i ==> LeadingZeros(t[j] ^ a[j]) > LeadingZeros(t[j] ^ b[j]))
  {
    hide LeadingZeros;
    var i, j := FirstDifference(t, a, 0), FirstDifference(t, b, 0);
    if i < SIZE { ByteDiffers(t[i], a[i]); }
    if j < SIZE { ByteDiffers(t[j], b[j]); }
  }

  lemma SamePrefix(t: NodeId, a: NodeId, j: nat)
    requires j <= FirstDifference(t, a, 0)
    ensures a[..j] == t[..j]
  {
  }

  /** Byte a is nearer to t than b is. */
  predicate NearerByte(t: bv8, a: bv8, b: bv8) {
    a ^ t < b ^ t
  }

  /** Byte a agrees with t, or agrees with it for longer than b does. */
  predicate AgreesLonger(t: bv8, a: bv8, b: bv8) {
    b != t && (a == t || LeadingZeros(t ^ a) > LeadingZeros(t ^ b))
  }

  lemma PrefixByte(t: NodeId, a: NodeId, b: NodeId)
    requires PrefixLength(t, a) > PrefixLength(t, b)
    ensures var j := FirstDifference(t, b, 0); j < SIZE && NearerByte(t[j], a[j], b[j])
  {
    hide PrefixLength, FirstDifference, AgreesLonger, NearerByte;
    DecidingByte(t, a, b);
    var j := FirstDifference(t, b, 0);
    CloserByte(t[j], a[j], b[j]);
  }

  /** Where b leaves the target, a still agrees with it or agrees for longer. */
  lemma DecidingByte(t: NodeId, a: NodeId, b: NodeId)
    requires PrefixLength(t, a) > PrefixLength(t, b)
    ensures var j := FirstDifference(t, b, 0); j < SIZE && AgreesLonger(t[j], a[j], b[j])
  {
    hide LeadingZeros, PrefixLength;
    PrefixOrder(t, a, b);
  }

  lemma CloserByte(t: bv8, a: bv8, b: bv8)
    requires AgreesLonger(t, a, b)
    ensures NearerByte(t, a, b)
  {
    assert t ^ a == a ^ t && t ^ b == b ^ t;
    if a != t { LongerZeros(a ^ t, b ^ t); }
  }

  /** Sharing a longer prefix with the target means being closer to it: buckets are distance shells. */
  lemma LongerPrefixIsCloser(target: NodeId, a: NodeId, b: NodeId)
    requires PrefixLength(target, a) > PrefixLength(target, b)
    ensures Closer(target, a, b)
  {
    hide LeadingZeros, PrefixLength, Closer, NearerByte;
    PrefixOrder(target, a, b);
    PrefixByte(target, a, b);
    var j := FirstDifference(target, b, 0);
    SamePrefix(target, a, j);
    SamePrefix(target, b, j);
    CloserAt(target, a, b, j);
  }

  lemma CloserAt(target: NodeId, a: NodeId, b: NodeId, j: nat)
    requires j < SIZE && a[..j] == b[..j] && NearerByte(target[j], a[j], b[j])
    ensures Closer(target, a, b)
  {
    hide Value, Closer, Xor;
    XorFirstDifference(target, a, b, j);
    XorAt(a, target, j);
    XorAt(b, target, j);
    ValueOrder(Xor(a, target), Xor(b, target), j);
    CloserIsDistance(target, a, b);
  }

  lemma ByteDiffers(a: bv8, b: bv8)
    requires a != b
    ensures a ^ b != 0 && b ^ a != 0 && a ^ b == b ^ a
  {
  }

  // --- The loops ---------------------------------------------------------------------

  lemma DifferenceStep(a: NodeId, b: NodeId, i: nat)
    requires i < SIZE
    ensures FirstDifference(a, b, i) == if a[i] ^ b[i] != 0 then i else FirstDifference(a, b, i + 1)
  {
    if a[i] != b[i] { ByteDiffers(a[i], b[i]); }
  }

  method CommonPrefixLength(a: NodeId, b: NodeId) returns (n: nat)
    ensures n == PrefixLength(a, b)
  {
    hide FirstDifference, LeadingZeros;
    for i := 0 to SIZE
      invariant FirstDifference(a, b, 0) == FirstDifference(a, b, i)
    {
      DifferenceStep(a, b, i);
      var x := a[i] ^ b[i];
      if x != 0 {
        return i * 8 + LeadingZeros(x);
      }
    }
    return BITS;
  }

  lemma CloserStep(target: NodeId, a: NodeId, b: NodeId, i: nat)
    requires i < SIZE
    ensures FirstDifference(a, b, i) == if a[i] ^ target[i] != b[i] ^ target[i] then i else FirstDifference(a, b, i + 1)
  {
    XorInjective(a[i], b[i], target[i]);
  }

  method IsCloser(target: NodeId, a: NodeId, b: NodeId) returns (r: bool)
    ensures r <==> Distance(target, a) < Distance(target, b)
  {
    hide FirstDifference, Distance;
    CloserIsDistance(target, a, b);
    for i := 0 to SIZE
      invariant FirstDifference(a, b, 0) == FirstDifference(a, b, i)
    {
      CloserStep(target, a, b, i);
      var da, db := a[i] ^ target[i], b[i] ^ target[i];
      if da != db {
        return da < db;
      }
    }
    return false;
  }

  /** x with bit k taken from y: `(x & ~mask) | (y & mask)`. */
  function WithBit(x: bv8, y: bv8, k: nat): (r: bv8)
    requires k < 8
  {
    (x & !Mask(k)) | (y & Mask(k))
  }

  lemma WithBitBits(x: bv8, y: bv8, k: nat, m: nat)
    requires k < 8 && m < 8
    ensures Bit(WithBit(x, y, k), m) <==> if m == k then Bit(y, m) else Bit(x, m)
  {
    match k
    case 0 => match m { case 0 => case 1 => case 2 => case 3 => case 4 => case 5 => case 6 => case _ => }
    case 1 => match m { case 0 => case 1 => case 2 => case 3 => case 4 => case 5 => case 6 => case _ => }
    case 2 => match m { case 0 => case 1 => case 2 => case 3 => case 4 => case 5 => case 6 => case _ => }
    case 3 => match m { case 0 => case 1 => case 2 => case 3 => case 4 => case 5 => case 6 => case _ => }
    case 4 => match m { case 0 => case 1 => case 2 => case 3 => case 4 => case 5 => case 6 => case _ => }
    case 5 => match m { case 0 => case 1 => case 2 => case 3 => case 4 => case 5 => case 6 => case _ => }
    case 6 => match m { case 0 => case 1 => case 2 => case 3 => case 4 => case 5 => case 6 => case _ => }
    case _ => match m { case 0 => case 1 => case 2 => case 3 => case 4 => case 5 => case 6 => case _ => }
  }

  lemma NotBit(y: bv8, k: nat)
    requires k < 8
    ensures Bit(!y, k) <==> !Bit(y, k)
  {
  }

  /** Copies bit `bit` of byte source y into the identifier, leaving the others alone. */
  function SetBitAt(id: NodeId, y: bv8, bit: nat): (r: NodeId)
    requires bit < BITS
  {
    id[bit / 8 := WithBit(id[bit / 8], y, bit % 8)]
  }

  lemma SetBitAtBits(id: NodeId, y: bv8, bit: nat, m: nat)
    requires bit < BITS && m < BITS
    ensures BitAt(SetBitAt(id, y, bit), m) <==> if m == bit then Bit(y, bit % 8) else BitAt(id, m)
  {
    hide Bit, WithBit;
    WithBitBits(id[bit / 8], y, bit % 8, m % 8);
  }

  function Clamp(n: int): (r: nat)
    ensures r <= BITS
  {
    if n < 0 then 0 else if n > BITS then BITS else n
  }

  /**
   `random` with the first prefixBits bits of base, and the next one flipped when
   exact: so it shares at least that many bits with base, and with exact set, just that many.
   */
  method RandomWithPrefix(random: NodeId, base: NodeId, prefixBits: int, exact: bool) returns (id: NodeId)
    ensures var p := Clamp(prefixBits);
            && PrefixLength(base, id) >= p
            && (exact && p < BITS ==> PrefixLength(base, id) == p)
            && forall k :: (if exact then p + 1 else p) <= k < BITS ==> (BitAt(id, k) <==> BitAt(random, k))
  {
    hide BitAt, SetBitAt, PrefixLength;
    var p := Clamp(prefixBits);
    id := random;
    for bit := 0 to p
      invariant forall k :: 0 <= k < bit ==> (BitAt(id, k) <==> BitAt(base, k))
      invariant forall k :: bit <= k < BITS ==> (BitAt(id, k) <==> BitAt(random, k))
    {
      id := CopyBit(id, base, bit);
    }
    if exact && p < BITS {
      id := FlipBit(id, base, p);
    }
    PrefixLengthIs(base, id, p);
  }

  method CopyBit(id: NodeId, base: NodeId, bit: nat) returns (r: NodeId)
    requires bit < BITS
    ensures forall k :: 0 <= k < BITS ==> (BitAt(r, k) <==> if k == bit then BitAt(base, k) else BitAt(id, k))
  {
    hide Bit, SetBitAt;
    r := SetBitAt(id, base[bit / 8], bit);
    forall k | 0 <= k < BITS
      ensures BitAt(r, k) <==> if k == bit then BitAt(base, k) else BitAt(id, k)
    {
      SetBitAtBits(id, base[bit / 8], bit, k);
    }
  }

  method FlipBit(id: NodeId, base: NodeId, bit: nat) returns (r: NodeId)
    requires bit < BITS
    ensures forall k :: 0 <= k < BITS ==> (BitAt(r, k) <==> if k == bit then !BitAt(base, k) else BitAt(id, k))
  {
    hide Bit, SetBitAt;
    r := SetBitAt(id, !base[bit / 8], bit);
    NotBit(base[bit / 8], bit % 8);
    forall k | 0 <= k < BITS
      ensures BitAt(r, k) <==> if k == bit then !BitAt(base, k) else BitAt(id, k)
    {
      SetBitAtBits(id, !base[bit / 8], bit, k);
    }
  }
}
