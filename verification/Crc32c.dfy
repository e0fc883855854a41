/**
 CRC-32C by table, and what it is a fast form of: one shift register step per bit.
 Words are 32 bits, least significant first.
 */
module Crc32c {
  import opened Endpoints

  type Word = w: seq<bool> | |w| == 32 witness seq(32, _ => false)

  // --- Words ---------------------------------------------------------------------------

  /** The n lowest bits of a number. */
  function Bits(x: nat, n: nat): (r: seq<bool>)
    ensures |r| == n
  {
    if n == 0 then [] else [x % 2 == 1] + Bits(x / 2, n - 1)
  }

  function Number(bits: seq<bool>): (x: nat) {
    if bits == [] then 0 else (if bits[0] then 1 else 0) + 2 * Number(bits[1..])
  }

  function Of(x: nat): (w: Word) {
    Bits(x, 32)
  }

  function Xor(a: Word, b: Word): (r: Word)
    ensures forall i :: 0 <= i < 32 ==> r[i] == (a[i] != b[i])
  {
    seq(32, i requires 0 <= i < 32 => a[i] != b[i])
  }

  /** `a >> 1`. */
  function Half(a: Word): (r: Word) {
    a[1..] + [false]
  }

  /** `a & 1`. */
  predicate Odd(a: Word) {
    a[0]
  }

  /** `a >> 8`. */
  function Shift8(a: Word): (r: Word) {
    a[8..] + Zeros(8)
  }

  function Zeros(n: nat): (r: seq<bool>)
    ensures |r| == n && forall i :: 0 <= i < n ==> !r[i]
  {
    seq(n, _ => false)
  }

  /** `a & 0xFF`. */
  function Low(a: Word): (r: Word) {
    a[..8] + Zeros(24)
  }

  function High(a: Word): (r: Word) {
    Zeros(8) + a[8..]
  }

  /** The reversed Castagnoli polynomial of RFC 3720, section 12.1. */
  function Poly(): (p: Word) {
    Of(0x82F63B78)
  }

  function Ones(): (r: Word) {
    Of(0xFFFF_FFFF)
  }

  lemma XorHalf(a: Word, b: Word)
    ensures Half(Xor(a, b)) == Xor(Half(a), Half(b))
    ensures Odd(Xor(a, b)) <==> Odd(a) != Odd(b)
  {
  }

  /** Exclusive or, with a mask on either side or both. */
  lemma XorMask(a: Word, b: Word, p: Word)
    ensures Xor(Xor(a, p), Xor(b, p)) == Xor(a, b)
    ensures Xor(Xor(a, p), b) == Xor(Xor(a, b), p)
    ensures Xor(a, Xor(b, p)) == Xor(Xor(a, b), p)
  {
  }

  lemma XorZero(a: Word)
    ensures Xor(a, Zeros(32)) == a
  {
  }

  // --- The register ----------------------------------------------------------------------

  /** One step of the register. */
  function Step(c: Word): (r: Word) {
    if Odd(c) then Xor(Half(c), Poly()) else Half(c)
  }

  function Steps(c: Word, n: nat): (r: Word) {
    if n == 0 then c else Step(Steps(c, n - 1))
  }

  /** Shifts one message bit in: the feedback is the bit against the one falling out. */
  function ShiftIn(c: Word, bit: bool): (r: Word) {
    if Odd(c) != bit then Xor(Half(c), Poly()) else Half(c)
  }

  function Halved(b: Word, n: nat): (r: Word) {
    if n == 0 then b else Half(Halved(b, n - 1))
  }

  /** The first n bits of b shifted in, least significant first. */
  function ShiftBits(c: Word, b: Word, n: nat): (r: Word) {
    if n == 0 then c else ShiftIn(ShiftBits(c, b, n - 1), Odd(Halved(b, n - 1)))
  }

  function ShiftMessage(c: Word, data: seq<Byte>): (r: Word) {
    if data == [] then c else ShiftBits(ShiftMessage(c, data[..|data| - 1]), Of(data[|data| - 1]), 8)
  }

  /** CRC-32C of a message: every bit through the register, inverted before and after. */
  function Reference(data: seq<Byte>): (r: Word) {
    Xor(ShiftMessage(Ones(), data), Ones())
  }

  // --- Why the table works -----------------------------------------------------------------

  /** The step is linear over exclusive or. */
  lemma StepLinear(x: Word, y: Word)
    ensures Step(Xor(x, y)) == Xor(Step(x), Step(y))
  {
    hide Xor, Half, Odd, Poly;
    XorHalf(x, y);
    XorMask(Half(x), Half(y), Poly());
  }

  lemma {:induction false} StepsLinear(x: Word, y: Word, n: nat)
    ensures Steps(Xor(x, y), n) == Xor(Steps(x, n), Steps(y, n))
  {
    hide Step, Xor;
    if n > 0 {
      StepsLinear(x, y, n - 1);
      StepLinear(Steps(x, n - 1), Steps(y, n - 1));
    }
  }

  lemma ShiftInStep(s: Word, m: Word)
    ensures Step(Xor(s, m)) == Xor(ShiftIn(s, Odd(m)), Half(m))
  {
    hide Xor, Half, Odd, Poly;
    XorHalf(s, m);
    XorMask(Half(s), Half(m), Poly());
  }

  /** Mixing a byte in first and then stepping is the same as shifting its bits in one by one. */
  lemma {:induction false} ByteFirst(c: Word, b: Word, n: nat)
    ensures Steps(Xor(c, b), n) == Xor(ShiftBits(c, b, n), Halved(b, n))
  {
    hide Step, ShiftIn, Xor, Half, Odd;
    if n > 0 {
      ByteFirst(c, b, n - 1);
      ShiftInStep(ShiftBits(c, b, n - 1), Halved(b, n - 1));
    }
  }

  lemma {:induction false} HalvedBits(c: Word, n: nat)
    requires n <= 32
    ensures Halved(c, n) == c[n..] + Zeros(n)
  {
    if n > 0 {
      HalvedBits(c, n - 1);
    }
  }

  /** While the low bits are clear the register only shifts. */
  lemma {:induction false} ClearSteps(c: Word, n: nat)
    requires n <= 8 && forall i :: 0 <= i < 8 ==> !c[i]
    ensures Steps(c, n) == Halved(c, n)
  {
    hide Poly, Xor;
    if n > 0 {
      ClearSteps(c, n - 1);
      HalvedBits(c, n - 1);
      assert !Odd(Halved(c, n - 1));
    }
  }

  lemma HalvedByte(c: Word)
    ensures Halved(c, 8) == Shift8(c)
  {
    HalvedBits(c, 8);
  }

  lemma WordParts(x: Word)
    ensures x == Xor(Low(x), High(x)) && Shift8(High(x)) == Shift8(x)
    ensures forall i :: 0 <= i < 8 ==> !High(x)[i]
  {
  }

  lemma {:induction false} BitsRunOut(x: nat, k: nat, n: nat)
    requires x < Power(k) && k <= n
    ensures Bits(x, n)[k..] == Zeros(n - k)
  {
    if k == 0 {
      NoBits(n);
    } else {
      BitsRunOut(x / 2, k - 1, n - 1);
      assert Bits(x, n)[k..] == Bits(x / 2, n - 1)[k - 1..];
    }
  }

  function Power(k: nat): (r: nat) {
    if k == 0 then 1 else 2 * Power(k - 1)
  }

  lemma {:induction false} NoBits(n: nat)
    ensures Bits(0, n) == Zeros(n)
  {
    if n > 0 {
      NoBits(n - 1);
    }
  }

  /** A byte lives in the low eight bits. */
  lemma ByteIsLow(c: Word, b: Byte)
    ensures Shift8(Xor(c, Of(b))) == Shift8(c) && Shift8(Of(b)) == Zeros(32)
  {
    assert Power(4) == 16;
    assert Power(8) == 2 * (2 * (2 * (2 * Power(4))));
    BitsRunOut(b, 8, 32);
    assert forall i :: 8 <= i < 32 ==> Of(b)[i] == Of(b)[8..][i - 8];
  }

  /** One table lookup does the work of eight bits. */
  lemma LookupIsEightBits(c: Word, b: Byte)
    ensures ShiftBits(c, Of(b), 8) == Xor(Steps(Low(Xor(c, Of(b))), 8), Shift8(c))
  {
    hide Step, ShiftIn, Steps, ShiftBits, Halved, Xor, Shift8, Low, High, Of;
    var w := Of(b);
    var x := Xor(c, w);
    ByteFirst(c, w, 8);
    HalvedByte(w);
    ByteIsLow(c, b);
    XorZero(ShiftBits(c, w, 8));
    WordParts(x);
    StepsLinear(Low(x), High(x), 8);
    ClearSteps(High(x), 8);
    HalvedByte(High(x));
  }

  // --- The code -----------------------------------------------------------------------------

  lemma {:induction false} NumberBits(bits: seq<bool>, n: nat)
    requires |bits| <= n
    ensures Number(bits) < Power(|bits|) && Bits(Number(bits), n) == bits + Zeros(n - |bits|)
  {
    if bits == [] {
      NoBits(n);
    } else {
      NumberBits(bits[1..], n - 1);
      assert Number(bits) / 2 == Number(bits[1..]);
    }
  }

  /** Where in the table a word's low byte points. */
  function Index(x: Word): (i: nat)
    ensures i < 256
  {
    NumberBits(x[..8], 8);
    assert Power(4) == 16;
    assert Power(8) == 2 * (2 * (2 * (2 * Power(4))));
    Number(x[..8])
  }

  lemma IndexWord(x: Word)
    ensures Of(Index(x)) == Low(x)
  {
    NumberBits(x[..8], 32);
  }

  ghost predicate TableOk(table: array<Word>)
    reads table
  {
    table.Length == 256 && forall i :: 0 <= i < 256 ==> table[i] == Steps(Of(i), 8)
  }

  method MakeTable() returns (table: array<Word>)
    ensures fresh(table) && TableOk(table)
  {
    hide Step, Steps, Of;
    table := new Word[256](_ => seq(32, _ => false));
    for i := 0 to 256
      invariant forall k :: 0 <= k < i ==> table[k] == Steps(Of(k), 8)
    {
      var c := Of(i);
      NoSteps(c);
      for k := 0 to 8
        invariant c == Steps(Of(i), k)
        invariant forall k :: 0 <= k < i ==> table[k] == Steps(Of(k), 8)
      {
        OneStep(Of(i), k);
        c := if Odd(c) then Xor(Half(c), Poly()) else Half(c);
        StepIs(Steps(Of(i), k));
      }
      table[i] := c;
    }
  }

  lemma StepIs(c: Word)
    ensures Step(c) == if Odd(c) then Xor(Half(c), Poly()) else Half(c)
  {
  }

  lemma NoSteps(c: Word)
    ensures Steps(c, 0) == c
  {
  }

  lemma OneStep(c: Word, k: nat)
    ensures Steps(c, k + 1) == Step(Steps(c, k))
  {
  }

  /** The table-driven loop computes the bit-by-bit checksum of every message. */
  method Checksum(data: seq<Byte>, table: array<Word>) returns (r: Word)
    requires TableOk(table)
    ensures r == Reference(data)
  {
    hide Step, Steps, ShiftBits, ShiftMessage, Index, Low, Shift8, Of, Xor;
    var crc := Ones();
    Empty(crc);
    assert data[..0] == [];
    for k := 0 to |data|
      invariant crc == ShiftMessage(Ones(), data[..k])
    {
      LookupIsEightBits(crc, data[k]);
      OneByte(Ones(), data, k);
      var x := Xor(crc, Of(data[k]));
      IndexWord(x);
      crc := Xor(table[Index(x)], Shift8(crc));
    }
    assert data[..|data|] == data;
    r := Xor(crc, Ones());
  }

  lemma Empty(c: Word)
    ensures ShiftMessage(c, []) == c
  {
  }

  lemma OneByte(c: Word, data: seq<Byte>, k: nat)
    requires k < |data|
    ensures ShiftMessage(c, data[..k + 1]) == ShiftBits(ShiftMessage(c, data[..k]), Of(data[k]), 8)
  {
    hide ShiftBits, Of;
    assert data[..k + 1][..k] == data[..k];
  }
}
