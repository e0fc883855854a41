/**
 Bencoding as pure functions: what the decoder makes of the bytes at a position,
 and what the encoder writes. A decoded value carries the span it came from.
 */
module Bencode {
  import opened Endpoints

  type Bytes = seq<Byte>

  const MINUS := 45
  const ZERO := 48
  const COLON := 58
  const D := 100
  const E := 101
  const I := 105
  const L := 108

  const MAX_UINT64 := 0xffff_ffff_ffff_ffff
  const MAX_INT64 := 0x7fff_ffff_ffff_ffff

  datatype BValue = BValue(node: Node, rawStart: int, rawLength: int)

  datatype Node =
    | Invalid
    | Integer(n: int)
    | String(bytes: Bytes)
    | List(items: seq<BValue>)
    | Dict(entries: seq<Entry>)
    | PreEncoded(raw: Bytes)

  /** Dictionary entries are kept in key order, as std::map does. */
  datatype Entry = Entry(key: Bytes, value: BValue)

  datatype Problem =
    | UnexpectedEnd | TooDeep | UnexpectedByte
    | OutOfRange | UnterminatedInteger | InvalidInInteger | NoDigits
    | PrefixTooLong | UnterminatedLength | MissingColon | LengthTooBig
    | UnterminatedList | UnterminatedDict | KeyNotString

  datatype Oddity = ZerosInInteger | NegativeZero | ZerosInLength | DuplicateKey | UnsortedKeys | TrailingBytes

  datatype Warning = Warning(at: int, what: Oddity)

  datatype Parse<T> = Ok(value: T, pos: nat, warnings: seq<Warning>) | Fail(at: nat, problem: Problem, warnings: seq<Warning>)

  predicate IsDigit(b: Byte) {
    ZERO <= b <= ZERO + 9
  }

  // --- Numbers ---------------------------------------------------------------------

  datatype Scan = Done(pos: nat, value: nat) | Stopped(pos: nat)

  /** Reads digits from pos, refusing to go past 64 bits. */
  function Magnitude(data: Bytes, pos: nat, acc: nat): (r: Scan)
    requires pos <= |data| && acc <= MAX_UINT64
    ensures pos <= r.pos <= |data|
    ensures r.Done? ==> r.value <= MAX_UINT64 && (r.pos == |data| || !IsDigit(data[r.pos]))
    ensures r.Done? ==> forall k :: pos <= k < r.pos ==> IsDigit(data[k])
    decreases |data| - pos
  {
    if pos == |data| || !IsDigit(data[pos]) then Done(pos, acc)
    else
      var digit := data[pos] - ZERO;
      if acc > (MAX_UINT64 - digit) / 10 then Stopped(pos) else Magnitude(data, pos + 1, acc * 10 + digit)
  }

  /** Reads a length prefix that began at `start`, refusing an eleventh digit. */
  function Length(data: Bytes, start: nat, pos: nat, acc: nat): (r: Scan)
    requires start <= pos <= |data| && pos - start <= 10
    ensures pos <= r.pos <= |data|
    ensures r.Done? ==> r.pos - start <= 10 && (r.pos == |data| || !IsDigit(data[r.pos]))
    ensures r.Done? ==> forall k :: pos <= k < r.pos ==> IsDigit(data[k])
    decreases |data| - pos
  {
    if pos == |data| || !IsDigit(data[pos]) then Done(pos, acc)
    else if pos - start >= 10 then Stopped(pos)
    else Length(data, start, pos + 1, acc * 10 + data[pos] - ZERO)
  }

  // --- The decoder -----------------------------------------------------------------

  function WarnIf(cond: bool, at: int, what: Oddity): (w: seq<Warning>) {
    if cond then [Warning(at, what)] else []
  }

  function ParseInteger(data: Bytes, pos: nat): (r: Parse<Node>)
    requires pos < |data|
    ensures r.Ok? ==> pos < r.pos <= |data| && r.value.Integer? && -MAX_INT64 - 1 <= r.value.n <= MAX_INT64
  {
    var negative := pos + 1 < |data| && data[pos + 1] == MINUS;
    var digits := if negative then pos + 2 else pos + 1;
    match Magnitude(data, digits, 0)
    case Stopped(p) => Fail(p, OutOfRange, [])
    case Done(p, m) => FinishInteger(data, negative, digits, p, m)
  }

  /** What becomes of magnitude m, read from `digits` up to p. */
  function FinishInteger(data: Bytes, negative: bool, digits: nat, p: nat, m: nat): (r: Parse<Node>)
    requires digits <= p <= |data|
    ensures r.Ok? ==> p < |data| && r.pos == p + 1 && r.value.Integer? && -MAX_INT64 - 1 <= r.value.n <= MAX_INT64
  {
    if p == |data| then Fail(p, UnterminatedInteger, [])
    else if data[p] != E then Fail(p, InvalidInInteger, [])
    else if p == digits then Fail(p, NoDigits, [])
    else if m > (if negative then MAX_INT64 + 1 else MAX_INT64) then Fail(p, OutOfRange, [])
    else
      var n: int := m;
      Ok(Integer(if negative then -n else n), p + 1,
         WarnIf(p - digits > 1 && data[digits] == ZERO, p, ZerosInInteger)
         + WarnIf(negative && m == 0, p, NegativeZero))
  }

  function ParseString(data: Bytes, pos: nat): (r: Parse<Bytes>)
    requires pos <= |data|
    ensures r.Ok? ==> pos < r.pos <= |data|
  {
    match Length(data, pos, pos, 0)
    case Stopped(p) => Fail(p, PrefixTooLong, [])
    case Done(p, n) =>
      if p == |data| then Fail(p, UnterminatedLength, [])
      else if data[p] != COLON then Fail(p, MissingColon, [])
      else if n > |data| - (p + 1) then Fail(p + 1, LengthTooBig, WarnIf(p - pos > 1 && data[pos] == ZERO, p, ZerosInLength))
      else Ok(data[p + 1..p + 1 + n], p + 1 + n, WarnIf(p - pos > 1 && data[pos] == ZERO, p, ZerosInLength))
  }

  /** The value at pos, with its raw span. */
  function ParseValue(data: Bytes, pos: nat, depth: nat, max: int): (r: Parse<BValue>)
    requires pos <= |data|
    ensures r.Ok? ==> pos < r.pos <= |data|
    decreases |data| - pos, 3
  {
    match ParseNode(data, pos, depth, max)
    case Fail(p, why, w) => Fail(p, why, w)
    case Ok(node, p, w) => Ok(BValue(node, pos, p - pos), p, w)
  }

  function ParseNode(data: Bytes, pos: nat, depth: nat, max: int): (r: Parse<Node>)
    requires pos <= |data|
    ensures r.Ok? ==> pos < r.pos <= |data|
    decreases |data| - pos, 2
  {
    if pos == |data| then Fail(pos, UnexpectedEnd, [])
    else if data[pos] == I then ParseInteger(data, pos)
    else if IsDigit(data[pos]) then
      match ParseString(data, pos)
      case Fail(p, why, w) => Fail(p, why, w)
      case Ok(s, p, w) => Ok(String(s), p, w)
    else if data[pos] == L || data[pos] == D then
      if depth >= max then Fail(pos, TooDeep, [])
      else if data[pos] == L then
        match ParseItems(data, pos + 1, depth, max)
        case Fail(p, why, w) => Fail(p, why, w)
        case Ok(items, p, w) => Ok(List(items), p, w)
      else
        match ParsePairs(data, pos + 1, depth, max, [], [])
        case Fail(p, why, w) => Fail(p, why, w)
        case Ok(entries, p, w) => Ok(Dict(entries), p, w)
    else Fail(pos, UnexpectedByte, [])
  }

  /** The rest of a list, up to and including its end. */
  function ParseItems(data: Bytes, pos: nat, depth: nat, max: int): (r: Parse<seq<BValue>>)
    requires pos <= |data|
    ensures r.Ok? ==> pos < r.pos <= |data|
    decreases |data| - pos, 4
  {
    if pos == |data| then Fail(pos, UnterminatedList, [])
    else if data[pos] == E then Ok([], pos + 1, [])
    else
      match ParseValue(data, pos, depth + 1, max)
      case Fail(p, why, w) => Fail(p, why, w)
      case Ok(v, p, w) =>
        match ParseItems(data, p, depth, max)
        case Fail(p', why, w') => Fail(p', why, w + w')
        case Ok(rest, p', w') => Ok([v] + rest, p', w + w')
  }

  predicate Less(a: Bytes, b: Bytes) {
    if b == [] then false
    else if a == [] then true
    else if a[0] != b[0] then a[0] < b[0]
    else Less(a[1..], b[1..])
  }

  predicate HasKey(entries: seq<Entry>, key: Bytes) {
    exists i :: 0 <= i < |entries| && entries[i].key == key
  }

  /** std::map::emplace of a key not present. */
  function Emplace(entries: seq<Entry>, key: Bytes, value: BValue): (r: seq<Entry>) {
    if entries == [] || Less(entries[|entries| - 1].key, key) then entries + [Entry(key, value)]
    else Emplace(entries[..|entries| - 1], key, value) + [entries[|entries| - 1]]
  }

  /** The rest of a dictionary. `previous` is empty or holds the key read last. */
  function ParsePairs(data: Bytes, pos: nat, depth: nat, max: int, dict: seq<Entry>, previous: seq<Bytes>): (r: Parse<seq<Entry>>)
    requires pos <= |data|
    ensures r.Ok? ==> pos < r.pos <= |data|
    decreases |data| - pos, 4
  {
    if pos == |data| then Fail(pos, UnterminatedDict, [])
    else if data[pos] == E then Ok(dict, pos + 1, [])
    else if !IsDigit(data[pos]) then Fail(pos, KeyNotString, [])
    else
      match ParseString(data, pos)
      case Fail(p, why, w) => Fail(p, why, w)
      case Ok(key, p, w) =>
        match ParseValue(data, p, depth + 1, max)
        case Fail(p', why, w') => Fail(p', why, w + KeyWarnings(dict, previous, key, p) + w')
        case Ok(v, p', w') =>
          var dict' := if HasKey(dict, key) then dict else Emplace(dict, key, v);
          match ParsePairs(data, p', depth, max, dict', [key])
          case Fail(p'', why, w'') => Fail(p'', why, w + KeyWarnings(dict, previous, key, p) + w' + w'')
          case Ok(all, p'', w'') => Ok(all, p'', w + KeyWarnings(dict, previous, key, p) + w' + w'')
  }

  function KeyWarnings(dict: seq<Entry>, previous: seq<Bytes>, key: Bytes, at: int): (w: seq<Warning>) {
    if HasKey(dict, key) then [Warning(at, DuplicateKey)]
    else WarnIf(previous != [] && Less(key, previous[0]), at, UnsortedKeys)
  }

  /** The whole input: trailing bytes are only warned about. */
  function Decode(data: Bytes, max: int): (r: Parse<BValue>) {
    match ParseValue(data, 0, 0, max)
    case Fail(p, why, w) => Fail(p, why, w)
    case Ok(v, p, w) => Ok(v, p, w + WarnIf(p < |data|, p, TrailingBytes))
  }

  /** The bytes a value came from, or nothing for a value built in code. */
  function RawSpan(v: BValue, source: Bytes): (r: Bytes) {
    if v.rawStart < 0 || v.rawLength <= 0 || v.rawStart + v.rawLength > |source| then []
    else source[v.rawStart..v.rawStart + v.rawLength]
  }

  // --- The encoder ----------------------------------------------------------------

  function Decimal(n: nat): (r: Bytes)
    ensures r != []
  {
    if n < 10 then [ZERO + n] else Decimal(n / 10) + [ZERO + n % 10]
  }

  function Number(n: int): (r: Bytes) {
    if n < 0 then [MINUS] + Decimal(-n) else Decimal(n)
  }

  function EncodeString(s: Bytes): (r: Bytes) {
    Decimal(|s|) + [COLON] + s
  }

  function Encode(v: BValue): (r: Bytes)
    decreases v, 1
  {
    match v.node
    case Invalid => []
    case Integer(n) => [I] + Number(n) + [E]
    case PreEncoded(raw) => raw
    case String(s) => EncodeString(s)
    case List(items) => [L] + EncodeItems(items) + [E]
    case Dict(entries) => [D] + EncodeEntries(entries) + [E]
  }

  function EncodeItems(items: seq<BValue>): (r: Bytes)
    decreases items, 0
  {
    if items == [] then [] else Encode(items[0]) + EncodeItems(items[1..])
  }

  function EncodeEntries(entries: seq<Entry>): (r: Bytes)
    decreases entries, 0
  {
    if entries == [] then []
    else EncodeString(entries[0].key) + Encode(entries[0].value) + EncodeEntries(entries[1..])
  }
}
