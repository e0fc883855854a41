/** The cursor parser and the buffer-filling printer, as they run. */
module BencodeDecoder {
  import opened Endpoints
  import opened Bencode

  datatype Error = NoError | Error(at: nat, problem: Problem)

  class Decoder {
    const data: Bytes
    const max: int
    var pos: nat
    var warnings: seq<Warning>
    var error: Error

    constructor (data: Bytes, max: int)
      ensures this.data == data && this.max == max && pos == 0 && warnings == [] && error == NoError
    {
      this.data, this.max := data, max;
      pos, warnings, error := 0, [], NoError;
    }

    /** The first error is the one kept. */
    method Refuse(problem: Problem)
      modifies `error
      ensures error == if old(error).NoError? then Error(pos, problem) else old(error)
    {
      if error.NoError? {
        error := Error(pos, problem);
      }
    }

    ghost predicate Started()
      reads this
    {
      pos <= |data| && error.NoError?
    }

    /** The cursor stands where the specification says, with its warnings added to those before. */
    ghost predicate Agrees<T>(ok: bool, out: T, r: Parse<T>, before: seq<Warning>)
      reads this
    {
      match r
      case Ok(v, p, w) => ok && out == v && pos == p && warnings == before + w && error.NoError?
      case Fail(p, why, w) => !ok && error == Error(p, why) && warnings == before + w
    }

    method ParseInteger() returns (ok: bool, out: Node)
      requires Started() && pos < |data|
      modifies this
      ensures pos <= |data| && Agrees(ok, out, Bencode.ParseInteger(data, old(pos)), old(warnings))
    {
      hide FinishInteger;
      ok, out := false, Invalid;
      var before := warnings;
      pos := pos + 1;
      var negative := false;
      if pos < |data| && data[pos] == MINUS {
        negative := true;
        pos := pos + 1;
      }
      var digits := pos;
      var magnitude: nat := 0;
      while pos < |data| && IsDigit(data[pos])
        invariant digits <= pos <= |data| && magnitude <= MAX_UINT64 && error.NoError? && warnings == before
        invariant Magnitude(data, digits, 0) == Magnitude(data, pos, magnitude)
        decreases |data| - pos
      {
        var digit := data[pos] - ZERO;
        if magnitude > (MAX_UINT64 - digit) / 10 {
          Refuse(OutOfRange);
          return;
        }
        magnitude := magnitude * 10 + digit;
        pos := pos + 1;
      }
      assert Magnitude(data, digits, 0) == Done(pos, magnitude);
      ok, out := Finish(negative, digits, magnitude);
    }

    method Finish(negative: bool, digits: nat, magnitude: nat) returns (ok: bool, out: Node)
      requires digits <= pos && Started()
      modifies this
      ensures pos <= |data| && Agrees(ok, out, FinishInteger(data, negative, digits, old(pos), magnitude), old(warnings))
    {
      ok, out := false, Invalid;
      if pos == |data| {
        Refuse(UnterminatedInteger);
        return;
      }
      if data[pos] != E {
        Refuse(InvalidInInteger);
        return;
      }
      if pos == digits {
        Refuse(NoDigits);
        return;
      }
      if magnitude > (if negative then MAX_INT64 + 1 else MAX_INT64) {
        Refuse(OutOfRange);
        return;
      }
      if pos - digits > 1 && data[digits] == ZERO {
        warnings := warnings + [Warning(pos, ZerosInInteger)];
      }
      if negative && magnitude == 0 {
        warnings := warnings + [Warning(pos, NegativeZero)];
      }
      pos := pos + 1;
      var n: int := magnitude;
      ok, out := true, Integer(if negative then -n else n);
    }

    method ParseString() returns (ok: bool, out: Bytes)
      requires Started()
      modifies this
      ensures pos <= |data| && Agrees(ok, out, Bencode.ParseString(data, old(pos)), old(warnings))
    {
      ok, out := false, [];
      var digits := pos;
      var length: nat := 0;
      while pos < |data| && IsDigit(data[pos])
        invariant digits <= pos <= |data| && pos - digits <= 10 && error.NoError? && warnings == old(warnings)
        invariant Length(data, digits, digits, 0) == Length(data, digits, pos, length)
        decreases |data| - pos
      {
        if pos - digits >= 10 {
          Refuse(PrefixTooLong);
          return;
        }
        length := length * 10 + data[pos] - ZERO;
        pos := pos + 1;
      }
      if pos == |data| {
        Refuse(UnterminatedLength);
        return;
      }
      if data[pos] != COLON {
        Refuse(MissingColon);
        return;
      }
      if pos - digits > 1 && data[digits] == ZERO {
        warnings := warnings + [Warning(pos, ZerosInLength)];
      }
      pos := pos + 1;
      if length > |data| - pos {
        Refuse(LengthTooBig);
        return;
      }
      ok, out := true, data[pos..pos + length];
      pos := pos + length;
    }

    method ParseValue(depth: nat) returns (ok: bool, out: BValue)
      requires Started()
      modifies this
      ensures pos <= |data| && Agrees(ok, out, Bencode.ParseValue(data, old(pos), depth, max), old(warnings))
      decreases |data| - pos, 3
    {
      hide Bencode.ParseNode;
      out := BValue(Invalid, -1, 0);
      var start := pos;
      var node;
      ok, node := ParseNode(depth);
      if ok {
        out := BValue(node, start, pos - start);
      }
    }

    method ParseNode(depth: nat) returns (ok: bool, out: Node)
      requires Started()
      modifies this
      ensures pos <= |data| && Agrees(ok, out, Bencode.ParseNode(data, old(pos), depth, max), old(warnings))
      decreases |data| - pos, 2
    {
      hide Bencode.ParseInteger, Bencode.ParseString, ParseItems, ParsePairs;
      ok, out := false, Invalid;
      if pos == |data| {
        Refuse(UnexpectedEnd);
        return;
      }
      if data[pos] == I {
        ok, out := ParseInteger();
      } else if IsDigit(data[pos]) {
        var s;
        ok, s := ParseString();
        if ok {
          out := String(s);
        }
      } else if data[pos] == L || data[pos] == D {
        if depth >= max {
          Refuse(TooDeep);
        } else if data[pos] == L {
          ok, out := ParseList(depth);
        } else {
          ok, out := ParseDict(depth);
        }
      } else {
        Refuse(UnexpectedByte);
      }
    }

    /** What is left to read continues what has been read. */
    ghost predicate Continues<T>(whole: Parse<T>, rest: Parse<T>, value: T, before: seq<Warning>, done: seq<Warning>)
    {
      match rest
      case Fail(p, why, w) =>
        whole.Fail? && whole.at == p && whole.problem == why && done + w == before + whole.warnings
      case Ok(_, p, w) => whole.Ok? && whole.value == value && whole.pos == p && done + w == before + whole.warnings
    }

    method ParseList(depth: nat) returns (ok: bool, out: Node)
      requires Started() && pos < |data|
      modifies this
      ensures pos <= |data|
      ensures match ParseItems(data, old(pos) + 1, depth, max)
              case Fail(p, why, w) => !ok && error == Error(p, why) && warnings == old(warnings) + w
              case Ok(items, p, w) =>
                ok && out == List(items) && pos == p && warnings == old(warnings) + w && error.NoError?
      decreases |data| - pos, 1
    {
      hide Bencode.ParseValue;
      ok, out := false, Invalid;
      var items := [];
      pos := pos + 1;
      ghost var whole := ParseItems(data, pos, depth, max);
      assert whole.Ok? ==> items + whole.value == whole.value;
      while true
        invariant old(pos) < pos <= |data| && error.NoError?
        invariant var rest := ParseItems(data, pos, depth, max);
                  Continues(whole, rest, if rest.Ok? then items + rest.value else [], old(warnings), warnings)
        decreases |data| - pos
      {
        if pos == |data| {
          Refuse(UnterminatedList);
          return;
        }
        if data[pos] == E {
          pos := pos + 1;
          break;
        }
        ghost var p0, w0 := pos, warnings;
        var good, item := ParseValue(depth + 1);
        if !good {
          return;
        }
        NextItem(whole, p0, depth, items, old(warnings), w0);
        items := items + [item];
      }
      ok, out := true, List(items);
    }

    lemma NextItem(whole: Parse<seq<BValue>>, p: nat, depth: nat, items: seq<BValue>, before: seq<Warning>, done: seq<Warning>)
      requires p < |data| && data[p] != E && Bencode.ParseValue(data, p, depth + 1, max).Ok?
      requires var rest := ParseItems(data, p, depth, max);
               Continues(whole, rest, if rest.Ok? then items + rest.value else [], before, done)
      ensures var v := Bencode.ParseValue(data, p, depth + 1, max);
              var rest := ParseItems(data, v.pos, depth, max);
              Continues(whole, rest, if rest.Ok? then items + [v.value] + rest.value else [], before, done + v.warnings)
    {
      hide Bencode.ParseValue, ParseItems;
      var v := Bencode.ParseValue(data, p, depth + 1, max);
      var rest := ParseItems(data, v.pos, depth, max);
      ItemsStep(p, depth);
      assert done + (v.warnings + rest.warnings) == done + v.warnings + rest.warnings;
      if rest.Ok? {
        assert items + ([v.value] + rest.value) == items + [v.value] + rest.value;
      }
    }

    lemma ItemsStep(p: nat, depth: nat)
      requires p < |data| && data[p] != E && Bencode.ParseValue(data, p, depth + 1, max).Ok?
      ensures var v := Bencode.ParseValue(data, p, depth + 1, max);
              var whole, rest := ParseItems(data, p, depth, max), ParseItems(data, v.pos, depth, max);
              && whole.warnings == v.warnings + rest.warnings
              && (rest.Ok? ==> whole.Ok? && whole.value == [v.value] + rest.value && whole.pos == rest.pos)
              && (rest.Fail? ==> whole.Fail? && whole.at == rest.at && whole.problem == rest.problem)
    {
      hide Bencode.ParseValue;
    }

    method ParseDict(depth: nat) returns (ok: bool, out: Node)
      requires Started() && pos < |data|
      modifies this
      ensures pos <= |data|
      ensures match ParsePairs(data, old(pos) + 1, depth, max, [], [])
              case Fail(p, why, w) => !ok && error == Error(p, why) && warnings == old(warnings) + w
              case Ok(entries, p, w) =>
                ok && out == Dict(entries) && pos == p && warnings == old(warnings) + w && error.NoError?
      decreases |data| - pos, 1
    {
      hide Bencode.ParseValue, Bencode.ParseString, HasKey, Emplace, KeyWarnings;
      ok, out := false, Invalid;
      var dict: seq<Entry>, previous: seq<Bytes> := [], [];
      pos := pos + 1;
      ghost var whole := ParsePairs(data, pos, depth, max, [], []);
      while true
        invariant old(pos) < pos <= |data| && error.NoError?
        invariant var rest := ParsePairs(data, pos, depth, max, dict, previous);
                  Continues(whole, rest, if rest.Ok? then rest.value else [], old(warnings), warnings)
        decreases |data| - pos
      {
        if pos == |data| {
          Refuse(UnterminatedDict);
          return;
        }
        if data[pos] == E {
          pos := pos + 1;
          break;
        }
        if !IsDigit(data[pos]) {
          Refuse(KeyNotString);
          return;
        }
        ghost var p0, w0 := pos, warnings;
        var good, key := ParseString();
        if !good {
          return;
        }
        var duplicate := HasKey(dict, key);
        warnings := warnings + KeyWarnings(dict, previous, key, pos);
        var value;
        good, value := ParseValue(depth + 1);
        if !good {
          return;
        }
        NextPair(whole, p0, depth, dict, previous, old(warnings), w0);
        previous := [key];
        if !duplicate {
          dict := Emplace(dict, key, value);
        }
      }
      ok, out := true, Dict(dict);
    }

    lemma NextPair(whole: Parse<seq<Entry>>, p: nat, depth: nat, dict: seq<Entry>, previous: seq<Bytes>,
                   before: seq<Warning>, done: seq<Warning>)
      requires p < |data| && data[p] != E && IsDigit(data[p]) && Bencode.ParseString(data, p).Ok?
      requires Bencode.ParseValue(data, Bencode.ParseString(data, p).pos, depth + 1, max).Ok?
      requires var rest := ParsePairs(data, p, depth, max, dict, previous);
               Continues(whole, rest, if rest.Ok? then rest.value else [], before, done)
      ensures var k := Bencode.ParseString(data, p);
              var v := Bencode.ParseValue(data, k.pos, depth + 1, max);
              var dict' := if HasKey(dict, k.value) then dict else Emplace(dict, k.value, v.value);
              var rest := ParsePairs(data, v.pos, depth, max, dict', [k.value]);
              Continues(whole, rest, if rest.Ok? then rest.value else [], before,
                        done + k.warnings + KeyWarnings(dict, previous, k.value, k.pos) + v.warnings)
    {
      hide Bencode.ParseValue, Bencode.ParseString, HasKey, Emplace, KeyWarnings;
      var k := Bencode.ParseString(data, p);
      var v := Bencode.ParseValue(data, k.pos, depth + 1, max);
      var dict' := if HasKey(dict, k.value) then dict else Emplace(dict, k.value, v.value);
      var rest := ParsePairs(data, v.pos, depth, max, dict', [k.value]);
      var kw := KeyWarnings(dict, previous, k.value, k.pos);
      assert done + (k.warnings + kw + v.warnings + rest.warnings) == done + k.warnings + kw + v.warnings + rest.warnings;
    }
  }

  /** bdecode: one value, and a warning about anything after it. */
  method Run(data: Bytes, max: int) returns (value: BValue, error: Error, warnings: seq<Warning>)
    ensures match Decode(data, max)
            case Fail(p, why, w) => error == Error(p, why) && value == BValue(Invalid, -1, 0) && warnings == w
            case Ok(v, p, w) => error.NoError? && value == v && warnings == w
  {
    hide Bencode.ParseValue;
    value := BValue(Invalid, -1, 0);
    var d := new Decoder(data, max);
    var ok, v := d.ParseValue(0);
    if ok {
      value := v;
      if d.pos < |data| {
        d.warnings := d.warnings + [Warning(d.pos, TrailingBytes)];
      }
    }
    error, warnings := d.error, d.warnings;
    assert [] + warnings == warnings;
  }

  // --- The printer ----------------------------------------------------------------------

  /** encodeInto: appends the value's canonical form to the buffer. */
  method EncodeInto(v: BValue, out: Bytes) returns (r: Bytes)
    ensures r == out + Encode(v)
    decreases v, 1
  {
    match v.node
    case Invalid => r := out;
    case Integer(n) => r := out + [I] + Number(n) + [E];
    case PreEncoded(raw) => r := out + raw;
    case String(s) => r := out + Decimal(|s|) + [COLON] + s;
    case List(items) =>
      r := EncodeItemsInto(items, out + [L]);
      r := r + [E];
    case Dict(entries) =>
      r := EncodeEntriesInto(entries, out + [D]);
      r := r + [E];
  }

  method EncodeItemsInto(items: seq<BValue>, out: Bytes) returns (r: Bytes)
    ensures r == out + EncodeItems(items)
    decreases items, 0
  {
    hide Encode;
    r := out;
    var i := 0;
    assert items[0..] == items;
    while i < |items|
      invariant 0 <= i <= |items| && r + EncodeItems(items[i..]) == out + EncodeItems(items)
    {
      ghost var was := r;
      r := EncodeInto(items[i], r);
      assert items[i..][1..] == items[i + 1..];
      assert was + (Encode(items[i]) + EncodeItems(items[i + 1..])) == was + Encode(items[i]) + EncodeItems(items[i + 1..]);
      i := i + 1;
    }
  }

  method EncodeEntriesInto(entries: seq<Entry>, out: Bytes) returns (r: Bytes)
    ensures r == out + EncodeEntries(entries)
    decreases entries, 0
  {
    hide Encode, EncodeEntries, Decimal;
    r := out;
    var i := 0;
    assert entries[0..] == entries;
    while i < |entries|
      invariant 0 <= i <= |entries| && r + EncodeEntries(entries[i..]) == out + EncodeEntries(entries)
    {
      ghost var was := r;
      r := r + Decimal(|entries[i].key|) + [COLON] + entries[i].key;
      assert r == was + EncodeString(entries[i].key);
      r := EncodeInto(entries[i].value, r);
      EntryPrinted(entries, i, was);
      i := i + 1;
    }
    AllPrinted(entries);
  }

  lemma AllPrinted(entries: seq<Entry>)
    ensures EncodeEntries(entries[|entries|..]) == []
  {
  }

  lemma EntryPrinted(entries: seq<Entry>, i: nat, was: Bytes)
    requires i < |entries|
    ensures was + EncodeEntries(entries[i..])
            == was + EncodeString(entries[i].key) + Encode(entries[i].value) + EncodeEntries(entries[i + 1..])
  {
    hide Encode, EncodeString;
    assert entries[i..][1..] == entries[i + 1..];
    var s, e, rest := EncodeString(entries[i].key), Encode(entries[i].value), EncodeEntries(entries[i + 1..]);
    assert was + (s + e + rest) == was + s + e + rest;
  }
}
