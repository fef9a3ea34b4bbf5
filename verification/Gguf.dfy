/**
 The GGUF file format, version 3: what the writer writes and what the reader makes of it.
 */
module Gguf {
  import opened Options

  type Byte = b: int | 0 <= b < 256
  type Bytes = seq<Byte>

  // ----- numbers -----

  function Power(w: nat): nat { if w == 0 then 1 else 256 * Power(w - 1) }

  /** The w lowest bytes of a number, the lowest first. */
  function LE(n: nat, w: nat): (b: Bytes)
    ensures |b| == w
    decreases w
  {
    if w == 0 then [] else [n % 256] + LE(n / 256, w - 1)
  }

  function UnLE(b: Bytes): nat {
    if b == [] then 0 else b[0] + 256 * UnLE(b[1..])
  }

  lemma {:induction false} UnLEOfLE(n: nat, w: nat)
    requires n < Power(w)
    ensures UnLE(LE(n, w)) == n
    decreases w
  {
    if w > 0 {
      SmallerByByte(n, Power(w - 1));
      UnLEOfLE(n / 256, w - 1);
      assert LE(n, w)[1..] == LE(n / 256, w - 1);
    }
  }

  lemma SmallerByByte(n: nat, p: nat)
    requires n < 256 * p
    ensures n / 256 < p
  {
  }

  datatype Read<T> = Got(value: T, rest: Bytes) | Failed

  function ReadUint(b: Bytes, w: nat): Read<nat> {
    if |b| < w then Failed else Got(UnLE(b[..w]), b[w..])
  }

  lemma ReadsUint(n: nat, w: nat, rest: Bytes)
    requires n < Power(w)
    ensures ReadUint(LE(n, w) + rest, w) == Got(n, rest)
  {
    Parts(LE(n, w), rest);
    UnLEOfLE(n, w);
  }

  lemma Parts(a: Bytes, b: Bytes)
    ensures (a + b)[..|a|] == a && (a + b)[|a|..] == b
  {
  }

  lemma Associate(a: Bytes, b: Bytes, c: Bytes)
    ensures a + b + c == a + (b + c)
  {
  }

  lemma Powers()
    ensures Power(1) == 256 && Power(4) == 0x1_0000_0000 && Power(8) == 0x1_0000_0000_0000_0000
  {
    assert Power(0) == 1 && Power(1) == 256 && Power(2) == 0x1_0000 && Power(3) == 0x100_0000 && Power(4) == 0x1_0000_0000;
    assert Power(5) == 0x100_0000_0000 && Power(6) == 0x1_0000_0000_0000 && Power(7) == 0x100_0000_0000_0000;
  }

  /** Does one step after the other, each behind what the last one has read. */
  function Repeat<S>(step: (S, Bytes) -> Read<S>, s: S, b: Bytes, n: nat): Read<S>
    decreases n
  {
    if n == 0 then Got(s, b)
    else
      var r := step(s, b);
      if r.Failed? then Failed else Repeat(step, r.value, r.rest, n - 1)
  }

  lemma RepeatFirst<S>(step: (S, Bytes) -> Read<S>, s: S, b: Bytes, n: nat, next: S, rest: Bytes)
    requires step(s, b) == Got(next, rest)
    ensures Repeat(step, s, b, n + 1) == Repeat(step, next, rest, n)
  {
  }

  // ----- strings -----

  predicate Fits(n: nat) { n < 0x8000_0000_0000_0000 }

  function EncodeString(s: Bytes): Bytes { LE(|s|, 8) + s }

  function ReadString(b: Bytes): Read<Bytes> {
    match ReadUint(b, 8)
    case Failed => Failed
    case Got(n, rest) => if |rest| < n then Failed else Got(rest[..n], rest[n..])
  }

  lemma ReadsString(s: Bytes, rest: Bytes)
    requires Fits(|s|)
    ensures ReadString(EncodeString(s) + rest) == Got(s, rest)
  {
    Powers();
    Associate(LE(|s|, 8), s, rest);
    ReadsUint(|s|, 8, s + rest);
    Parts(s, rest);
  }

  // ----- values -----

  const UINT32 := 4
  const INT32 := 5
  const FLOAT32 := 6
  const BOOL := 7
  const STRING := 8
  const ARRAY := 9
  const UINT64 := 10

  /** How many bytes a number of a type takes; 0 if the type is not one of numbers. */
  function Width(tag: nat): nat {
    if tag == 0 || tag == 1 || tag == 7 then 1
    else if tag == 2 || tag == 3 then 2
    else if tag == 4 || tag == 5 || tag == 6 then 4
    else if tag == 10 || tag == 11 || tag == 12 then 8
    else 0
  }

  /** Numbers are given by their bits. Lists of Go are `Slice`, and what the reader makes of them `Array`. */
  datatype Value =
    | Number(tag: nat, bits: nat)
    | FileType(bits: nat)
    | Str(s: Bytes)
    | Slice(tag: nat, elems: seq<nat>)
    | StrSlice(strs: seq<Bytes>)
    | Array(tag: nat, elems: seq<nat>)
    | StrArray(strs: seq<Bytes>)

  predicate IsNumber(tag: nat, bits: nat) {
    Width(tag) > 0 && bits < Power(Width(tag)) && (tag == BOOL ==> bits < 2)
  }

  predicate AreNumbers(tag: nat, elems: seq<nat>) {
    elems == [] || (IsNumber(tag, elems[0]) && AreNumbers(tag, elems[1..]))
  }

  predicate AreStrings(strs: seq<Bytes>) {
    strs == [] || (Fits(|strs[0]|) && AreStrings(strs[1..]))
  }

  /** The types that the writer writes. */
  predicate Writable(v: Value) {
    match v
    case Number(tag, bits) => (tag == UINT32 || tag == UINT64 || tag == FLOAT32 || tag == BOOL) && IsNumber(tag, bits)
    case FileType(bits) => IsNumber(UINT32, bits)
    case Str(s) => Fits(|s|)
    case Slice(tag, elems) => IsElement(tag) && AreNumbers(tag, elems) && Fits(|elems|)
    case StrSlice(strs) => AreStrings(strs) && Fits(|strs|)
    case Array(tag, elems) => IsElement(tag) && AreNumbers(tag, elems) && Fits(|elems|)
    case StrArray(strs) => AreStrings(strs) && Fits(|strs|)
  }

  predicate IsElement(tag: nat) { tag == INT32 || tag == UINT32 || tag == FLOAT32 || tag == BOOL }

  function EncodeNumbers(elems: seq<nat>, w: nat): Bytes {
    if elems == [] then [] else LE(elems[0], w) + EncodeNumbers(elems[1..], w)
  }

  function EncodeStrings(strs: seq<Bytes>): Bytes {
    if strs == [] then [] else EncodeString(strs[0]) + EncodeStrings(strs[1..])
  }

  function EncodeArray(tag: nat, n: nat, elems: Bytes): Bytes {
    LE(ARRAY, 4) + (LE(tag, 4) + (LE(n, 8) + elems))
  }

  function EncodeValue(v: Value): Bytes {
    match v
    case Number(tag, bits) => LE(tag, 4) + LE(bits, Width(tag))
    case FileType(bits) => LE(UINT32, 4) + LE(bits, 4)
    case Str(s) => LE(STRING, 4) + EncodeString(s)
    case Slice(tag, elems) => EncodeArray(tag, |elems|, EncodeNumbers(elems, Width(tag)))
    case StrSlice(strs) => EncodeArray(STRING, |strs|, EncodeStrings(strs))
    case Array(tag, elems) => EncodeArray(tag, |elems|, EncodeNumbers(elems, Width(tag)))
    case StrArray(strs) => EncodeArray(STRING, |strs|, EncodeStrings(strs))
  }

  /** The value that the reader makes of what was written. */
  function Normal(v: Value): Value {
    match v
    case FileType(bits) => Number(UINT32, bits)
    case Slice(tag, elems) => Array(tag, elems)
    case StrSlice(strs) => StrArray(strs)
    case _ => v
  }

  /** A boolean is what is not 0. */
  function FromBits(tag: nat, bits: nat): nat {
    if tag == BOOL then (if bits == 0 then 0 else 1) else bits
  }

  function ReadNumbers(b: Bytes, tag: nat, n: nat): Read<seq<nat>>
    decreases n
  {
    if n == 0 then Got([], b)
    else
      match ReadUint(b, Width(tag))
      case Failed => Failed
      case Got(bits, rest) =>
        match ReadNumbers(rest, tag, n - 1)
        case Failed => Failed
        case Got(elems, end) => Got([FromBits(tag, bits)] + elems, end)
  }

  function ReadStrings(b: Bytes, n: nat): Read<seq<Bytes>>
    decreases n
  {
    if n == 0 then Got([], b)
    else
      match ReadString(b)
      case Failed => Failed
      case Got(s, rest) =>
        match ReadStrings(rest, n - 1)
        case Failed => Failed
        case Got(strs, end) => Got([s] + strs, end)
  }

  function ReadArray(b: Bytes): Read<Value> {
    match ReadUint(b, 4)
    case Failed => Failed
    case Got(tag, rest) =>
      match ReadUint(rest, 8)
      case Failed => Failed
      case Got(n, items) =>
        if Width(tag) > 0 then
          match ReadNumbers(items, tag, n)
          case Failed => Failed
          case Got(elems, end) => Got(Array(tag, elems), end)
        else if tag == STRING then
          match ReadStrings(items, n)
          case Failed => Failed
          case Got(strs, end) => Got(StrArray(strs), end)
        else Failed
  }

  function ReadValue(b: Bytes): Read<Value> {
    match ReadUint(b, 4)
    case Failed => Failed
    case Got(tag, rest) =>
      if Width(tag) > 0 then
        match ReadUint(rest, Width(tag))
        case Failed => Failed
        case Got(bits, end) => Got(Number(tag, FromBits(tag, bits)), end)
      else if tag == STRING then
        match ReadString(rest)
        case Failed => Failed
        case Got(s, end) => Got(Str(s), end)
      else if tag == ARRAY then ReadArray(rest)
      else Failed
  }

  lemma {:induction false} ReadsNumbers(tag: nat, elems: seq<nat>, rest: Bytes)
    requires AreNumbers(tag, elems)
    ensures ReadNumbers(EncodeNumbers(elems, Width(tag)) + rest, tag, |elems|) == Got(elems, rest)
    decreases |elems|
  {
    if elems == [] {
      assert [] + rest == rest;
    } else {
      var tail := EncodeNumbers(elems[1..], Width(tag));
      Associate(LE(elems[0], Width(tag)), tail, rest);
      ReadsUint(elems[0], Width(tag), tail + rest);
      ReadsNumbers(tag, elems[1..], rest);
      assert [elems[0]] + elems[1..] == elems;
    }
  }

  lemma {:induction false} ReadsStrings(strs: seq<Bytes>, rest: Bytes)
    requires AreStrings(strs)
    ensures ReadStrings(EncodeStrings(strs) + rest, |strs|) == Got(strs, rest)
    decreases |strs|
  {
    if strs == [] {
      assert [] + rest == rest;
    } else {
      var head, tail := strs[0], strs[1..];
      var b, middle := EncodeStrings(strs) + rest, EncodeStrings(tail) + rest;
      ReadsStrings(tail, rest);
      FirstString(head, tail, rest, b, middle);
      OneMoreString(b, |tail|, head, middle, tail, rest, strs);
    }
  }

  lemma FirstString(head: Bytes, tail: seq<Bytes>, rest: Bytes, b: Bytes, middle: Bytes)
    requires Fits(|head|) && middle == EncodeStrings(tail) + rest && b == EncodeString(head) + EncodeStrings(tail) + rest
    ensures ReadString(b) == Got(head, middle)
  {
    Associate(EncodeString(head), EncodeStrings(tail), rest);
    ReadsString(head, middle);
  }

  lemma OneMoreString(b: Bytes, n: nat, s: Bytes, middle: Bytes, strs: seq<Bytes>, rest: Bytes, all: seq<Bytes>)
    requires ReadString(b) == Got(s, middle) && ReadStrings(middle, n) == Got(strs, rest)
    requires all != [] && all[0] == s && all[1..] == strs
    ensures ReadStrings(b, n + 1) == Got(all, rest)
  {
    assert [s] + strs == all;
  }

  lemma ReadsArrayHead(tag: nat, n: nat, items: Bytes, rest: Bytes)
    requires tag < 13 && Fits(n)
    ensures ReadUint(EncodeArray(tag, n, items) + rest, 4) == Got(ARRAY, LE(tag, 4) + (LE(n, 8) + (items + rest)))
    ensures ReadUint(LE(tag, 4) + (LE(n, 8) + (items + rest)), 4) == Got(tag, LE(n, 8) + (items + rest))
    ensures ReadUint(LE(n, 8) + (items + rest), 8) == Got(n, items + rest)
  {
    Powers();
    Associate(LE(ARRAY, 4), LE(tag, 4) + (LE(n, 8) + items), rest);
    Associate(LE(tag, 4), LE(n, 8) + items, rest);
    Associate(LE(n, 8), items, rest);
    ReadsUint(ARRAY, 4, LE(tag, 4) + (LE(n, 8) + (items + rest)));
    ReadsUint(tag, 4, LE(n, 8) + (items + rest));
    ReadsUint(n, 8, items + rest);
  }

  lemma ReadsNumber(tag: nat, bits: nat, rest: Bytes)
    requires IsNumber(tag, bits) && tag < 13
    ensures ReadValue(LE(tag, 4) + LE(bits, Width(tag)) + rest) == Got(Number(tag, bits), rest)
  {
    Powers();
    Associate(LE(tag, 4), LE(bits, Width(tag)), rest);
    ReadsUint(tag, 4, LE(bits, Width(tag)) + rest);
    ReadsUint(bits, Width(tag), rest);
  }

  lemma ReadsStringValue(s: Bytes, rest: Bytes)
    requires Fits(|s|)
    ensures ReadValue(LE(STRING, 4) + EncodeString(s) + rest) == Got(Str(s), rest)
  {
    Powers();
    Associate(LE(STRING, 4), EncodeString(s), rest);
    ReadsUint(STRING, 4, EncodeString(s) + rest);
    ReadsString(s, rest);
  }

  lemma ReadsNumberArray(tag: nat, elems: seq<nat>, rest: Bytes)
    requires IsElement(tag) && AreNumbers(tag, elems) && Fits(|elems|)
    ensures ReadValue(EncodeArray(tag, |elems|, EncodeNumbers(elems, Width(tag))) + rest) == Got(Array(tag, elems), rest)
  {
    var items := EncodeNumbers(elems, Width(tag));
    ReadsArrayHead(tag, |elems|, items, rest);
    ReadsNumbers(tag, elems, rest);
    NumberArrayIs(EncodeArray(tag, |elems|, items) + rest, LE(tag, 4) + (LE(|elems|, 8) + (items + rest)),
                  LE(|elems|, 8) + (items + rest), items + rest, tag, |elems|, elems, rest);
  }

  lemma NumberArrayIs(b: Bytes, b1: Bytes, b2: Bytes, b3: Bytes, tag: nat, n: nat, elems: seq<nat>, rest: Bytes)
    requires ReadUint(b, 4) == Got(ARRAY, b1) && ReadUint(b1, 4) == Got(tag, b2) && ReadUint(b2, 8) == Got(n, b3)
    requires Width(tag) > 0 && ReadNumbers(b3, tag, n) == Got(elems, rest)
    ensures ReadValue(b) == Got(Array(tag, elems), rest)
  {
  }

  lemma StringArrayIs(b: Bytes, b1: Bytes, b2: Bytes, b3: Bytes, n: nat, strs: seq<Bytes>, rest: Bytes)
    requires ReadUint(b, 4) == Got(ARRAY, b1) && ReadUint(b1, 4) == Got(STRING, b2) && ReadUint(b2, 8) == Got(n, b3)
    requires ReadStrings(b3, n) == Got(strs, rest)
    ensures ReadValue(b) == Got(StrArray(strs), rest)
  {
    StringsAre(b1, b2, b3, n, strs, rest);
  }

  lemma StringsAre(b1: Bytes, b2: Bytes, b3: Bytes, n: nat, strs: seq<Bytes>, rest: Bytes)
    requires ReadUint(b1, 4) == Got(STRING, b2) && ReadUint(b2, 8) == Got(n, b3) && ReadStrings(b3, n) == Got(strs, rest)
    ensures ReadArray(b1) == Got(StrArray(strs), rest)
  {
  }

  lemma ReadsStringArray(strs: seq<Bytes>, rest: Bytes)
    requires AreStrings(strs) && Fits(|strs|)
    ensures ReadValue(EncodeArray(STRING, |strs|, EncodeStrings(strs)) + rest) == Got(StrArray(strs), rest)
  {
    var items := EncodeStrings(strs);
    ReadsArrayHead(STRING, |strs|, items, rest);
    ReadsStrings(strs, rest);
    StringArrayIs(EncodeArray(STRING, |strs|, items) + rest, LE(STRING, 4) + (LE(|strs|, 8) + (items + rest)),
                  LE(|strs|, 8) + (items + rest), items + rest, |strs|, strs, rest);
  }

  /** A value is read as its normal form. */
  lemma ReadsValue(v: Value, rest: Bytes)
    requires Writable(v)
    ensures ReadValue(EncodeValue(v) + rest) == Got(Normal(v), rest)
  {
    match v
    case Number(tag, bits) => ReadsNumber(tag, bits, rest);
    case FileType(bits) => ReadsNumber(UINT32, bits, rest);
    case Str(s) => ReadsStringValue(s, rest);
    case Slice(tag, elems) => ReadsNumberArray(tag, elems, rest);
    case StrSlice(strs) => ReadsStringArray(strs, rest);
    case Array(tag, elems) => ReadsNumberArray(tag, elems, rest);
    case StrArray(strs) => ReadsStringArray(strs, rest);
  }

  // ----- key-values -----

  type Kv = map<Bytes, Value>

  function EncodeEntry(k: Bytes, v: Value): Bytes { EncodeString(k) + EncodeValue(v) }

  function EncodeEntries(kv: Kv, keys: seq<Bytes>): Bytes
    requires forall k | k in keys :: k in kv
  {
    if keys == [] then [] else EncodeEntry(keys[0], kv[keys[0]]) + EncodeEntries(kv, keys[1..])
  }

  datatype Entry = Entry(key: Bytes, value: Value)

  function ReadEntry(b: Bytes): Read<Entry> {
    match ReadString(b)
    case Failed => Failed
    case Got(k, rest) =>
      match ReadValue(rest)
      case Failed => Failed
      case Got(v, end) => Got(Entry(k, v), end)
  }

  function AddEntry(kv: Kv, b: Bytes): Read<Kv> {
    match ReadEntry(b)
    case Failed => Failed
    case Got(e, rest) => Got(kv[e.key := e.value], rest)
  }

  function ReadEntries(b: Bytes, n: nat, kv: Kv): Read<Kv> { Repeat(AddEntry, kv, b, n) }

  /** The keys and values that can be written. */
  ghost predicate WritableKv(kv: Kv) {
    forall k | k in kv :: Fits(|k|) && Writable(kv[k])
  }

  /** The key-values that the reader has after it has read some keys. */
  function Put(kv: Kv, keys: seq<Bytes>, into: Kv): Kv
    requires forall k | k in keys :: k in kv
    decreases |keys|
  {
    if keys == [] then into else Put(kv, keys[1..], into[keys[0] := Normal(kv[keys[0]])])
  }

  lemma ReadsEntry(k: Bytes, v: Value, rest: Bytes)
    requires Fits(|k|) && Writable(v)
    ensures ReadEntry(EncodeEntry(k, v) + rest) == Got(Entry(k, Normal(v)), rest)
  {
    Associate(EncodeString(k), EncodeValue(v), rest);
    ReadsString(k, EncodeValue(v) + rest);
    ReadsValue(v, rest);
  }

  lemma {:induction false} ReadsEntries(kv: Kv, keys: seq<Bytes>, into: Kv, rest: Bytes)
    requires WritableKv(kv) && forall k | k in keys :: k in kv
    ensures ReadEntries(EncodeEntries(kv, keys) + rest, |keys|, into) == Got(Put(kv, keys, into), rest)
    decreases |keys|
  {
    if keys == [] {
      assert [] + rest == rest;
    } else {
      var k, tail := keys[0], EncodeEntries(kv, keys[1..]);
      assert k in keys;
      var b, more := EncodeEntries(kv, keys) + rest, into[k := Normal(kv[k])];
      FirstEntry(k, kv[k], into, tail, rest, b);
      RepeatFirst(AddEntry, into, b, |keys| - 1, more, tail + rest);
      ReadsEntries(kv, keys[1..], more, rest);
    }
  }

  lemma FirstEntry(k: Bytes, v: Value, into: Kv, tail: Bytes, rest: Bytes, b: Bytes)
    requires Fits(|k|) && Writable(v) && b == EncodeEntry(k, v) + tail + rest
    ensures AddEntry(into, b) == Got(into[k := Normal(v)], tail + rest)
  {
    Associate(EncodeEntry(k, v), tail, rest);
    ReadsEntry(k, v, tail + rest);
  }

  lemma {:induction false} PutHas(kv: Kv, keys: seq<Bytes>, into: Kv, k: Bytes)
    requires forall x | x in keys :: x in kv
    ensures k in Put(kv, keys, into) <==> k in keys || k in into
    ensures k in Put(kv, keys, into) ==> Put(kv, keys, into)[k] == if k in keys then Normal(kv[k]) else into[k]
    decreases |keys|
  {
    if keys != [] {
      PutHas(kv, keys[1..], into[keys[0] := Normal(kv[keys[0]])], k);
      assert k in keys <==> k == keys[0] || k in keys[1..];
    }
  }

  /** The reader ends up with the normal form of each value. */
  ghost predicate IsNormal(kv: Kv, read: Kv) {
    read.Keys == kv.Keys && forall k | k in kv :: read[k] == Normal(kv[k])
  }

  lemma PutAll(kv: Kv, keys: seq<Bytes>)
    requires forall k :: k in keys <==> k in kv
    ensures IsNormal(kv, Put(kv, keys, map[]))
  {
    var read := Put(kv, keys, map[]);
    forall k: Bytes
      ensures k in read <==> k in kv
      ensures k in kv ==> read[k] == Normal(kv[k])
    {
      PutHas(kv, keys, map[], k);
    }
  }

  // ----- tensors -----

  datatype Tensor = Tensor(name: Bytes, kind: nat, offset: nat, shape: seq<nat>)

  const TWO64 := 0x1_0000_0000_0000_0000

  function Product(shape: seq<nat>): nat {
    if shape == [] then 1 else shape[0] * Product(shape[1..])
  }

  /** The number of elements, in 64 bits. */
  function Elements(shape: seq<nat>): nat { Product(shape) % TWO64 }

  lemma {:induction false} ProductAppend(shape: seq<nat>, n: nat)
    ensures Product(shape + [n]) == Product(shape) * n
  {
    if shape == [] {
      assert [] + [n] == [n] && [n][1..] == [];
    } else {
      assert (shape + [n])[1..] == shape[1..] + [n];
      ProductAppend(shape[1..], n);
      Regroup(shape[0], Product(shape[1..]), n);
    }
  }

  lemma Regroup(a: nat, b: nat, c: nat)
    ensures a * (b * c) == (a * b) * c
  {
  }

  /** Cutting off a factor does not change the product in m numbers. */
  lemma CutFactor(p: nat, n: nat, m: nat)
    requires m > 0
    ensures (p % m) * n % m == p * n % m
  {
    var q, r := p / m, p % m;
    assert p * n == m * (q * n) + r * n by {
      assert p == m * q + r;
      assert (m * q + r) * n == (m * q) * n + r * n;
      Regroup(m, q, n);
    }
    AddMultiple(r * n, q * n, m);
  }

  lemma AddMultiple(x: nat, k: nat, m: nat)
    requires m > 0
    ensures (m * k + x) % m == x % m
  {
    var q, r := x / m, x % m;
    assert m * k + x == m * (k + q) + r by {
      assert m * (k + q) == m * k + m * q;
    }
    ModUnique(m * k + x, m, k + q, r);
  }

  lemma ModUnique(n: int, align: nat, q: int, r: nat)
    requires align > 0 && n == align * q + r && r < align
    ensures n % align == r
  {
    var d := n / align;
    assert n == align * d + n % align;
    assert align * (d - q) == r - n % align;
    LargeMultiple(align, d - q);
  }

  lemma LargeMultiple(a: nat, x: int)
    ensures x >= 1 ==> a * x >= a
    ensures x <= -1 ==> a * x + a <= 0
    ensures x == 0 ==> a * x == 0
  {
  }

  /** `Tensor.Elements`: wrapping around in each step is wrapping around once. */
  method CountElements(shape: seq<nat>) returns (count: nat)
    ensures count == Product(shape) % TWO64
  {
    count := 1;
    var i := 0;
    while i < |shape|
      invariant 0 <= i <= |shape| && count == Product(shape[..i]) % TWO64
    {
      assert shape[..i + 1] == shape[..i] + [shape[i]];
      ProductAppend(shape[..i], shape[i]);
      CutFactor(Product(shape[..i]), shape[i], TWO64);
      count := count * shape[i] % TWO64;
      i := i + 1;
    }
    assert shape[..i] == shape;
  }

  /** How many elements a block of a type has; the types are given by number. */
  function BlockSize(kind: nat): (n: nat)
    ensures n > 0
  {
    if kind == 0 || kind == 1 || 24 <= kind <= 28 || kind == 30 then 1
    else if kind == 2 || kind == 3 || kind == 4 || 6 <= kind <= 9 || kind == 20 || kind == 39 then 32
    else 256
  }

  /** How many bytes a block of a type takes. */
  function TypeSize(kind: nat): nat {
    var n := BlockSize(kind);
    if kind == 0 then 4
    else if kind == 1 then 2
    else if kind == 2 then 2 + n / 2
    else if kind == 3 then 2 + 2 + n / 2
    else if kind == 6 then 2 + 4 + n / 2
    else if kind == 7 then 2 + 2 + 4 + n / 2
    else if kind == 8 then 2 + n
    else if kind == 9 then 2 + 2 + n
    else if kind == 10 then n / 16 + n / 4 + 2 + 2
    else if kind == 11 then n / 8 + n / 4 + 12 + 2
    else if kind == 12 then 2 + 2 + 12 + n / 2
    else if kind == 13 then 2 + 2 + 12 + n / 8 + n / 2
    else if kind == 14 then n / 2 + n / 4 + n / 16 + 2
    else if kind == 15 then 4 + n + 2 * n / 16
    else if kind == 16 then 2 + 2 * n / 8
    else if kind == 17 then 2 + 2 * n / 8 + n / 32
    else if kind == 18 then 2 + n / 4 + n / 8
    else if kind == 19 then 2 + n / 8 + n / 16
    else if kind == 20 then 2 + n / 2
    else if kind == 21 then 2 + n / 4 + n / 8 + n / 32 + 4
    else if kind == 22 then 2 + n / 4 + n / 16
    else if kind == 23 then 2 + 2 + n / 2 + n / 64
    else if kind == 24 then 1
    else if kind == 25 then 2
    else if kind == 26 then 4
    else if kind == 27 then 8
    else if kind == 28 then 8
    else if kind == 29 then n / 8 + n / 16 + n / 32
    else if kind == 30 then 2
    else if kind == 4 || kind == 39 then 1 + n / 2
    else 0
  }

  /** The size of a tensor in bytes, in 64 bits. */
  function Size(t: Tensor): nat {
    Elements(t.shape) * TypeSize(t.kind) % TWO64 / BlockSize(t.kind)
  }

  function EncodeInfo(t: Tensor): Bytes {
    EncodeString(t.name) + (LE(|t.shape|, 4) + (EncodeNumbers(t.shape, 8) + (LE(t.kind, 4) + LE(t.offset, 8))))
  }

  function EncodeInfos(ts: seq<Tensor>): Bytes {
    if ts == [] then [] else EncodeInfo(ts[0]) + EncodeInfos(ts[1..])
  }

  predicate WritableTensor(t: Tensor) {
    Fits(|t.name|) && |t.shape| < 0x1_0000_0000 && AreNumbers(UINT64, t.shape) && t.kind < 0x1_0000_0000 && t.offset < TWO64
  }

  function ReadInfo(b: Bytes): Read<Tensor> {
    match ReadString(b)
    case Failed => Failed
    case Got(name, b1) =>
      match ReadUint(b1, 4)
      case Failed => Failed
      case Got(dims, b2) =>
        match ReadNumbers(b2, UINT64, dims)
        case Failed => Failed
        case Got(shape, b3) =>
          match ReadUint(b3, 4)
          case Failed => Failed
          case Got(kind, b4) =>
            match ReadUint(b4, 8)
            case Failed => Failed
            case Got(offset, rest) => Got(Tensor(name, kind, offset, shape), rest)
  }

  function AddInfo(ts: seq<Tensor>, b: Bytes): Read<seq<Tensor>> {
    match ReadInfo(b)
    case Failed => Failed
    case Got(t, rest) => Got(ts + [t], rest)
  }

  function ReadInfos(b: Bytes, n: nat): Read<seq<Tensor>> { Repeat(AddInfo, [], b, n) }

  lemma ReadsInfo(t: Tensor, rest: Bytes)
    requires WritableTensor(t)
    ensures ReadInfo(EncodeInfo(t) + rest) == Got(t, rest)
  {
    var b4 := LE(t.offset, 8) + rest;
    var b3 := LE(t.kind, 4) + b4;
    var b2 := EncodeNumbers(t.shape, 8) + b3;
    var b1 := LE(|t.shape|, 4) + b2;
    InfoParts(EncodeString(t.name), LE(|t.shape|, 4), EncodeNumbers(t.shape, 8), LE(t.kind, 4), LE(t.offset, 8), rest);
    ReadsString(t.name, b1);
    ReadsParts(t, b1, b2, b3, b4, rest);
    InfoIs(EncodeInfo(t) + rest, b1, b2, b3, b4, t, rest);
  }

  lemma ReadsParts(t: Tensor, b1: Bytes, b2: Bytes, b3: Bytes, b4: Bytes, rest: Bytes)
    requires WritableTensor(t)
    requires b1 == LE(|t.shape|, 4) + b2 && b2 == EncodeNumbers(t.shape, 8) + b3
    requires b3 == LE(t.kind, 4) + b4 && b4 == LE(t.offset, 8) + rest
    ensures ReadUint(b1, 4) == Got(|t.shape|, b2) && ReadNumbers(b2, UINT64, |t.shape|) == Got(t.shape, b3)
    ensures ReadUint(b3, 4) == Got(t.kind, b4) && ReadUint(b4, 8) == Got(t.offset, rest)
  {
    Powers();
    ReadsUint(|t.shape|, 4, b2);
    ReadsNumbers(UINT64, t.shape, b3);
    ReadsUint(t.kind, 4, b4);
    ReadsUint(t.offset, 8, rest);
  }

  lemma InfoParts(a: Bytes, b: Bytes, c: Bytes, d: Bytes, e: Bytes, rest: Bytes)
    ensures a + (b + (c + (d + e))) + rest == a + (b + (c + (d + (e + rest))))
  {
  }

  lemma InfoIs(b: Bytes, b1: Bytes, b2: Bytes, b3: Bytes, b4: Bytes, t: Tensor, rest: Bytes)
    requires ReadString(b) == Got(t.name, b1) && ReadUint(b1, 4) == Got(|t.shape|, b2)
    requires ReadNumbers(b2, UINT64, |t.shape|) == Got(t.shape, b3)
    requires ReadUint(b3, 4) == Got(t.kind, b4) && ReadUint(b4, 8) == Got(t.offset, rest)
    ensures ReadInfo(b) == Got(t, rest)
  {
  }

  predicate WritableTensors(ts: seq<Tensor>) {
    ts == [] || (WritableTensor(ts[0]) && WritableTensors(ts[1..]))
  }

  lemma ReadsInfos(ts: seq<Tensor>, rest: Bytes)
    requires WritableTensors(ts)
    ensures ReadInfos(EncodeInfos(ts) + rest, |ts|) == Got(ts, rest)
  {
    forall done: seq<Tensor>, t: Tensor, tail: Bytes | WritableTensor(t)
      ensures AddInfo(done, EncodeInfo(t) + tail) == Got(done + [t], tail)
    {
      ReadsInfo(t, tail);
    }
    ReadsMoreInfos(AddInfo, [], ts, rest);
    OneByOneIsAppended([], ts);
    assert [] + ts == ts;
  }

  /** What becomes of a list when others are appended one by one. */
  function OneByOne<T>(done: seq<T>, ts: seq<T>): seq<T>
    decreases |ts|
  {
    if ts == [] then done else OneByOne(done + [ts[0]], ts[1..])
  }

  lemma {:induction false} OneByOneIsAppended<T>(done: seq<T>, ts: seq<T>)
    ensures OneByOne(done, ts) == done + ts
    decreases |ts|
  {
    if ts == [] {
      assert done + [] == done;
    } else {
      OneByOneIsAppended(done + [ts[0]], ts[1..]);
      MoveOver(done, ts, done + ts);
    }
  }

  /** A step that reads one tensor. */
  ghost predicate ReadsBack(step: (seq<Tensor>, Bytes) -> Read<seq<Tensor>>) {
    forall done: seq<Tensor>, t: Tensor, tail: Bytes | WritableTensor(t) ::
      step(done, EncodeInfo(t) + tail) == Got(done + [t], tail)
  }

  lemma {:induction false} ReadsMoreInfos(step: (seq<Tensor>, Bytes) -> Read<seq<Tensor>>, done: seq<Tensor>, ts: seq<Tensor>, rest: Bytes)
    requires ReadsBack(step) && WritableTensors(ts)
    ensures Repeat(step, done, EncodeInfos(ts) + rest, |ts|) == Got(OneByOne(done, ts), rest)
    decreases |ts|
  {
    if ts == [] {
      assert [] + rest == rest;
    } else {
      var tail := EncodeInfos(ts[1..]) + rest;
      Associate(EncodeInfo(ts[0]), EncodeInfos(ts[1..]), rest);
      assert step(done, EncodeInfo(ts[0]) + tail) == Got(done + [ts[0]], tail);
      ReadsMoreInfos(step, done + [ts[0]], ts[1..], rest);
    }
  }

  lemma MoveOver<T>(done: seq<T>, ts: seq<T>, all: seq<T>)
    requires ts != [] && all == done + ts
    ensures all == done + [ts[0]] + ts[1..]
  {
  }
}
