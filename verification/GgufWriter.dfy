/**
 The writer of GGUF files: everything up to the data of the tensors.
 */
module GgufWriter {
  import opened Options
  import opened Gguf
  import opened GgufFile

  /** The types that the writer knows. */
  predicate IsKnown(v: Value) {
    match v
    case Number(tag, bits) => tag == UINT32 || tag == UINT64 || tag == FLOAT32 || tag == BOOL
    case Slice(tag, elems) => IsElement(tag)
    case Array(tag, elems) => IsElement(tag)
    case _ => true
  }

  predicate AreKnown(kv: Kv, keys: seq<Bytes>)
    requires forall k | k in keys :: k in kv
  {
    keys == [] || (IsKnown(kv[keys[0]]) && AreKnown(kv, keys[1..]))
  }

  /** What is written of some key-values: all, or all up to the first key whose value has an improper type. */
  function WrittenEntries(kv: Kv, keys: seq<Bytes>): Bytes
    requires forall k | k in keys :: k in kv
  {
    if keys == [] then []
    else if !IsKnown(kv[keys[0]]) then EncodeString(keys[0])
    else EncodeEntry(keys[0], kv[keys[0]]) + WrittenEntries(kv, keys[1..])
  }

  lemma {:induction false} AllWritten(kv: Kv, keys: seq<Bytes>)
    requires forall k | k in keys :: k in kv
    ensures AreKnown(kv, keys) ==> WrittenEntries(kv, keys) == EncodeEntries(kv, keys)
  {
    if keys != [] {
      AllWritten(kv, keys[1..]);
    }
  }

  lemma {:induction false} WritableAreKnown(kv: Kv, keys: seq<Bytes>)
    requires WritableKv(kv) && forall k | k in keys :: k in kv
    ensures AreKnown(kv, keys)
  {
    if keys != [] {
      assert keys[0] in keys;
      WritableAreKnown(kv, keys[1..]);
    }
  }

  lemma SameBytes(a: Bytes, b: Bytes, c: Bytes, bc: Bytes, r: Bytes)
    requires bc == b + c && r == a + b + c
    ensures r == a + bc
  {
  }

  class Writer {
    var file: Bytes

    constructor ()
      ensures file == []
    {
      file := [];
    }

    method WriteUint(n: nat, w: nat)
      modifies this
      ensures file == old(file) + LE(n, w)
    {
      file := file + LE(n, w);
    }

    method WriteBytes(s: Bytes)
      modifies this
      ensures file == old(file) + s
    {
      file := file + s;
    }

    /** A length and the bytes. */
    method WriteString(s: Bytes)
      modifies this
      ensures file == old(file) + EncodeString(s)
    {
      WriteUint(|s|, 8);
      WriteBytes(s);
      SameBytes(old(file), LE(|s|, 8), s, EncodeString(s), file);
    }

    method WriteNumbers(elems: seq<nat>, w: nat)
      modifies this
      ensures file == old(file) + EncodeNumbers(elems, w)
    {
      var i := 0;
      assert elems[0..] == elems;
      assert file + EncodeNumbers(elems, w) == old(file) + EncodeNumbers(elems, w);
      while i < |elems|
        invariant i <= |elems| && file + EncodeNumbers(elems[i..], w) == old(file) + EncodeNumbers(elems, w)
      {
        assert elems[i..][1..] == elems[i + 1..];
        Associate(file, LE(elems[i], w), EncodeNumbers(elems[i + 1..], w));
        WriteUint(elems[i], w);
        i := i + 1;
      }
    }

    method WriteStrings(strs: seq<Bytes>)
      modifies this
      ensures file == old(file) + EncodeStrings(strs)
    {
      var i := 0;
      assert strs[0..] == strs;
      assert file + EncodeStrings(strs) == old(file) + EncodeStrings(strs);
      while i < |strs|
        invariant i <= |strs| && file + EncodeStrings(strs[i..]) == old(file) + EncodeStrings(strs)
      {
        assert strs[i..][1..] == strs[i + 1..];
        Associate(file, EncodeString(strs[i]), EncodeStrings(strs[i + 1..]));
        WriteString(strs[i]);
        i := i + 1;
      }
    }

    method WriteArrayHead(tag: nat, n: nat, ghost items: Bytes)
      modifies this
      ensures file + items == old(file) + EncodeArray(tag, n, items)
    {
      WriteUint(ARRAY, 4);
      WriteUint(tag, 4);
      WriteUint(n, 8);
      ArrayHead(old(file), LE(ARRAY, 4), LE(tag, 4), LE(n, 8), items);
    }

    static lemma ArrayHead(a: Bytes, b: Bytes, c: Bytes, d: Bytes, e: Bytes)
      ensures a + b + c + d + e == a + (b + (c + (d + e)))
    {
    }

    method WriteNumberArray(tag: nat, elems: seq<nat>)
      modifies this
      ensures file == old(file) + EncodeArray(tag, |elems|, EncodeNumbers(elems, Width(tag)))
    {
      WriteArrayHead(tag, |elems|, EncodeNumbers(elems, Width(tag)));
      WriteNumbers(elems, Width(tag));
    }

    method WriteStringArray(strs: seq<Bytes>)
      modifies this
      ensures file == old(file) + EncodeArray(STRING, |strs|, EncodeStrings(strs))
    {
      WriteArrayHead(STRING, |strs|, EncodeStrings(strs));
      WriteStrings(strs);
    }

    method WriteTagged(tag: nat, bits: nat, w: nat)
      modifies this
      ensures file == old(file) + (LE(tag, 4) + LE(bits, w))
    {
      WriteUint(tag, 4);
      WriteUint(bits, w);
      Associate(old(file), LE(tag, 4), LE(bits, w));
    }

    /** Writes a value of a known type. */
    method WriteValue(v: Value)
      requires IsKnown(v)
      modifies this
      ensures file == old(file) + EncodeValue(v)
    {
      match v {
        case Number(tag, bits) => WriteTagged(tag, bits, Width(tag));
        case FileType(bits) => WriteTagged(UINT32, bits, 4);
        case Str(s) =>
          WriteUint(STRING, 4);
          WriteString(s);
          Associate(old(file), LE(STRING, 4), EncodeString(s));
        case Slice(tag, elems) => WriteNumberArray(tag, elems);
        case StrSlice(strs) => WriteStringArray(strs);
        case Array(tag, elems) => WriteNumberArray(tag, elems);
        case StrArray(strs) => WriteStringArray(strs);
      }
    }

    /** `ggufWriteKV`: the key is written even when the value turns out to have an improper type. */
    method WriteKV(k: Bytes, v: Value) returns (ok: bool)
      modifies this
      ensures ok == IsKnown(v)
      ensures file == old(file) + if ok then EncodeEntry(k, v) else EncodeString(k)
    {
      WriteString(k);
      ok := IsKnown(v);
      if ok {
        WriteValue(v);
        Associate(old(file), EncodeString(k), EncodeValue(v));
      }
    }

    /** `ggufWriteTensorInfo` */
    method WriteTensorInfo(t: Tensor)
      modifies this
      ensures file == old(file) + EncodeInfo(t)
    {
      WriteString(t.name);
      WriteUint(|t.shape|, 4);
      WriteNumbers(t.shape, 8);
      WriteUint(t.kind, 4);
      WriteUint(t.offset, 8);
      InfoBytes(old(file), EncodeString(t.name), LE(|t.shape|, 4), EncodeNumbers(t.shape, 8), LE(t.kind, 4), LE(t.offset, 8));
    }

    static lemma InfoBytes(a: Bytes, b: Bytes, c: Bytes, d: Bytes, e: Bytes, f: Bytes)
      ensures a + b + c + d + e + f == a + (b + (c + (d + (e + f))))
    {
    }

    method WriteEntries(kv: Kv, keys: seq<Bytes>) returns (ok: bool)
      requires forall k | k in keys :: k in kv
      modifies this
      ensures ok == AreKnown(kv, keys) && file == old(file) + WrittenEntries(kv, keys)
    {
      var i := 0;
      assert keys[0..] == keys;
      assert file + WrittenEntries(kv, keys) == old(file) + WrittenEntries(kv, keys);
      while i < |keys|
        invariant i <= |keys| && AreKnown(kv, keys[i..]) == AreKnown(kv, keys)
        invariant file + WrittenEntries(kv, keys[i..]) == old(file) + WrittenEntries(kv, keys)
      {
        assert keys[i..][1..] == keys[i + 1..];
        ghost var before, rest := file, WrittenEntries(kv, keys[i + 1..]);
        ok := WriteKV(keys[i], kv[keys[i]]);
        if !ok {
          return;
        }
        Associate(before, EncodeEntry(keys[i], kv[keys[i]]), rest);
        i := i + 1;
      }
      ok := true;
    }

    /** The tensors get their offsets one after the other, in the order in which they are written. */
    method WriteInfos(ts: seq<Tensor>, alignment: nat) returns (placed: seq<Tensor>)
      requires alignment > 0
      modifies this
      ensures placed == Place(ts, 0, alignment) && file == old(file) + EncodeInfos(placed)
    {
      placed := [];
      var s: nat, i: nat := 0, 0;
      assert ts[0..] == ts;
      ghost var left := Place(ts, 0, alignment);
      assert [] + left == left;
      while i < |ts|
        invariant i <= |ts| && left == Place(ts[i..], s, alignment) && placed + left == Place(ts, 0, alignment)
        invariant file + EncodeInfos(left) == old(file) + EncodeInfos(Place(ts, 0, alignment))
      {
        var t := ts[i].(offset := s);
        var next := NextOffset(ts[i], s, alignment);
        ghost var rest := Place(ts[i + 1..], next, alignment);
        assert ts[i..][1..] == ts[i + 1..];
        OneMorePlaced(ts[i..], s, next, alignment, t, left, rest);
        WriteInfo(t, left, rest);
        MoveOver(placed, t, left, rest);
        placed, left := placed + [t], rest;
        s, i := next, i + 1;
      }
      assert placed + [] == placed;
    }

    static lemma OneMorePlaced(ts: seq<Tensor>, s: nat, next: nat, alignment: nat, t: Tensor, left: seq<Tensor>, rest: seq<Tensor>)
      requires alignment > 0 && ts != [] && t == ts[0].(offset := s) && next == After(s, ts[0], alignment)
      requires left == Place(ts, s, alignment) && rest == Place(ts[1..], next, alignment)
      ensures left == [t] + rest
    {
    }

    /** Where the next tensor starts. */
    static method NextOffset(t: Tensor, s: nat, alignment: nat) returns (next: nat)
      requires alignment > 0
      ensures next == After(s, t, alignment)
    {
      next := s + Size(t);
      next := next + Pad(next, alignment);
    }

    static lemma MoveOver(placed: seq<Tensor>, t: Tensor, left: seq<Tensor>, rest: seq<Tensor>)
      requires left == [t] + rest
      ensures placed + left == placed + [t] + rest
    {
    }

    method WriteInfo(t: Tensor, ghost left: seq<Tensor>, ghost rest: seq<Tensor>)
      requires left == [t] + rest
      modifies this
      ensures file + EncodeInfos(rest) == old(file) + EncodeInfos(left)
    {
      assert left[1..] == rest;
      Associate(file, EncodeInfo(t), EncodeInfos(rest));
      WriteTensorInfo(t);
    }

    method WriteCounts(magic: nat, version: nat, tensors: nat, keys: nat)
      modifies this
      ensures file == old(file) + LE(magic, 4) + LE(version, 4) + LE(tensors, 8) + LE(keys, 8)
    {
      WriteUint(magic, 4);
      WriteUint(version, 4);
      WriteUint(tensors, 8);
      WriteUint(keys, 8);
    }

    /**
     `WriteGGUF` up to the data: all keys in order, the sorted tensors with their offsets, and the
     place where the data start. It fails exactly if some value has an improper type.
     */
    method WriteGguf(n: Names, kv: Kv, keys: seq<Bytes>, ts: seq<Tensor>, block: Bytes -> int) returns (w: Option<Written>)
      requires file == [] && (forall k | k in keys :: k in kv) && AlignmentOf(n, kv) > 0
      modifies this
      ensures w.Some? <==> AreKnown(kv, keys)
      ensures w.Some? ==> w.value == Write(n, kv, keys, ts, block) && file == w.value.header
      ensures w.None? ==> file == [] + LE(MAGIC, 4) + LE(3, 4) + LE(|ts|, 8) + LE(|keys|, 8) + WrittenEntries(kv, keys)
    {
      var alignment := AlignmentOf(n, kv);
      WriteCounts(MAGIC, 3, |ts|, |keys|);
      var ok := WriteEntries(kv, keys);
      if !ok {
        return None;
      }
      AllWritten(kv, keys);
      SortedStably(ts, block, []);
      var placed := WriteInfos(SortStable(ts, block), alignment);
      PlacedAsMany(SortStable(ts, block), 0, alignment);
      HeaderBytes(LE(MAGIC, 4), LE(3, 4), LE(|placed|, 8), LE(|keys|, 8), EncodeEntries(kv, keys), EncodeInfos(placed));
      w := Some(Written(file, placed, |file| + Pad(|file|, alignment)));
    }

    static lemma HeaderBytes(a: Bytes, b: Bytes, c: Bytes, d: Bytes, e: Bytes, f: Bytes)
      ensures [] + a + b + c + d + e + f == a + (b + (c + (d + (e + f))))
    {
    }

    static lemma {:induction false} PlacedAsMany(ts: seq<Tensor>, s: nat, align: nat)
      requires align > 0
      ensures |Place(ts, s, align)| == |ts|
      decreases |ts|
    {
      if ts != [] {
        PlacedAsMany(ts[1..], After(s, ts[0], align), align);
      }
    }
  }
}
