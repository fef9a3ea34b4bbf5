/**
 The data of the tensors: every tensor is written by a routine of its own, byte by byte and in any
 order relative to the others. The file that comes out does not depend on that order, and the
 reader, which stands in front of each tensor in turn, finds there what was written.
 */
module GgufData {
  import opened Options
  import opened Gguf
  import opened GgufFile
  import GgufReader
  import GgufWriter

  /** One of the routines writes one of its bytes. */
  datatype Step = Step(tensor: nat, byte: nat)

  /** What a file holds: positions that have not been written are missing. */
  type Content = map<nat, Byte>

  predicate InRange(s: Step, data: seq<Bytes>) {
    s.tensor < |data| && s.byte < |data[s.tensor]|
  }

  predicate AllInRange(steps: seq<Step>, data: seq<Bytes>) {
    steps == [] || (InRange(steps[0], data) && AllInRange(steps[1..], data))
  }

  /** The steps of all routines, each to its end, in some order. */
  ghost predicate IsSchedule(steps: seq<Step>, data: seq<Bytes>) {
    AllInRange(steps, data) && forall s | InRange(s, data) :: s in steps
  }

  /** No tensor writes more than its size. */
  ghost predicate KeepToSizes(ts: seq<Tensor>, data: seq<Bytes>) {
    |data| == |ts| && forall i | 0 <= i < |ts| :: |data[i]| <= Size(ts[i])
  }

  function PositionOf(s: Step, ts: seq<Tensor>, base: nat): nat
    requires s.tensor < |ts|
  {
    base + ts[s.tensor].offset + s.byte
  }

  function Run(steps: seq<Step>, ts: seq<Tensor>, data: seq<Bytes>, base: nat, content: Content): Content
    requires |data| == |ts| && AllInRange(steps, data)
    decreases |steps|
  {
    if steps == [] then content
    else
      var s := steps[0];
      Run(steps[1..], ts, data, base, content[PositionOf(s, ts, base) := data[s.tensor][s.byte]])
  }

  /** No two steps meet. */
  lemma StepsDoNotMeet(s: Step, t: Step, ts: seq<Tensor>, data: seq<Bytes>, base: nat, to: nat, align: nat)
    requires align > 0 && Apart(ts, 0, to, align) && KeepToSizes(ts, data)
    requires InRange(s, data) && InRange(t, data) && s != t
    ensures PositionOf(s, ts, base) != PositionOf(t, ts, base)
  {
    if s.tensor < t.tensor {
      ApartIsDisjoint(ts, 0, to, align, s.tensor, t.tensor);
    } else if t.tensor < s.tensor {
      ApartIsDisjoint(ts, 0, to, align, t.tensor, s.tensor);
    }
  }

  /** A byte that is written, or has been written, is there in the end. */
  lemma {:induction false} WrittenStays(steps: seq<Step>, s: Step, ts: seq<Tensor>, data: seq<Bytes>, base: nat, to: nat, align: nat, content: Content)
    requires align > 0 && Apart(ts, 0, to, align) && KeepToSizes(ts, data)
    requires AllInRange(steps, data) && InRange(s, data)
    requires s in steps || Holds(content, PositionOf(s, ts, base), data[s.tensor][s.byte])
    ensures Holds(Run(steps, ts, data, base, content), PositionOf(s, ts, base), data[s.tensor][s.byte])
    decreases |steps|
  {
    if steps != [] {
      var t := steps[0];
      if s != t {
        StepsDoNotMeet(s, t, ts, data, base, to, align);
      }
      WrittenStays(steps[1..], s, ts, data, base, to, align,
                   content[PositionOf(t, ts, base) := data[t.tensor][t.byte]]);
    }
  }

  predicate Holds(content: Content, p: nat, b: Byte) { p in content && content[p] == b }

  /** A position is outside of all tensors. */
  ghost predicate NobodyWrites(p: nat, ts: seq<Tensor>, data: seq<Bytes>, base: nat)
    requires |data| == |ts|
  {
    forall s | InRange(s, data) :: PositionOf(s, ts, base) != p
  }

  /** What nobody writes stays as it is. */
  lemma {:induction false} OthersStay(steps: seq<Step>, p: nat, ts: seq<Tensor>, data: seq<Bytes>, base: nat, content: Content)
    requires |data| == |ts| && AllInRange(steps, data)
    requires NobodyWrites(p, ts, data, base)
    ensures Same(Run(steps, ts, data, base, content), content, p)
    decreases |steps|
  {
    if steps != [] {
      var t := steps[0];
      OthersStay(steps[1..], p, ts, data, base, content[PositionOf(t, ts, base) := data[t.tensor][t.byte]]);
    }
  }

  predicate Same(a: Content, b: Content, p: nat) {
    (p in a <==> p in b) && (p in a ==> a[p] == b[p])
  }

  lemma SameEverywhere(a: Content, b: Content)
    requires forall p: nat :: Same(a, b, p)
    ensures a == b
  {
    assert a.Keys == b.Keys by {
      forall p: nat
        ensures p in a <==> p in b
      {
        assert Same(a, b, p);
      }
    }
    forall p | p in a
      ensures a[p] == b[p]
    {
      assert Same(a, b, p);
    }
  }

  /** In whatever order the routines run, they leave the same file. */
  lemma WritesCommute(steps: seq<Step>, others: seq<Step>, ts: seq<Tensor>, data: seq<Bytes>, base: nat, to: nat, align: nat, content: Content)
    requires align > 0 && Apart(ts, 0, to, align) && KeepToSizes(ts, data)
    requires IsSchedule(steps, data) && IsSchedule(others, data)
    ensures Run(steps, ts, data, base, content) == Run(others, ts, data, base, content)
  {
    var a, b := Run(steps, ts, data, base, content), Run(others, ts, data, base, content);
    forall p: nat
      ensures Same(a, b, p)
    {
      SameAt(steps, others, ts, data, base, to, align, content, p, a, b);
    }
    SameEverywhere(a, b);
  }

  lemma SameAt(steps: seq<Step>, others: seq<Step>, ts: seq<Tensor>, data: seq<Bytes>, base: nat, to: nat, align: nat, content: Content,
               p: nat, a: Content, b: Content)
    requires align > 0 && Apart(ts, 0, to, align) && KeepToSizes(ts, data)
    requires IsSchedule(steps, data) && IsSchedule(others, data)
    requires a == Run(steps, ts, data, base, content) && b == Run(others, ts, data, base, content)
    ensures Same(a, b, p)
  {
    if NobodyWrites(p, ts, data, base) {
      OthersStay(steps, p, ts, data, base, content);
      OthersStay(others, p, ts, data, base, content);
    } else {
      var s :| InRange(s, data) && PositionOf(s, ts, base) == p;
      WrittenStays(steps, s, ts, data, base, to, align, content);
      WrittenStays(others, s, ts, data, base, to, align, content);
    }
  }

  /** What a file holds after the header has been written. */
  function AsContent(header: Bytes): Content {
    map p: nat | p < |header| :: header[p]
  }

  /** The bytes of a file; what has not been written may be anything. */
  ghost predicate Shows(file: Bytes, content: Content) {
    forall p | p in content :: p < |file| && file[p] == content[p]
  }

  /** The bytes of one tensor are at one place of a file. */
  ghost predicate StandsAt(file: Bytes, p: nat, data: Bytes) {
    p + |data| <= |file| && forall j | 0 <= j < |data| :: file[p + j] == data[j]
  }

  lemma ShowsHeader(file: Bytes, content: Content, header: Bytes)
    requires Shows(file, content) && forall p: nat | p < |header| :: Same(content, AsContent(header), p)
    ensures |header| <= |file| && file == header + file[|header|..]
  {
    if |header| > 0 {
      assert Same(content, AsContent(header), |header| - 1);
    }
    forall p: nat | p < |header|
      ensures p < |file| && file[p] == header[p]
    {
      assert Same(content, AsContent(header), p);
    }
  }

  lemma HeaderStays(steps: seq<Step>, w: Written, data: seq<Bytes>, file: Bytes)
    requires |data| == |w.tensors| && AllInRange(steps, data) && |w.header| <= w.base
    requires Shows(file, Run(steps, w.tensors, data, w.base, AsContent(w.header)))
    ensures |w.header| <= |file| && file == w.header + file[|w.header|..]
  {
    var content := Run(steps, w.tensors, data, w.base, AsContent(w.header));
    forall p: nat | p < |w.header|
      ensures Same(content, AsContent(w.header), p)
    {
      OthersStay(steps, p, w.tensors, data, w.base, AsContent(w.header));
    }
    ShowsHeader(file, content, w.header);
  }

  lemma TensorStands(steps: seq<Step>, w: Written, data: seq<Bytes>, file: Bytes, to: nat, align: nat, i: nat, content: Content)
    requires align > 0 && Apart(w.tensors, 0, to, align) && KeepToSizes(w.tensors, data)
    requires IsSchedule(steps, data) && i < |data| && data[i] != []
    requires content == Run(steps, w.tensors, data, w.base, AsContent(w.header)) && Shows(file, content)
    ensures StandsAt(file, w.base + w.tensors[i].offset, data[i])
  {
    var start := w.base + w.tensors[i].offset;
    forall j: nat | j < |data[i]|
      ensures Holds(content, start + j, data[i][j])
    {
      ByteStands(steps, Step(i, j), w, data, to, align, start + j, data[i][j], content);
    }
    ShownStands(file, content, start, data[i]);
  }

  lemma ByteStands(steps: seq<Step>, s: Step, w: Written, data: seq<Bytes>, to: nat, align: nat, p: nat, b: Byte, content: Content)
    requires align > 0 && Apart(w.tensors, 0, to, align) && KeepToSizes(w.tensors, data)
    requires IsSchedule(steps, data) && InRange(s, data) && p == PositionOf(s, w.tensors, w.base) && b == data[s.tensor][s.byte]
    requires content == Run(steps, w.tensors, data, w.base, AsContent(w.header))
    ensures Holds(content, p, b)
  {
    WrittenStays(steps, s, w.tensors, data, w.base, to, align, AsContent(w.header));
  }

  lemma ShownStands(file: Bytes, content: Content, start: nat, bytes: Bytes)
    requires Shows(file, content) && bytes != []
    requires forall j: nat | j < |bytes| :: Holds(content, start + j, bytes[j])
    ensures StandsAt(file, start, bytes)
  {
    assert Holds(content, start + (|bytes| - 1), bytes[|bytes| - 1]);
    forall j | 0 <= j < |bytes|
      ensures start + j < |file| && file[start + j] == bytes[j]
    {
      assert Holds(content, start + j, bytes[j]);
    }
  }

  /**
   The whole way: whatever the order of the routines, the reader gives back the key-values and
   the sorted tensors, and where it stands in front of a tensor are the bytes of that tensor.
   */
  lemma WhatIsWrittenIsRead(n: Names, kv: Kv, keys: seq<Bytes>, ts: seq<Tensor>, block: Bytes -> int,
                            data: seq<Bytes>, steps: seq<Step>, file: Bytes)
    returns (read: Kv, d: Decoded)
    requires WellFormed(n, kv, keys, ts, block)
    requires var w := Write(n, kv, keys, ts, block);
      && KeepToSizes(w.tensors, data) && IsSchedule(steps, data)
      && Shows(file, Run(steps, w.tensors, data, w.base, AsContent(w.header)))
    ensures IsNormal(kv, read) && Decode(n, file) == Some(d)
    ensures var w := Write(n, kv, keys, ts, block); IsDecoded(d, Patched(n, read, w.tensors), w.tensors, w.base)
    ensures |d.starts| == |data| && forall i | 0 <= i < |data| && data[i] != [] :: StandsAt(file, d.starts[i], data[i])
  {
    var w := Write(n, kv, keys, ts, block);
    var alignment := AlignmentOf(n, kv);
    var sorted := SortStable(ts, block);
    HeaderStays(steps, w, data, file);
    read := RoundTrip(n, kv, keys, ts, block, file[|w.header|..]);
    d := Decode(n, file).value;
    PlacedApart(sorted, 0, 0, alignment);
    DataStand(steps, w, data, file, Room(sorted, 0, alignment), alignment, d.starts);
  }

  lemma DataStand(steps: seq<Step>, w: Written, data: seq<Bytes>, file: Bytes, to: nat, align: nat, starts: seq<nat>)
    requires align > 0 && Apart(w.tensors, 0, to, align) && KeepToSizes(w.tensors, data)
    requires IsSchedule(steps, data) && Lands(starts, w.base, w.tensors)
    requires Shows(file, Run(steps, w.tensors, data, w.base, AsContent(w.header)))
    ensures |starts| == |data| && forall i | 0 <= i < |data| && data[i] != [] :: StandsAt(file, starts[i], data[i])
  {
    forall i | 0 <= i < |data| && data[i] != []
      ensures StandsAt(file, starts[i], data[i])
    {
      TensorStands(steps, w, data, file, to, align, i, Run(steps, w.tensors, data, w.base, AsContent(w.header)));
    }
  }

  /** The writer and the reader, one after the other: whatever the data and however little each read gives. */
  method WriteThenDecode(kv: Kv, keys: seq<Bytes>, ts: seq<Tensor>, block: Bytes -> int, data: Bytes, bufferSize: nat, gots: nat -> nat)
    returns (w: Written, d: Decoded, ghost read: Kv)
    requires Storable(GGUF_NAMES, kv, keys, ts, block) && !HasFileTypeForAlignment(GGUF_NAMES, kv) && bufferSize > 0
    ensures w == Write(GGUF_NAMES, kv, keys, ts, block) && IsNormal(kv, read)
    ensures IsDecoded(d, Patched(GGUF_NAMES, read, w.tensors), w.tensors, w.base)
  {
    NamesDiffer();
    w, d, read := WriteThenDecodeWith(GGUF_NAMES, kv, keys, ts, block, data, bufferSize, gots);
  }

  /** The same with any two keys. */
  method WriteThenDecodeWith(n: Names, kv: Kv, keys: seq<Bytes>, ts: seq<Tensor>, block: Bytes -> int,
                             data: Bytes, bufferSize: nat, gots: nat -> nat)
    returns (w: Written, d: Decoded, ghost read: Kv)
    requires WellFormed(n, kv, keys, ts, block) && bufferSize > 0
    ensures w == Write(n, kv, keys, ts, block) && IsNormal(kv, read)
    ensures IsDecoded(d, Patched(n, read, w.tensors), w.tensors, w.base)
  {
    var writer := new GgufWriter.Writer();
    GgufWriter.WritableAreKnown(kv, keys);
    var written := writer.WriteGguf(n, kv, keys, ts, block);
    w := written.value;
    read := RoundTrip(n, kv, keys, ts, block, data);
    var reader := new GgufReader.Reader(w.header + data, bufferSize, gots);
    var decoded := reader.DecodeFile(n);
    d := decoded.value;
  }
}
