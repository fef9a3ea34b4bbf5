/**
 A whole GGUF file: the order and the places of the tensors, and why the reader finds what the
 writer has written.
 */
module GgufFile {
  import opened Options
  import opened Gguf

  // ----- the order of the tensors -----

  /** `cmp.Compare` of names is negative. */
  predicate NameLess(a: Bytes, b: Bytes) {
    b != [] && (a == [] || a[0] < b[0] || (a[0] == b[0] && NameLess(a[1..], b[1..])))
  }

  /** Tensors are ordered by block and by name; `block` is the number of the block in a name. */
  predicate Less(a: Tensor, b: Tensor, block: Bytes -> int) {
    block(a.name) < block(b.name) || (block(a.name) == block(b.name) && NameLess(a.name, b.name))
  }

  lemma {:induction false} NameLessSplits(a: Bytes, m: Bytes, b: Bytes)
    requires NameLess(a, b)
    ensures NameLess(a, m) || NameLess(m, b)
  {
    if a != [] && m != [] && a[0] == m[0] == b[0] {
      NameLessSplits(a[1..], m[1..], b[1..]);
    }
  }

  lemma {:induction false} NameLessIsAsymmetric(a: Bytes, b: Bytes)
    requires NameLess(a, b)
    ensures !NameLess(b, a)
  {
    if a != [] && a[0] == b[0] {
      NameLessIsAsymmetric(a[1..], b[1..]);
    }
  }

  function Insert(t: Tensor, s: seq<Tensor>, block: Bytes -> int): seq<Tensor> {
    if s == [] || !Less(s[0], t, block) then [t] + s else [s[0]] + Insert(t, s[1..], block)
  }

  /** `slices.SortStableFunc`. */
  function SortStable(ts: seq<Tensor>, block: Bytes -> int): seq<Tensor> {
    if ts == [] then [] else Insert(ts[0], SortStable(ts[1..], block), block)
  }

  ghost predicate Sorted(ts: seq<Tensor>, block: Bytes -> int) {
    ts != [] ==> (forall t | t in ts[1..] :: !Less(t, ts[0], block)) && Sorted(ts[1..], block)
  }

  /** The tensors of a name. */
  function Named(ts: seq<Tensor>, name: Bytes): seq<Tensor> {
    if ts == [] then [] else if ts[0].name == name then [ts[0]] + Named(ts[1..], name) else Named(ts[1..], name)
  }

  lemma {:induction false} InsertHas(t: Tensor, s: seq<Tensor>, block: Bytes -> int, x: Tensor)
    ensures x in Insert(t, s, block) <==> x == t || x in s
    ensures |Insert(t, s, block)| == |s| + 1
  {
    if s != [] && Less(s[0], t, block) {
      InsertHas(t, s[1..], block, x);
    }
  }

  lemma {:induction false} InsertSorts(t: Tensor, s: seq<Tensor>, block: Bytes -> int)
    requires Sorted(s, block)
    ensures Sorted(Insert(t, s, block), block)
  {
    var all := Insert(t, s, block);
    if s == [] || !Less(s[0], t, block) {
      assert all[1..] == s;
      forall x | x in s
        ensures !Less(x, t, block)
      {
        assert x == s[0] || x in s[1..];
        if x != s[0] && NameLess(x.name, t.name) {
          NameLessSplits(x.name, s[0].name, t.name);
        }
      }
    } else {
      assert all[1..] == Insert(t, s[1..], block);
      InsertSorts(t, s[1..], block);
      forall x | x in all[1..]
        ensures !Less(x, s[0], block)
      {
        InsertHas(t, s[1..], block, x);
        if x == t && NameLess(s[0].name, t.name) {
          NameLessIsAsymmetric(s[0].name, t.name);
        }
      }
    }
  }

  lemma {:induction false} InsertKeepsNames(t: Tensor, s: seq<Tensor>, block: Bytes -> int, name: Bytes)
    ensures Named(Insert(t, s, block), name) == Named([t] + s, name)
  {
    assert ([t] + s)[1..] == s;
    if s != [] && Less(s[0], t, block) {
      InsertKeepsNames(t, s[1..], block, name);
      assert ([t] + s[1..])[1..] == s[1..];
      assert ([s[0]] + Insert(t, s[1..], block))[1..] == Insert(t, s[1..], block);
      if s[0].name == t.name && NameLess(s[0].name, t.name) {
        NameLessIsAsymmetric(s[0].name, t.name);
      }
    }
  }

  /** The tensors are sorted, and those of one name stay in their order: nothing is lost, and nothing is swapped without need. */
  lemma {:induction false} SortedStably(ts: seq<Tensor>, block: Bytes -> int, name: Bytes)
    ensures Sorted(SortStable(ts, block), block) && |SortStable(ts, block)| == |ts|
    ensures Named(SortStable(ts, block), name) == Named(ts, name)
  {
    if ts != [] {
      var rest := SortStable(ts[1..], block);
      SortedStably(ts[1..], block, name);
      InsertSorts(ts[0], rest, block);
      InsertKeepsNames(ts[0], rest, block, name);
      InsertHas(ts[0], rest, block, ts[0]);
      assert ([ts[0]] + rest)[1..] == rest;
    }
  }

  /** a comes before b: where they differ first, a ends or has the smaller byte. */
  ghost predicate Before(a: Bytes, b: Bytes) {
    exists k | 0 <= k <= |a| && k < |b| :: a[..k] == b[..k] && (k == |a| || a[k] < b[k])
  }

  lemma {:induction false} NameLessIff(a: Bytes, b: Bytes)
    ensures NameLess(a, b) <==> Before(a, b)
  {
    if a != [] && b != [] && a[0] == b[0] {
      NameLessIff(a[1..], b[1..]);
      if Before(a[1..], b[1..]) {
        var k :| 0 <= k <= |a[1..]| && k < |b[1..]| && a[1..][..k] == b[1..][..k] && (k == |a[1..]| || a[1..][k] < b[1..][k]);
        LaterDifference(a, b, k + 1);
      }
      if Before(a, b) {
        var k :| 0 <= k <= |a| && k < |b| && a[..k] == b[..k] && (k == |a| || a[k] < b[k]);
        assert k > 0;
        assert a[1..][..k - 1] == a[..k][1..] && b[1..][..k - 1] == b[..k][1..];
      }
    } else if a == [] && b != [] {
      assert a[..0] == b[..0];
    } else if b != [] {
      FirstDifference(a, b);
    }
  }

  lemma LaterDifference(a: Bytes, b: Bytes, k: nat)
    requires 0 < k <= |a| && k < |b| && a[0] == b[0] && a[1..][..k - 1] == b[1..][..k - 1] && (k == |a| || a[k] < b[k])
    ensures Before(a, b)
  {
    assert a[..k] == [a[0]] + a[1..][..k - 1] && b[..k] == [b[0]] + b[1..][..k - 1];
  }

  lemma FirstDifference(a: Bytes, b: Bytes)
    requires a != [] && b != [] && a[0] != b[0]
    ensures Before(a, b) <==> a[0] < b[0]
  {
    assert a[..0] == b[..0];
    forall k | 0 < k <= |a| && k < |b|
      ensures a[..k] != b[..k]
    {
      assert a[..k][0] == a[0] && b[..k][0] == b[0];
    }
  }

  /** Of two sorted tensors the first one has the smaller number of a block, or the same and a name that does not come later. */
  lemma {:induction false} InOrder(ts: seq<Tensor>, block: Bytes -> int, i: nat, j: nat)
    requires Sorted(ts, block) && i < j < |ts|
    ensures block(ts[i].name) < block(ts[j].name) || (block(ts[i].name) == block(ts[j].name) && !Before(ts[j].name, ts[i].name))
  {
    if i == 0 {
      assert ts[j] == ts[1..][j - 1] && ts[1..][j - 1] in ts[1..];
      NameLessIff(ts[j].name, ts[0].name);
    } else {
      InOrder(ts[1..], block, i - 1, j - 1);
    }
  }

  // ----- the places of the tensors -----

  /** `ggufPadding`. */
  function Pad(offset: nat, align: nat): (n: nat)
    requires align > 0
    ensures n < align
  {
    (align - offset % align) % align
  }

  /** Where the next tensor may start behind one that is placed at s. */
  function After(s: nat, t: Tensor, align: nat): nat
    requires align > 0
  {
    s + Size(t) + Pad(s + Size(t), align)
  }

  /** The tensors with their offsets. */
  function Place(ts: seq<Tensor>, s: nat, align: nat): seq<Tensor>
    requires align > 0
    decreases |ts|
  {
    if ts == [] then [] else [ts[0].(offset := s)] + Place(ts[1..], After(s, ts[0], align), align)
  }

  /** How much room the tensors take. */
  function Room(ts: seq<Tensor>, s: nat, align: nat): nat
    requires align > 0
    decreases |ts|
  {
    if ts == [] then s else Room(ts[1..], After(s, ts[0], align), align)
  }

  lemma PadAligns(offset: nat, align: nat)
    requires align > 0
    ensures (offset + Pad(offset, align)) % align == 0
  {
    var q, r := offset / align, offset % align;
    assert offset == align * q + r;
    if r == 0 {
      assert Pad(offset, align) == 0;
      MultipleOf(align, q);
    } else {
      assert Pad(offset, align) == align - r;
      assert offset + Pad(offset, align) == align * (q + 1) by {
        assert align * (q + 1) == align * q + align;
      }
      MultipleOf(align, q + 1);
    }
  }

  lemma MultipleOf(align: nat, q: nat)
    requires align > 0
    ensures (align * q) % align == 0
  {
    ModUnique(align * q, align, q, 0);
  }

  /** Behind something that is aligned, the padding is the same as at the beginning. */
  lemma PadBehindAligned(base: nat, x: nat, align: nat)
    requires align > 0 && base % align == 0
    ensures Pad(base + x, align) == Pad(x, align)
  {
    var q, r := x / align, x % align;
    var p := base / align;
    assert base == align * p && x == align * q + r;
    assert base + x == align * (p + q) + r by {
      assert align * (p + q) == align * p + align * q;
    }
    ModUnique(base + x, align, p + q, r);
  }

  /** The offsets are aligned, and each tensor ends before the next one starts. */
  ghost predicate Apart(ts: seq<Tensor>, from: nat, to: nat, align: nat)
    requires align > 0
    decreases |ts|
  {
    if ts == [] then from <= to
    else from <= ts[0].offset && ts[0].offset % align == 0 && Apart(ts[1..], ts[0].offset + Size(ts[0]), to, align)
  }

  lemma {:induction false} PlacedApart(ts: seq<Tensor>, from: nat, s: nat, align: nat)
    requires align > 0 && s % align == 0 && from <= s
    ensures Apart(Place(ts, s, align), from, Room(ts, s, align), align) && s <= Room(ts, s, align)
    decreases |ts|
  {
    if ts != [] {
      var t := ts[0].(offset := s);
      PadAligns(s + Size(t), align);
      var rest := Place(ts[1..], After(s, t, align), align);
      PlacedApart(ts[1..], s + Size(t), After(s, t, align), align);
      assert ([t] + rest)[1..] == rest;
    }
  }

  /** Tensors that are placed apart do not overlap. */
  lemma {:induction false} ApartIsDisjoint(ts: seq<Tensor>, from: nat, to: nat, align: nat, i: nat, j: nat)
    requires align > 0 && Apart(ts, from, to, align) && i < j < |ts|
    ensures ts[i].offset + Size(ts[i]) <= ts[j].offset
    decreases |ts|
  {
    if i == 0 {
      StartsBehind(ts[1..], ts[0].offset + Size(ts[0]), to, align, j - 1);
    } else {
      ApartIsDisjoint(ts[1..], ts[0].offset + Size(ts[0]), to, align, i - 1, j - 1);
    }
  }

  lemma {:induction false} StartsBehind(ts: seq<Tensor>, from: nat, to: nat, align: nat, j: nat)
    requires align > 0 && Apart(ts, from, to, align) && j < |ts|
    ensures from <= ts[j].offset && ts[j].offset % align == 0
    decreases |ts|
  {
    if j > 0 {
      StartsBehind(ts[1..], ts[0].offset + Size(ts[0]), to, align, j - 1);
    }
  }

  // ----- the walk of the reader -----

  /** Where the reader stands before each tensor. */
  function WalkStarts(pos: nat, ts: seq<Tensor>, align: nat): seq<nat>
    requires align > 0
    decreases |ts|
  {
    if ts == [] then []
    else
      var start := pos + Pad(pos, align);
      [start] + WalkStarts(start + Size(ts[0]), ts[1..], align)
  }

  /** Where the reader stands behind the last tensor. */
  function WalkEnd(pos: nat, ts: seq<Tensor>, align: nat): nat
    requires align > 0
    decreases |ts|
  {
    if ts == [] then pos else WalkEnd(pos + Pad(pos, align) + Size(ts[0]), ts[1..], align)
  }

  /** The reader stands where the writer has put each tensor. */
  predicate Lands(starts: seq<nat>, base: nat, ts: seq<Tensor>) {
    |starts| == |ts| && forall i | 0 <= i < |ts| :: starts[i] == base + ts[i].offset
  }

  lemma {:induction false} WalkLands(pos: nat, base: nat, ts: seq<Tensor>, s: nat, align: nat)
    requires align > 0 && base % align == 0 && pos + Pad(pos, align) == base + s
    ensures Lands(WalkStarts(pos, Place(ts, s, align), align), base, Place(ts, s, align))
    decreases |ts|
  {
    if ts != [] {
      var t := ts[0].(offset := s);
      var next := After(s, t, align);
      var end := base + s + Size(t);
      PadBehindAligned(base, s + Size(t), align);
      WalkLands(end, base, ts[1..], next, align);
      LandsBefore(pos, base, t, Place(ts[1..], next, align), Place(ts, s, align), align, end);
    }
  }

  lemma LandsBefore(pos: nat, base: nat, t: Tensor, rest: seq<Tensor>, all: seq<Tensor>, align: nat, end: nat)
    requires align > 0 && all == [t] + rest && Lands(WalkStarts(end, rest, align), base, rest)
    requires pos + Pad(pos, align) == base + t.offset && end == base + t.offset + Size(t)
    ensures Lands(WalkStarts(pos, all, align), base, all)
  {
    var starts := WalkStarts(end, rest, align);
    assert all[1..] == rest && WalkStarts(pos, all, align) == [base + t.offset] + starts;
    forall i | 0 < i < |all|
      ensures ([base + t.offset] + starts)[i] == base + all[i].offset
    {
      assert starts[i - 1] == base + rest[i - 1].offset;
    }
  }

  /** All paddings on the walk are the same for two alignments. */
  predicate SamePadding(pos: nat, ts: seq<Tensor>, align: nat, other: nat)
    requires align > 0 && other > 0
    decreases |ts|
  {
    ts != [] ==> Pad(pos, align) == Pad(pos, other) && SamePadding(pos + Pad(pos, align) + Size(ts[0]), ts[1..], align, other)
  }

  lemma {:induction false} SameWalkIff(pos: nat, ts: seq<Tensor>, align: nat, other: nat)
    requires align > 0 && other > 0
    ensures WalkStarts(pos, ts, other) == WalkStarts(pos, ts, align) <==> SamePadding(pos, ts, align, other)
    decreases |ts|
  {
    if ts != [] {
      var start, next := pos + Pad(pos, align), pos + Pad(pos, align) + Size(ts[0]);
      SameWalkIff(next, ts[1..], align, other);
      assert WalkStarts(pos, ts, align)[1..] == WalkStarts(next, ts[1..], align);
      var elsewhere := pos + Pad(pos, other);
      assert WalkStarts(pos, ts, other)[0] == elsewhere && WalkStarts(pos, ts, align)[0] == start;
      assert WalkStarts(pos, ts, other)[1..] == WalkStarts(elsewhere + Size(ts[0]), ts[1..], other);
    }
  }

  // ----- the header -----

  function Ascii(s: string): Bytes {
    if s == [] then [] else [s[0] as int % 256] + Ascii(s[1..])
  }

  lemma {:induction false} AsciiLength(s: string)
    ensures |Ascii(s)| == |s|
  {
    if s != [] {
      AsciiLength(s[1..]);
    }
  }

  /** The keys that the format knows. */
  datatype Names = Names(alignment: Bytes, parameterCount: Bytes)

  const GGUF_NAMES := Names(Ascii("general.alignment"), Ascii("general.parameter_count"))

  const MAGIC := 0x46554747

  /** The alignment that is asked for, if it is a number of 32 bits. */
  function AlignmentOf(n: Names, kv: Kv): nat {
    if n.alignment in kv then AlignmentFrom(kv[n.alignment]) else 32
  }

  function AlignmentFrom(v: Value): nat {
    if v.Number? && v.tag == UINT32 then v.bits else 32
  }

  function Header(kv: Kv, keys: seq<Bytes>, ts: seq<Tensor>): Bytes
    requires forall k | k in keys :: k in kv
  {
    LE(MAGIC, 4) + (LE(3, 4) + (LE(|ts|, 8) + (LE(|keys|, 8) + (EncodeEntries(kv, keys) + EncodeInfos(ts)))))
  }

  /** The number of parameters of all tensors, in 64 bits. */
  function Parameters(ts: seq<Tensor>, from: nat): nat
    decreases |ts|
  {
    if ts == [] then from else Parameters(ts[1..], (from + Elements(ts[0].shape)) % TWO64)
  }

  function Total(ts: seq<Tensor>): nat {
    if ts == [] then 0 else Product(ts[0].shape) + Total(ts[1..])
  }

  /** Wrapping around in each step is wrapping around once. */
  lemma {:induction false} ParametersAre(ts: seq<Tensor>, from: nat)
    requires from < TWO64
    ensures Parameters(ts, from) == (from + Total(ts)) % TWO64
    decreases |ts|
  {
    if ts != [] {
      var n, rest := Product(ts[0].shape), Total(ts[1..]);
      ParametersAre(ts[1..], (from + n % TWO64) % TWO64);
      CutTerms(from, n, rest, TWO64);
    } else {
      assert from % TWO64 == from;
    }
  }

  lemma CutTerms(a: nat, b: nat, c: nat, m: nat)
    requires m > 0
    ensures ((a + b % m) % m + c) % m == (a + (b + c)) % m
  {
    var x := a + b % m;
    AddMultiple(x % m + c, x / m, m);
    assert x + c == m * (x / m) + (x % m + c);
    AddMultiple(x + c, b / m, m);
    assert a + (b + c) == m * (b / m) + (x + c);
  }

  datatype Decoded = Decoded(kv: Kv, tensors: seq<Tensor>, tensorOffset: nat, starts: seq<nat>, length: nat)

  /** The key-values with the number of parameters. */
  function Patched(n: Names, kv: Kv, ts: seq<Tensor>): Kv {
    kv[n.parameterCount := Number(UINT64, Parameters(ts, 0))]
  }

  /** What the reader makes of key-values and tensors that end at an offset. */
  function Assemble(n: Names, kv: Kv, ts: seq<Tensor>, offset: nat): Option<Decoded> {
    var alignment := AlignmentOf(n, Patched(n, kv, ts));
    if alignment == 0 then None
    else Some(Decoded(Patched(n, kv, ts), ts, offset + Pad(offset, alignment),
                      WalkStarts(offset, ts, alignment), WalkEnd(offset, ts, alignment)))
  }

  /** What the reader makes of the part of a file behind its key-values. */
  function DecodeTensors(n: Names, file: Bytes, kv: Kv, b: Bytes, nTensors: nat): Option<Decoded> {
    match ReadInfos(b, nTensors)
    case Failed => None
    case Got(ts, rest) => if |rest| > |file| then None else Assemble(n, kv, ts, |file| - |rest|)
  }

  /** What the reader makes of the part of a file behind its counts. */
  function DecodeModel(n: Names, file: Bytes, b: Bytes, nTensors: nat, nKv: nat): Option<Decoded>
    requires |b| <= |file|
  {
    match ReadEntries(b, nKv, map[])
    case Failed => None
    case Got(kv, infos) => DecodeTensors(n, file, kv, infos, nTensors)
  }

  /** `Decode`, for files in little-endian order of any version but 1. */
  function Decode(n: Names, file: Bytes): Option<Decoded> {
    match ReadUint(file, 4)
    case Failed => None
    case Got(magic, b1) =>
      if magic != MAGIC then None
      else
        match ReadUint(b1, 4)
        case Failed => None
        case Got(version, b2) =>
          if version == 1 then None
          else
            match ReadUint(b2, 8)
            case Failed => None
            case Got(nTensors, b3) =>
              match ReadUint(b3, 8)
              case Failed => None
              case Got(nKv, b4) => if |b4| > |file| then None else DecodeModel(n, file, b4, nTensors, nKv)
  }

  /** What the writer leaves: the header, the placed tensors, and where their data start. */
  datatype Written = Written(header: Bytes, tensors: seq<Tensor>, base: nat)

  function Write(n: Names, kv: Kv, keys: seq<Bytes>, ts: seq<Tensor>, block: Bytes -> int): Written
    requires (forall k | k in keys :: k in kv) && AlignmentOf(n, kv) > 0
  {
    var alignment := AlignmentOf(n, kv);
    var placed := Place(SortStable(ts, block), 0, alignment);
    var header := Header(kv, keys, placed);
    Written(header, placed, |header| + Pad(|header|, alignment))
  }

  predicate HasFileTypeForAlignment(n: Names, kv: Kv) {
    n.alignment in kv && kv[n.alignment].FileType? && kv[n.alignment].bits != 32
  }

  /** The alignment that the reader will find. */
  function ReaderAlignment(n: Names, kv: Kv): nat {
    if n.alignment in kv && kv[n.alignment].FileType? then kv[n.alignment].bits else AlignmentOf(n, kv)
  }

  /** The reader takes for the alignment what the writer did, unless a file type stands for it. */
  lemma AlignmentsAgree(n: Names, kv: Kv, read: Kv)
    requires IsNormal(kv, read)
    ensures AlignmentOf(n, read) == ReaderAlignment(n, kv)
    ensures AlignmentOf(n, read) == AlignmentOf(n, kv) <==> !HasFileTypeForAlignment(n, kv)
  {
  }

  lemma NamesDiffer()
    ensures GGUF_NAMES.alignment != GGUF_NAMES.parameterCount
  {
    AsciiLength("general.alignment");
    AsciiLength("general.parameter_count");
    assert |"general.alignment"| == 17 && |"general.parameter_count"| == 23;
  }

  lemma {:induction false} PlacedAreWritable(ts: seq<Tensor>, s: nat, align: nat)
    requires align > 0 && WritableTensors(ts) && Room(ts, s, align) < TWO64
    ensures WritableTensors(Place(ts, s, align)) && |Place(ts, s, align)| == |ts|
    decreases |ts|
  {
    if ts != [] {
      RoomGrows(ts[1..], After(s, ts[0], align), align);
      PlacedAreWritable(ts[1..], After(s, ts[0], align), align);
      var rest := Place(ts[1..], After(s, ts[0], align), align);
      assert ([ts[0].(offset := s)] + rest)[1..] == rest;
    }
  }

  lemma {:induction false} RoomGrows(ts: seq<Tensor>, s: nat, align: nat)
    requires align > 0
    ensures s <= Room(ts, s, align)
    decreases |ts|
  {
    if ts != [] {
      RoomGrows(ts[1..], After(s, ts[0], align), align);
    }
  }

  lemma HeaderParts(a: Bytes, b: Bytes, c: Bytes, d: Bytes, e: Bytes, f: Bytes, rest: Bytes)
    ensures a + (b + (c + (d + (e + f)))) + rest == a + (b + (c + (d + (e + (f + rest)))))
  {
  }

  /** The counts at the beginning of a file. */
  lemma ReadsCounts(n: Names, file: Bytes, nTensors: nat, nKv: nat, b4: Bytes)
    requires Fits(nTensors) && Fits(nKv)
    requires file == LE(MAGIC, 4) + (LE(3, 4) + (LE(nTensors, 8) + (LE(nKv, 8) + b4)))
    ensures |b4| <= |file| && Decode(n, file) == DecodeModel(n, file, b4, nTensors, nKv)
  {
    Powers();
    var b3 := LE(nKv, 8) + b4;
    var b2 := LE(nTensors, 8) + b3;
    var b1 := LE(3, 4) + b2;
    ReadsUint(MAGIC, 4, b1);
    ReadsUint(3, 4, b2);
    ReadsUint(nTensors, 8, b3);
    ReadsUint(nKv, 8, b4);
  }

  /** The key-values and tensors of a file. */
  lemma ReadsModel(file: Bytes, kv: Kv, keys: seq<Bytes>, ts: seq<Tensor>, rest: Bytes, b4: Bytes)
    requires WritableKv(kv) && (forall k :: k in keys <==> k in kv) && WritableTensors(ts)
    requires b4 == EncodeEntries(kv, keys) + (EncodeInfos(ts) + rest) && |b4| <= |file|
    ensures ReadEntries(b4, |keys|, map[]) == Got(Put(kv, keys, map[]), EncodeInfos(ts) + rest)
    ensures ReadInfos(EncodeInfos(ts) + rest, |ts|) == Got(ts, rest)
  {
    ReadsEntries(kv, keys, map[], EncodeInfos(ts) + rest);
    ReadsInfos(ts, rest);
  }

  lemma DecodesModel(n: Names, file: Bytes, b4: Bytes, kv: Kv, infos: Bytes, ts: seq<Tensor>, nKv: nat, rest: Bytes)
    requires |rest| <= |file| && |b4| <= |file|
    requires ReadEntries(b4, nKv, map[]) == Got(kv, infos) && ReadInfos(infos, |ts|) == Got(ts, rest)
    ensures DecodeModel(n, file, b4, |ts|, nKv) == Assemble(n, kv, ts, |file| - |rest|)
  {
    DecodesTensors(n, file, kv, infos, ts, rest);
  }

  lemma DecodesTensors(n: Names, file: Bytes, kv: Kv, infos: Bytes, ts: seq<Tensor>, rest: Bytes)
    requires |rest| <= |file| && ReadInfos(infos, |ts|) == Got(ts, rest)
    ensures DecodeTensors(n, file, kv, infos, |ts|) == Assemble(n, kv, ts, |file| - |rest|)
  {
  }

  /** What can be written. */
  ghost predicate Storable(n: Names, kv: Kv, keys: seq<Bytes>, ts: seq<Tensor>, block: Bytes -> int) {
    && WritableKv(kv) && (forall k :: k in keys <==> k in kv) && Fits(|keys|) && AlignmentOf(n, kv) > 0
    && WritableTensors(SortStable(ts, block)) && Fits(|ts|)
    && Fits(Room(SortStable(ts, block), 0, AlignmentOf(n, kv)))
  }

  /**
   Whatever the data are: the reader gives back the key-values, with the number of parameters,
   and the sorted tensors, finds the data where the writer puts them, and stands in front of each
   tensor in turn, exactly if the alignment it finds is not 0 and gives the paddings of the writer.
   */
  lemma RoundTripIff(n: Names, kv: Kv, keys: seq<Bytes>, ts: seq<Tensor>, block: Bytes -> int, data: Bytes) returns (read: Kv)
    requires Storable(n, kv, keys, ts, block) && n.alignment != n.parameterCount
    ensures IsNormal(kv, read)
    ensures var w, align, other := Write(n, kv, keys, ts, block), AlignmentOf(n, kv), ReaderAlignment(n, kv);
      ReadsAs(Decode(n, w.header + data), Patched(n, read, w.tensors), w.tensors, w.base) <==>
      other > 0 && Pad(|w.header|, align) == Pad(|w.header|, other) && SamePadding(|w.header|, w.tensors, align, other)
  {
    var alignment := AlignmentOf(n, kv);
    var sorted := SortStable(ts, block);
    var w := Write(n, kv, keys, ts, block);
    read := ReadBack(n, kv, keys);
    SortedStably(ts, block, []);
    PlacedAreWritable(sorted, 0, alignment);
    DecodesWritten(n, kv, keys, sorted, w, alignment, ReaderAlignment(n, kv), data, read);
  }

  lemma ReadBack(n: Names, kv: Kv, keys: seq<Bytes>) returns (read: Kv)
    requires forall k :: k in keys <==> k in kv
    ensures read == Put(kv, keys, map[]) && IsNormal(kv, read) && AlignmentOf(n, read) == ReaderAlignment(n, kv)
  {
    read := Put(kv, keys, map[]);
    PutAll(kv, keys);
    AlignmentsAgree(n, kv, read);
  }

  lemma DecodesWritten(n: Names, kv: Kv, keys: seq<Bytes>, sorted: seq<Tensor>, w: Written, align: nat, other: nat, data: Bytes, read: Kv)
    requires WritableKv(kv) && (forall k :: k in keys <==> k in kv) && Fits(|keys|) && read == Put(kv, keys, map[])
    requires align > 0 && AlignmentOf(n, read) == other && n.alignment != n.parameterCount
    requires w.tensors == Place(sorted, 0, align) && WritableTensors(w.tensors) && Fits(|w.tensors|)
    requires w.header == Header(kv, keys, w.tensors) && w.base == |w.header| + Pad(|w.header|, align)
    ensures ReadsAs(Decode(n, w.header + data), Patched(n, read, w.tensors), w.tensors, w.base) <==>
            other > 0 && Pad(|w.header|, align) == Pad(|w.header|, other) && SamePadding(|w.header|, w.tensors, align, other)
  {
    DecodesHeader(n, kv, keys, w.tensors, data, read);
    AssembledIff(n, read, sorted, align, other, |w.header|);
  }

  /** Something has been read: the given key-values and tensors, with their data at the given place. */
  predicate ReadsAs(d: Option<Decoded>, kv: Kv, ts: seq<Tensor>, base: nat) {
    d != None && IsDecoded(d.value, kv, ts, base)
  }

  /** What can be written so that it is read back. */
  ghost predicate WellFormed(n: Names, kv: Kv, keys: seq<Bytes>, ts: seq<Tensor>, block: Bytes -> int) {
    Storable(n, kv, keys, ts, block) && n.alignment != n.parameterCount && !HasFileTypeForAlignment(n, kv)
  }

  /** Unless a file type stands for the alignment, the file is read as it was written. */
  lemma RoundTrip(n: Names, kv: Kv, keys: seq<Bytes>, ts: seq<Tensor>, block: Bytes -> int, data: Bytes) returns (read: Kv)
    requires WellFormed(n, kv, keys, ts, block)
    ensures IsNormal(kv, read)
    ensures var w := Write(n, kv, keys, ts, block);
      ReadsAs(Decode(n, w.header + data), Patched(n, read, w.tensors), w.tensors, w.base)
  {
    read := RoundTripIff(n, kv, keys, ts, block, data);
    var w := Write(n, kv, keys, ts, block);
    SameWalkIff(|w.header|, w.tensors, AlignmentOf(n, kv), ReaderAlignment(n, kv));
  }

  /** What has been read is the given key-values and tensors, with their data at the given place. */
  predicate IsDecoded(d: Decoded, kv: Kv, ts: seq<Tensor>, base: nat) {
    d.kv == kv && d.tensors == ts && d.tensorOffset == base && Lands(d.starts, base, ts)
  }

  lemma AssembledIff(n: Names, kv: Kv, ts: seq<Tensor>, align: nat, other: nat, offset: nat)
    requires align > 0 && AlignmentOf(n, kv) == other && n.alignment != n.parameterCount
    ensures var placed := Place(ts, 0, align);
      ReadsAs(Assemble(n, kv, placed, offset), Patched(n, kv, placed), placed, offset + Pad(offset, align)) <==>
      other > 0 && Pad(offset, align) == Pad(offset, other) && SamePadding(offset, placed, align, other)
  {
    var base, placed := offset + Pad(offset, align), Place(ts, 0, align);
    assert AlignmentOf(n, Patched(n, kv, placed)) == other;
    PadAligns(offset, align);
    WalkLands(offset, base, ts, 0, align);
    if other > 0 {
      SameWalkIff(offset, placed, align, other);
      LandsOnce(WalkStarts(offset, placed, align), WalkStarts(offset, placed, other), base, placed);
    }
  }

  lemma LandsOnce(starts: seq<nat>, others: seq<nat>, base: nat, ts: seq<Tensor>)
    requires Lands(starts, base, ts)
    ensures Lands(others, base, ts) <==> others == starts
  {
  }

  /** The header and the data behind it, part by part. */
  lemma HeaderLayout(kv: Kv, keys: seq<Bytes>, ts: seq<Tensor>, data: Bytes, file: Bytes, infos: Bytes, b4: Bytes)
    requires forall k | k in keys :: k in kv
    requires file == Header(kv, keys, ts) + data && infos == EncodeInfos(ts) + data && b4 == EncodeEntries(kv, keys) + infos
    ensures file == LE(MAGIC, 4) + (LE(3, 4) + (LE(|ts|, 8) + (LE(|keys|, 8) + b4)))
  {
    HeaderParts(LE(MAGIC, 4), LE(3, 4), LE(|ts|, 8), LE(|keys|, 8), EncodeEntries(kv, keys), EncodeInfos(ts), data);
  }

  lemma DecodesFile(n: Names, file: Bytes, kv: Kv, keys: seq<Bytes>, ts: seq<Tensor>, data: Bytes, read: Kv, infos: Bytes, b4: Bytes)
    requires WritableKv(kv) && (forall k :: k in keys <==> k in kv) && WritableTensors(ts) && Fits(|ts|) && Fits(|keys|)
    requires read == Put(kv, keys, map[])
    requires infos == EncodeInfos(ts) + data && b4 == EncodeEntries(kv, keys) + infos
    requires file == LE(MAGIC, 4) + (LE(3, 4) + (LE(|ts|, 8) + (LE(|keys|, 8) + b4)))
    ensures |data| <= |file| && Decode(n, file) == Assemble(n, read, ts, |file| - |data|)
  {
    ReadsCounts(n, file, |ts|, |keys|, b4);
    ReadsModel(file, kv, keys, ts, data, b4);
    DecodesModel(n, file, b4, read, infos, ts, |keys|, data);
  }

  lemma DecodesHeader(n: Names, kv: Kv, keys: seq<Bytes>, ts: seq<Tensor>, data: Bytes, read: Kv)
    requires WritableKv(kv) && (forall k :: k in keys <==> k in kv) && WritableTensors(ts) && Fits(|ts|) && Fits(|keys|)
    requires read == Put(kv, keys, map[])
    ensures Decode(n, Header(kv, keys, ts) + data) == Assemble(n, read, ts, |Header(kv, keys, ts)|)
  {
    var file := Header(kv, keys, ts) + data;
    var infos := EncodeInfos(ts) + data;
    var b4 := EncodeEntries(kv, keys) + infos;
    HeaderLayout(kv, keys, ts, data, file, infos, b4);
    DecodesFile(n, file, kv, keys, ts, data, read, infos, b4);
  }

  // ----- a file that is read otherwise -----

  /** The alignment 1, stored as a file type, under a key of 17 characters. */
  ghost predicate IsTyped(n: Names, kv: Kv, keys: seq<Bytes>, v: Value) {
    |n.alignment| == 17 && n.alignment != n.parameterCount && v == FileType(1) && kv == map[n.alignment := v] && keys == [n.alignment]
  }

  /** One tensor without a name, and with one number of 32 bits. */
  predicate IsSingle(t: Tensor, ts: seq<Tensor>) {
    t == Tensor([], 0, 0, [1]) && ts == [t]
  }

  lemma HeaderLength(kv: Kv, keys: seq<Bytes>, ts: seq<Tensor>)
    requires forall k | k in keys :: k in kv
    ensures |Header(kv, keys, ts)| == 24 + |EncodeEntries(kv, keys)| + |EncodeInfos(ts)|
  {
  }

  lemma TypedLength(n: Names, kv: Kv, keys: seq<Bytes>, v: Value)
    requires IsTyped(n, kv, keys, v)
    ensures keys[0] in kv && |EncodeEntries(kv, keys)| == 33
  {
    assert keys[1..] == [] && kv[keys[0]] == v;
    assert EncodeEntries(kv, keys) == EncodeEntry(keys[0], v) + EncodeEntries(kv, []);
  }

  lemma SingleLength(t: Tensor, ts: seq<Tensor>)
    requires IsSingle(t, ts)
    ensures |EncodeInfos(ts)| == 32
  {
    assert ts[1..] == [] && t.shape[1..] == [];
    assert EncodeNumbers(t.shape, 8) == LE(1, 8) + EncodeNumbers([], 8);
    assert EncodeInfos(ts) == EncodeInfo(t) + EncodeInfos([]);
  }

  lemma SingleIsWritable(t: Tensor, ts: seq<Tensor>)
    requires IsSingle(t, ts)
    ensures WritableTensors(ts) && Fits(|ts|)
  {
    Powers();
    assert ts[1..] == [] && t.shape[1..] == [];
    assert AreNumbers(UINT64, t.shape);
  }

  lemma SingleIsStorable(t: Tensor, ts: seq<Tensor>, block: Bytes -> int, align: nat)
    requires IsSingle(t, ts) && align == 32
    ensures SortStable(ts, block) == ts && Place(ts, 0, align) == ts && Fits(Room(ts, 0, align)) && WritableTensors(ts) && Fits(|ts|)
  {
    SingleIsWritable(t, ts);
    assert ts[1..] == [] && t.shape[1..] == [];
    assert Product(t.shape) == 1 * Product([]);
  }

  lemma SingleWalk(t: Tensor, ts: seq<Tensor>, pos: nat, align: nat)
    requires IsSingle(t, ts) && align == 1
    ensures WalkStarts(pos, ts, align) == [pos] && Pad(pos, align) == 0
  {
    assert ts[1..] == [];
  }

  lemma SingleIsRead(n: Names, read: Kv, t: Tensor, ts: seq<Tensor>, offset: nat)
    requires IsSingle(t, ts) && AlignmentOf(n, read) == 1 && n.alignment != n.parameterCount
    ensures var d := Assemble(n, read, ts, offset);
      d != None && d.value.tensorOffset == offset && d.value.starts == [offset]
  {
    SingleWalk(t, ts, offset, 1);
    assert AlignmentOf(n, Patched(n, read, ts)) == 1;
  }

  /**
   The writer aligns the data with 32, and the reader with 1: the reader takes the place of the data
   to be behind the header at once, where the writer has put padding.
   */
  lemma WrongPlacesFor(n: Names, kv: Kv, keys: seq<Bytes>, v: Value, t: Tensor, ts: seq<Tensor>, block: Bytes -> int, data: Bytes)
    requires IsTyped(n, kv, keys, v) && IsSingle(t, ts)
    ensures Storable(n, kv, keys, ts, block)
    ensures var w := Write(n, kv, keys, ts, block);
      && w.tensors == ts && w.base == 96 && Decode(n, w.header + data) != None
      && Decode(n, w.header + data).value.tensorOffset == 89 && Decode(n, w.header + data).value.starts == [89]
  {
    TypedIsWritten(n, kv, keys, v, t, ts, block);
    TypedIsRead(n, kv, keys, v, t, ts, data);
  }

  lemma TypedIsWritten(n: Names, kv: Kv, keys: seq<Bytes>, v: Value, t: Tensor, ts: seq<Tensor>, block: Bytes -> int)
    requires IsTyped(n, kv, keys, v) && IsSingle(t, ts)
    ensures Storable(n, kv, keys, ts, block) && Write(n, kv, keys, ts, block) == Written(Header(kv, keys, ts), ts, 96)
  {
    var align := AlignmentOf(n, kv);
    TypedIsStorable(n, kv, keys, v);
    SingleIsStorable(t, ts, block, align);
    TypedFileLength(n, kv, keys, v, t, ts);
    InOrderIsWritten(n, kv, keys, ts, block, align);
    PadTo96(align);
  }

  lemma PadTo96(align: nat)
    requires align == 32
    ensures 89 + Pad(89, align) == 96
  {
  }

  /** Tensors that are in order and in place are written as they are. */
  lemma InOrderIsWritten(n: Names, kv: Kv, keys: seq<Bytes>, ts: seq<Tensor>, block: Bytes -> int, align: nat)
    requires (forall k | k in keys :: k in kv) && AlignmentOf(n, kv) == align > 0
    requires SortStable(ts, block) == ts && Place(ts, 0, align) == ts
    ensures var header := Header(kv, keys, ts);
      Write(n, kv, keys, ts, block) == Written(header, ts, |header| + Pad(|header|, align))
  {
  }

  lemma TypedIsRead(n: Names, kv: Kv, keys: seq<Bytes>, v: Value, t: Tensor, ts: seq<Tensor>, data: Bytes)
    requires IsTyped(n, kv, keys, v) && IsSingle(t, ts) && keys[0] in kv
    ensures var d := Decode(n, Header(kv, keys, ts) + data);
      d != None && d.value.tensorOffset == 89 && d.value.starts == [89]
  {
    SingleIsWritable(t, ts);
    TypedIsStorable(n, kv, keys, v);
    TypedFileLength(n, kv, keys, v, t, ts);
    var read := ReadBack(n, kv, keys);
    DecodesHeader(n, kv, keys, ts, data, read);
    SingleIsRead(n, read, t, ts, 89);
  }

  lemma TypedFileLength(n: Names, kv: Kv, keys: seq<Bytes>, v: Value, t: Tensor, ts: seq<Tensor>)
    requires IsTyped(n, kv, keys, v) && IsSingle(t, ts)
    ensures keys[0] in kv && |Header(kv, keys, ts)| == 89
  {
    TypedLength(n, kv, keys, v);
    SingleLength(t, ts);
    HeaderLength(kv, keys, ts);
  }

  lemma TypedIsStorable(n: Names, kv: Kv, keys: seq<Bytes>, v: Value)
    requires IsTyped(n, kv, keys, v)
    ensures WritableKv(kv) && Fits(|keys|) && AlignmentOf(n, kv) == 32 && ReaderAlignment(n, kv) == 1
    ensures forall k :: k in keys <==> k in kv
  {
    Powers();
    assert keys[0] in keys;
  }

  /** With the keys of the format. */
  lemma WrongPlaces(block: Bytes -> int, data: Bytes)
    ensures var kv: Kv, keys, ts := map[GGUF_NAMES.alignment := FileType(1)], [GGUF_NAMES.alignment], [Tensor([], 0, 0, [1])];
      && Storable(GGUF_NAMES, kv, keys, ts, block)
      && var w := Write(GGUF_NAMES, kv, keys, ts, block);
         && w.tensors == ts && w.base == 96 && Decode(GGUF_NAMES, w.header + data) != None
         && Decode(GGUF_NAMES, w.header + data).value.tensorOffset == 89 && Decode(GGUF_NAMES, w.header + data).value.starts == [89]
  {
    AsciiLength("general.alignment");
    assert |"general.alignment"| == 17;
    NamesDiffer();
    var n, v, t := GGUF_NAMES, FileType(1), Tensor([], 0, 0, [1]);
    WrongPlacesFor(n, map[n.alignment := v], [n.alignment], v, t, [t], block, data);
  }
}
