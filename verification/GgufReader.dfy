/**
 The reader of GGUF files: it goes through a file once, behind a buffer, and ends with a walk over
 the tensors.
 */
module GgufReader {
  import opened Options
  import opened Gguf
  import opened GgufFile
  import Seeker

  /** Reading a list in one go is reading its first part, and then what is left. */
  ghost predicate Continues<T>(whole: Read<seq<T>>, done: seq<T>, left: Read<seq<T>>) {
    if left.Failed? then whole.Failed? else whole == Got(done + left.value, left.rest)
  }

  lemma NothingDone<T>(whole: Read<seq<T>>)
    ensures Continues(whole, [], whole)
  {
    if whole.Got? {
      assert [] + whole.value == whole.value;
    }
  }

  lemma AllDone<T>(whole: Read<seq<T>>, done: seq<T>, rest: Bytes)
    requires Continues(whole, done, Got([], rest))
    ensures whole == Got(done, rest)
  {
    assert done + [] == done;
  }

  /** What has been read of a list, or that it cannot be read. */
  lemma ContinuesOn<T>(whole: Read<seq<T>>, done: seq<T>, left: Read<seq<T>>, x: T, next: Read<seq<T>>)
    requires Continues(whole, done, left)
    requires if next.Failed? then left.Failed? else left == Got([x] + next.value, next.rest)
    ensures Continues(whole, done + [x], next)
  {
    if next.Got? {
      assert done + [x] + next.value == done + ([x] + next.value);
    }
  }

  lemma {:induction false} ParametersOfMore(ts: seq<Tensor>, t: Tensor, from: nat)
    ensures Parameters(ts + [t], from) == (Parameters(ts, from) + Elements(t.shape)) % TWO64
    decreases |ts|
  {
    if ts == [] {
      assert [] + [t] == [t];
    } else {
      assert (ts + [t])[1..] == ts[1..] + [t];
      ParametersOfMore(ts[1..], t, (from + Elements(ts[0].shape)) % TWO64);
    }
  }

  lemma Slices(file: Bytes, p: nat, n: nat)
    requires p + n <= |file|
    ensures file[p..][..n] == file[p..p + n] && file[p..][n..] == file[p + n..]
  {
  }

  lemma {:induction false} RepeatOnceMore<S>(step: (S, Bytes) -> Read<S>, s: S, b: Bytes, i: nat, n: nat, last: S, rest: Bytes)
    requires Repeat(step, s, b, i) == Got(last, rest) && i < n
    ensures Repeat(step, s, b, i + 1) == step(last, rest)
    ensures step(last, rest).Failed? ==> Repeat(step, s, b, n) == Failed
    decreases i
  {
    if i > 0 {
      var r := step(s, b);
      RepeatOnceMore(step, r.value, r.rest, i - 1, n - 1, last, rest);
    }
  }

  lemma Assembles(n: Names, kv: Kv, ts: seq<Tensor>, offset: nat, patched: Kv, alignment: nat, d: Decoded)
    requires patched == Patched(n, kv, ts) && alignment == AlignmentOf(n, patched) && alignment > 0
    requires d == Decoded(patched, ts, offset + Pad(offset, alignment), WalkStarts(offset, ts, alignment), WalkEnd(offset, ts, alignment))
    ensures Assemble(n, kv, ts, offset) == Some(d)
  {
  }

  class Reader {
    const rs: Seeker.BufferedSeeker<Byte>
    /** How much the file gives at once at a position. */
    const gots: nat -> nat

    constructor (file: Bytes, bufferSize: nat, gots: nat -> nat)
      requires bufferSize > 0
      ensures Valid() && fresh(rs) && rs.file == file && Rest() == file && rs.Position() == 0
    {
      rs := new Seeker.BufferedSeeker(file, bufferSize);
      this.gots := gots;
      new;
      assert file[0..] == file;
    }

    ghost predicate Valid()
      reads rs
    {
      rs.Valid() && rs.Position() <= |rs.file| && rs.bufferSize > 0
    }

    /** What has not been read. */
    ghost function Rest(): Bytes
      reads rs
      requires Valid()
    {
      rs.file[rs.Position()..]
    }

    method ReadBytes(n: nat) returns (r: Option<Bytes>)
      requires Valid()
      modifies rs
      ensures Valid()
      ensures if n <= |old(Rest())| then r == Some(old(Rest())[..n]) && Rest() == old(Rest())[n..] else r == None
    {
      if rs.Position() + n <= |rs.file| {
        Slices(rs.file, rs.Position(), n);
      }
      r := rs.ReadFull(n, gots);
    }

    method ReadNumber(w: nat) returns (r: Option<nat>)
      requires Valid()
      modifies rs
      ensures Valid()
      ensures match ReadUint(old(Rest()), w) case Failed => r == None case Got(n, rest) => r == Some(n) && Rest() == rest
    {
      var b := ReadBytes(w);
      r := if b.Some? then Some(UnLE(b.value)) else None;
    }

    /** `readGGUFString` */
    method ReadText() returns (r: Option<Bytes>)
      requires Valid()
      modifies rs
      ensures Valid()
      ensures match ReadString(old(Rest())) case Failed => r == None case Got(s, rest) => r == Some(s) && Rest() == rest
    {
      var length := ReadNumber(8);
      if length == None {
        return None;
      }
      r := ReadBytes(length.value);
    }

    /** `readGGUFArrayData` */
    method ReadElements(tag: nat, n: nat) returns (r: Option<seq<nat>>)
      requires Valid()
      modifies rs
      ensures Valid()
      ensures match ReadNumbers(old(Rest()), tag, n) case Failed => r == None case Got(elems, rest) => r == Some(elems) && Rest() == rest
    {
      var elems, i := [], 0;
      ghost var whole := ReadNumbers(Rest(), tag, n);
      NothingDone(whole);
      while i < n
        invariant Valid() && i <= n && Continues(whole, elems, ReadNumbers(Rest(), tag, n - i))
      {
        var e := ReadOneElement(tag, whole, elems, n - i);
        if e == None {
          return None;
        }
        elems, i := elems + [e.value], i + 1;
      }
      AllDone(whole, elems, Rest());
      r := Some(elems);
    }

    method ReadOneElement(tag: nat, ghost whole: Read<seq<nat>>, ghost elems: seq<nat>, ghost left: nat) returns (e: Option<nat>)
      requires Valid() && left > 0 && Continues(whole, elems, ReadNumbers(Rest(), tag, left))
      modifies rs
      ensures Valid()
      ensures match e case None => whole == Failed
                      case Some(x) => Continues(whole, elems + [x], ReadNumbers(Rest(), tag, left - 1))
    {
      var bits := ReadNumber(Width(tag));
      if bits == None {
        return None;
      }
      e := Some(FromBits(tag, bits.value));
      ContinuesOn(whole, elems, ReadNumbers(old(Rest()), tag, left), e.value, ReadNumbers(Rest(), tag, left - 1));
    }

    /** `readGGUFStringsData` */
    method ReadTexts(n: nat) returns (r: Option<seq<Bytes>>)
      requires Valid()
      modifies rs
      ensures Valid()
      ensures match ReadStrings(old(Rest()), n) case Failed => r == None case Got(strs, rest) => r == Some(strs) && Rest() == rest
    {
      var strs, i := [], 0;
      ghost var whole := ReadStrings(Rest(), n);
      NothingDone(whole);
      while i < n
        invariant Valid() && i <= n && Continues(whole, strs, ReadStrings(Rest(), n - i))
      {
        var s := ReadOneText(whole, strs, n - i);
        if s == None {
          return None;
        }
        strs, i := strs + [s.value], i + 1;
      }
      AllDone(whole, strs, Rest());
      r := Some(strs);
    }

    method ReadOneText(ghost whole: Read<seq<Bytes>>, ghost strs: seq<Bytes>, ghost left: nat) returns (s: Option<Bytes>)
      requires Valid() && left > 0 && Continues(whole, strs, ReadStrings(Rest(), left))
      modifies rs
      ensures Valid()
      ensures match s case None => whole == Failed
                      case Some(x) => Continues(whole, strs + [x], ReadStrings(Rest(), left - 1))
    {
      s := ReadText();
      if s.Some? {
        ContinuesOn(whole, strs, ReadStrings(old(Rest()), left), s.value, ReadStrings(Rest(), left - 1));
      }
    }

    /** `readGGUFArray`, where all values are kept. */
    method ReadList() returns (r: Option<Value>)
      requires Valid()
      modifies rs
      ensures Valid()
      ensures match ReadArray(old(Rest())) case Failed => r == None case Got(v, rest) => r == Some(v) && Rest() == rest
    {
      var tag := ReadNumber(4);
      if tag == None {
        return None;
      }
      var n := ReadNumber(8);
      if n == None {
        return None;
      }
      if Width(tag.value) > 0 {
        var elems := ReadElements(tag.value, n.value);
        r := if elems.Some? then Some(Array(tag.value, elems.value)) else None;
      } else if tag.value == STRING {
        var strs := ReadTexts(n.value);
        r := if strs.Some? then Some(StrArray(strs.value)) else None;
      } else {
        r := None;
      }
    }

    method ReadAny() returns (r: Option<Value>)
      requires Valid()
      modifies rs
      ensures Valid()
      ensures match ReadValue(old(Rest())) case Failed => r == None case Got(v, rest) => r == Some(v) && Rest() == rest
    {
      var tag := ReadNumber(4);
      if tag == None {
        return None;
      }
      if Width(tag.value) > 0 {
        var bits := ReadNumber(Width(tag.value));
        r := if bits.Some? then Some(Number(tag.value, FromBits(tag.value, bits.value))) else None;
      } else if tag.value == STRING {
        var s := ReadText();
        r := if s.Some? then Some(Str(s.value)) else None;
      } else if tag.value == ARRAY {
        r := ReadList();
      } else {
        r := None;
      }
    }

    method ReadKeyValue() returns (r: Option<Entry>)
      requires Valid()
      modifies rs
      ensures Valid()
      ensures match ReadEntry(old(Rest())) case Failed => r == None case Got(e, rest) => r == Some(e) && Rest() == rest
    {
      var k := ReadText();
      if k == None {
        return None;
      }
      var v := ReadAny();
      r := if v.Some? then Some(Entry(k.value, v.value)) else None;
    }

    method ReadKeyValues(n: nat) returns (r: Option<Kv>)
      requires Valid()
      modifies rs
      ensures Valid()
      ensures match ReadEntries(old(Rest()), n, map[]) case Failed => r == None case Got(kv, rest) => r == Some(kv) && Rest() == rest
    {
      var kv: Kv, i := map[], 0;
      ghost var b := Rest();
      while i < n
        invariant Valid() && i <= n && Repeat(AddEntry, map[], b, i) == Got(kv, Rest())
      {
        RepeatOnceMore(AddEntry, map[], b, i, n, kv, Rest());
        var e := ReadKeyValue();
        if e == None {
          return None;
        }
        kv, i := kv[e.value.key := e.value.value], i + 1;
      }
      r := Some(kv);
    }

    method ReadTensor() returns (r: Option<Tensor>)
      requires Valid()
      modifies rs
      ensures Valid()
      ensures match ReadInfo(old(Rest())) case Failed => r == None case Got(t, rest) => r == Some(t) && Rest() == rest
    {
      var name := ReadText();
      if name == None {
        return None;
      }
      var dims := ReadNumber(4);
      if dims == None {
        return None;
      }
      var shape := ReadElements(UINT64, dims.value);
      if shape == None {
        return None;
      }
      var kind := ReadNumber(4);
      if kind == None {
        return None;
      }
      var offset := ReadNumber(8);
      r := if offset.Some? then Some(Tensor(name.value, kind.value, offset.value, shape.value)) else None;
    }

    /** The tensors, and how many parameters they have. */
    method ReadTensors(n: nat) returns (r: Option<seq<Tensor>>, parameters: nat)
      requires Valid()
      modifies rs
      ensures Valid()
      ensures match ReadInfos(old(Rest()), n) case Failed => r == None case Got(ts, rest) => r == Some(ts) && Rest() == rest
      ensures r.Some? ==> parameters == Parameters(r.value, 0)
    {
      var ts, i := [], 0;
      parameters := 0;
      ghost var b := Rest();
      while i < n
        invariant Valid() && i <= n && Repeat(AddInfo, [], b, i) == Got(ts, Rest()) && parameters == Parameters(ts, 0)
      {
        RepeatOnceMore(AddInfo, [], b, i, n, ts, Rest());
        var t := ReadTensor();
        if t == None {
          r := None;
          return;
        }
        ts, parameters := AddTensor(ts, parameters, t.value);
        i := i + 1;
      }
      r := Some(ts);
    }

    static method AddTensor(ts: seq<Tensor>, parameters: nat, t: Tensor) returns (all: seq<Tensor>, sum: nat)
      requires parameters == Parameters(ts, 0)
      ensures all == ts + [t] && sum == Parameters(all, 0)
    {
      ParametersOfMore(ts, t, 0);
      var count := CountElements(t.shape);
      all, sum := ts + [t], (parameters + count) % TWO64;
    }

    /** Moves from each tensor to the next, by their sizes alone. */
    method Walk(ts: seq<Tensor>, alignment: nat) returns (starts: seq<nat>)
      requires rs.Valid() && alignment > 0
      modifies rs
      ensures rs.Valid() && rs.Position() == WalkEnd(old(rs.Position()), ts, alignment)
      ensures starts == WalkStarts(old(rs.Position()), ts, alignment)
    {
      starts := [];
      var i := 0;
      ghost var pos: nat := rs.Position();
      ghost var all, end := WalkStarts(pos, ts, alignment), WalkEnd(pos, ts, alignment);
      assert ts[0..] == ts;
      while i < |ts|
        invariant rs.Valid() && pos == rs.Position() && OnTheWay(ts, i, pos, alignment, starts, all, end)
      {
        var start := Skip(ts[i], alignment);
        NextStart(ts, i, pos, alignment, start, starts, all, end);
        pos := rs.Position();
        starts := starts + [start];
        i := i + 1;
      }
    }

    /** From pos, in front of tensor i, the other starts and the end are still to come. */
    static ghost predicate OnTheWay(ts: seq<Tensor>, i: nat, pos: nat, alignment: nat, starts: seq<nat>, all: seq<nat>, end: nat)
      requires alignment > 0
    {
      i <= |ts| && starts + WalkStarts(pos, ts[i..], alignment) == all && WalkEnd(pos, ts[i..], alignment) == end
    }

    static lemma NextStart(ts: seq<Tensor>, i: nat, pos: nat, alignment: nat, start: nat, starts: seq<nat>, all: seq<nat>, end: nat)
      requires alignment > 0 && i < |ts| && start == pos + Pad(pos, alignment) && OnTheWay(ts, i, pos, alignment, starts, all, end)
      ensures OnTheWay(ts, i + 1, start + Size(ts[i]), alignment, starts + [start], all, end)
    {
      assert ts[i..][1..] == ts[i + 1..];
      MoveOver(starts, WalkStarts(pos, ts[i..], alignment), all);
    }

    /** Moves in front of the next tensor, and behind it. */
    method Skip(t: Tensor, alignment: nat) returns (start: nat)
      requires rs.Valid() && alignment > 0
      modifies rs
      ensures rs.Valid() && start == old(rs.Position()) + Pad(old(rs.Position()), alignment) && rs.Position() == start + Size(t)
    {
      var offset := rs.Seek(0, Seeker.Current);
      var at := rs.Seek(Pad(offset.value, alignment), Seeker.Current);
      start := at.value;
      var _ := rs.Seek(Size(t), Seeker.Current);
    }

    /** The part of a file behind its counts. */
    method ReadModel(n: Names, nTensors: nat, nKv: nat) returns (d: Option<Decoded>)
      requires Valid()
      modifies rs
      ensures rs.Valid() && d == DecodeModel(n, rs.file, old(Rest()), nTensors, nKv)
    {
      var kv := ReadKeyValues(nKv);
      if kv == None {
        return None;
      }
      d := ReadBehindKeyValues(n, kv.value, nTensors);
    }

    /** The part of a file behind its key-values. */
    method ReadBehindKeyValues(n: Names, kv: Kv, nTensors: nat) returns (d: Option<Decoded>)
      requires Valid()
      modifies rs
      ensures rs.Valid() && d == DecodeTensors(n, rs.file, kv, old(Rest()), nTensors)
    {
      var ts, parameters := ReadTensors(nTensors);
      if ts == None {
        return None;
      }
      d := Finish(n, kv, ts.value, parameters);
    }

    method Finish(n: Names, kv: Kv, ts: seq<Tensor>, parameters: nat) returns (d: Option<Decoded>)
      requires rs.Valid() && parameters == Parameters(ts, 0)
      modifies rs
      ensures rs.Valid() && d == Assemble(n, kv, ts, old(rs.Position()))
    {
      var patched := kv[n.parameterCount := Number(UINT64, parameters)];
      var alignment := AlignmentOf(n, patched);
      if alignment == 0 {
        return None;
      }
      var offset := rs.Seek(0, Seeker.Current);
      var starts := Walk(ts, alignment);
      var length := rs.Seek(0, Seeker.Current);
      d := Some(Decoded(patched, ts, offset.value + Pad(offset.value, alignment), starts, length.value));
      Assembles(n, kv, ts, offset.value, patched, alignment, d.value);
    }

    /** `Decode` */
    method DecodeFile(n: Names) returns (d: Option<Decoded>)
      requires Valid() && rs.Position() == 0
      modifies rs
      ensures d == Decode(n, rs.file)
    {
      assert rs.file[0..] == rs.file;
      var magic := ReadNumber(4);
      if magic == None || magic.value != MAGIC {
        return None;
      }
      var version := ReadNumber(4);
      if version == None || version.value == 1 {
        return None;
      }
      var nTensors := ReadNumber(8);
      if nTensors == None {
        return None;
      }
      var nKv := ReadNumber(8);
      if nKv == None {
        return None;
      }
      d := ReadModel(n, nTensors.value, nKv.value);
    }
  }
}
