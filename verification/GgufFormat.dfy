/**
 The bytes of the GGUF format: what is in which place of a file, down to a whole small file. Writer and
 reader agree on these by construction; other programs have to find them there too.
 */
module GgufFormat {
  import opened Gguf
  import opened GgufFile

  /** Byte i of a number counts 256 to the power of i. */
  lemma {:induction false} ByteOf(n: nat, w: nat, i: nat)
    requires i < w
    ensures Power(i) > 0 && LE(n, w)[i] == n / Power(i) % 256
    decreases i
  {
    PowerIsPositive(i);
    if i > 0 {
      PowerIsPositive(i - 1);
      ByteOf(n / 256, w - 1, i - 1);
      DivTwice(n, 256, Power(i - 1));
    }
  }

  lemma {:induction false} PowerIsPositive(i: nat)
    ensures Power(i) > 0
  {
    if i > 0 {
      PowerIsPositive(i - 1);
    }
  }

  lemma DivTwice(n: nat, a: nat, b: nat)
    requires a > 0 && b > 0
    ensures a * b > 0 && n / a / b == n / (a * b)
  {
    var q, r := n / a, n % a;
    var s, t := q / b, q % b;
    assert n == (a * b) * s + (a * t + r) by {
      assert a * (b * s + t) == (a * b) * s + a * t;
    }
    assert a * t <= a * (b - 1) && a * (b - 1) == a * b - a;
    Quotient(n, a * b, s, a * t + r);
  }

  lemma Quotient(n: nat, m: nat, q: nat, r: nat)
    requires m > 0 && n == m * q + r && r < m
    ensures n / m == q
  {
    ModUnique(n, m, q, r);
    var d := n / m - q;
    assert m * d == 0 by {
      assert m * d == m * (n / m) - m * q;
    }
    LargeMultiple(m, d);
  }

  /** The numbers of the types of values, and how many bytes those of numbers take. */
  lemma TypeNumbers()
    ensures UINT32 == 4 && INT32 == 5 && FLOAT32 == 6 && BOOL == 7 && STRING == 8 && ARRAY == 9 && UINT64 == 10
    ensures Width(0) == Width(1) == Width(7) == 1 && Width(2) == Width(3) == 2
    ensures Width(4) == Width(5) == Width(6) == 4 && Width(10) == Width(11) == Width(12) == 8
    ensures forall tag: nat | tag == 8 || tag == 9 || tag > 12 :: Width(tag) == 0
  {
  }

  /** A type of tensors: how many elements a block of it has, and how many bytes. */
  predicate IsType(kind: nat, block: nat, size: nat) {
    BlockSize(kind) == block && TypeSize(kind) == size
  }

  lemma TensorTypes()
    ensures IsType(0, 1, 4) && IsType(1, 1, 2) && IsType(30, 1, 2)
    ensures IsType(2, 32, 18) && IsType(3, 32, 20) && IsType(6, 32, 22) && IsType(7, 32, 24) && IsType(8, 32, 34) && IsType(9, 32, 36)
    ensures IsType(10, 256, 84) && IsType(11, 256, 110) && IsType(12, 256, 144) && IsType(13, 256, 176)
    ensures IsType(14, 256, 210) && IsType(15, 256, 292)
    ensures IsType(16, 256, 66) && IsType(17, 256, 74) && IsType(18, 256, 98) && IsType(19, 256, 50) && IsType(20, 32, 18)
    ensures IsType(21, 256, 110) && IsType(22, 256, 82) && IsType(23, 256, 136) && IsType(29, 256, 56)
    ensures IsType(24, 1, 1) && IsType(25, 1, 2) && IsType(26, 1, 4) && IsType(27, 1, 8) && IsType(28, 1, 8)
    ensures IsType(4, 32, 17) && IsType(39, 32, 17)
    ensures forall kind: nat | kind == 5 || 31 <= kind < 39 || kind > 39 :: IsType(kind, 256, 0)
  {
  }

  /** A small number in four and in eight bytes. */
  function Four(n: Byte): Bytes { [n, 0, 0, 0] }
  function Eight(n: Byte): Bytes { [n, 0, 0, 0, 0, 0, 0, 0] }

  lemma {:induction false} Zeros(w: nat)
    ensures LE(0, w) == seq(w, _ => 0)
  {
    if w > 0 {
      Zeros(w - 1);
    }
  }

  lemma Short(n: Byte, w: nat)
    requires w > 0
    ensures LE(n, w) == [n] + seq(w - 1, _ => 0)
  {
    Zeros(w - 1);
  }

  lemma ShortFour(n: Byte)
    ensures LE(n, 4) == Four(n)
  {
    Short(n, 4);
  }

  lemma ShortEight(n: Byte)
    ensures LE(n, 8) == Eight(n)
  {
    Short(n, 8);
  }

  /** A file begins with the letters "GGUF" and version 3. */
  lemma Magic()
    ensures LE(MAGIC, 4) == [71, 71, 85, 70] && ['G' as int, 'G' as int, 'U' as int, 'F' as int] == [71, 71, 85, 70]
  {
    var m := MAGIC;
    assert m == 71 + 256 * (71 + 256 * (85 + 256 * 70));
    assert LE(m, 4) == [m % 256] + LE(m / 256, 3) && LE(m / 256, 3) == [m / 256 % 256] + LE(m / 256 / 256, 2);
    assert LE(m / 256 / 256, 2) == [m / 256 / 256 % 256] + LE(m / 256 / 256 / 256, 1);
    assert LE(70, 1) == [70] + LE(0, 0) && LE(0, 0) == [];
  }

  lemma SmallString(c: Byte, s: Bytes)
    requires s == [c]
    ensures EncodeString(s) == Eight(1) + [c]
  {
    ShortEight(1);
  }

  /** A key-value: the key with its length, the type, and the number. */
  lemma SmallEntry(key: Byte, v: Byte, k: Bytes, tag: Byte)
    requires k == [key] && tag == UINT32
    ensures EncodeEntry(k, Number(tag, v)) == (Eight(1) + [key]) + (Four(4) + Four(v))
  {
    SmallString(key, k);
    ShortFour(4);
    ShortFour(v);
  }

  /** A list: its type, the type of its elements, how many there are, and the elements. */
  lemma SmallList(tag: nat, n: Byte, elems: seq<nat>)
    requires tag == INT32 && elems == [n]
    ensures EncodeValue(Slice(tag, elems)) == Four(9) + (Four(5) + (Eight(1) + Four(n)))
  {
    ShortFour(9);
    ShortFour(5);
    ShortEight(1);
    ShortFour(n);
    assert elems[1..] == [];
    assert EncodeNumbers(elems, 4) == LE(n, 4) + [];
  }

  lemma SmallStrings(c: Byte, s: Bytes, strs: seq<Bytes>)
    requires s == [c] && strs == [s]
    ensures EncodeValue(StrSlice(strs)) == Four(9) + (Four(8) + (Eight(1) + (Eight(1) + [c])))
    ensures EncodeValue(Str(s)) == Four(8) + (Eight(1) + [c])
  {
    ShortFour(9);
    ShortFour(8);
    ShortEight(1);
    SmallString(c, s);
    assert strs[1..] == [];
    assert EncodeStrings(strs) == EncodeString(s) + [];
  }

  /** A tensor: its name, the number of its dimensions, the dimensions, its type, and where its data are. */
  lemma SmallInfo(t: Tensor, name: Byte, kind: Byte, offset: Byte, n: Byte)
    requires t.name == [name] && t.kind == kind && t.offset == offset && t.shape == [n]
    ensures EncodeInfo(t) == (Eight(1) + [name]) + (Four(1) + (Eight(n) + (Four(kind) + Eight(offset))))
  {
    SmallString(name, t.name);
    ShortFour(1);
    ShortEight(n);
    ShortFour(kind);
    ShortEight(offset);
    assert t.shape[1..] == [];
    assert EncodeNumbers(t.shape, 8) == LE(n, 8) + [];
  }

  lemma OneEntry(kv: Kv, keys: seq<Bytes>)
    requires |keys| == 1 && keys[0] in kv
    ensures EncodeEntries(kv, keys) == EncodeEntry(keys[0], kv[keys[0]])
  {
    assert keys[1..] == [];
    Nothing(EncodeEntry(keys[0], kv[keys[0]]));
  }

  lemma OneInfo(ts: seq<Tensor>, t: Tensor)
    requires ts == [t]
    ensures EncodeInfos(ts) == EncodeInfo(t)
  {
    assert ts[1..] == [];
    Nothing(EncodeInfo(t));
  }

  lemma Nothing(b: Bytes)
    ensures b + [] == b
  {
  }

  /** A header: "GGUF", the version, how many tensors and how many key-values there are, these, and those. */
  lemma SmallHeader(kv: Kv, keys: seq<Bytes>, ts: seq<Tensor>, t: Tensor, magic: Bytes, entry: Bytes)
    requires |keys| == 1 && keys[0] in kv && ts == [t] && magic == [71, 71, 85, 70] && entry == EncodeEntry(keys[0], kv[keys[0]])
    ensures Header(kv, keys, ts) == magic + (Four(3) + (Eight(1) + (Eight(1) + (entry + EncodeInfo(t)))))
  {
    Magic();
    ShortFour(3);
    ShortEight(1);
    OneEntry(kv, keys);
    OneInfo(ts, t);
    HeaderIs(kv, keys, ts, magic, Four(3), Eight(1), Eight(1), entry, EncodeInfo(t));
  }

  lemma HeaderIs(kv: Kv, keys: seq<Bytes>, ts: seq<Tensor>, m: Bytes, v: Bytes, a: Bytes, b: Bytes, entries: Bytes, infos: Bytes)
    requires forall k | k in keys :: k in kv
    requires m == LE(MAGIC, 4) && v == LE(3, 4) && a == LE(|ts|, 8) && b == LE(|keys|, 8)
    requires entries == EncodeEntries(kv, keys) && infos == EncodeInfos(ts)
    ensures Header(kv, keys, ts) == m + (v + (a + (b + (entries + infos))))
  {
  }
}
