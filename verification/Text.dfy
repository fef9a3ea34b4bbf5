/**
 The string operations that the streaming parsers share. The parsers look for a tag with
 `strings.Contains`, `strings.SplitN` and the helper `overlap`; `Scan` says in one sweep what
 these find, and how what they find in a text depends on what they find in its beginning.
 */
module Text {

  // ----- searching -----

  /** The sequence w occurs in s at index i. */
  predicate OccursAt<T(==)>(s: seq<T>, w: seq<T>, i: int) {
    0 <= i && i + |w| <= |s| && s[i..i + |w|] == w
  }

  /** `strings.Index`: the first occurrence of w in s, or -1. */
  function Index<T(==)>(s: seq<T>, w: seq<T>): (r: int)
    ensures r == -1 || 0 <= r <= |s| - |w|
  {
    if w <= s then 0
    else if s == [] then -1
    else
      var r := Index(s[1..], w);
      if r == -1 then -1 else r + 1
  }

  predicate Contains<T(==)>(s: seq<T>, w: seq<T>) {
    Index(s, w) != -1
  }

  predicate EndsWith<T(==)>(s: seq<T>, w: seq<T>) {
    |w| <= |s| && s[|s| - |w|..] == w
  }

  function Min(a: int, b: int): int { if a <= b then a else b }
  function Max(a: int, b: int): int { if a <= b then b else a }

  /** The largest overlap of at most i elements between a suffix of s and a prefix of delim. */
  function OverlapUpTo<T(==)>(s: seq<T>, delim: seq<T>, i: nat): (k: nat)
    requires i <= |delim|
    ensures k <= i
  {
    if i == 0 || EndsWith(s, delim[..i]) then i else OverlapUpTo(s, delim, i - 1)
  }

  /** The longest overlap between a suffix of s and a prefix of delim. */
  function Overlap<T(==)>(s: seq<T>, delim: seq<T>): (k: nat)
    ensures k <= |s| && k <= |delim|
  {
    OverlapUpTo(s, delim, Min(|delim|, |s|))
  }

  /** `overlap` of the Go parsers: try every length from the longest down. */
  method ComputeOverlap<T(==)>(s: seq<T>, delim: seq<T>) returns (k: nat)
    ensures k == Overlap(s, delim)
    ensures k <= |delim| && EndsWith(s, delim[..k])
    ensures forall j :: k < j <= |delim| ==> !EndsWith(s, delim[..j])
  {
    var i := Min(|delim|, |s|);
    while i > 0
      invariant 0 <= i <= |delim| && i <= |s|
      invariant Overlap(s, delim) == OverlapUpTo(s, delim, i)
      invariant forall j :: i < j <= |delim| ==> !EndsWith(s, delim[..j])
    {
      if EndsWith(s, delim[..i]) {
        return i;
      }
      i := i - 1;
    }
    return 0;
  }

  // ----- scanning -----

  /**
   What looking for a tag in a text yields: the text before and after the first occurrence;
   or, without an occurrence, the part that can be given away and the part that must be held
   because it may be the beginning of the tag.
   */
  datatype Scanned<T> = Found(before: seq<T>, after: seq<T>) | Open(given: seq<T>, held: seq<T>) {
    function Behind(prefix: seq<T>): Scanned<T> {
      match this
      case Found(before, after) => Found(prefix + before, after)
      case Open(given, held) => Open(prefix + given, held)
    }
  }

  function Scan<T(==)>(s: seq<T>, tag: seq<T>): Scanned<T> {
    if tag <= s then Found([], s[|tag|..])
    else if s <= tag then Open([], s)
    else Scan(s[1..], tag).Behind([s[0]])
  }

  lemma BehindTwice<T>(r: Scanned<T>, a: seq<T>, b: seq<T>)
    ensures r.Behind(b).Behind(a) == r.Behind(a + b)
  {
    match r
    case Found(before, _) => assert a + (b + before) == a + b + before;
    case Open(given, _) => assert a + (b + given) == a + b + given;
  }

  /**
   The buffering lemma. A tag that is found in the beginning of a text is the one found in
   the text; otherwise all that matters of the beginning is what is held of it.
   */
  lemma {:induction false} ScanExtension<T>(x: seq<T>, y: seq<T>, tag: seq<T>)
    ensures Scan(x + y, tag) ==
            match Scan(x, tag)
            case Found(before, after) => Found(before, after + y)
            case Open(given, held) => Scan(held + y, tag).Behind(given)
  {
    if tag <= x {
      assert (x + y)[|tag|..] == x[|tag|..] + y;
    } else if x <= tag {
      var r := Scan(x + y, tag);
      assert r.Behind([]) == r;
    } else {
      ScanExtension(x[1..], y, tag);
      Diverge(x, y, tag);
      assert (x + y)[1..] == x[1..] + y;
      match Scan(x[1..], tag)
      case Found(_, _) =>
      case Open(given, held) => BehindTwice(Scan(held + y, tag), [x[0]], given);
    }
  }

  lemma Diverge<T>(x: seq<T>, y: seq<T>, tag: seq<T>)
    requires !(tag <= x) && !(x <= tag)
    ensures !(tag <= x + y) && !(x + y <= tag)
  {
    var i :| 0 <= i < |x| && i < |tag| && x[i] != tag[i];
    assert (x + y)[i] == x[i];
  }

  /** A text up to and including a tag ends at the tag. */
  lemma ScanTagged<T>(part: seq<T>, tag: seq<T>, rest: seq<T>)
    requires Scan(part + tag, tag) == Found(part, [])
    ensures Scan(part + tag + rest, tag) == Found(part, rest)
  {
    ScanExtension(part + tag, rest, tag);
    assert [] + rest == rest;
  }

  /** What Scan finds, in terms of the text. */
  lemma {:induction false} ScanRestores<T>(s: seq<T>, tag: seq<T>)
    ensures match Scan(s, tag)
            case Found(before, after) => s == before + tag + after
            case Open(given, held) => s == given + held && held <= tag
  {
    if tag <= s {
      assert s == tag + s[|tag|..];
      AppendNothing(tag);
    } else if s <= tag {
      AppendNothing(s);
    } else {
      ScanRestores(s[1..], tag);
      var head := [s[0]];
      assert s == head + s[1..];
      match Scan(s[1..], tag)
      case Found(before, after) =>
        AppendAssociates(head, before, tag);
        AppendAssociates(head, before + tag, after);
      case Open(given, held) =>
        AppendAssociates(head, given, held);
    }
  }

  lemma ScanLengths<T>(s: seq<T>, tag: seq<T>)
    ensures match Scan(s, tag)
            case Found(before, after) => |before| + |tag| + |after| == |s|
            case Open(given, held) => |given| + |held| == |s|
  {
    ScanRestores(s, tag);
  }

  /** Scan finds what `strings.Index` finds. */
  lemma {:induction false} ScanIsIndex<T>(s: seq<T>, tag: seq<T>)
    requires tag != []
    ensures Contains(s, tag) <==> Scan(s, tag).Found?
    ensures Contains(s, tag) ==> Scan(s, tag) == Found(s[..Index(s, tag)], s[Index(s, tag) + |tag|..])
  {
    if tag <= s {
      assert s[..0] == [];
    } else if s <= tag {
      NoTagInPrefix(s, tag);
    } else {
      ScanIsIndex(s[1..], tag);
      if Contains(s, tag) {
        var i := Index(s[1..], tag);
        assert s[..i + 1] == [s[0]] + s[1..][..i];
        assert s[i + 1 + |tag|..] == s[1..][i + |tag|..];
      }
    }
  }

  lemma NoTagInPrefix<T>(s: seq<T>, tag: seq<T>)
    requires |s| < |tag|
    ensures !Contains(s, tag)
  {
  }

  lemma {:induction false} OverlapUpToIsLongest<T>(s: seq<T>, delim: seq<T>, i: nat)
    requires i <= |delim|
    ensures var k := OverlapUpTo(s, delim, i);
            (k == 0 || EndsWith(s, delim[..k])) && forall j :: k < j <= i ==> !EndsWith(s, delim[..j])
  {
    if i != 0 && !EndsWith(s, delim[..i]) {
      OverlapUpToIsLongest(s, delim, i - 1);
    }
  }

  lemma OverlapIs<T>(s: seq<T>, delim: seq<T>, k: nat)
    requires k <= |delim| && EndsWith(s, delim[..k])
    requires forall j :: k < j <= |delim| ==> !EndsWith(s, delim[..j])
    ensures Overlap(s, delim) == k
  {
    OverlapUpToIsLongest(s, delim, Min(|delim|, |s|));
  }

  lemma OverlapOfTail<T>(s: seq<T>, delim: seq<T>)
    requires s != [] && !(s <= delim)
    ensures Overlap(s, delim) == Overlap(s[1..], delim)
  {
    var t := s[1..];
    var k := Overlap(t, delim);
    OverlapUpToIsLongest(t, delim, Min(|delim|, |t|));
    EndOfTail(s, k);
    forall j | k < j <= |delim|
      ensures !EndsWith(s, delim[..j])
    {
      if j < |s| {
        EndOfTail(s, j);
        assert !EndsWith(t, delim[..j]);
      }
    }
    OverlapIs(s, delim, k);
  }

  lemma EndOfTail<T>(s: seq<T>, j: nat)
    requires j < |s|
    ensures s[|s| - j..] == s[1..][|s| - 1 - j..]
  {
  }

  /** Without an occurrence, Scan holds what `overlap` finds. */
  lemma {:induction false} ScanIsOverlap<T>(s: seq<T>, tag: seq<T>)
    requires Scan(s, tag).Open?
    ensures var k := Overlap(s, tag); Scan(s, tag) == Open(s[..|s| - k], s[|s| - k..])
  {
    if s <= tag {
      assert s[0..] == s && tag[..|s|] == s;
      OverlapIs(s, tag, |s|);
      assert s[..0] == [];
    } else {
      ScanIsOverlap(s[1..], tag);
      OverlapOfTail(s, tag);
      var k := Overlap(s, tag);
      assert s[|s| - k..] == s[1..][|s| - 1 - k..];
      assert s[..|s| - k] == [s[0]] + s[1..][..|s| - 1 - k];
    }
  }

  lemma OccursInTail<T>(s: seq<T>, w: seq<T>, j: int)
    requires s != [] && 0 < j
    ensures OccursAt(s, w, j) <==> OccursAt(s[1..], w, j - 1)
  {
    if j + |w| <= |s| {
      assert s[j..j + |w|] == s[1..][j - 1..j - 1 + |w|];
    }
  }

  /** `Index` returns an occurrence if there is one, and none is further left. */
  lemma {:induction false} IndexIsFirst<T>(s: seq<T>, w: seq<T>)
    ensures Contains(s, w) ==> OccursAt(s, w, Index(s, w))
    ensures forall j :: OccursAt(s, w, j) ==> 0 <= Index(s, w) <= j
  {
    if !(w <= s) && s != [] {
      IndexIsFirst(s[1..], w);
      forall j | OccursAt(s, w, j)
        ensures 0 <= Index(s, w) <= j
      {
        OccursInTail(s, w, j);
      }
      if Contains(s, w) {
        OccursInTail(s, w, Index(s, w));
      }
    }
  }

  // ----- splitting -----

  /** `strings.SplitN(s, sep, 2)` for an s that contains sep. */
  function SplitOnce<T(==)>(s: seq<T>, sep: seq<T>): (parts: (seq<T>, seq<T>))
    requires Contains(s, sep)
  {
    (s[..Index(s, sep)], s[Index(s, sep) + |sep|..])
  }

  /** `strings.Split` for a nonempty separator. */
  function Split<T(==)>(s: seq<T>, sep: seq<T>): (parts: seq<seq<T>>)
    requires sep != []
    ensures |parts| > 0
    decreases |s|
  {
    if Contains(s, sep) then [s[..Index(s, sep)]] + Split(s[Index(s, sep) + |sep|..], sep) else [s]
  }

  /** `strings.Join`. */
  function Join<T>(parts: seq<seq<T>>, sep: seq<T>): seq<T> {
    if parts == [] then []
    else if |parts| == 1 then parts[0]
    else parts[0] + sep + Join(parts[1..], sep)
  }

  lemma SplitOnceRestores<T>(s: seq<T>, sep: seq<T>)
    requires sep != [] && Contains(s, sep)
    ensures SplitOnce(s, sep).0 + sep + SplitOnce(s, sep).1 == s
  {
    ScanIsIndex(s, sep);
    ScanRestores(s, sep);
  }

  lemma JoinCons<T>(first: seq<T>, rest: seq<seq<T>>, sep: seq<T>)
    requires rest != []
    ensures Join([first] + rest, sep) == first + sep + Join(rest, sep)
  {
    assert ([first] + rest)[1..] == rest;
  }

  /** Joining what splitting gave restores the text. */
  lemma {:induction false} JoinSplit<T>(s: seq<T>, sep: seq<T>)
    requires sep != []
    ensures Join(Split(s, sep), sep) == s
    decreases |s|
  {
    if Contains(s, sep) {
      var i := Index(s, sep);
      var rest := s[i + |sep|..];
      JoinSplit(rest, sep);
      var parts := Split(rest, sep);
      assert Split(s, sep) == [s[..i]] + parts;
      JoinCons(s[..i], parts, sep);
      SplitOnceRestores(s, sep);
    }
  }

  /** Joining all parts but the first gives what follows the first separator. */
  lemma JoinTailOfSplit<T>(s: seq<T>, sep: seq<T>)
    requires sep != [] && Contains(s, sep)
    ensures Split(s, sep)[0] == s[..Index(s, sep)]
    ensures Join(Split(s, sep)[1..], sep) == s[Index(s, sep) + |sep|..]
  {
    var rest := s[Index(s, sep) + |sep|..];
    JoinSplit(rest, sep);
    assert Split(s, sep)[1..] == Split(rest, sep);
  }

  /** Splitting and overlapping, as the parsers do it, is scanning. */
  lemma SearchIsScan<T>(text: seq<T>, tag: seq<T>)
    requires tag != []
    ensures Contains(text, tag) ==>
      var parts := SplitOnce(text, tag);
      Scan(text, tag) == Found(parts.0, parts.1)
    ensures !Contains(text, tag) ==>
      var k := Overlap(text, tag);
      Scan(text, tag) == if k > 0 then Open(text[..|text| - k], text[|text| - k..]) else Open(text, [])
  {
    ScanIsIndex(text, tag);
    if !Contains(text, tag) {
      ScanIsOverlap(text, tag);
      assert text[..|text|] == text;
    }
  }

  // ----- pieces -----

  /** The pieces of a text, put together again. */
  function Concat<T>(pieces: seq<seq<T>>): seq<T> {
    if pieces == [] then [] else pieces[0] + Concat(pieces[1..])
  }

  lemma AppendAssociates<T>(a: seq<T>, b: seq<T>, c: seq<T>)
    ensures a + b + c == a + (b + c)
  {
  }

  lemma AppendNothing<T>(a: seq<T>)
    ensures a + [] == a && [] + a == a
  {
  }

  lemma ConcatUnfolds<T>(held: seq<T>, pieces: seq<seq<T>>)
    requires pieces != []
    ensures held + Concat(pieces) == held + pieces[0] + Concat(pieces[1..])
    ensures |pieces| == 1 ==> held + Concat(pieces) == held + pieces[0]
  {
    AppendAssociates(held, pieces[0], Concat(pieces[1..]));
    if |pieces| == 1 {
      AppendNothing(pieces[0]);
    }
  }

  // ----- white space -----

  /** `unicode.IsSpace`. */
  predicate IsSpace(ch: char) {
    var c := ch as int;
    || c == 0x20 || 0x09 <= c <= 0x0D || c == 0x85 || c == 0xA0 || c == 0x1680
    || 0x2000 <= c <= 0x200A || c == 0x2028 || c == 0x2029 || c == 0x202F || c == 0x205F || c == 0x3000
  }

  predicate AllSpace(s: string) {
    s == [] || (IsSpace(s[0]) && AllSpace(s[1..]))
  }

  /** `strings.TrimLeftFunc(s, unicode.IsSpace)`. */
  function TrimLeft(s: string): (r: string)
    ensures |r| <= |s|
  {
    if s != [] && IsSpace(s[0]) then TrimLeft(s[1..]) else s
  }

  /** `strings.TrimRightFunc(s, unicode.IsSpace)`. */
  function TrimRight(s: string): (r: string)
    ensures |r| <= |s|
  {
    if s != [] && IsSpace(s[|s| - 1]) then TrimRight(s[..|s| - 1]) else s
  }

  function TrimSpace(s: string): string { TrimRight(TrimLeft(s)) }

  lemma {:induction false} TrimLeftExtension(x: string, y: string)
    ensures TrimLeft(x + y) == if TrimLeft(x) == [] then TrimLeft(y) else TrimLeft(x) + y
  {
    if x == [] {
      assert x + y == y;
    } else if IsSpace(x[0]) {
      TrimLeftExtension(x[1..], y);
      assert (x + y)[1..] == x[1..] + y;
    }
  }

  lemma {:induction false} TrimLeftStarts(s: string)
    ensures TrimLeft(s) != [] ==> !IsSpace(TrimLeft(s)[0])
    ensures TrimLeft(TrimLeft(s)) == TrimLeft(s)
  {
    if s != [] && IsSpace(s[0]) {
      TrimLeftStarts(s[1..]);
    }
  }

  lemma {:induction false} DropSpace(s: string, t: string)
    requires AllSpace(s) && (t != [] ==> !IsSpace(t[0]))
    ensures TrimLeft(s + t) == t
  {
    if s == [] {
      assert s + t == t;
    } else {
      DropSpace(s[1..], t);
      assert (s + t)[1..] == s[1..] + t;
    }
  }

  /** The white space that TrimRight drops. */
  function TrailingSpace(s: string): string {
    s[|TrimRight(s)|..]
  }

  lemma {:induction false} TrimRightRestores(s: string)
    ensures s == TrimRight(s) + TrailingSpace(s) && AllSpace(TrailingSpace(s))
    ensures TrimRight(s) != [] ==> !IsSpace(TrimRight(s)[|TrimRight(s)| - 1])
  {
    if s != [] && IsSpace(s[|s| - 1]) {
      var t := s[..|s| - 1];
      TrimRightRestores(t);
      AllSpaceAppend(TrailingSpace(t), [s[|s| - 1]]);
      OneMoreSpace(s, t, TrailingSpace(t), s[|s| - 1]);
    } else {
      assert TrailingSpace(s) == [];
    }
  }

  lemma OneMoreSpace(s: string, t: string, w: string, c: char)
    requires s == t + [c] && IsSpace(c) && t == TrimRight(t) + w
    ensures TrimRight(s) == TrimRight(t) && TrailingSpace(s) == w + [c]
  {
    assert s[..|s| - 1] == t;
    assert s == TrimRight(t) + (w + [c]);
  }

  lemma {:induction false} AllSpaceAppend(a: string, b: string)
    ensures AllSpace(a + b) <==> AllSpace(a) && AllSpace(b)
  {
    if a == [] {
      AppendNothing(b);
    } else {
      AllSpaceAppend(a[1..], b);
      assert (a + b)[1..] == a[1..] + b;
    }
  }

  lemma {:induction false} TrimRightIsPrefix(s: string)
    ensures TrimRight(s) == s[..|TrimRight(s)|]
  {
    if s != [] && IsSpace(s[|s| - 1]) {
      var t := s[..|s| - 1];
      TrimRightIsPrefix(t);
      assert t[..|TrimRight(t)|] == s[..|TrimRight(t)|];
    } else {
      assert s[..|s|] == s;
    }
  }

  lemma CutTwice<T>(s: seq<T>, n: nat, m: nat)
    requires n <= m <= |s|
    ensures s[..m][..n] == s[..n] && s[..m][n..] + s[m..] == s[n..]
  {
  }

  /** White space at the end is dropped, and nothing else. */
  lemma {:induction false} TrimRightOfSpace(s: string, w: string)
    requires AllSpace(w)
    ensures TrimRight(s + w) == TrimRight(s)
    decreases |w|
  {
    if w == [] {
      AppendNothing(s);
    } else {
      var v := w[..|w| - 1];
      AllSpaceAppend(v, [w[|w| - 1]]);
      assert w == v + [w[|w| - 1]];
      assert IsSpace([w[|w| - 1]][0]);
      assert (s + w)[..|s + w| - 1] == s + v;
      TrimRightOfSpace(s, v);
    }
  }

  /** Trimming s + t keeps s if something of t stays. */
  lemma {:induction false} TrimRightAppend(s: string, t: string)
    ensures TrimRight(s + t) == if TrimRight(t) == [] then TrimRight(s) else s + TrimRight(t)
    decreases |t|
  {
    if t == [] {
      AppendNothing(s);
    } else {
      var u := t[..|t| - 1];
      assert (s + t)[..|s + t| - 1] == s + u;
      assert (s + t)[|s + t| - 1] == t[|t| - 1];
      if IsSpace(t[|t| - 1]) {
        TrimRightAppend(s, u);
      }
    }
  }

  lemma TrimRightTwice(s: string)
    ensures TrimRight(TrimRight(s)) == TrimRight(s)
  {
    TrimRightRestores(s);
  }

  /** Trimming a text whose beginning was trimmed before, and whose white space was held. */
  lemma TrimAcross(g: string, b: string)
    ensures TrimRight(g + b) == TrimRight(g) + TrimRight(TrailingSpace(g) + b)
    ensures TrailingSpace(g + b) == TrailingSpace(TrailingSpace(g) + b)
  {
    var t, w := TrimRight(g), TrailingSpace(g);
    TrimRightRestores(g);
    AppendAssociates(t, w, b);
    TrimRightAppend(t, w + b);
    TrimRightTwice(g);
    if TrimRight(w + b) == [] {
      AppendNothing(t);
    }
    DropAcross(t, w + b, |TrimRight(w + b)|);
  }

  lemma DropAcross<T>(s: seq<T>, t: seq<T>, n: nat)
    requires n <= |t|
    ensures (s + t)[|s| + n..] == t[n..]
  {
  }

  lemma {:induction false} AllSpaceIffTrimmed(s: string)
    ensures AllSpace(s) <==> TrimLeft(s) == []
    ensures AllSpace(s) ==> TrimRight(s) == []
  {
    if s != [] && IsSpace(s[0]) {
      AllSpaceIffTrimmed(s[1..]);
    }
    if AllSpace(s) {
      TrimRightOfSpace([], s);
      AppendNothing(s);
    }
  }

  lemma {:induction false} TrimLeftRestores(s: string) returns (w: string)
    ensures AllSpace(w) && s == w + TrimLeft(s)
    ensures w == [] <==> s == [] || !IsSpace(s[0])
  {
    if s != [] && IsSpace(s[0]) {
      var v := TrimLeftRestores(s[1..]);
      w := [s[0]] + v;
      assert w[1..] == v;
      assert s == [s[0]] + s[1..];
      AppendAssociates([s[0]], v, TrimLeft(s));
    } else {
      w := [];
      AppendNothing(s);
    }
  }

  /** White space in front of a text does not matter to the search for a tag that starts otherwise. */
  lemma {:induction false} ScanBehindSpace(w: string, s: string, tag: string)
    requires AllSpace(w) && tag != [] && !IsSpace(tag[0])
    ensures Scan(w + s, tag) == Scan(s, tag).Behind(w)
  {
    if w == [] {
      AppendNothing(s);
      match Scan(s, tag)
      case Found(before, _) => AppendNothing(before);
      case Open(given, _) => AppendNothing(given);
    } else {
      ScanBehindSpace(w[1..], s, tag);
      assert (w + s)[1..] == w[1..] + s;
      BehindTwice(Scan(s, tag), [w[0]], w[1..]);
      assert [w[0]] + w[1..] == w;
    }
  }
}
