/**
 Token lists in text mode, and what their longest common prefix is.
 */
module Tokens {
  type Token = int

  /** The length of the longest common prefix. */
  function CommonPrefix(a: seq<Token>, b: seq<Token>): (n: nat) {
    if a != [] && b != [] && a[0] == b[0] then 1 + CommonPrefix(a[1..], b[1..]) else 0
  }

  /** It is the one length up to which the lists agree and at which they do not go on agreeing. */
  predicate IsCommonPrefix(a: seq<Token>, b: seq<Token>, n: nat) {
    && n <= |a| && n <= |b| && a[..n] == b[..n]
    && (n < |a| && n < |b| ==> a[n] != b[n])
  }

  lemma {:induction false} CommonPrefixIs(a: seq<Token>, b: seq<Token>)
    ensures IsCommonPrefix(a, b, CommonPrefix(a, b))
  {
    if a != [] && b != [] && a[0] == b[0] {
      CommonPrefixIs(a[1..], b[1..]);
      var n := CommonPrefix(a[1..], b[1..]);
      assert a[..n + 1] == [a[0]] + a[1..][..n];
      assert b[..n + 1] == [b[0]] + b[1..][..n];
    }
  }

  lemma CommonPrefixIsTheOne(a: seq<Token>, b: seq<Token>, n: nat)
    requires IsCommonPrefix(a, b, n)
    ensures n == CommonPrefix(a, b)
  {
    CommonPrefixIs(a, b);
    var m := CommonPrefix(a, b);
    if n < m {
      SameAt(a, b, m, n);
    } else if m < n {
      SameAt(a, b, n, m);
    }
  }

  lemma SameAt(a: seq<Token>, b: seq<Token>, n: nat, i: nat)
    requires i < n <= |a| && n <= |b| && a[..n] == b[..n]
    ensures a[i] == b[i]
  {
    assert a[..n][i] == b[..n][i];
  }

  lemma PrefixAt(p: seq<Token>, a: seq<Token>, i: int)
    requires p <= a && 0 <= i < |p|
    ensures i < |a| && p[i] == a[i]
  {
  }

  /** No common prefix is longer. */
  lemma CommonPrefixIsLongest(a: seq<Token>, b: seq<Token>, p: seq<Token>)
    requires p <= a && p <= b
    ensures |p| <= CommonPrefix(a, b)
  {
    CommonPrefixIs(a, b);
    var m := CommonPrefix(a, b);
    if m < |p| {
      PrefixAt(p, a, m);
      PrefixAt(p, b, m);
    }
  }

  /** A list is a prefix of another if all of it is in the common prefix. */
  lemma PrefixIffAllCommon(a: seq<Token>, b: seq<Token>)
    ensures a <= b <==> CommonPrefix(a, b) == |a|
    ensures b <= a <==> CommonPrefix(a, b) == |b|
  {
    CommonPrefixIs(a, b);
    if a <= b {
      CommonPrefixIsLongest(a, b, a);
    }
    if b <= a {
      CommonPrefixIsLongest(a, b, b);
    }
  }

  /** `server_tokens::get_common_prefix`, without media. */
  method GetCommonPrefix(a: seq<Token>, b: seq<Token>) returns (n: nat)
    ensures n == CommonPrefix(a, b)
    ensures IsCommonPrefix(a, b, n)
  {
    var maxIdx := if |a| <= |b| then |a| else |b|;
    n := maxIdx;
    for i := 0 to maxIdx
      invariant n == maxIdx && a[..i] == b[..i]
    {
      if a[i] != b[i] {
        n := i;
        break;
      }
    }
    CommonPrefixIsTheOne(a, b, n);
  }
}
