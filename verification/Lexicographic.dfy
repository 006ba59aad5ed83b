/**
 The order in which the trie builder meets n-grams: std::lexicographical_compare, in
 which a prefix comes before its extensions.
 */
module Lexicographic {

  type Gram = seq<nat>

  /** Length of the longest common prefix, looking at no more than `k` words. */
  function Common(a: Gram, b: Gram, k: nat): (c: nat)
    requires k <= |a| && k <= |b|
    ensures c <= k
    decreases k
  {
    if k == 0 then 0
    else
      var c := Common(a, b, k - 1);
      if c == k - 1 && a[c] == b[c] then k else c
  }

  lemma {:induction false} CommonAgrees(a: Gram, b: Gram, k: nat)
    requires k <= |a| && k <= |b|
    ensures var c := Common(a, b, k);
            (forall i {:trigger a[i]} {:trigger b[i]} :: 0 <= i < c ==> a[i] == b[i]) && (c < k ==> a[c] != b[c])
    decreases k
  {
    if k > 0 {
      CommonAgrees(a, b, k - 1);
    }
  }

  lemma {:induction false} LcpAgrees(a: Gram, b: Gram)
    ensures var c := Lcp(a, b);
            (forall i {:trigger a[i]} {:trigger b[i]} :: 0 <= i < c ==> a[i] == b[i])
              && (c < |a| && c < |b| ==> a[c] != b[c])
  {
    CommonAgrees(a, b, Min(|a|, |b|));
  }

  function Min(a: nat, b: nat): nat {
    if a < b then a else b
  }

  function Lcp(a: Gram, b: Gram): nat {
    Common(a, b, Min(|a|, |b|))
  }

  predicate Less(a: Gram, b: Gram) {
    var c := Lcp(a, b);
    c < |b| && (c == |a| || a[c] < b[c])
  }

  predicate Prefix(p: Gram, g: Gram) {
    |p| <= |g| && forall i {:trigger p[i]} :: 0 <= i < |p| ==> p[i] == g[i]
  }

  /** The first difference decides; it ends the longest common prefix. */
  lemma {:induction false} FirstDifference(a: Gram, b: Gram, c: nat)
    requires c <= |a| && c <= |b| && forall i :: 0 <= i < c ==> a[i] == b[i]
    requires c == |a| || c == |b| || a[c] != b[c]
    ensures Lcp(a, b) == c
  {
    LcpAgrees(a, b);
  }

  lemma {:induction false} LessIrreflexive(a: Gram)
    ensures !Less(a, a)
  {
    FirstDifference(a, a, |a|);
  }

  lemma {:induction false} LcpSymmetric(a: Gram, b: Gram)
    ensures Lcp(a, b) == Lcp(b, a)
  {
    LcpAgrees(a, b);
    FirstDifference(b, a, Lcp(a, b));
  }

  lemma {:induction false} LessTotal(a: Gram, b: Gram)
    ensures a == b || Less(a, b) || Less(b, a)
  {
    LcpSymmetric(a, b);
    LcpAgrees(a, b);
  }

  lemma {:induction false} LessAsymmetric(a: Gram, b: Gram)
    requires Less(a, b)
    ensures !Less(b, a) && a != b
  {
    LcpSymmetric(a, b);
    FirstDifference(a, a, |a|);
  }

  lemma {:induction false} LessTransitive(a: Gram, b: Gram, d: Gram)
    requires Less(a, b) && Less(b, d)
    ensures Less(a, d)
  {
    LcpAgrees(a, b);
    LcpAgrees(b, d);
    FirstDifference(a, d, Min(Lcp(a, b), Lcp(b, d)));
  }

  lemma {:induction false} PrefixLess(p: Gram, g: Gram)
    requires Prefix(p, g) && |p| < |g|
    ensures Less(p, g)
  {
    FirstDifference(p, g, |p|);
  }

  /** Whatever lies between a prefix and its extension extends the prefix too. */
  lemma {:induction false} BetweenExtends(p: Gram, a: Gram, g: Gram)
    requires Prefix(p, g) && (p == a || Less(p, a)) && Less(a, g)
    ensures Prefix(p, a)
  {
    LcpAgrees(p, a);
    LcpAgrees(a, g);
    if p != a && Lcp(p, a) < |p| {
      FirstDifference(p, g, Min(Lcp(p, a), Lcp(a, g)));
    }
  }

  /** Two n-grams of one length order all their extensions. */
  lemma {:induction false} ExtensionsOrdered(p: Gram, q: Gram, a: Gram)
    requires |p| == |q| && Less(p, q) && Prefix(p, a)
    ensures Less(a, q)
  {
    LcpAgrees(p, q);
    FirstDifference(a, q, Lcp(p, q));
  }

  lemma {:induction false} SharedPrefix(p: Gram, a: Gram, b: Gram)
    requires Prefix(p, a) && Prefix(p, b)
    ensures |p| <= Lcp(a, b)
  {
    LcpAgrees(a, b);
    assert forall i {:trigger a[i]} :: 0 <= i < |p| ==> a[i] == p[i];
    assert forall i {:trigger b[i]} :: 0 <= i < |p| ==> b[i] == p[i];
  }
}
