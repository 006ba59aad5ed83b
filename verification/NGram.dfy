/**
 The n-gram table every query walks over, and the textbook backoff score that the
 queries have to reproduce.

 An n-gram is written newest word first, as the lookups of kenlm/lm/model.cc read it:
 `g[0]` is the word being scored and `g[1..]` is its history.  Log-probabilities are
 exact reals.  The two flags that the original keeps in sign bits are explicit fields:
 `left` says that some longer n-gram starts with this one and `right` is `HasExtension`,
 that is, "may be the history of another n-gram or has a backoff to charge".
 */
module NGram {

  type Word = nat

  type Gram = seq<Word>

  datatype Entry = Entry(prob: real, backoff: real, left: bool, right: bool)

  datatype Model = Model(order: nat, table: map<Gram, Entry>)

  // ---------------------------------------------------------------- well-formed tables

  ghost predicate Valid(m: Model) {
    && m.order >= 2
    && forall g {:trigger ValidEntry(m, g)} :: g in m.table ==> ValidEntry(m, g)
  }

  /**
   What a successful load guarantees of one stored n-gram.  The left flag of a unigram may
   be set although nothing longer starts with it.
   */
  ghost predicate ValidEntry(m: Model, g: Gram) {
    && g in m.table
    && 1 <= |g| <= m.order
    && (|g| > 1 ==> g[..|g| - 1] in m.table)
    && (|g| > 1 ==> g[1..] in m.table && m.table[g[1..]].right)
    && (m.table[g].left <== exists w :: Longer(m, g, w))
    && (m.table[g].left ==> |g| < m.order && (|g| == 1 || exists w :: Longer(m, g, w)))
    && (!m.table[g].right ==> m.table[g].backoff == 0.0)
  }

  ghost predicate Longer(m: Model, g: Gram, w: Word) {
    g + [w] in m.table
  }

  /** Dropping the oldest word of a right-extending n-gram leaves it right-extending. */
  ghost predicate RightMonotone(m: Model) {
    forall g {:trigger RightExtends(m, g)} ::
      |g| > 1 && RightExtends(m, g) ==> RightExtends(m, g[..|g| - 1])
  }

  predicate RightExtends(m: Model, g: Gram) {
    g in m.table && |g| < m.order && m.table[g].right
  }

  predicate LeftExtends(m: Model, g: Gram) {
    g in m.table && m.table[g].left
  }

  lemma {:induction false} PrefixStored(m: Model, g: Gram, k: nat)
    requires Valid(m) && g in m.table && 1 <= k <= |g|
    ensures g[..k] in m.table
    decreases |g|
  {
    assert ValidEntry(m, g);
    if k == |g| {
      assert g[..k] == g;
    } else {
      PrefixStored(m, g[..|g| - 1], k);
      assert g[..|g| - 1][..k] == g[..k];
    }
  }

  // ---------------------------------------------------------------- the textbook score

  /** The weight charged for backing off from history `c`; unlisted histories are free. */
  function BackoffOf(m: Model, c: Gram): real {
    if c in m.table && |c| < m.order then m.table[c].backoff else 0.0
  }

  /** log p(g[0] | g[1..k]): the listed value, or back off to the next shorter history. */
  function Katz(m: Model, g: Gram, k: nat): real
    requires 1 <= k <= |g|
  {
    if g[..k] in m.table then m.table[g[..k]].prob
    else if k == 1 then 0.0
    else BackoffOf(m, g[1..k]) + Katz(m, g, k - 1)
  }

  function Score(m: Model, g: Gram): real
    requires g != []
  {
    Katz(m, g, |g|)
  }

  /** The score of the words `g` spoken after history `h`, newest first. */
  function Total(m: Model, g: Gram, h: Gram): real {
    if g == [] then 0.0 else Score(m, g + h) + Total(m, g[1..], h)
  }

  /** Words the vocabulary knows: each has a unigram. */
  predicate Known(m: Model, g: Gram) {
    forall i :: 0 <= i < |g| ==> [g[i]] in m.table
  }

  lemma {:induction false} KatzDependsOnPrefix(m: Model, g: Gram, h: Gram, k: nat)
    requires 1 <= k <= |g| && k <= |h| && g[..k] == h[..k]
    ensures Katz(m, g, k) == Katz(m, h, k)
  {
    if k > 1 {
      assert g[..k - 1] == g[..k][..k - 1] && h[..k - 1] == h[..k][..k - 1];
      assert g[1..k] == g[..k][1..] && h[1..k] == h[..k][1..];
      KatzDependsOnPrefix(m, g, h, k - 1);
    }
  }

  lemma {:induction false} TotalAppend(m: Model, g: Gram, f: Gram, h: Gram)
    ensures Total(m, g + f, h) == Total(m, g, f + h) + Total(m, f, h)
  {
    if g == [] {
      assert g + f == f;
    } else {
      assert (g + f)[1..] == g[1..] + f;
      assert (g + f) + h == g + (f + h);
      TotalAppend(m, g[1..], f, h);
    }
  }

  // ---------------------------------------------------------------- how far histories matter

  /** Sum of the backoffs of the histories `c[..lo+1]` to `c[..hi]`. */
  function BackSum(m: Model, c: Gram, lo: nat, hi: nat): real
    requires lo <= hi <= |c|
    decreases hi - lo
  {
    if lo == hi then 0.0 else BackSum(m, c, lo, hi - 1) + BackoffOf(m, c[..hi])
  }

  /** The longest stored n-gram that `g[..k]` starts with. */
  function MatchLen(m: Model, g: Gram, k: nat): (n: nat)
    requires k <= |g|
    ensures n <= k
    ensures n > 0 ==> g[..(n)] in m.table
    ensures forall j {:trigger g[..j] in m.table} :: n < j <= k ==> g[..j] !in m.table
  {
    if k == 0 || g[..k] in m.table then k else MatchLen(m, g, k - 1)
  }

  /** The longest part of history `g[..k]` that can influence any later word. */
  function RightLen(m: Model, g: Gram, k: nat): (n: nat)
    requires k <= |g|
    ensures n <= k
    ensures n > 0 ==> RightExtends(m, g[..(n)])
    ensures forall j {:trigger RightExtends(m, g[..j])} :: n < j <= k ==> !RightExtends(m, g[..j])
  {
    if k == 0 || RightExtends(m, g[..k]) then k else RightLen(m, g, k - 1)
  }

  function UseLen(m: Model, g: Gram): nat {
    RightLen(m, g, |g|)
  }

  lemma {:induction false} KatzIsMatchPlusBackoff(m: Model, g: Gram, k: nat, n: nat)
    requires 1 <= n <= k <= |g|
    requires g[..n] in m.table
    requires forall j :: n < j <= k ==> g[..j] !in m.table
    ensures Katz(m, g, k) == m.table[g[..n]].prob + BackSum(m, g[1..], n - 1, k - 1)
  {
    if k > n {
      KatzIsMatchPlusBackoff(m, g, k - 1, n);
      assert g[1..][..k - 1] == g[1..k];
    }
  }

  /** The history of a stored n-gram can never be forgotten. */
  lemma {:induction false} HistoryOfStoredIsUsed(m: Model, x: Word, q: Gram, k: nat)
    requires Valid(m) && 1 <= k <= |q|
    requires [x] + q[..k] in m.table
    ensures RightExtends(m, q[..k]) && UseLen(m, q) >= k
  {
    var g := [x] + q[..k];
    assert ValidEntry(m, g);
    assert g[1..] == q[..k];
    assert RightExtends(m, q[..k]);
  }

  lemma {:induction false} BackSumOfForgotten(m: Model, c: Gram, lo: nat, hi: nat)
    requires Valid(m) && UseLen(m, c) <= lo <= hi <= |c|
    ensures BackSum(m, c, lo, hi) == 0.0
  {
    if lo < hi {
      BackSumOfForgotten(m, c, lo, hi - 1);
      assert !RightExtends(m, c[..hi]);
      if c[..hi] in m.table {
        assert ValidEntry(m, c[..hi]);
      }
    }
  }

  lemma {:induction false} BackSumSplit(m: Model, c: Gram, lo: nat, mid: nat, hi: nat)
    requires lo <= mid <= hi <= |c|
    ensures BackSum(m, c, lo, hi) == BackSum(m, c, lo, mid) + BackSum(m, c, mid, hi)
  {
    if mid < hi {
      BackSumSplit(m, c, lo, mid, hi - 1);
    }
  }

  lemma {:induction false} BackSumDependsOnPrefix(m: Model, c: Gram, d: Gram, lo: nat, hi: nat)
    requires lo <= hi <= |c| && hi <= |d| && c[..hi] == d[..hi]
    ensures BackSum(m, c, lo, hi) == BackSum(m, d, lo, hi)
  {
    if lo < hi {
      assert c[..hi - 1] == c[..hi][..hi - 1] && d[..hi - 1] == d[..hi][..hi - 1];
      BackSumDependsOnPrefix(m, c, d, lo, hi - 1);
    }
  }

  /** Cutting a history to any length that keeps its useful part changes no score. */
  lemma {:induction false} ScoreOfCutHistory(m: Model, x: Word, q: Gram, k: nat)
    requires Valid(m) && [x] in m.table && UseLen(m, q) <= k <= |q|
    ensures Score(m, [x] + q) == Score(m, [x] + q[..k])
    ensures LeftExtends(m, [x] + q) ==> k == |q|
  {
    var g, c := [x] + q, [x] + q[..k];
    assert g[..1] == [x] && c[..1] == [x];
    var n := MatchLen(m, g, |g|);
    if n > k + 1 {
      assert g[..n] == [x] + q[..n - 1];
      HistoryOfStoredIsUsed(m, x, q, n - 1);
      assert false;
    }
    forall j | 1 <= j <= k + 1
      ensures g[..j] == c[..j]
    {
    }
    KatzIsMatchPlusBackoff(m, g, |g|, n);
    KatzIsMatchPlusBackoff(m, c, |c|, n);
    assert g[1..] == q && c[1..] == q[..k];
    BackSumSplit(m, q, n - 1, k, |q|);
    BackSumOfForgotten(m, q, k, |q|);
    BackSumDependsOnPrefix(m, q, q[..k], n - 1, k);
    if LeftExtends(m, g) {
      assert g[..|g|] == g;
    }
  }

  /** Cutting the history keeps the useful part of the extended history as well. */
  lemma {:induction false} UseOfCutHistory(m: Model, x: Word, q: Gram, k: nat)
    requires Valid(m) && UseLen(m, q) <= k <= |q|
    ensures UseLen(m, [x] + q) == UseLen(m, [x] + q[..k])
    ensures UseLen(m, [x] + q) <= k + 1
  {
    var g, c := [x] + q, [x] + q[..k];
    var n := UseLen(m, g);
    if n > k + 1 {
      assert g[..n] == [x] + q[..n - 1];
      HistoryOfStoredIsUsed(m, x, q, n - 1);
      assert false;
    }
    UseOfPrefix(m, g, c, k + 1);
  }

  lemma {:induction false} UseOfPrefix(m: Model, g: Gram, c: Gram, k: nat)
    requires k == |c| <= |g| && g[..k] == c && UseLen(m, g) <= k
    ensures UseLen(m, g) == UseLen(m, c)
  {
    var n, n' := UseLen(m, g), UseLen(m, c);
    assert forall j :: 0 <= j <= k ==> g[..j] == c[..j];
  }
}
