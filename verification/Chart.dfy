/**
 Scoring sentence fragments whose left context is still unknown (kenlm/lm/left.hh).

 A fragment is summarised by pointers to the n-grams at its left edge, a flag saying that
 no further left pointer can be needed, and the right state.  `RuleScore` glues
 terminals and already summarised fragments together.
 */
module Chart {
  import opened NGram
  import opened Query

  datatype ChartState = ChartState(left: seq<Gram>, full: bool, right: State)

  // ---------------------------------------------------------------- the summary of a fragment

  /** The `e` oldest words of `g`. */
  function Oldest(g: Gram, e: nat): Gram
    requires e <= |g|
  {
    g[|g| - e..]
  }

  /** The n-grams at the left edge of fragment `g` that can still grow to the left. */
  function Pointers(m: Model, g: Gram): seq<Gram> {
    if g == [] then []
    else if LeftExtends(m, g) then Pointers(m, g[1..]) + [g]
    else Pointers(m, g[1..])
  }

  /** The whole fragment may still be part of a longer n-gram on both sides. */
  predicate Open(m: Model, g: Gram) {
    g == [] || (LeftExtends(m, g) && RightExtends(m, g))
  }

  predicate Full(m: Model, g: Gram) {
    !Open(m, g) || |g| >= m.order - 1
  }

  function CanonicalChart(m: Model, g: Gram): ChartState {
    ChartState(Pointers(m, g), Full(m, g), Canonical(m, g))
  }

  lemma {:induction false} PointersOfExtending(m: Model, g: Gram)
    requires Valid(m) && LeftExtends(m, g)
    ensures Pointers(m, g) == AllOldest(g)
  {
    LeftExtendsBelowOrder(m, g);
    AllOldestGrows(g);
    if |g| > 1 {
      HistoryOfExtending(m, g);
      PointersOfExtending(m, g[1..]);
    }
  }

  lemma {:induction false} AllOldestGrows(g: Gram)
    requires g != []
    ensures AllOldest(g) == AllOldest(g[1..]) + [g]
  {
    assert Oldest(g, |g|) == g;
    assert forall e {:trigger Oldest(g, e)} :: 0 <= e < |g| ==> Oldest(g, e) == Oldest(g[1..], e);
  }

  /** The oldest word of `g`, the two oldest words, up to all of `g`. */
  function AllOldest(g: Gram): seq<Gram> {
    seq(|g|, i requires 0 <= i < |g| => Oldest(g, i + 1))
  }

  /** The history of an n-gram that grows to the left grows on both sides. */
  lemma {:induction false} HistoryOfExtending(m: Model, g: Gram)
    requires Valid(m) && LeftExtends(m, g) && |g| > 1
    ensures LeftExtends(m, g[1..]) && RightExtends(m, g[1..])
    ensures |g| < m.order
  {
    LeftExtendsBelowOrder(m, g);
    assert ValidEntry(m, g);
    var w :| Longer(m, g, w);
    assert ValidEntry(m, g + [w]);
    assert (g + [w])[1..] == g[1..] + [w];
    assert Longer(m, g[1..], w);
    assert ValidEntry(m, g[1..]);
  }

  /** The pointers are the oldest parts of the fragment, up to the first that cannot grow. */
  lemma {:induction false} PointersAreOldest(m: Model, g: Gram)
    requires Valid(m)
    ensures |Pointers(m, g)| <= |g|
    ensures forall e {:trigger Oldest(g, e)} :: 1 <= e <= |Pointers(m, g)| ==> PointerAt(m, g, e)
    ensures |Pointers(m, g)| < |g| ==> !LeftExtends(m, Oldest(g, |Pointers(m, g)| + 1))
  {
    if g == [] {
    } else if LeftExtends(m, g) {
      PointersOfExtending(m, g);
      forall e | 1 <= e <= |g|
        ensures PointerAt(m, g, e)
      {
        OldestExtends(m, g, e);
        assert Pointers(m, g)[e - 1] == Oldest(g, e - 1 + 1);
      }
    } else {
      var t := g[1..];
      PointersAreOldest(m, t);
      forall e | 1 <= e <= |Pointers(m, t)|
        ensures PointerAt(m, g, e)
      {
        assert Oldest(t, e) == Oldest(g, e);
        assert PointerAt(m, t, e);
      }
      FirstThatCannotGrow(m, g);
    }
  }

  lemma {:induction false} FirstThatCannotGrow(m: Model, g: Gram)
    requires g != [] && !LeftExtends(m, g) && |Pointers(m, g[1..])| < |g|
    requires var n := |Pointers(m, g[1..])| + 1;
             n < |g| ==> !LeftExtends(m, Oldest(g[1..], n))
    ensures !LeftExtends(m, Oldest(g, |Pointers(m, g)| + 1))
  {
    var n := |Pointers(m, g[1..])| + 1;
    if n < |g| {
      assert Oldest(g[1..], n) == Oldest(g, n);
    } else {
      assert Oldest(g, n) == g;
    }
  }

  ghost predicate PointerAt(m: Model, g: Gram, e: nat)
    requires 1 <= e <= |g|
  {
    e <= |Pointers(m, g)| && Pointers(m, g)[e - 1] == Oldest(g, e) && LeftExtends(m, Oldest(g, e))
  }

  lemma {:induction false} OldestExtends(m: Model, g: Gram, e: nat)
    requires Valid(m) && LeftExtends(m, g) && 1 <= e <= |g|
    ensures LeftExtends(m, Oldest(g, e))
    decreases |g|
  {
    if e < |g| {
      HistoryOfExtending(m, g);
      OldestExtends(m, g[1..], e);
      assert Oldest(g[1..], e) == Oldest(g, e);
    } else {
      assert Oldest(g, e) == g;
    }
  }

  /** A fragment that is closed stays closed, and gains no pointer. */
  lemma {:induction false} FullStaysFull(m: Model, x: Word, g: Gram)
    requires Valid(m) && Full(m, g)
    ensures !LeftExtends(m, [x] + g) && Full(m, [x] + g)
    ensures Pointers(m, [x] + g) == Pointers(m, g)
  {
    assert ([x] + g)[1..] == g;
    if LeftExtends(m, [x] + g) {
      LeftExtendsBelowOrder(m, [x] + g);
      HistoryOfExtending(m, [x] + g);
    }
  }

  /** The useful part of a fragment is the whole fragment exactly when it extends right. */
  lemma {:induction false} UseAll(m: Model, g: Gram)
    ensures UseLen(m, g) == |g| <==> g == [] || RightExtends(m, g)
  {
    assert g[..|g|] == g;
  }

  // ---------------------------------------------------------------- fragments after a history

  lemma {:induction false} SealedStep(m: Model, g: Gram, h: Gram)
    requires Valid(m) && Known(m, g) && g != [] && h != [] && UseLen(m, g[1..] + h) < |g|
    ensures Total(m, g, h) - Total(m, g, []) == Total(m, g[1..], h) - Total(m, g[1..], [])
    ensures UseLen(m, g + h) <= |g|
    ensures Canonical(m, g + h) == Canonical(m, g)
    ensures !Open(m, g + h)
    ensures Pointers(m, g + h) == Pointers(m, g[1..] + h)
  {
    var x, q := g[0], g[1..];
    assert [x] + (q + h) == g + h && [x] + q == g == g + [];
    assert (q + h)[..|q|] == q;
    ScoreOfCutHistory(m, x, q + h, |q|);
    UseOfCutHistory(m, x, q + h, |q|);
    CutHistory(m, x, q + h, |q|);
    assert (g + h)[1..] == q + h;
  }

  /** Once no n-gram reaches across the seam, the rest of the fragment ignores the history. */
  lemma {:induction false} SealedRest(m: Model, g: Gram, e: nat, h: Gram)
    requires Valid(m) && Known(m, g) && e <= |g| && h != []
    requires UseLen(m, Oldest(g, e) + h) <= e
    ensures UseLen(m, g + h) <= |g|
    ensures Canonical(m, g + h) == Canonical(m, g)
    ensures Total(m, g, h) - Total(m, g, []) == Total(m, Oldest(g, e), h) - Total(m, Oldest(g, e), [])
    ensures Pointers(m, g + h) == Pointers(m, Oldest(g, e) + h)
    ensures g != [] ==> !Open(m, g + h)
  {
    if e == |g| {
      assert Oldest(g, e) == g;
      SamePrefixSameState(m, g + h, g);
      UseAll(m, g + h);
    } else {
      assert Oldest(g[1..], e) == Oldest(g, e);
      SealedRest(m, g[1..], e, h);
      SealedStep(m, g, h);
    }
  }

  lemma {:induction false} SamePrefixSameState(m: Model, g: Gram, c: Gram)
    requires |c| <= |g| && g[..|c|] == c && UseLen(m, g) <= |c|
    ensures Canonical(m, g) == Canonical(m, c)
  {
    UseOfPrefix(m, g, c, |c|);
    assert forall j :: 0 <= j <= |c| ==> g[..j] == c[..j];
  }

  lemma {:induction false} NothingLonger(m: Model, c: Gram, w: Word)
    requires Valid(m) && c != [] && !LeftExtends(m, c)
    ensures c + [w] !in m.table
  {
    assert (c + [w])[..|c|] == c;
    assert c + [w] in m.table ==> ValidEntry(m, c + [w]);
    assert c in m.table ==> ValidEntry(m, c);
    assert !Longer(m, c, w);
  }

  /** A word that cannot grow to the left pays every backoff of the history before it. */
  lemma {:induction false} ChargeBackoffs(m: Model, x: Word, q: Gram, h: Gram)
    requires Valid(m) && [x] in m.table && !LeftExtends(m, [x] + q) && h != []
    ensures Score(m, [x] + q + h) == Score(m, [x] + q) + BackSum(m, q + h, |q|, |q + h|)
    ensures UseLen(m, [x] + q + h) <= |q| + 1
    ensures !LeftExtends(m, [x] + q + h)
  {
    var c, g := [x] + q, [x] + q + h;
    forall j | |c| < j <= |g|
      ensures g[..j] !in m.table
    {
      NothingLonger(m, c, h[0]);
      assert g[..j][..|c| + 1] == c + [h[0]];
      if g[..j] in m.table {
        PrefixStored(m, g[..j], |c| + 1);
      }
    }
    var n := MatchLen(m, c, |c|);
    assert c[..1] == [x];
    assert forall j :: 0 <= j <= |c| ==> c[..j] == g[..j];
    KatzIsMatchPlusBackoff(m, c, |c|, n);
    KatzIsMatchPlusBackoff(m, g, |g|, n);
    assert g[1..] == q + h && c[1..] == q;
    BackSumSplit(m, q + h, n - 1, |q|, |q + h|);
    BackSumDependsOnPrefix(m, q + h, q, n - 1, |q|);
    assert g[..|g|] == g;
  }

  // ---------------------------------------------------------------- gluing fragments

  /** `left` and `done` describe the left edge of fragment `g`. */
  ghost predicate LeftOk(m: Model, g: Gram, left: seq<Gram>, done: bool) {
    && left == Pointers(m, g)
    && (done ==> Full(m, g))
    && (!Open(m, g) ==> done)
  }

  /** `left`, `right` and `done` summarise the words glued so far and what stood before them. */
  ghost predicate Summary(m: Model, words: Gram, before: Gram, left: seq<Gram>, right: State, done: bool) {
    && Known(m, words)
    && if before == [] then right == Canonical(m, words) && LeftOk(m, words, left, done)
       else Represents(m, words + before, right) && done
  }

  lemma {:induction false} SummaryRepresents(m: Model, words: Gram, before: Gram, left: seq<Gram>, right: State,
                                             done: bool)
    requires Valid(m) && Summary(m, words, before, left, right, done)
    ensures Represents(m, words + before, right)
  {
    if before == [] {
      assert words + before == words;
      CanonicalRepresents(m, words);
    }
  }

  /** A word scored from the state of a summary extends the summary. */
  lemma {:induction false} SummaryWord(m: Model, x: Word, w: Gram, b: Gram, left: seq<Gram>, right: State, done: bool,
                                       ret: Return, right': State)
    requires Valid(m) && [x] in m.table && Summary(m, w, b, left, right, done)
    requires right' == Canonical(m, [x] + (w + b))
    requires ret.independentLeft <==> !LeftExtends(m, [x] + right.words)
    requires !ret.independentLeft ==> ret.extendLeft == [x] + right.words
    ensures var closed := done || ret.independentLeft;
            Summary(m, [x] + w, b, if closed then left else left + [ret.extendLeft], right',
                    closed || |right'.words| != |right.words| + 1)
  {
    if b == [] {
      assert w + b == w;
      WordAtEdge(m, x, w, left, done);
    } else {
      CanonicalRepresents(m, [x] + (w + b));
      assert [x] + (w + b) == ([x] + w) + b;
    }
  }

  lemma {:induction false} WordAtEdge(m: Model, x: Word, w: Gram, left: seq<Gram>, done: bool)
    requires Valid(m) && LeftOk(m, w, left, done)
    ensures !done ==> Canonical(m, w).words == w
    ensures var closed := done || !LeftExtends(m, [x] + w);
            LeftOk(m, [x] + w, if closed then left else left + [[x] + w],
                   closed || UseLen(m, [x] + w) != UseLen(m, w) + 1)
  {
    UseAll(m, w);
    UseAll(m, [x] + w);
    assert w[..|w|] == w && ([x] + w)[1..] == w;
    if done {
      FullStaysFull(m, x, w);
    }
  }

  /**
   What happens at the seam when the fragment summarised by Pointers(g) is put after
   history `h`, once its `e` oldest words have been re-scored: `use` words of `h` still
   matter and `back` holds the backoffs of the n-grams that reach that far.
   */
  ghost predicate Seam(m: Model, g: Gram, e: nat, h: Gram, use: nat, back: seq<real>)
    requires e <= |g|
  {
    && use <= |h|
    && e + use < m.order
    && UseLen(m, Oldest(g, e) + h) <= e + use
    && back == BackoffsFrom(m, Oldest(g, e) + h[..use], e)
  }

  lemma {:induction false} SeamStart(m: Model, g: Gram, h: Gram, s: State)
    requires Represents(m, h, s)
    ensures Seam(m, g, 0, h, |s.words|, s.backoff)
  {
    assert Oldest(g, 0) + h == h;
    var c := Oldest(g, 0) + h[..|s.words|];
    assert forall j :: 0 <= j <= |c| ==> c[..j] == h[..j];
  }

  lemma {:induction false} SeamStep(m: Model, g: Gram, e: nat, h: Gram, use: nat, back: seq<real>, use': nat,
                                    back': seq<real>)
    requires Valid(m) && 1 <= e <= |g| && LeftExtends(m, Oldest(g, e))
    requires [Oldest(g, e)[0]] in m.table
    requires Seam(m, g, e - 1, h, use, back)
    requires use' == NextUse(m, Oldest(g, e), h[..use]) <= |back'|
    requires forall i :: 0 <= i < use' ==> back'[i] == BackoffOf(m, (Oldest(g, e) + h[..use])[..e + i + 1])
    ensures Seam(m, g, e, h, use', back'[..use'])
    ensures use' > 0 ==> UseLen(m, Oldest(g, e) + h) == e + use'
    ensures Score(m, Oldest(g, e) + h) == Score(m, Oldest(g, e) + h[..use])
    ensures LeftExtends(m, Oldest(g, e) + h) ==> use == |h|
  {
    var p, q := Oldest(g, e), Oldest(g, e - 1);
    LeftExtendsBelowOrder(m, p);
    var x := p[0];
    assert p == [x] + q;
    assert p + h == [x] + (q + h);
    assert (q + h)[..e - 1 + use] == q + h[..use];
    assert p + h[..use] == [x] + (q + h[..use]);
    ScoreOfCutHistory(m, x, q + h, e - 1 + use);
    UseOfCutHistory(m, x, q + h, e - 1 + use);
    var a, b := p + h[..use], p + h[..use'];
    assert forall j :: 0 <= j <= e + use' ==> a[..j] == b[..j];
  }

  /**
   The one situation NonTerminal gets wrong: the whole fragment can grow to the left and
   has nothing to offer to the right by itself, yet together with the history it does.
   */
  predicate ChargedEarly(m: Model, g: Gram, h: Gram) {
    g != [] && LeftExtends(m, g) && !RightExtends(m, g) && UseLen(m, g + h) > |g|
  }

  /** The backoffs that are then charged although no word follows yet. */
  function EarlyCharge(m: Model, g: Gram, h: Gram): real
    requires ChargedEarly(m, g, h)
  {
    BackSum(m, g + h, |g|, UseLen(m, g + h))
  }

  /** What gluing leaves behind then: the left edge is right, the right state forgets `w`. */
  ghost predicate Ahead(m: Model, g: Gram, w: Gram, b: Gram, left: seq<Gram>, right: State, done: bool) {
    && ChargedEarly(m, g, w + b) && Known(m, g + w)
    && right == Canonical(m, g) && done
    && (b == [] ==> left == Pointers(m, g + w))
  }

  lemma {:induction false} AheadIsNoSummary(m: Model, g: Gram, w: Gram, b: Gram, left: seq<Gram>, right: State,
                                            done: bool)
    requires Ahead(m, g, w, b, left, right, done)
    ensures !Summary(m, g + w, b, left, right, done)
  {
    assert (g + w) + b == g + (w + b);
    assert b == [] ==> w + b == w;
  }

  /** The charge is what the next word owes, and that word puts the state right. */
  lemma {:induction false} WordAfterCharge(m: Model, x: Word, g: Gram, w: Gram, b: Gram, left: seq<Gram>, right: State)
    requires Valid(m) && [x] in m.table && Ahead(m, g, w, b, left, right, true)
    ensures Score(m, [x] + (g + (w + b))) == Score(m, [x] + g) + EarlyCharge(m, g, w + b)
    ensures Canonical(m, [x] + (g + (w + b))) == Canonical(m, [x] + g)
    ensures Summary(m, [x] + (g + w), b, left, Canonical(m, [x] + g), true)
  {
    var h := w + b;
    var c := g + h;
    HistoryNotUsed(m, x, g, h);
    ScoreAcross(m, x, g, h);
    BackSumSplit(m, c, |g|, UseLen(m, c), |c|);
    BackSumOfForgotten(m, c, UseLen(m, c), |c|);
    if b == [] {
      assert h == w;
      assert ([x] + c)[1..] == c;
    } else {
      assert ([x] + (g + w)) + b == [x] + c;
      CanonicalRepresents(m, [x] + c);
    }
  }

  /** A fragment that is no history ends every n-gram that would reach over it. */
  lemma {:induction false} HistoryNotUsed(m: Model, x: Word, g: Gram, h: Gram)
    requires Valid(m) && [x] in m.table && g != [] && g in m.table && !RightExtends(m, g) && |g| < m.order
    ensures [x] + g !in m.table
    ensures forall j :: |g| < j <= |g + h| + 1 ==> ([x] + (g + h))[..j] !in m.table
    ensures !LeftExtends(m, [x] + (g + h))
    ensures Canonical(m, [x] + (g + h)) == Canonical(m, [x] + g)
  {
    var c := [x] + (g + h);
    assert g[..|g|] == g && c[..|g| + 1] == [x] + g;
    if [x] + g in m.table {
      HistoryOfStoredIsUsed(m, x, g, |g|);
    }
    LongerPrefixesMissing(m, c, |g| + 1);
    SamePrefixSameState(m, c, [x] + g);
  }

  lemma {:induction false} ScoreAcross(m: Model, x: Word, g: Gram, h: Gram)
    requires Valid(m) && [x] in m.table
    requires forall j :: |g| < j <= |g + h| + 1 ==> ([x] + (g + h))[..j] !in m.table
    ensures Score(m, [x] + (g + h)) == Score(m, [x] + g) + BackSum(m, g + h, |g|, |g + h|)
  {
    var c, d := [x] + (g + h), [x] + g;
    var n := MatchLen(m, c, |c|);
    assert c[..1] == [x] && c[1..] == g + h && d[1..] == g;
    assert forall j :: 0 <= j <= |g| + 1 ==> c[..j] == d[..j];
    KatzIsMatchPlusBackoff(m, c, |c|, n);
    KatzIsMatchPlusBackoff(m, d, |d|, n);
    assert (g + h)[..|g|] == g[..|g|];
    BackSumDependsOnPrefix(m, g + h, g, n - 1, |g|);
    BackSumSplit(m, g + h, n - 1, |g|, |g + h|);
  }

  /** Words behind a fragment charged early ignore what stood before it; only the first owes the charge. */
  lemma {:induction false} WordsAfterCharge(m: Model, f: Gram, g: Gram, h: Gram)
    requires Valid(m) && Known(m, f) && f != [] && Known(m, g) && ChargedEarly(m, g, h)
    ensures Canonical(m, f + (g + h)) == Canonical(m, f + g)
    ensures Total(m, f, g + h) == Total(m, f, g) + EarlyCharge(m, g, h)
    ensures Pointers(m, f + (g + h)) == Pointers(m, g + h) && !Open(m, f + (g + h))
  {
    var x, c := f[|f| - 1], f + g;
    assert Oldest(c, |g| + 1) == [x] + g && ([x] + g)[1..] == g && [x] + g + h == [x] + (g + h);
    assert c + h == f + (g + h) && ([x] + (g + h))[1..] == g + h;
    HistoryNotUsed(m, x, g, h);
    assert UseLen(m, [x] + (g + h)) == UseLen(m, [x] + g);
    SealedRest(m, c, |g| + 1, h);
    TotalAppend(m, f, g, h);
    TotalAppend(m, f, g, []);
    assert g + [] == g && c + [] == c && [x] + g + [] == [x] + g;
    ScoreAcross(m, x, g, h);
    BackSumSplit(m, g + h, |g|, UseLen(m, g + h), |g + h|);
    BackSumOfForgotten(m, g + h, UseLen(m, g + h), |g + h|);
  }

  /** So a fragment is charged early behind all of it exactly as behind the last fragment alone. */
  lemma {:induction false} ChargeAfterCharge(m: Model, f: Gram, g: Gram, h: Gram)
    requires Valid(m) && Known(m, f) && f != [] && Known(m, g) && ChargedEarly(m, g, h)
    ensures ChargedEarly(m, f, g + h) <==> ChargedEarly(m, f, g)
    ensures ChargedEarly(m, f, g) ==> EarlyCharge(m, f, g + h) == EarlyCharge(m, f, g)
  {
    WordsAfterCharge(m, f, g, h);
    var n := UseLen(m, f + g);
    assert n == |Canonical(m, f + g).words| == |Canonical(m, f + (g + h)).words| == UseLen(m, f + (g + h));
    if ChargedEarly(m, f, g) {
      assert (f + (g + h))[..n] == (f + g)[..n];
      BackSumDependsOnPrefix(m, f + (g + h), f + g, |f|, n);
    }
  }

  /** Gluing behind a fragment charged early, in terms of that fragment alone. */
  lemma {:induction false} GluedAfterCharge(m: Model, f: Gram, g: Gram, w: Gram, b: Gram, left: seq<Gram>, right: State,
                                            prob: real, s: Progress)
    requires Valid(m) && Known(m, f) && f != [] && Ahead(m, g, w, b, left, right, true)
    requires Glued(m, f, [], g, prob, s) && s.left == left && s.done
    ensures ChargedEarly(m, f, g + w + b) <==> ChargedEarly(m, f, g)
    ensures s.prob == prob + Gain(m, f, g + w + b) - EarlyCharge(m, g, w + b)
                      + if ChargedEarly(m, f, g + w + b) then EarlyCharge(m, f, g + w + b) else 0.0
    ensures if ChargedEarly(m, f, g + w + b) then Ahead(m, f, g + w, b, left, s.right, true)
            else Summary(m, f + (g + w), b, left, s.right, true)
  {
    var h := w + b;
    assert g + w + b == g + h && [] + g == g && f + [] == f && (f + (g + w)) + b == f + (g + h);
    KnownParts(m, g, w);
    WordsAfterCharge(m, f, g, h);
    ChargeAfterCharge(m, f, g, h);
    assert b == [] ==> h == w && g + h == g + w;
    KnownJoined(m, f, g + w);
    CanonicalRepresents(m, f + (g + h));
  }

  lemma {:induction false} KnownJoined(m: Model, g: Gram, f: Gram)
    requires Known(m, g) && Known(m, f)
    ensures Known(m, g + f)
  {
  }

  /** How much gluing `g` behind `h` adds to the score `g` had on its own. */
  function Gain(m: Model, g: Gram, h: Gram): real {
    Total(m, g, h) - Total(m, g, [])
  }

  lemma {:induction false} GainStep(m: Model, g: Gram, e: nat, h: Gram)
    requires 1 <= e <= |g|
    ensures Gain(m, Oldest(g, e), h)
         == Gain(m, Oldest(g, e - 1), h) + Score(m, Oldest(g, e) + h) - Score(m, Oldest(g, e))
  {
    assert Oldest(g, e)[1..] == Oldest(g, e - 1);
    assert Oldest(g, e) + [] == Oldest(g, e);
  }

  /** The first word that cannot grow to the left pays what is left of the history. */
  lemma {:induction false} SeamCharged(m: Model, g: Gram, e: nat, h: Gram, use: nat, back: seq<real>)
    requires Valid(m) && Known(m, g) && e < |g| && h != []
    requires !LeftExtends(m, Oldest(g, e + 1)) && Seam(m, g, e, h, use, back)
    ensures Gain(m, Oldest(g, e + 1), h) == Gain(m, Oldest(g, e), h) + Sum(back)
    ensures UseLen(m, Oldest(g, e + 1) + h) <= e + 1
    ensures Pointers(m, Oldest(g, e + 1) + h) == Pointers(m, Oldest(g, e) + h)
  {
    var x, q := g[|g| - e - 1], Oldest(g, e);
    assert Oldest(g, e + 1) == [x] + q;
    ChargeBackoffs(m, x, q, h);
    SeamSum(m, q, h, use);
    GainStep(m, g, e + 1, h);
    assert ([x] + q + h)[1..] == q + h;
  }

  lemma {:induction false} SeamSum(m: Model, q: Gram, h: Gram, use: nat)
    requires Valid(m) && use <= |h| && UseLen(m, q + h) <= |q| + use
    ensures BackSum(m, q + h, |q|, |q + h|) == Sum(BackoffsFrom(m, q + h[..use], |q|))
  {
    var c, d, e := q + h, q + h[..use], |q|;
    SumIsBackSum(m, d, e, 0);
    assert BackoffsFrom(m, d, e)[0..] == BackoffsFrom(m, d, e);
    assert c[..e + use] == d && d[..e + use] == d;
    BackSumDependsOnPrefix(m, c, d, e, e + use);
    BackSumSplit(m, c, e, e + use, |c|);
    BackSumOfForgotten(m, c, e + use, |c|);
  }

  /** Summary of the glued words when nothing reaches across the seam after `e` words. */
  lemma {:induction false} SummarySealed(m: Model, g: Gram, e: nat, w: Gram, b: Gram, left: seq<Gram>)
    requires Valid(m) && Known(m, g) && Known(m, w) && e <= |g| && g != [] && w + b != []
    requires UseLen(m, Oldest(g, e) + (w + b)) <= e
    requires b == [] ==> left == Pointers(m, Oldest(g, e) + w)
    ensures Summary(m, g + w, b, left, Canonical(m, g), true) && Canonical(m, g + (w + b)) == Canonical(m, g)
    ensures Gain(m, g, w + b) == Gain(m, Oldest(g, e), w + b)
    ensures !ChargedEarly(m, g, w + b)
  {
    var h := w + b;
    SealedRest(m, g, e, h);
    if b == [] {
      assert h == w;
    } else {
      assert (g + w) + b == g + h;
      CanonicalRepresents(m, g + h);
    }
  }

  /** A fragment glued to nothing keeps its own summary. */
  lemma {:induction false} SummaryAlone(m: Model, g: Gram)
    requires Valid(m) && Known(m, g)
    ensures Summary(m, g, [], Pointers(m, g), Canonical(m, g), Full(m, g))
    ensures g + [] == g && Gain(m, g, []) == 0.0
    ensures !ChargedEarly(m, g, [])
  {
    assert g + [] == g;
    CanonicalRepresents(m, g);
  }

  /** Summary when the whole fragment keeps `use` words of the history alive. */
  lemma {:induction false} SummaryGlued(m: Model, g: Gram, w: Gram, b: Gram, use: nat, back: seq<real>, left: seq<Gram>,
                                        done: bool)
    requires Valid(m) && Known(m, g) && Known(m, w)
    requires RightExtends(m, g) && use > 0 && Seam(m, g, |g|, w + b, use, back)
    requires UseLen(m, g + (w + b)) == |g| + use
    requires if b == [] then LeftOk(m, Oldest(g, |g|) + w, left, done) else done
    ensures Summary(m, g + w, b, left, State(g + (w + b)[..use], Backoffs(m, g, |g|) + back), done)
    ensures Canonical(m, g + (w + b)) == State(g + (w + b)[..use], Backoffs(m, g, |g|) + back)
    ensures Canonical(m, g) == State(g, Backoffs(m, g, |g|))
  {
    SeamGlued(m, g, w + b, use, back);
    assert Oldest(g, |g|) == g && (g + w) + b == g + (w + b);
    CanonicalRepresents(m, g + (w + b));
    if b == [] {
      assert w + b == w && (g + w) + b == g + w;
    }
  }

  /**
   What a full fragment ends in: its next word pays the backoffs of the seam, or, when it
   has no next word, they are charged before anyone owes them.
   */
  lemma {:induction false} SummaryFull(m: Model, g: Gram, e: nat, w: Gram, b: Gram, use: nat, back: seq<real>,
                                       left: seq<Gram>)
    requires Valid(m) && Known(m, g) && Known(m, w) && w + b != []
    requires Full(m, g) && 0 < e == |Pointers(m, g)| <= |g| && use > 0 && Seam(m, g, e, w + b, use, back)
    requires UseLen(m, Oldest(g, e) + (w + b)) == e + use
    requires b == [] ==> left == Pointers(m, Oldest(g, e) + w)
    ensures ChargedEarly(m, g, w + b) <==> e == |g|
    ensures e < |g| ==>
              Summary(m, g + w, b, left, Canonical(m, g), true) && Canonical(m, g + (w + b)) == Canonical(m, g)
    ensures e < |g| ==> Gain(m, g, w + b) == Gain(m, Oldest(g, e), w + b) + Sum(back)
    ensures e == |g| ==> Oldest(g, e) == g && Sum(back) == EarlyCharge(m, g, w + b)
  {
    var h := w + b;
    PointersAreOldest(m, g);
    if e < |g| {
      SeamCharged(m, g, e, h, use, back);
      if b == [] {
        assert h == w;
      }
      SummarySealed(m, g, e + 1, w, b, left);
    } else {
      assert Oldest(g, e) == g;
      SeamSum(m, g, h, use);
      BackSumSplit(m, g + h, |g|, |g| + use, |g + h|);
      BackSumOfForgotten(m, g + h, |g| + use, |g + h|);
    }
  }

  /** An open fragment lengthens the history it is glued to. */
  lemma {:induction false} SeamGlued(m: Model, g: Gram, h: Gram, use: nat, back: seq<real>)
    requires Valid(m) && RightExtends(m, g) && Seam(m, g, |g|, h, use, back)
    requires use > 0 && UseLen(m, g + h) == |g| + use
    ensures Canonical(m, g + h) == State(g + h[..use], Backoffs(m, g, |g|) + back)
    ensures Canonical(m, g) == State(g, Backoffs(m, g, |g|))
  {
    UseAll(m, g);
    assert g[..|g|] == g && Oldest(g, |g|) == g;
    var a, b := g + h, g + h[..use];
    assert forall j :: 0 <= j <= |g| + use ==> a[..j] == b[..j];
    assert forall j :: 0 <= j <= |g| ==> a[..j] == g[..j];
    assert Backoffs(m, a, |g| + use) == Backoffs(m, g, |g|) + back;
  }

  // ---------------------------------------------------------------- re-scoring across the seam

  /** The fields RuleScore changes while it glues: left pointers, right state, done flag, score. */
  datatype Progress = Progress(left: seq<Gram>, right: State, done: bool, prob: real)

  /** Both edges of the seam after the `e` oldest words of `g` have been re-scored. */
  ghost predicate AtSeam(m: Model, g: Gram, e: nat, w: Gram, b: Gram, use: nat, back: seq<real>, s: Progress)
    requires e <= |g|
  {
    && Seam(m, g, e, w + b, use, back)
    && (use > 0 && e > 0 ==> UseLen(m, Oldest(g, e) + (w + b)) == e + use)
    && if b == [] then LeftOk(m, Oldest(g, e) + w, s.left, s.done) && (s.done || use == |w|)
       else s.done
  }

  lemma {:induction false} AtSeamStart(m: Model, g: Gram, w: Gram, b: Gram, s: Progress)
    requires Valid(m) && Summary(m, w, b, s.left, s.right, s.done)
    ensures AtSeam(m, g, 0, w, b, |s.right.words|, s.right.backoff, s)
    ensures Represents(m, w + b, s.right)
    ensures Gain(m, Oldest(g, 0), w + b) == 0.0
  {
    SummaryRepresents(m, w, b, s.left, s.right, s.done);
    SeamStart(m, g, w + b, s.right);
    UseAll(m, w);
    assert Oldest(g, 0) + w == w;
  }

  /** Once the left edge is done it never changes. */
  predicate KeepsLeft(start: Progress, s: Progress) {
    start.done ==> s.done && s.left == start.left
  }

  /** The private ExtendLeft of RuleScore: re-scores word `e` of the fragment behind `next`. */
  method ExtendWord(m: Model, next: ChartState, nextUse: nat, e: nat, backIn: seq<real>, s: Progress,
                    ghost g: Gram, ghost w: Gram, ghost b: Gram)
    returns (early: bool, use: nat, backOut: seq<real>, s': Progress)
    requires Valid(m) && Known(m, g) && next == CanonicalChart(m, g)
    requires 1 <= e <= |next.left| <= |g| && PointerAt(m, g, e)
    requires 0 < nextUse <= |s.right.words| && Represents(m, w + b, s.right)
    requires AtSeam(m, g, e - 1, w, b, nextUse, backIn, s)
    ensures s'.prob == s.prob + Score(m, Oldest(g, e) + (w + b)) - Score(m, Oldest(g, e))
    ensures use <= |s.right.words| && AtSeam(m, g, e, w, b, use, backOut, s')
    ensures early <==> use == 0
    ensures early ==> s'.done
    ensures KeepsLeft(s, s')
    ensures s'.right == if early then next.right else s.right
  {
    var ret, back;
    ret, back, use := Rescore(m, next.left[e - 1], nextUse, e, backIn, s.right, g, w + b);
    backOut := back[..use];
    AtSeamStep(m, g, e, w, b, nextUse, backIn, s, ret, use, back);
    s' := ProcessRet(s, ret);
    early := false;
    if use != |s'.right.words| {
      s' := s'.(done := true);
      if use == 0 {
        s' := s'.(right := next.right);
        early := true;
      }
    }
  }

  /** The call of the model's ExtendLeft at the seam. */
  method Rescore(m: Model, pointer: Gram, nextUse: nat, e: nat, backIn: seq<real>, right: State, ghost g: Gram,
                 ghost h: Gram)
    returns (ret: Return, back: seq<real>, use: nat)
    requires Valid(m) && 1 <= e <= |g| && pointer == Oldest(g, e) && LeftExtends(m, pointer)
    requires 0 < nextUse <= |right.words| && Represents(m, h, right) && Seam(m, g, e - 1, h, nextUse, backIn)
    ensures nextUse <= |h| && ret.prob == Score(m, Oldest(g, e) + h[..nextUse]) - m.table[Oldest(g, e)].prob
    ensures ret.independentLeft <==> !LeftExtends(m, Oldest(g, e) + h[..nextUse])
    ensures !ret.independentLeft ==> ret.extendLeft == Oldest(g, e) + h[..nextUse]
    ensures use == NextUse(m, Oldest(g, e), h[..nextUse]) <= |back|
    ensures forall i :: 0 <= i < use ==> back[i] == BackoffOf(m, (Oldest(g, e) + h[..nextUse])[..e + i + 1])
  {
    SeamCall(m, g, e, h, nextUse, backIn);
    assert right.words[..nextUse] == h[..nextUse];
    ret, back, use := Query.ExtendLeft(m, right.words[..nextUse], backIn, pointer);
  }

  function ProcessRet(s: Progress, ret: Return): Progress {
    var t := s.(prob := s.prob + ret.prob);
    if t.done then t
    else if ret.independentLeft then t.(done := true)
    else t.(left := t.left + [ret.extendLeft])
  }

  /** The backoffs kept at the seam are the ones the next word has to be given. */
  lemma {:induction false} SeamCall(m: Model, g: Gram, e: nat, h: Gram, use: nat, back: seq<real>)
    requires 1 <= e <= |g| && Seam(m, g, e - 1, h, use, back)
    ensures back == BackoffsFrom(m, (Oldest(g, e) + h[..use])[1..], e - 1)
    ensures e + use <= m.order
  {
    assert (Oldest(g, e) + h[..use])[1..] == Oldest(g, e - 1) + h[..use];
  }

  lemma {:induction false} AtSeamStep(m: Model, g: Gram, e: nat, w: Gram, b: Gram, use: nat, back: seq<real>,
                                      s: Progress, ret: Return, use': nat, back': seq<real>)
    requires Valid(m) && Known(m, g) && 1 <= e <= |g| && LeftExtends(m, Oldest(g, e))
    requires 0 < use <= |s.right.words| && Represents(m, w + b, s.right)
    requires AtSeam(m, g, e - 1, w, b, use, back, s)
    requires ret.prob == Score(m, Oldest(g, e) + (w + b)[..use]) - m.table[Oldest(g, e)].prob
    requires ret.independentLeft <==> !LeftExtends(m, Oldest(g, e) + (w + b)[..use])
    requires !ret.independentLeft ==> ret.extendLeft == Oldest(g, e) + (w + b)[..use]
    requires use' == NextUse(m, Oldest(g, e), (w + b)[..use]) <= |back'|
    requires forall i :: 0 <= i < use' ==> back'[i] == BackoffOf(m, (Oldest(g, e) + (w + b)[..use])[..e + i + 1])
    ensures var t := ProcessRet(s, ret);
            AtSeam(m, g, e, w, b, use', back'[..use'], t.(done := t.done || use' != |s.right.words|))
    ensures ret.prob == Score(m, Oldest(g, e) + (w + b)) - Score(m, Oldest(g, e))
  {
    var h := w + b;
    var p, q := Oldest(g, e), Oldest(g, e - 1);
    assert p[..|p|] == p;
    assert p == [p[0]] + q && p[0] == g[|g| - e];
    SeamStep(m, g, e, h, use, back, use', back');
    if b == [] {
      assert h == w && h[..|w|] == w;
      EdgeStep(m, p, q, w, s.left, s.done, use', ret.independentLeft);
    }
  }

  /** The left edge after one more word, in the terms ProcessRet and ExtendLeft use. */
  lemma {:induction false} EdgeStep(m: Model, p: Gram, q: Gram, w: Gram, left: seq<Gram>, done: bool, use: nat,
                                    independent: bool)
    requires Valid(m) && p != [] && p == [p[0]] + q && use <= |w| && w != []
    requires LeftOk(m, q + w, left, done)
    requires UseLen(m, p + w) <= |p| + use && (use > 0 ==> UseLen(m, p + w) == |p| + use)
    requires !done ==> (independent <==> !LeftExtends(m, p + w))
    ensures LeftOk(m, p + w, if done || independent then left else left + [p + w], done || independent || use != |w|)
  {
    assert (p + w)[1..] == q + w;
    assert [p[0]] + (q + w) == p + w;
    if done {
      FullStaysFull(m, p[0], q + w);
    }
    UseAll(m, p + w);
  }

  /** The loop of NonTerminal: re-scores the words at the left edge one by one. */
  method ExtendWords(m: Model, next: ChartState, start: Progress, ghost g: Gram, ghost w: Gram, ghost b: Gram)
    returns (early: bool, nextUse: nat, back: seq<real>, s: Progress, ghost e: nat)
    requires Valid(m) && Known(m, g) && next == CanonicalChart(m, g)
    requires Summary(m, w, b, start.left, start.right, start.done)
    requires |next.left| > 0 && |start.right.words| > 0
    ensures 0 < e <= |next.left| <= |g| && AtSeam(m, g, e, w, b, nextUse, back, s)
    ensures s.prob == start.prob + Gain(m, Oldest(g, e), w + b) && KeepsLeft(start, s)
    ensures early <==> nextUse == 0
    ensures if early then s.done && s.right == next.right
            else e == |next.left| && s.right == start.right && nextUse <= |s.right.words|
  {
    AtSeamStart(m, g, w, b, start);
    PointersAreOldest(m, g);
    s := start;
    nextUse, back, early, e := |s.right.words|, s.right.backoff, false, 0;
    var extendLength := 1;
    while extendLength <= |next.left|
      invariant 1 <= extendLength == e + 1 <= |next.left| + 1
      invariant 0 < nextUse <= |s.right.words| && s.right == start.right && !early
      invariant Rescored(m, g, e, w, b, nextUse, back, start, s)
    {
      ghost var before := s;
      assert PointerAt(m, g, e + 1);
      early, nextUse, back, s := ExtendWord(m, next, nextUse, extendLength, back, s, g, w, b);
      RescoredStep(m, g, e + 1, w, b, nextUse, back, start, before, s);
      e := e + 1;
      if early {
        return;
      }
      extendLength := extendLength + 1;
    }
  }

  /** Seam, score and left edge once the `e` oldest words have been re-scored. */
  ghost predicate Rescored(m: Model, g: Gram, e: nat, w: Gram, b: Gram, use: nat, back: seq<real>,
                           start: Progress, s: Progress) {
    && e <= |g| && AtSeam(m, g, e, w, b, use, back, s)
    && s.prob == start.prob + Gain(m, Oldest(g, e), w + b) && KeepsLeft(start, s)
  }

  lemma {:induction false} RescoredStep(m: Model, g: Gram, e: nat, w: Gram, b: Gram, use: nat, back: seq<real>,
                                        start: Progress, before: Progress, s: Progress)
    requires 1 <= e <= |g| && AtSeam(m, g, e, w, b, use, back, s) && KeepsLeft(start, before) && KeepsLeft(before, s)
    requires before.prob == start.prob + Gain(m, Oldest(g, e - 1), w + b)
    requires s.prob == before.prob + Score(m, Oldest(g, e) + (w + b)) - Score(m, Oldest(g, e))
    ensures Rescored(m, g, e, w, b, use, back, start, s)
  {
    GainStep(m, g, e, w + b);
  }

  /** NonTerminal once both edges of the seam hold words. */
  method GlueWords(m: Model, next: ChartState, start: Progress, ghost g: Gram, ghost w: Gram, ghost b: Gram)
    returns (s: Progress)
    requires Valid(m) && Known(m, g) && next == CanonicalChart(m, g)
    requires Summary(m, w, b, start.left, start.right, start.done)
    requires |next.left| > 0 && |start.right.words| > 0
    ensures Glued(m, g, w, b, start.prob, s) && KeepsLeft(start, s)
  {
    SummaryRepresents(m, w, b, start.left, start.right, start.done);
    var early, nextUse, back;
    ghost var e;
    early, nextUse, back, s, e := ExtendWords(m, next, start, g, w, b);
    if early {
      GluedEarly(m, g, e, w, b, back, start.prob, s);
    } else if next.full {
      var prob := Accumulate(back, 0, s.prob);
      GluedFull(m, g, e, w, b, nextUse, back, start.prob, s);
      assert back[0..] == back;
      s := Progress(s.left, next.right, true, prob);
    } else {
      GluedOpen(m, g, e, w, b, nextUse, back, start.prob, s);
      var minimised := |next.right.words| < |next.left|;
      s := s.(right := if minimised then next.right
                       else State(next.right.words + s.right.words[..nextUse], next.right.backoff + back));
    }
  }

  lemma {:induction false} GluedEarly(m: Model, g: Gram, e: nat, w: Gram, b: Gram, back: seq<real>, prob: real,
                                      s: Progress)
    requires Valid(m) && Known(m, g) && Known(m, w) && w + b != [] && 0 < e <= |g|
    requires AtSeam(m, g, e, w, b, 0, back, s)
    requires s.done && s.right == Canonical(m, g) && s.prob == prob + Gain(m, Oldest(g, e), w + b)
    ensures Glued(m, g, w, b, prob, s)
  {
    SummarySealed(m, g, e, w, b, s.left);
  }

  lemma {:induction false} GluedFull(m: Model, g: Gram, e: nat, w: Gram, b: Gram, use: nat, back: seq<real>, prob: real,
                                     s: Progress)
    requires Valid(m) && Known(m, g) && Known(m, w) && w + b != []
    requires Full(m, g) && 0 < e == |Pointers(m, g)| <= |g| && use > 0
    requires AtSeam(m, g, e, w, b, use, back, s) && s.prob == prob + Gain(m, Oldest(g, e), w + b)
    ensures Glued(m, g, w, b, prob, Progress(s.left, Canonical(m, g), true, s.prob + Sum(back)))
  {
    SummaryFull(m, g, e, w, b, use, back, s.left);
  }

  lemma {:induction false} GluedOpen(m: Model, g: Gram, e: nat, w: Gram, b: Gram, use: nat, back: seq<real>, prob: real,
                                     s: Progress)
    requires Valid(m) && Known(m, g) && Known(m, w) && w + b != []
    requires !Full(m, g) && 0 < e == |Pointers(m, g)| && e <= |g| && use > 0
    requires AtSeam(m, g, e, w, b, use, back, s) && s.prob == prob + Gain(m, Oldest(g, e), w + b)
    ensures e == |g| && Canonical(m, g) == State(g, Backoffs(m, g, |g|))
    ensures Glued(m, g, w, b, prob, s.(right := State(g + (w + b)[..use], Backoffs(m, g, |g|) + back)))
  {
    PointersAreOldest(m, g);
    PointersOfExtending(m, g);
    assert Oldest(g, e) == g;
    SummaryGlued(m, g, w, b, use, back, s.left, s.done);
  }

  /** What gluing fragment `g` behind the words `w` after `b` has to achieve, and when it does not. */
  ghost predicate Glued(m: Model, g: Gram, w: Gram, b: Gram, prob: real, s: Progress) {
    if ChargedEarly(m, g, w + b)
    then Ahead(m, g, w, b, s.left, s.right, s.done) && s.prob == prob + Gain(m, g, w + b) + EarlyCharge(m, g, w + b)
    else && Summary(m, g + w, b, s.left, s.right, s.done) && s.prob == prob + Gain(m, g, w + b)
         && (g != [] ==> s.right == Canonical(m, g + (w + b)))
  }

  method Glue(m: Model, next: ChartState, start: Progress, ghost g: Gram, ghost w: Gram, ghost b: Gram)
    returns (s: Progress)
    requires Valid(m) && Known(m, g) && next == CanonicalChart(m, g)
    requires Summary(m, w, b, start.left, start.right, start.done)
    ensures Glued(m, g, w, b, start.prob, s) && KeepsLeft(start, s)
    ensures g == [] ==> s == start
  {
    s := start;
    if |next.left| == 0 {
      if next.full {
        GluedNoPointers(m, g, w, b, start);
        var prob := Accumulate(s.right.backoff, 0, s.prob);
        assert s.right.backoff[0..] == s.right.backoff;
        s := Progress(s.left, next.right, true, prob);
      } else {
        PointersAreOldest(m, g);
        assert g == [] && [] + w == w && [] + (w + b) == w + b;
      }
      return;
    }

    if |s.right.words| == 0 {
      GluedNoHistory(m, g, w, b, start);
      s := if s.done then s.(right := next.right)
           else if |s.left| != 0 then s.(right := next.right, done := true)
           else Progress(next.left, next.right, next.full, s.prob);
      return;
    }
    s := GlueWords(m, next, start, g, w, b);
  }

  /** The first branch: a fragment without pointers pays all backoffs of the history. */
  lemma {:induction false} GluedNoPointers(m: Model, g: Gram, w: Gram, b: Gram, s: Progress)
    requires Valid(m) && Known(m, g) && Summary(m, w, b, s.left, s.right, s.done)
    requires Pointers(m, g) == [] && Full(m, g)
    ensures g != [] && Glued(m, g, w, b, s.prob, Progress(s.left, Canonical(m, g), true, s.prob + Sum(s.right.backoff)))
  {
    ghost var h := w + b;
    SummaryRepresents(m, w, b, s.left, s.right, s.done);
    PointersAreOldest(m, g);
    if h == [] {
      assert w == [] && b == [];
      SummaryAlone(m, g);
    } else {
      SeamStart(m, g, h, s.right);
      SeamCharged(m, g, 0, h, |s.right.words|, s.right.backoff);
      assert Oldest(g, 0) + h == h && (b == [] ==> h == w);
      SummarySealed(m, g, 1, w, b, s.left);
    }
  }

  /** The second branch: no word of the history can matter. */
  lemma {:induction false} GluedNoHistory(m: Model, g: Gram, w: Gram, b: Gram, s: Progress)
    requires Valid(m) && Known(m, g) && Summary(m, w, b, s.left, s.right, s.done) && |s.right.words| == 0
    requires Pointers(m, g) != []
    ensures Glued(m, g, w, b, s.prob,
                  if s.done then s.(right := Canonical(m, g))
                  else if |s.left| != 0 then s.(right := Canonical(m, g), done := true)
                  else Progress(Pointers(m, g), Canonical(m, g), Full(m, g), s.prob))
  {
    ghost var h := w + b;
    SummaryRepresents(m, w, b, s.left, s.right, s.done);
    PointersAreOldest(m, g);
    if h == [] {
      assert w == [] && b == [];
      SummaryAlone(m, g);
    } else {
      assert Oldest(g, 0) + h == h && Oldest(g, 0) + w == w && (b == [] ==> h == w);
      SummarySealed(m, g, 0, w, b, s.left);
      UseAll(m, w);
    }
  }

  /** The words are summarised, or their last fragment of `n` words is charged early. */
  ghost predicate Came(m: Model, words: Gram, before: Gram, n: nat, total: real, s: Progress) {
    && n <= |words|
    && (before != [] ==> s.left == [])
    && if Ahead(m, words[..n], words[n..], before, s.left, s.right, s.done)
       then s.prob == total + EarlyCharge(m, words[..n], words[n..] + before)
       else Summary(m, words, before, s.left, s.right, s.done) && s.prob == total
  }

  lemma {:induction false} CameRight(m: Model, g: Gram, w: Gram, b: Gram, start: real, s: Progress)
    requires Glued(m, g, w, b, start, s) && (b != [] ==> s.left == [])
    ensures Came(m, g + w, b, |g|, start + Gain(m, g, w + b), s)
    ensures Ahead(m, (g + w)[..|g|], (g + w)[|g|..], b, s.left, s.right, s.done) <==> ChargedEarly(m, g, w + b)
  {
    SplitsAt(g, w);
  }

  lemma {:induction false} CameAhead(m: Model, f: Gram, g: Gram, w: Gram, b: Gram, left: seq<Gram>, right: State,
                                     start: real, s: Progress)
    requires Valid(m) && Known(m, f) && f != [] && Ahead(m, g, w, b, left, right, true) && (b != [] ==> left == [])
    requires Glued(m, f, [], g, start, s) && s.left == left && s.done
    ensures Came(m, f + (g + w), b, |f|, start - EarlyCharge(m, g, w + b) + Gain(m, f, g + w + b), s)
    ensures Ahead(m, (f + (g + w))[..|f|], (f + (g + w))[|f|..], b, s.left, s.right, s.done)
            <==> ChargedEarly(m, f, g + w + b)
  {
    SplitsAt(f, g + w);
    GluedAfterCharge(m, f, g, w, b, left, right, start, s);
  }

  lemma {:induction false} AheadFits(m: Model, g: Gram, w: Gram, b: Gram, left: seq<Gram>, right: State, done: bool)
    requires Valid(m) && Ahead(m, g, w, b, left, right, done)
    ensures Summary(m, [], g, left, right, done)
  {
    CanonicalRepresents(m, g);
    assert [] + g == g;
  }

  lemma {:induction false} SplitsAt(g: Gram, w: Gram)
    ensures (g + w)[..|g|] == g && (g + w)[|g|..] == w
  {
  }

  class RuleScore {
    const m: Model
    var out: ChartState
    var leftDone: bool
    var prob: real

    /** The words glued so far, newest first, and what stood before them: nothing or <s>. */
    ghost var words: Gram
    ghost var before: Gram
    /** How many of them the last non-terminal brought. */
    ghost var last: nat

    ghost predicate WellFormed()
      reads this
    {
      && Valid(m)
      && Summary(m, words, before, out.left, out.right, leftDone) && (before != [] ==> out.left == [])
    }

    /** The last non-terminal was charged for the word that has yet to come. */
    ghost predicate ChargedAhead()
      reads this
    {
      && Valid(m) && last <= |words|
      && Ahead(m, words[..last], words[last..], before, out.left, out.right, leftDone)
      && (before != [] ==> out.left == [])
    }

    /** What has been charged that no word so far owes. */
    ghost function Advance(): real
      reads this
    {
      if ChargedAhead() && !WellFormed() then EarlyCharge(m, words[..last], words[last..] + before) else 0.0
    }

    constructor (model: Model)
      requires Valid(model)
      ensures m == model && WellFormed() && words == [] && before == [] && prob == 0.0
    {
      m := model;
      out := ChartState([], false, State([], []));
      leftDone, prob := false, 0.0;
      words, before, last := [], [], 0;
    }

    method BeginSentence(bos: Word)
      requires WellFormed() && words == [] && before == [] && [bos] in m.table
      modifies this
      ensures WellFormed() && words == [] && before == [bos] && prob == old(prob)
    {
      StartStatesRepresent(m, bos);
      out := out.(right := BeginSentenceState(m, bos));
      leftDone := true;
      before := [bos];
      assert words + before == [bos];
    }

    method Terminal(word: Word)
      requires (WellFormed() || ChargedAhead()) && [word] in m.table
      modifies this
      ensures WellFormed() && words == [word] + old(words) && before == old(before)
      ensures prob == old(prob) - old(Advance()) + Score(m, words + before)
    {
      ghost var h := if WellFormed() then words + before else words[..last];
      RightRepresents();
      var copy := out.right;
      var ret, right := FullScore(m, copy, word, h);
      WordAdded(word, ret, right);
      out := out.(right := right);
      prob := prob + ret.prob;
      words := [word] + words;
      if leftDone {
        return;
      }
      if ret.independentLeft {
        leftDone := true;
        return;
      }
      out := out.(left := out.left + [ret.extendLeft]);
      if |out.right.words| != |copy.words| + 1 {
        leftDone := true;
      }
    }

    /** The right state keeps enough of all the words, or else of the last fragment. */
    lemma {:induction false} RightRepresents()
      requires WellFormed() || ChargedAhead()
      ensures Represents(m, if WellFormed() then words + before else words[..last], out.right)
    {
      if WellFormed() {
        SummaryRepresents(m, words, before, out.left, out.right, leftDone);
      } else {
        CanonicalRepresents(m, words[..last]);
      }
    }

    /** A word scored from the right state extends the summary, or restores it. */
    lemma {:induction false} WordAdded(x: Word, ret: Return, right: State)
      requires (WellFormed() || ChargedAhead()) && [x] in m.table
      requires right == Canonical(m, [x] + if WellFormed() then words + before else words[..last])
      requires WellFormed() ==> (ret.independentLeft <==> !LeftExtends(m, [x] + out.right.words))
      requires WellFormed() && !ret.independentLeft ==> ret.extendLeft == [x] + out.right.words
      ensures var closed := leftDone || ret.independentLeft;
              Summary(m, [x] + words, before, if closed then out.left else out.left + [ret.extendLeft], right,
                      closed || |right.words| != |out.right.words| + 1)
      ensures [x] + (words + before) == ([x] + words) + before
      ensures !WellFormed() ==> Score(m, ([x] + words) + before) == Score(m, [x] + words[..last]) + Advance()
    {
      if WellFormed() {
        SummaryWord(m, x, words, before, out.left, out.right, leftDone, ret, right);
      } else {
        AdvanceSettled(x);
      }
    }

    lemma {:induction false} AdvanceSettled(x: Word)
      requires ChargedAhead() && !WellFormed() && [x] in m.table
      ensures Score(m, ([x] + words) + before) == Score(m, [x] + words[..last]) + Advance()
      ensures Summary(m, [x] + words, before, out.left, Canonical(m, [x] + words[..last]), true)
    {
      var g, w := words[..last], words[last..];
      assert g + w == words && g + (w + before) == words + before;
      assert [x] + (words + before) == ([x] + words) + before;
      WordAfterCharge(m, x, g, w, before, out.left, out.right);
    }

    method NonTerminal(next: ChartState, p: real, ghost g: Gram)
      requires (WellFormed() || ChargedAhead()) && Known(m, g) && next == CanonicalChart(m, g)
      modifies this
      ensures words == g + old(words) && before == old(before)
      ensures prob == old(prob) - old(Advance()) + p + Gain(m, g, old(words) + before) + Advance()
      ensures WellFormed() || ChargedAhead()
      ensures g != [] || old(WellFormed()) ==> (WellFormed() <==> !ChargedEarly(m, g, old(words) + before))
    {
      ghost var right, n := WellFormed(), NewLast(g);
      FitsGlue();
      var s := Glue(m, next, Progress(out.left, out.right, leftDone, prob + p), g,
                    if right then words else [], if right then before else words[..last]);
      Outcome(g, prob + p, s);
      out := ChartState(s.left, out.full, s.right);
      leftDone, prob := s.done, s.prob;
      words, last := g + words, n;
      CameTo(old(prob) - old(Advance()) + p + Gain(m, g, old(words) + before));
    }

    lemma {:induction false} CameTo(total: real)
      requires Valid(m) && Came(m, words, before, last, total, Progress(out.left, out.right, leftDone, prob))
      ensures WellFormed() || ChargedAhead()
      ensures prob == total + Advance()
      ensures WellFormed() <==> !Ahead(m, words[..last], words[last..], before, out.left, out.right, leftDone)
    {
      assert words[..last] + words[last..] == words;
      if ChargedAhead() {
        AheadIsNoSummary(m, words[..last], words[last..], before, out.left, out.right, leftDone);
      }
    }

    ghost function NewLast(g: Gram): nat
      reads this
    {
      if g != [] || WellFormed() then |g| else last
    }

    /** Behind a fragment charged early the state is one of that fragment alone. */
    lemma {:induction false} FitsGlue()
      requires WellFormed() || ChargedAhead()
      ensures WellFormed() ==> Summary(m, words, before, out.left, out.right, leftDone)
      ensures !WellFormed() ==> Summary(m, [], words[..last], out.left, out.right, leftDone)
    {
      if !WellFormed() {
        AheadFits(m, words[..last], words[last..], before, out.left, out.right, leftDone);
      }
    }

    /** What gluing comes to, right or ahead again. */
    lemma {:induction false} Outcome(g: Gram, start: real, s: Progress)
      requires (WellFormed() || ChargedAhead()) && Known(m, g)
      requires Glued(m, g, if WellFormed() then words else [], if WellFormed() then before else words[..last], start, s)
      requires KeepsLeft(Progress(out.left, out.right, leftDone, start), s)
      requires g == [] ==> s == Progress(out.left, out.right, leftDone, start)
      ensures Came(m, g + words, before, NewLast(g), start - Advance() + Gain(m, g, words + before), s)
      ensures g != [] || WellFormed() ==>
                (Ahead(m, (g + words)[..NewLast(g)], (g + words)[NewLast(g)..], before, s.left, s.right, s.done)
                 <==> ChargedEarly(m, g, words + before))
    {
      if WellFormed() {
        CameRight(m, g, words, before, start, s);
      } else {
        var f, w := words[..last], words[last..];
        assert f + w == words && f + w + before == words + before;
        if g == [] {
          assert g + words == words;
        } else {
          CameAhead(m, g, f, w, before, out.left, out.right, start, s);
        }
      }
    }

    /** `chart` summarises `g` standing after `b`: nothing, or the beginning of a sentence. */
    method BeginNonTerminal(next: ChartState, p: real, ghost g: Gram, ghost b: Gram)
      requires Valid(m) && Known(m, g) && Stands(m, g, b, next)
      modifies this
      ensures WellFormed() && words == g && before == b && prob == p
    {
      prob := p;
      out := next;
      leftDone := next.full;
      words, before, last := g, b, |g|;
    }

    method Finish() returns (p: real)
      requires WellFormed()
      modifies this
      ensures p == prob == old(prob) && words == old(words) && before == old(before)
      ensures Stands(m, words, before, out)
    {
      if before == [] {
        LeftLength(m, words);
      }
      out := out.(full := leftDone || |out.left| == m.order - 1);
      return prob;
    }
  }

  /** What a finished chart state says about the words `g` standing after `b`. */
  ghost predicate Stands(m: Model, g: Gram, b: Gram, chart: ChartState) {
    if b == [] then chart == CanonicalChart(m, g)
    else chart.left == [] && chart.full && Represents(m, g + b, chart.right)
  }

  lemma {:induction false} LeftLength(m: Model, g: Gram)
    requires Valid(m)
    ensures |Pointers(m, g)| < m.order
    ensures |Pointers(m, g)| == m.order - 1 ==> Full(m, g)
    ensures Open(m, g) ==> |Pointers(m, g)| == |g|
  {
    PointersAreOldest(m, g);
    var n := |Pointers(m, g)|;
    if n > 0 {
      assert PointerAt(m, g, n);
      LeftExtendsBelowOrder(m, Oldest(g, n));
    }
    if g != [] && Open(m, g) {
      PointersOfExtending(m, g);
    }
  }

  // ---------------------------------------------------------------- whole derivations

  /** A derivation: words and, nested in them, rule applications already scored. */
  datatype Tree = Leaf(word: Word) | Node(children: seq<Tree>)

  /** The words of a derivation, newest first. */
  function Words(tree: Tree): Gram
    decreases tree, 0
  {
    match tree
    case Leaf(word) => [word]
    case Node(children) => Yield(children, |children|)
  }

  /** The words of the first `n` trees, newest first. */
  function Yield(trees: seq<Tree>, n: nat): Gram
    requires n <= |trees|
    decreases trees, n
  {
    if n == 0 then [] else Words(trees[n - 1]) + Yield(trees, n - 1)
  }

  lemma {:induction false} YieldJoins(a: seq<Tree>, b: seq<Tree>, n: nat)
    requires n <= |b|
    ensures Yield(a + b, |a| + n) == Yield(b, n) + Yield(a, |a|)
  {
    var all := a + b;
    if n == 0 {
      YieldOfPrefix(all, a, |a|);
      assert Yield(b, 0) == [];
    } else {
      YieldJoins(a, b, n - 1);
      assert all[|a| + n - 1] == b[n - 1];
      AddFirst(Words(b[n - 1]), Yield(b, n - 1), Yield(a, |a|));
    }
  }

  lemma {:induction false} AddFirst(x: Gram, y: Gram, z: Gram)
    ensures x + (y + z) == x + y + z
  {
  }

  lemma {:induction false} YieldOfPrefix(all: seq<Tree>, a: seq<Tree>, n: nat)
    requires n <= |a| && a <= all
    ensures Yield(all, n) == Yield(a, n)
  {
    if n > 0 {
      YieldOfPrefix(all, a, n - 1);
    }
  }

  /** A derivation may be flattened rule by rule: its words are those with the children in place of the rule. */
  lemma {:induction false} RuleFlattens(a: seq<Tree>, children: seq<Tree>, b: seq<Tree>)
    ensures Yield(a + [Node(children)] + b, |a| + 1 + |b|) == Yield(a + children + b, |a| + |children| + |b|)
  {
    var node := [Node(children)];
    YieldJoins(a + node, b, |b|);
    YieldJoins(a + children, b, |b|);
    YieldJoins(a, node, 1);
    YieldJoins(a, children, |children|);
    assert Yield(node, 1) == Words(Node(children)) + Yield(node, 0) == Yield(children, |children|);
  }

  /** Once it is flat, its words are those of the sentence, the last one first. */
  lemma {:induction false} LeavesAreWords(text: seq<Word>, trees: seq<Tree>, n: nat)
    requires n <= |text| == |trees| && forall i {:trigger trees[i]} :: 0 <= i < |text| ==> trees[i] == Leaf(text[i])
    ensures |Yield(trees, n)| == n
    ensures forall k {:trigger Yield(trees, n)[k]} :: 0 <= k < n ==> Yield(trees, n)[k] == text[n - 1 - k]
  {
    if n > 0 {
      LeavesAreWords(text, trees, n - 1);
      assert Yield(trees, n) == [text[n - 1]] + Yield(trees, n - 1);
    }
  }

  /**
   However the words are nested into rules, RuleScore returns the score of the flattened
   words read left to right, and the canonical summary of the flattened words, ready to
   be extended on either side.
   */
  method ScoreRule(m: Model, trees: seq<Tree>) returns (chart: ChartState, p: real)
    requires Valid(m) && RightMonotone(m) && Known(m, Yield(trees, |trees|))
    ensures chart == CanonicalChart(m, Yield(trees, |trees|))
    ensures p == Total(m, Yield(trees, |trees|), [])
    decreases trees
  {
    var rule := new RuleScore(m);
    ApplyItems(rule, trees, true, []);
    p := rule.Finish();
    chart := rule.out;
  }

  /** The same for a whole sentence, whose first word is scored after <s>. */
  method ScoreSentence(m: Model, bos: Word, trees: seq<Tree>) returns (chart: ChartState, p: real)
    requires Valid(m) && RightMonotone(m) && [bos] in m.table && Known(m, Yield(trees, |trees|))
    ensures Stands(m, Yield(trees, |trees|), [bos], chart)
    ensures p == Total(m, Yield(trees, |trees|), [bos])
  {
    var rule := new RuleScore(m);
    rule.BeginSentence(bos);
    ApplyItems(rule, trees, false, [bos]);
    p := rule.Finish();
    chart := rule.out;
  }

  /** Applies the items of a rule in order; `fast` takes the shortcut for a leading non-terminal. */
  method ApplyItems(rule: RuleScore, trees: seq<Tree>, fast: bool, ghost b: Gram)
    requires rule.WellFormed() && RightMonotone(rule.m) && Known(rule.m, Yield(trees, |trees|))
    requires rule.words == [] && rule.before == b && rule.prob == 0.0 && (fast ==> b == [])
    modifies rule
    ensures rule.WellFormed() && rule.words == Yield(trees, |trees|) && rule.before == b
    ensures rule.prob == Total(rule.m, rule.words, b)
    decreases trees, 0
  {
    for i := 0 to |trees|
      invariant rule.WellFormed() && rule.words == Yield(trees, i) && rule.before == b
      invariant rule.prob == Total(rule.m, rule.words, b)
    {
      YieldKnown(rule.m, trees, i + 1);
      KnownParts(rule.m, Words(trees[i]), Yield(trees, i));
      TotalAppend(rule.m, Words(trees[i]), rule.words, b);
      ApplyItem(rule, trees[i], fast && i == 0);
    }
  }

  method ApplyItem(rule: RuleScore, tree: Tree, first: bool)
    requires rule.WellFormed() && RightMonotone(rule.m) && Known(rule.m, Words(tree))
    requires first ==> rule.words == [] && rule.before == [] && rule.prob == 0.0
    modifies rule
    ensures rule.WellFormed() && rule.words == Words(tree) + old(rule.words) && rule.before == old(rule.before)
    ensures rule.prob == old(rule.prob) + Total(rule.m, Words(tree), old(rule.words) + rule.before)
    decreases tree, 0
  {
    ghost var h := rule.words + rule.before;
    match tree
    case Leaf(word) =>
      assert Words(tree)[0] == word;
      assert ([word] + rule.words) + rule.before == [word] + h;
      assert Total(rule.m, [word], h) == Score(rule.m, [word] + h) + Total(rule.m, [word][1..], h);
      rule.Terminal(word);
    case Node(children) =>
      var chart, p := ScoreRule(rule.m, children);
      if first {
        assert Words(tree) + [] == Words(tree) && h == [];
        rule.BeginNonTerminal(chart, p, Words(tree), []);
      } else {
        NeverChargedEarly(rule.m, Words(tree), h);
        rule.NonTerminal(chart, p, Words(tree));
      }
  }

  lemma {:induction false} KnownParts(m: Model, g: Gram, f: Gram)
    requires Known(m, g + f)
    ensures Known(m, g) && Known(m, f)
  {
    assert forall i :: 0 <= i < |g| ==> (g + f)[i] == g[i];
    assert forall i :: 0 <= i < |f| ==> (g + f)[|g| + i] == f[i];
  }

  lemma {:induction false} YieldKnown(m: Model, trees: seq<Tree>, n: nat)
    requires n <= |trees| && Known(m, Yield(trees, |trees|))
    ensures Known(m, Yield(trees, n))
    decreases |trees| - n
  {
    if n < |trees| {
      YieldKnown(m, trees, n + 1);
      KnownParts(m, Words(trees[n]), Yield(trees, n));
    }
  }

  // ---------------------------------------------------------------- rules over any table

  /** An item of a rule: a word, or a fragment with its finished chart state and total. */
  datatype Item = Single(word: Word) | Fragment(words: Gram)

  function ItemWords(item: Item): Gram {
    match item
    case Single(word) => [word]
    case Fragment(words) => words
  }

  /** The words of the first `n` items, newest first. */
  function RuleWords(items: seq<Item>, n: nat): Gram
    requires n <= |items|
  {
    if n == 0 then [] else ItemWords(items[n - 1]) + RuleWords(items, n - 1)
  }

  /**
   Over any table, right-monotone or not, a rule is charged exactly the total of its words,
   but for what the last fragment may have been charged ahead.
   */
  method ScoreItems(m: Model, items: seq<Item>) returns (rule: RuleScore)
    requires Valid(m) && forall i {:trigger items[i]} :: 0 <= i < |items| ==> Known(m, ItemWords(items[i]))
    ensures fresh(rule) && rule.m == m && rule.words == RuleWords(items, |items|) && rule.before == []
    ensures rule.prob == Total(m, rule.words, []) + rule.Advance()
    ensures rule.WellFormed() || rule.ChargedAhead()
    ensures items != [] && items[|items| - 1].Single? ==> rule.WellFormed() && rule.Advance() == 0.0
  {
    rule := new RuleScore(m);
    for i := 0 to |items|
      invariant fresh(rule) && rule.m == m && rule.words == RuleWords(items, i) && rule.before == []
      invariant rule.prob == Total(m, rule.words, []) + rule.Advance()
      invariant rule.WellFormed() || rule.ChargedAhead()
      invariant i > 0 && items[i - 1].Single? ==> rule.WellFormed() && rule.Advance() == 0.0
    {
      ScoreItem(rule, items[i]);
    }
  }

  method ScoreItem(rule: RuleScore, item: Item)
    requires (rule.WellFormed() || rule.ChargedAhead()) && Known(rule.m, ItemWords(item)) && rule.before == []
    requires rule.prob == Total(rule.m, rule.words, []) + rule.Advance()
    modifies rule
    ensures rule.words == ItemWords(item) + old(rule.words) && rule.before == []
    ensures rule.prob == Total(rule.m, rule.words, []) + rule.Advance()
    ensures rule.WellFormed() || rule.ChargedAhead()
    ensures item.Single? ==> rule.WellFormed() && rule.Advance() == 0.0
  {
    TotalAppend(rule.m, ItemWords(item), rule.words, []);
    assert rule.words + [] == rule.words;
    match item
    case Single(word) =>
      OneWordTotal(rule.m, word, rule.words);
      assert ItemWords(item)[0] == word;
      rule.Terminal(word);
    case Fragment(words) => rule.NonTerminal(CanonicalChart(rule.m, words), Total(rule.m, words, []), words);
  }

  lemma {:induction false} OneWordTotal(m: Model, x: Word, h: Gram)
    ensures Total(m, [x], h) == Score(m, [x] + h) && [x] + h + [] == [x] + h
  {
    assert Total(m, [x][1..], h) == 0.0;
  }

  // ---------------------------------------------------------------- exactly when gluing is right

  lemma {:induction false} MonotonePrefix(m: Model, g: Gram, k: nat)
    requires RightMonotone(m) && RightExtends(m, g) && 1 <= k <= |g|
    ensures RightExtends(m, g[..k])
    decreases |g|
  {
    if k < |g| {
      MonotonePrefix(m, g[..|g| - 1], k);
      assert g[..|g| - 1][..k] == g[..k];
    } else {
      assert g[..k] == g;
    }
  }

  lemma {:induction false} NeverChargedEarly(m: Model, g: Gram, h: Gram)
    requires RightMonotone(m)
    ensures !ChargedEarly(m, g, h)
  {
    var n := UseLen(m, g + h);
    if g != [] && n > |g| {
      assert (g + h)[..n][..|g|] == g;
      MonotonePrefix(m, (g + h)[..n], |g|);
    }
  }

  lemma {:induction false} StoredWordsKnown(m: Model, g: Gram)
    requires Valid(m) && g in m.table
    ensures Known(m, g)
  {
    assert ValidEntry(m, g);
    PrefixStored(m, g, 1);
    assert g[..1] == [g[0]];
    if |g| > 1 {
      StoredWordsKnown(m, g[1..]);
      assert forall i :: 1 <= i < |g| ==> g[i] == g[1..][i - 1];
    }
  }

  /** A right-extending n-gram that stops being one without its oldest word breaks gluing. */
  lemma {:induction false} NotMonotoneChargesEarly(m: Model, g: Gram)
    requires Valid(m) && |g| > 1 && RightExtends(m, g) && !RightExtends(m, g[..|g| - 1])
    ensures ChargedEarly(m, g[..|g| - 1], [g[|g| - 1]])
    ensures Known(m, g[..|g| - 1]) && Known(m, [g[|g| - 1]])
  {
    var p, x := g[..|g| - 1], g[|g| - 1];
    assert p + [x] == g;
    PrefixStored(m, g, |p|);
    assert Longer(m, p, x) && ValidEntry(m, p);
    UseAll(m, g);
    StoredWordsKnown(m, g);
    assert forall i :: 0 <= i < |p| ==> p[i] == g[i];
  }

  /** The state NonTerminal leaves behind in that situation is too short. */
  lemma {:induction false} ChargedEarlyIsWrong(m: Model, g: Gram, h: Gram)
    requires ChargedEarly(m, g, h)
    ensures Canonical(m, g) != Canonical(m, g + h)
  {
    assert |Canonical(m, g).words| <= |g| < |Canonical(m, g + h).words|;
  }

  /**
   Over a given table, NonTerminal is right for every fragment behind every history
   exactly when the table is right-monotone.
   */
  lemma {:induction false} GluingIsExactIffMonotone(m: Model)
    requires Valid(m)
    ensures RightMonotone(m) <==>
              forall g, h | Known(m, g) && Known(m, h) :: !ChargedEarly(m, g, h)
  {
    if RightMonotone(m) {
      forall g, h | Known(m, g) && Known(m, h)
        ensures !ChargedEarly(m, g, h)
      {
        NeverChargedEarly(m, g, h);
      }
    } else {
      var g :| |g| > 1 && RightExtends(m, g) && !RightExtends(m, g[..|g| - 1]);
      NotMonotoneChargesEarly(m, g);
    }
  }

  /** A three-entry bigram table, with a backoff on "2 1" and none on "1", that is not. */
  function LopsidedModel(): Model {
    Model(3, map[[1] := Entry(-1.0, 0.0, true, false),
                 [2] := Entry(-1.0, 0.0, false, true),
                 [1, 2] := Entry(-1.0, -0.5, false, true)])
  }

  lemma {:induction false} LopsidedModelChargesEarly()
    ensures Valid(LopsidedModel())
    ensures ChargedEarly(LopsidedModel(), [1], [2])
    ensures EarlyCharge(LopsidedModel(), [1], [2]) == -0.5
  {
    LopsidedIsValid();
    LopsidedCharge([1, 2]);
    assert [1] + [2] == [1, 2] && LeftExtends(LopsidedModel(), [1]);
  }

  lemma {:induction false} LopsidedIsValid()
    ensures Valid(LopsidedModel())
  {
    var m := LopsidedModel();
    assert ValidEntry(m, [1]) by {
      assert [1] + [2] == [1, 2] && Longer(m, [1], 2);
    }
    forall w
      ensures !Longer(m, [2], w) && !Longer(m, [1, 2], w)
    {
      assert ([2] + [w])[0] == 2 && |[1, 2] + [w]| == 3;
    }
    assert ValidEntry(m, [2]);
    assert ValidEntry(m, [1, 2]) by {
      assert [1, 2][..1] == [1] && [1, 2][1..] == [2];
    }
    assert forall g :: g in m.table ==> g == [1] || g == [2] || g == [1, 2];
  }

  lemma {:induction false} LopsidedCharge(g: Gram)
    requires g == [1, 2]
    ensures UseLen(LopsidedModel(), g) == 2
    ensures !RightExtends(LopsidedModel(), g[..1])
    ensures BackSum(LopsidedModel(), g, 1, 2) == -0.5
  {
    assert g[..2] == g && g[..1] == [1];
    UseAll(LopsidedModel(), g);
    assert BackSum(LopsidedModel(), g, 1, 1) == 0.0;
  }
}
