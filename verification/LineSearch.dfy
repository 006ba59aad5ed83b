/**
 The line search of mert/Optimizer.cpp in exact arithmetic: for every sentence, the upper
 envelope of the lines f0 + x * gradient; then the corpus statistics on every interval
 between thresholds, kept up to date incrementally as in mert/Scorer.cpp.
 */
module LineSearch {

  // ---------------------------------------------------------------- the upper envelope

  /** A candidate translation as a line in x; `id` is its place in the n-best list. */
  datatype Line = Line(gradient: real, f0: real, id: nat)

  /** The envelope of one sentence moves to candidate `id` at `x`. */
  datatype Step = Step(x: real, id: nat)

  function At(l: Line, x: real): real {
    l.f0 + x * l.gradient
  }

  predicate ByGradient(c: seq<Line>) {
    forall i, j :: 0 <= i < j < |c| ==> c[i].gradient <= c[j].gradient
  }

  /** Candidate `i` is a best one at `x`. */
  ghost predicate Best(c: seq<Line>, i: nat, x: real)
    requires i < |c|
  {
    forall j :: 0 <= j < |c| ==> At(c[j], x) <= At(c[i], x)
  }

  /** ... and stays so for a while to the right: steeper lines are strictly below. */
  ghost predicate BestRightOf(c: seq<Line>, i: nat, x: real)
    requires i < |c|
  {
    Best(c, i, x) && forall j :: 0 <= j < |c| && c[j].gradient > c[i].gradient ==> At(c[j], x) < At(c[i], x)
  }

  function Intersect(m1: real, b1: real, m2: real, b2: real): real
    requires m1 != m2
  {
    (b2 - b1) / (m1 - m2)
  }

  /** A steeper line is below to the left of the intersection and above to the right. */
  lemma {:induction false} Crossing(a: Line, b: Line, x: real)
    requires a.gradient < b.gradient
    ensures x <= Intersect(a.gradient, a.f0, b.gradient, b.f0) <==> At(b, x) <= At(a, x)
    ensures x < Intersect(a.gradient, a.f0, b.gradient, b.f0) <==> At(b, x) < At(a, x)
  {
    var d := b.gradient - a.gradient;
    var i := Intersect(a.gradient, a.f0, b.gradient, b.f0);
    assert i * d == a.f0 - b.f0 by {
      assert i * (a.gradient - b.gradient) == b.f0 - a.f0;
    }
    assert At(a, x) - At(b, x) == (i - x) * d;
    SignOfProduct(i - x, d);
  }

  lemma {:induction false} SignOfProduct(u: real, d: real)
    requires d > 0.0
    ensures u >= 0.0 <==> u * d >= 0.0
    ensures u > 0.0 <==> u * d > 0.0
  {
  }

  /** A flatter line that is not above at `x` is not above further right. */
  lemma {:induction false} FlatterStaysBelow(a: Line, b: Line, x: real, y: real)
    requires b.gradient <= a.gradient && At(b, x) <= At(a, x) && x <= y
    ensures At(b, y) <= At(a, y)
  {
    assert At(a, y) - At(a, x) == (y - x) * a.gradient;
    assert At(b, y) - At(b, x) == (y - x) * b.gradient;
    assert (y - x) * b.gradient <= (y - x) * a.gradient;
  }

  /** The inner loop: the leftmost intersection with a steeper line, the last one on ties. */
  method FindLeftmost(c: seq<Line>, i: nat) returns (found: bool, leftmost: nat, x: real)
    requires ByGradient(c) && i < |c|
    ensures !found ==> forall j :: 0 <= j < |c| ==> c[j].gradient <= c[i].gradient
    ensures found ==> Leftmost(c, i, leftmost, x)
  {
    found, leftmost, x := false, i, 0.0;
    for j := i + 1 to |c|
      invariant found ==> i < leftmost < j && c[i].gradient < c[leftmost].gradient
      invariant found ==> x == Intersect(c[i].gradient, c[i].f0, c[leftmost].gradient, c[leftmost].f0)
      invariant forall k :: i < k < j && c[k].gradient > c[i].gradient ==> found && !Sooner(c, i, leftmost, x, k)
    {
      if c[i].gradient != c[j].gradient {
        var current := Intersect(c[i].gradient, c[i].f0, c[j].gradient, c[j].f0);
        if !found || current <= x {
          found, leftmost, x := true, j, current;
        }
      }
    }
  }

  /** Line `k` would have to be taken before `leftmost`: it crosses earlier, or at once but later in the list. */
  predicate Sooner(c: seq<Line>, i: nat, leftmost: nat, x: real, k: nat)
    requires i < |c| && k < |c|
  {
    c[k].gradient > c[i].gradient &&
    var y := Intersect(c[i].gradient, c[i].f0, c[k].gradient, c[k].f0);
    y < x || (y == x && k > leftmost)
  }

  ghost predicate Leftmost(c: seq<Line>, i: nat, leftmost: nat, x: real)
    requires i < |c|
  {
    && i < leftmost < |c|
    && c[i].gradient < c[leftmost].gradient
    && x == Intersect(c[i].gradient, c[i].f0, c[leftmost].gradient, c[leftmost].f0)
    && forall k :: 0 <= k < |c| ==> !Sooner(c, i, leftmost, x, k)
  }

  /** What holds where the current candidate takes over: at -infinity, or at the last threshold. */
  ghost predicate TakesOver(c: seq<Line>, i: nat, xs: seq<real>)
    requires i < |c|
  {
    if xs == [] then
      forall j :: 0 <= j < |c| ==>
          c[i].gradient <= c[j].gradient && (c[i].gradient == c[j].gradient ==> c[j].f0 <= c[i].f0)
    else BestRightOf(c, i, xs[|xs| - 1])
  }

  /** The current candidate is best until the leftmost intersection ... */
  lemma {:induction false} BestUntil(c: seq<Line>, i: nat, xs: seq<real>, leftmost: nat, x: real, y: real)
    requires i < |c| && TakesOver(c, i, xs) && Leftmost(c, i, leftmost, x)
    requires y <= x && (xs != [] ==> xs[|xs| - 1] <= y)
    ensures Best(c, i, y)
  {
    forall j | 0 <= j < |c|
      ensures At(c[j], y) <= At(c[i], y)
    {
      if c[j].gradient > c[i].gradient {
        assert !Sooner(c, i, leftmost, x, j);
        Crossing(c[i], c[j], y);
      } else if xs != [] {
        FlatterStaysBelow(c[i], c[j], xs[|xs| - 1], y);
      }
    }
  }

  /** ... where the next candidate takes over, strictly further right. */
  lemma {:induction false} NextTakesOver(c: seq<Line>, i: nat, xs: seq<real>, leftmost: nat, x: real)
    requires i < |c| && TakesOver(c, i, xs) && Leftmost(c, i, leftmost, x) && ByGradient(c)
    ensures xs != [] ==> xs[|xs| - 1] < x
    ensures BestRightOf(c, leftmost, x)
  {
    if xs != [] {
      Crossing(c[i], c[leftmost], xs[|xs| - 1]);
    }
    BestUntil(c, i, xs, leftmost, x, x);
    Crossing(c[i], c[leftmost], x);
    assert At(c[leftmost], x) == At(c[i], x);
    forall j | 0 <= j < |c| && c[j].gradient > c[leftmost].gradient
      ensures At(c[j], x) < At(c[leftmost], x)
    {
      assert !Sooner(c, i, leftmost, x, j);
      Crossing(c[i], c[j], x);
    }
  }

  /** The last candidate has the largest gradient and is best for ever after. */
  lemma {:induction false} BestForEver(c: seq<Line>, i: nat, xs: seq<real>, y: real)
    requires i < |c| && TakesOver(c, i, xs) && (xs != [] ==> xs[|xs| - 1] <= y)
    requires forall j :: 0 <= j < |c| ==> c[j].gradient <= c[i].gradient
    ensures Best(c, i, y)
  {
    forall j | 0 <= j < |c|
      ensures At(c[j], y) <= At(c[i], y)
    {
      if xs != [] {
        FlatterStaysBelow(c[i], c[j], xs[|xs| - 1], y);
      } else {
        ParallelStaysBelow(c[i], c[j], y);
      }
    }
  }

  lemma {:induction false} ParallelStaysBelow(a: Line, b: Line, y: real)
    requires a.gradient == b.gradient && b.f0 <= a.f0
    ensures At(b, y) <= At(a, y)
  {
    var d := a.gradient;
    assert At(a, y) - At(b, y) == (a.f0 - b.f0) + (y * d - y * d);
  }

  /** The k-th interval between the thresholds `xs`, ends included. */
  predicate OnInterval(xs: seq<real>, k: nat, y: real)
    requires k <= |xs|
  {
    (k > 0 ==> xs[k - 1] <= y) && (k < |xs| ==> y <= xs[k])
  }

  /** `path` is the upper envelope: slopes and thresholds increase, and each part is best on its interval. */
  ghost predicate Envelops(c: seq<Line>, path: seq<nat>, xs: seq<real>) {
    && |path| == |xs| + 1
    && (forall k :: 0 <= k < |path| ==> path[k] < |c|)
    && (forall k :: 0 <= k < |xs| ==> c[path[k]].gradient < c[path[k + 1]].gradient)
    && (forall k, n :: 0 <= k < n < |xs| ==> xs[k] < xs[n])
  }

  /** The walk of LineOptimize over the candidates of one sentence. */
  method Walk(c: seq<Line>) returns (path: seq<nat>, xs: seq<real>)
    requires c != [] && ByGradient(c)
    ensures Envelops(c, path, xs)
    ensures forall j :: 0 <= j < |c| ==> c[j].gradient <= c[path[|xs|]].gradient
    ensures forall k, y :: 0 <= k <= |xs| && OnInterval(xs, k, y) ==> Best(c, path[k], y)
  {
    var i := FirstBest(c);
    path, xs := [i], [];
    while true
      invariant i < |c| && Envelops(c, path, xs) && path[|xs|] == i
      invariant TakesOver(c, i, xs)
      invariant forall k, y :: 0 <= k < |xs| && OnInterval(xs, k, y) ==> Best(c, path[k], y)
      decreases |c| - i
    {
      var found, leftmost, x := FindLeftmost(c, i);
      if !found {
        forall y | OnInterval(xs, |xs|, y)
          ensures Best(c, i, y)
        {
          BestForEver(c, i, xs, y);
        }
        return;
      }
      NextTakesOver(c, i, xs, leftmost, x);
      forall y | OnInterval(xs + [x], |xs|, y)
        ensures Best(c, i, y)
      {
        BestUntil(c, i, xs, leftmost, x, y);
      }
      forall k, y | 0 <= k < |xs| && OnInterval(xs + [x], k, y)
        ensures Best(c, path[k], y)
      {
        assert OnInterval(xs, k, y);
      }
      i := leftmost;
      path, xs := path + [i], xs + [x];
    }
  }

  /** The best candidate at -infinity: highest f0 among the smallest gradients, the first one of equals. */
  method FirstBest(c: seq<Line>) returns (highest: nat)
    requires c != [] && ByGradient(c)
    ensures highest < |c| && TakesOver(c, highest, [])
    ensures forall j {:trigger c[j]} :: 0 <= j < highest ==> c[j] != c[highest]
  {
    highest := 0;
    var it := 1;
    while it < |c| && c[it].gradient == c[0].gradient
      invariant 1 <= it <= |c| && highest < it
      invariant c[highest].gradient == c[0].gradient
      invariant forall j :: 0 <= j < it ==> c[j].f0 <= c[highest].f0
      invariant forall j :: 0 <= j < highest ==> c[j].f0 < c[highest].f0
    {
      if c[it].f0 > c[highest].f0 {
        highest := it;
      }
      it := it + 1;
    }
  }

  // ---------------------------------------------------------------- incremental corpus scores

  /** Sentence `sentence` changes its 1-best to `id`. */
  datatype Diff = Diff(sentence: nat, id: nat)

  /** Sufficient statistics of every candidate of every sentence. */
  type Stats = seq<seq<seq<int>>>

  ghost predicate Picks(data: Stats, picks: seq<nat>, fields: nat) {
    |picks| == |data| && forall s :: 0 <= s < |data| ==> picks[s] < |data[s]| && |data[s][picks[s]]| == fields
  }

  /** Field `f` summed over the first `n` sentences. */
  function SumField(data: Stats, picks: seq<nat>, f: nat, n: nat): int
    requires n <= |picks| == |data|
    requires forall s :: 0 <= s < n ==> picks[s] < |data[s]| && f < |data[s][picks[s]]|
  {
    if n == 0 then 0 else SumField(data, picks, f, n - 1) + data[n - 1][picks[n - 1]][f]
  }

  /** The corpus statistics of one choice of candidates, from scratch. */
  ghost predicate IsTotal(data: Stats, picks: seq<nat>, totals: seq<int>) {
    Picks(data, picks, |totals|) && forall f :: 0 <= f < |totals| ==> totals[f] == SumField(data, picks, f, |data|)
  }

  /** The choice after applying the diffs one after the other. */
  function Apply(picks: seq<nat>, diffs: seq<Diff>): (r: seq<nat>)
    ensures |r| == |picks|
  {
    if diffs == [] then picks
    else
      var before := Apply(picks, diffs[..|diffs| - 1]);
      var d := diffs[|diffs| - 1];
      if d.sentence < |picks| then before[d.sentence := d.id] else before
  }

  /** The choice on the k-th interval. */
  function ApplyAll(picks: seq<nat>, diffs: seq<seq<Diff>>, k: nat): (r: seq<nat>)
    requires k <= |diffs|
    ensures |r| == |picks|
  {
    if k == 0 then picks else Apply(ApplyAll(picks, diffs, k - 1), diffs[k - 1])
  }

  ghost predicate DiffsOk(data: Stats, diffs: seq<Diff>, fields: nat) {
    forall i :: 0 <= i < |diffs| ==> DiffOk(data, diffs[i], fields)
  }

  ghost predicate DiffOk(data: Stats, d: Diff, fields: nat) {
    d.sentence < |data| && d.id < |data[d.sentence]| && |data[d.sentence][d.id]| == fields
  }

  lemma {:induction false} SumFieldChange(data: Stats, picks: seq<nat>, s: nat, id: nat, f: nat, n: nat, fields: nat)
    requires Picks(data, picks, fields) && DiffOk(data, Diff(s, id), fields) && f < fields && n <= |data|
    ensures SumField(data, picks[s := id], f, n) ==
            SumField(data, picks, f, n) + if s < n then data[s][id][f] - data[s][picks[s]][f] else 0
  {
    if n > 0 {
      SumFieldChange(data, picks, s, id, f, n - 1, fields);
    }
  }

  /** Replaces one candidate in the running totals. */
  method Replace(data: Stats, totals: seq<int>, picks: seq<nat>, d: Diff) returns (totals': seq<int>, picks': seq<nat>)
    requires IsTotal(data, picks, totals) && DiffOk(data, d, |totals|)
    ensures picks' == picks[d.sentence := d.id] && |totals'| == |totals| && IsTotal(data, picks', totals')
  {
    totals' := totals;
    var last := picks[d.sentence];
    for k := 0 to |totals|
      invariant |totals'| == |totals|
      invariant forall f :: 0 <= f < k ==>
                  totals'[f] == totals[f] + data[d.sentence][d.id][f] - data[d.sentence][last][f]
      invariant forall f :: k <= f < |totals| ==> totals'[f] == totals[f]
    {
      totals' := totals'[k := totals'[k] + (data[d.sentence][d.id][k] - data[d.sentence][last][k])];
    }
    picks' := picks[d.sentence := d.id];
    forall f | 0 <= f < |totals|
      ensures totals'[f] == SumField(data, picks', f, |data|)
    {
      SumFieldChange(data, picks, d.sentence, d.id, f, |data|, |totals|);
    }
  }

  method ReplaceAll(data: Stats, totals: seq<int>, picks: seq<nat>, diffs: seq<Diff>)
    returns (totals': seq<int>, picks': seq<nat>)
    requires IsTotal(data, picks, totals) && DiffsOk(data, diffs, |totals|)
    ensures picks' == Apply(picks, diffs) && |totals'| == |totals| && IsTotal(data, picks', totals')
  {
    totals', picks' := totals, picks;
    for j := 0 to |diffs|
      invariant |totals'| == |totals| && IsTotal(data, picks', totals')
      invariant picks' == Apply(picks, diffs[..j])
    {
      assert DiffOk(data, diffs[j], |totals|);
      assert diffs[..j + 1][..j] == diffs[..j];
      totals', picks' := Replace(data, totals', picks', diffs[j]);
    }
    assert diffs[..|diffs|] == diffs;
  }

  /** The totals of the initial candidates; false stands for the size mismatch error. */
  method InitialTotals(data: Stats, picks: seq<nat>) returns (ok: bool, totals: seq<int>)
    requires 0 < |data| == |picks| && forall s :: 0 <= s < |data| ==> picks[s] < |data[s]|
    ensures ok <==> Picks(data, picks, |data[0][picks[0]]|)
    ensures ok ==> IsTotal(data, picks, totals)
  {
    var fields := |data[0][picks[0]]|;
    totals := seq(fields, _ => 0);
    for i := 0 to |picks|
      invariant |totals| == fields
      invariant forall s :: 0 <= s < i ==> |data[s][picks[s]]| == fields
      invariant forall f :: 0 <= f < fields ==> totals[f] == SumField(data, picks, f, i)
    {
      var stats := data[i][picks[i]];
      if |stats| != fields {
        return false, totals;
      }
      ghost var before := totals;
      for k := 0 to fields
        invariant |totals| == fields
        invariant forall f :: 0 <= f < k ==> totals[f] == before[f] + stats[f]
        invariant forall f :: k <= f < fields ==> totals[f] == before[f]
      {
        totals := totals[k := totals[k] + stats[k]];
      }
    }
    ok := true;
  }

  /** `score` is the score of the corpus statistics `totals` of the choice `picks`. */
  ghost predicate FromScratch(data: Stats, picks: seq<nat>, calculate: seq<int> -> real, score: real,
                              totals: seq<int>) {
    score == calculate(totals) && IsTotal(data, picks, totals)
  }

  /** StatisticsBasedScorer::score without regularisation: every score equals one from scratch. */
  method Score(data: Stats, picks: seq<nat>, diffs: seq<seq<Diff>>, calculate: seq<int> -> real)
    returns (ok: bool, scores: seq<real>, ghost all: seq<seq<int>>)
    requires 0 < |data| == |picks| && forall s :: 0 <= s < |data| ==> picks[s] < |data[s]|
    requires forall k :: 0 <= k < |diffs| ==> DiffsOk(data, diffs[k], |data[0][picks[0]]|)
    ensures ok <==> Picks(data, picks, |data[0][picks[0]]|)
    ensures ok ==> |scores| == |all| == |diffs| + 1
    ensures ok ==> forall k {:trigger scores[k]} :: 0 <= k <= |diffs| ==>
              FromScratch(data, ApplyAll(picks, diffs, k), calculate, scores[k], all[k])
  {
    scores, all := [], [];
    var totals;
    ok, totals := InitialTotals(data, picks);
    if !ok {
      return;
    }
    scores, all := [calculate(totals)], [totals];
    var last := picks;
    for i := 0 to |diffs|
      invariant |scores| == |all| == i + 1
      invariant last == ApplyAll(picks, diffs, i) && |totals| == |data[0][picks[0]]| && IsTotal(data, last, totals)
      invariant forall k {:trigger scores[k]} :: 0 <= k <= i ==>
                  FromScratch(data, ApplyAll(picks, diffs, k), calculate, scores[k], all[k])
    {
      assert DiffsOk(data, diffs[i], |totals|);
      totals, last := ReplaceAll(data, totals, last, diffs[i]);
      scores, all := scores + [calculate(totals)], all + [totals];
    }
  }

  // ---------------------------------------------------------------- thresholds of all sentences

  /** The envelope of one sentence as LineOptimize records it. */
  datatype Env = Env(first: nat, steps: seq<Step>)

  /** One entry of `thresholdmap`; the entry that stands for -infinity is left implicit. */
  datatype Threshold = Threshold(x: real, diffs: seq<Diff>)

  ghost predicate Rising(steps: seq<Step>) {
    forall i, j :: 0 <= i < j < |steps| ==> steps[i].x < steps[j].x
  }

  ghost predicate Ascending(ts: seq<Threshold>) {
    forall i, j :: 0 <= i < j < |ts| ==> ts[i].x < ts[j].x
  }

  ghost predicate OncePerSentence(diffs: seq<Diff>) {
    forall i, j :: 0 <= i < j < |diffs| ==> diffs[i].sentence < diffs[j].sentence
  }

  /** A diff for the sentence of the last diff replaces it. */
  function AddDiff(diffs: seq<Diff>, d: Diff): seq<Diff> {
    if diffs != [] && diffs[|diffs| - 1].sentence == d.sentence then diffs[|diffs| - 1 := d] else diffs + [d]
  }

  /** Where threshold `x` is, or belongs: after all smaller ones. */
  function Place(ts: seq<Threshold>, x: real): (p: nat)
    ensures p <= |ts|
    ensures forall i :: 0 <= i < p ==> ts[i].x < x
    ensures p < |ts| ==> x <= ts[p].x
  {
    if ts == [] || x <= ts[0].x then 0 else 1 + Place(ts[1..], x)
  }

  /** The thresholds with one more diff, in the order of the map. */
  function Added(ts: seq<Threshold>, x: real, d: Diff): seq<Threshold> {
    var p := Place(ts, x);
    if p < |ts| && ts[p].x == x then ts[p := Threshold(x, AddDiff(ts[p].diffs, d))]
    else ts[..p] + [Threshold(x, [d])] + ts[p..]
  }

  method AddThreshold(ts: seq<Threshold>, x: real, d: Diff) returns (ts': seq<Threshold>)
    ensures ts' == Added(ts, x, d)
  {
    var p := 0;
    while p < |ts| && ts[p].x < x
      invariant 0 <= p <= |ts|
      invariant forall i :: 0 <= i < p ==> ts[i].x < x
    {
      p := p + 1;
    }
    assert p == Place(ts, x);
    if p < |ts| && ts[p].x == x {
      ts' := ts[p := Threshold(x, AddDiff(ts[p].diffs, d))];
    } else {
      ts' := ts[..p] + [Threshold(x, [d])] + ts[p..];
    }
  }

  ghost predicate HasDiff(ts: seq<Threshold>, x: real, d: Diff) {
    exists i :: 0 <= i < |ts| && ts[i].x == x && d in ts[i].diffs
  }

  /** Every sentence up to this point has spoken before `n` at each threshold. */
  ghost predicate Before(ts: seq<Threshold>, x: real, n: nat) {
    forall i, k :: 0 <= i < |ts| && ts[i].x == x && 0 <= k < |ts[i].diffs| ==> ts[i].diffs[k].sentence < n
  }

  ghost predicate WellKept(ts: seq<Threshold>) {
    Ascending(ts) && forall i :: 0 <= i < |ts| ==> OncePerSentence(ts[i].diffs)
  }

  lemma {:induction false} AddedKeeps(ts: seq<Threshold>, x: real, d: Diff)
    requires WellKept(ts) && Before(ts, x, d.sentence)
    ensures WellKept(Added(ts, x, d))
  {
    var p, r := Place(ts, x), Added(ts, x, d);
    var known := p < |ts| && ts[p].x == x;
    forall i | 0 <= i < |r|
      ensures OncePerSentence(r[i].diffs)
      ensures i < p ==> r[i].x < x
      ensures i > p ==> x < r[i].x
    {
      if i != p {
        assert r[i] == ts[if known || i < p then i else i - 1];
      }
    }
    forall i, j | 0 <= i < j < |r|
      ensures r[i].x < r[j].x
    {
      if i != p && j != p {
        assert r[i] == ts[if known || i < p then i else i - 1];
        assert r[j] == ts[if known || j < p then j else j - 1];
      }
    }
  }

  lemma {:induction false} AddedHas(ts: seq<Threshold>, x: real, d: Diff, y: real, e: Diff)
    requires WellKept(ts) && Before(ts, x, d.sentence)
    ensures HasDiff(Added(ts, x, d), y, e) <==> HasDiff(ts, y, e) || (y == x && e == d)
  {
    var p, r := Place(ts, x), Added(ts, x, d);
    assert r[p].x == x && d in r[p].diffs;
    if HasDiff(ts, y, e) {
      var i :| 0 <= i < |ts| && ts[i].x == y && e in ts[i].diffs;
      OldDiffKept(ts, x, d, i, e);
    }
    if HasDiff(r, y, e) {
      var j :| 0 <= j < |r| && r[j].x == y && e in r[j].diffs;
      NewDiffKnown(ts, x, d, j, e);
    }
  }

  lemma {:induction false} OldDiffKept(ts: seq<Threshold>, x: real, d: Diff, i: nat, e: Diff)
    requires Before(ts, x, d.sentence) && i < |ts| && e in ts[i].diffs
    ensures HasDiff(Added(ts, x, d), ts[i].x, e)
  {
    var p, r := Place(ts, x), Added(ts, x, d);
    var j := if (p < |ts| && ts[p].x == x) || i < p then i else i + 1;
    assert r[j].x == ts[i].x && e in r[j].diffs;
  }

  lemma {:induction false} NewDiffKnown(ts: seq<Threshold>, x: real, d: Diff, j: nat, e: Diff)
    requires Before(ts, x, d.sentence) && j < |Added(ts, x, d)| && e in Added(ts, x, d)[j].diffs
    ensures HasDiff(ts, Added(ts, x, d)[j].x, e) || (Added(ts, x, d)[j].x == x && e == d)
  {
    var p, r := Place(ts, x), Added(ts, x, d);
    var known := p < |ts| && ts[p].x == x;
    if j != p {
      var i := if known || j < p then j else j - 1;
      assert ts[i] == r[j];
    } else if known {
      assert e in ts[p].diffs + [d];
    }
  }

  /** Steps recorded so far: all of the first `n` sentences and `m` of the next. */
  ghost predicate Entered(envs: seq<Env>, n: nat, m: nat, x: real, d: Diff) {
    || (d.sentence < n && d.sentence < |envs| && StepIn(envs[d.sentence].steps, |envs[d.sentence].steps|, x, d.id))
    || (d.sentence == n < |envs| && m <= |envs[n].steps| && StepIn(envs[n].steps, m, x, d.id))
  }

  ghost predicate StepIn(steps: seq<Step>, m: nat, x: real, id: nat)
    requires m <= |steps|
  {
    exists i :: 0 <= i < m && steps[i] == Step(x, id)
  }

  ghost predicate Recorded(ts: seq<Threshold>, envs: seq<Env>, n: nat, m: nat) {
    && WellKept(ts)
    && (forall x, d {:trigger Entered(envs, n, m, x, d)} {:trigger HasDiff(ts, x, d)} :: Entered(envs, n, m, x, d) <==>
         HasDiff(ts, x, d))
  }

  lemma {:induction false} RecordStep(ts: seq<Threshold>, envs: seq<Env>, n: nat, m: nat)
    requires Recorded(ts, envs, n, m) && n < |envs| && m < |envs[n].steps| && Rising(envs[n].steps)
    ensures Recorded(Added(ts, envs[n].steps[m].x, Diff(n, envs[n].steps[m].id)), envs, n, m + 1)
  {
    var steps := envs[n].steps;
    var x, d := steps[m].x, Diff(n, steps[m].id);
    forall i, k | 0 <= i < |ts| && ts[i].x == x && 0 <= k < |ts[i].diffs|
      ensures ts[i].diffs[k].sentence < n
    {
      var e := ts[i].diffs[k];
      assert HasDiff(ts, x, e) && Entered(envs, n, m, x, e);
    }
    AddedKeeps(ts, x, d);
    forall y, e
      ensures Entered(envs, n, m + 1, y, e) <==> HasDiff(Added(ts, x, d), y, e)
    {
      AddedHas(ts, x, d, y, e);
      EnteredMore(envs, n, m, y, e);
      assert Entered(envs, n, m, y, e) <==> HasDiff(ts, y, e);
    }
  }

  lemma {:induction false} EnteredMore(envs: seq<Env>, n: nat, m: nat, y: real, e: Diff)
    requires n < |envs| && m < |envs[n].steps|
    ensures Entered(envs, n, m + 1, y, e) <==>
              Entered(envs, n, m, y, e) || (y == envs[n].steps[m].x && e == Diff(n, envs[n].steps[m].id))
  {
    var s := envs[n].steps[m];
    assert s == Step(s.x, s.id);
    if y == s.x && e == Diff(n, s.id) {
      assert StepIn(envs[n].steps, m + 1, y, e.id);
    }
  }

  /** Collects the thresholds of all sentences, in increasing order. */
  method Collect(envs: seq<Env>) returns (ts: seq<Threshold>)
    requires forall s :: 0 <= s < |envs| ==> Rising(envs[s].steps)
    ensures Recorded(ts, envs, |envs|, 0)
  {
    ts := [];
    for n := 0 to |envs|
      invariant Recorded(ts, envs, n, 0)
    {
      for m := 0 to |envs[n].steps|
        invariant Recorded(ts, envs, n, m)
      {
        RecordStep(ts, envs, n, m);
        ts := AddThreshold(ts, envs[n].steps[m].x, Diff(n, envs[n].steps[m].id));
      }
      NextSentence(ts, envs, n);
    }
  }

  lemma {:induction false} NextSentence(ts: seq<Threshold>, envs: seq<Env>, n: nat)
    requires n < |envs| && Recorded(ts, envs, n, |envs[n].steps|)
    ensures Recorded(ts, envs, n + 1, 0)
  {
    forall x, d
      ensures Entered(envs, n + 1, 0, x, d) <==> HasDiff(ts, x, d)
    {
      assert Entered(envs, n, |envs[n].steps|, x, d) <==> HasDiff(ts, x, d);
    }
  }

  // ---------------------------------------------------------------- what the scores mean

  /** How many of the first `n` steps have been taken at `y`. */
  function Taken(steps: seq<Step>, n: nat, y: real): (j: nat)
    requires n <= |steps|
    ensures j <= n
    ensures j > 0 ==> steps[j - 1].x <= y
    ensures Rising(steps) && j < n ==> y < steps[j].x
  {
    if n == 0 then 0
    else if steps[n - 1].x <= y then n
    else Taken(steps, n - 1, y)
  }

  /** The candidate of a sentence after `j` steps. */
  function Pick(env: Env, j: nat): nat
    requires j <= |env.steps|
  {
    if j == 0 then env.first else env.steps[j - 1].id
  }

  lemma {:induction false} TakenIs(steps: seq<Step>, n: nat, y: real, j: nat)
    requires Rising(steps) && j <= n <= |steps|
    requires (j > 0 ==> steps[j - 1].x <= y) && (j < n ==> y < steps[j].x)
    ensures Taken(steps, n, y) == j
  {
    if n > j {
      assert steps[n - 1].x >= steps[j].x;
      TakenIs(steps, n - 1, y, j);
    }
  }

  lemma {:induction false} ApplyPick(picks: seq<nat>, diffs: seq<Diff>, s: nat)
    requires OncePerSentence(diffs) && s < |picks|
    ensures forall i :: 0 <= i < |diffs| && diffs[i].sentence == s ==> Apply(picks, diffs)[s] == diffs[i].id
    ensures (forall i :: 0 <= i < |diffs| ==> diffs[i].sentence != s) ==> Apply(picks, diffs)[s] == picks[s]
  {
    if diffs != [] {
      var rest := diffs[..|diffs| - 1];
      ApplyPick(picks, rest, s);
      assert forall i :: 0 <= i < |rest| ==> rest[i] == diffs[i];
    }
  }

  function DiffsOf(ts: seq<Threshold>): seq<seq<Diff>> {
    seq(|ts|, i requires 0 <= i < |ts| => ts[i].diffs)
  }

  function Firsts(envs: seq<Env>): seq<nat> {
    seq(|envs|, s requires 0 <= s < |envs| => envs[s].first)
  }

  /** How many steps sentence `s` has taken on the k-th global interval. */
  function TakenOn(ts: seq<Threshold>, env: Env, k: nat): nat
    requires k <= |ts|
  {
    if k == 0 then 0 else Taken(env.steps, |env.steps|, ts[k - 1].x)
  }

  /** Between two neighbouring thresholds a sentence takes the step it has there, or none. */
  lemma {:induction false} StepAtThreshold(ts: seq<Threshold>, envs: seq<Env>, k: nat, s: nat)
    requires Recorded(ts, envs, |envs|, 0) && k < |ts| && s < |envs| && Rising(envs[s].steps)
    ensures var a, b := TakenOn(ts, envs[s], k), TakenOn(ts, envs[s], k + 1);
            || (b == a && forall i :: 0 <= i < |ts[k].diffs| ==> ts[k].diffs[i].sentence != s)
            || (b == a + 1 && exists i :: 0 <= i < |ts[k].diffs| && ts[k].diffs[i] == Diff(s, envs[s].steps[a].id))
  {
    var steps, x := envs[s].steps, ts[k].x;
    var a := TakenOn(ts, envs[s], k);
    if a < |steps| && steps[a].x <= x {
      // Its x is a threshold, hence this one.
      var d := Diff(s, steps[a].id);
      assert StepIn(steps, |steps|, steps[a].x, steps[a].id);
      assert Entered(envs, |envs|, 0, steps[a].x, d) && HasDiff(ts, steps[a].x, d);
      var t :| 0 <= t < |ts| && ts[t].x == steps[a].x && d in ts[t].diffs;
      assert t == k;
      TakenIs(steps, |steps|, x, a + 1);
    } else {
      TakenIs(steps, |steps|, x, a);
      forall i | 0 <= i < |ts[k].diffs|
        ensures ts[k].diffs[i].sentence != s
      {
        NoStepNoDiff(ts, envs, k, i, s, a);
      }
    }
  }

  lemma {:induction false} NoStepNoDiff(ts: seq<Threshold>, envs: seq<Env>, k: nat, i: nat, s: nat, a: nat)
    requires Recorded(ts, envs, |envs|, 0) && k < |ts| && s < |envs| && i < |ts[k].diffs| && Rising(envs[s].steps)
    requires a == TakenOn(ts, envs[s], k) <= |envs[s].steps| && (a < |envs[s].steps| ==> ts[k].x < envs[s].steps[a].x)
    ensures ts[k].diffs[i].sentence != s
  {
    var d, steps := ts[k].diffs[i], envs[s].steps;
    assert HasDiff(ts, ts[k].x, d) && Entered(envs, |envs|, 0, ts[k].x, d);
    forall j | 0 <= j < |steps|
      ensures steps[j].x != ts[k].x
    {
      if j < a {
        assert steps[j].x <= steps[a - 1].x;
      } else {
        assert steps[a].x <= steps[j].x;
      }
    }
  }

  /** Applying the diffs gives every sentence its envelope candidate on the k-th interval. */
  lemma {:induction false} PicksOnInterval(ts: seq<Threshold>, envs: seq<Env>, k: nat, s: nat)
    requires Recorded(ts, envs, |envs|, 0) && k <= |ts| && s < |envs|
    requires forall r :: 0 <= r < |envs| ==> Rising(envs[r].steps)
    ensures ApplyAll(Firsts(envs), DiffsOf(ts), k)[s] == Pick(envs[s], TakenOn(ts, envs[s], k))
  {
    if k > 0 {
      PicksOnInterval(ts, envs, k - 1, s);
      StepAtThreshold(ts, envs, k - 1, s);
      ApplyPick(ApplyAll(Firsts(envs), DiffsOf(ts), k - 1), ts[k - 1].diffs, s);
    }
  }

  /** `env` was recorded by Walk over the candidates `c`. */
  ghost predicate EnvOf(c: seq<Line>, env: Env) {
    && Rising(env.steps)
    && forall j, y :: 0 <= j <= |env.steps| && Within(env.steps, j, y) ==> OneBest(c, Pick(env, j), y)
  }

  predicate Within(steps: seq<Step>, j: nat, y: real)
    requires j <= |steps|
  {
    (j > 0 ==> steps[j - 1].x <= y) && (j < |steps| ==> y <= steps[j].x)
  }

  /** Candidate `id` is a 1-best at `y`. */
  ghost predicate OneBest(c: seq<Line>, id: nat, y: real) {
    exists i :: 0 <= i < |c| && c[i].id == id && Best(c, i, y)
  }

  /** The k-th interval between the global thresholds. */
  predicate OnGlobal(ts: seq<Threshold>, k: nat, y: real)
    requires k <= |ts|
  {
    (k > 0 ==> ts[k - 1].x <= y) && (k < |ts| ==> y <= ts[k].x)
  }

  lemma {:induction false} PickIsBest(ts: seq<Threshold>, envs: seq<Env>, c: seq<Line>, k: nat, s: nat, y: real)
    requires Recorded(ts, envs, |envs|, 0) && k <= |ts| && s < |envs| && EnvOf(c, envs[s]) && OnGlobal(ts, k, y)
    requires forall r :: 0 <= r < |envs| ==> Rising(envs[r].steps)
    ensures OneBest(c, ApplyAll(Firsts(envs), DiffsOf(ts), k)[s], y)
  {
    PicksOnInterval(ts, envs, k, s);
    var steps, j := envs[s].steps, TakenOn(ts, envs[s], k);
    if j < |steps| {
      var d := Diff(s, steps[j].id);
      assert StepIn(steps, |steps|, steps[j].x, steps[j].id);
      assert Entered(envs, |envs|, 0, steps[j].x, d) && HasDiff(ts, steps[j].x, d);
      var t :| 0 <= t < |ts| && ts[t].x == steps[j].x && d in ts[t].diffs;
      assert k <= t && ts[k].x <= ts[t].x;
    }
    assert Within(steps, j, y);
  }

  /** Records the walk over one sentence; near thresholds, which the original merges, are reported. */
  method Record(c: seq<Line>, minInt: real) returns (near: bool, env: Env)
    requires c != [] && ByGradient(c)
    ensures EnvOf(c, env)
    ensures near <==> NearTurns(c, minInt)
    ensures (exists i :: 0 <= i < |c| && c[i].id == env.first)
    ensures forall k :: 0 <= k < |env.steps| ==> exists i :: 0 <= i < |c| && c[i].id == env.steps[k].id
  {
    var path, xs := Walk(c);
    var steps := [];
    near := false;
    for k := 0 to |xs|
      invariant Copied(c, path, xs, steps, k)
      invariant near <==> NearSteps(xs[..k], minInt)
    {
      NearGrows(xs, k, minInt);
      if k > 0 && xs[k] - xs[k - 1] < minInt {
        near := true;
      }
      steps := steps + [Step(xs[k], c[path[k + 1]].id)];
    }
    env := Env(c[path[0]].id, steps);
    assert xs[..|xs|] == xs;
    NearIffTurns(c, path, xs, minInt);
    CopyIsEnv(c, path, xs, env);
  }

  /** The first `k` takeovers of a walk, as they are noted for its sentence. */
  ghost predicate Copied(c: seq<Line>, path: seq<nat>, xs: seq<real>, steps: seq<Step>, k: nat)
    requires |path| == |xs| + 1 && k <= |xs| && forall j :: 0 <= j < |path| ==> path[j] < |c|
  {
    |steps| == k && forall j :: 0 <= j < k ==> steps[j] == Step(xs[j], c[path[j + 1]].id)
  }

  lemma {:induction false} NearGrows(xs: seq<real>, k: nat, minInt: real)
    requires k < |xs|
    ensures NearSteps(xs[..k + 1], minInt) <==> NearSteps(xs[..k], minInt) || (k > 0 && xs[k] - xs[k - 1] < minInt)
  {
    var p, q := xs[..k], xs[..k + 1];
    assert forall j :: 0 <= j < k ==> p[j] == q[j];
    if k > 0 && xs[k] - xs[k - 1] < minInt {
      assert q[k] - q[k - 1] < minInt;
    }
    if NearSteps(p, minInt) {
      var j :| 0 < j < |p| && p[j] - p[j - 1] < minInt;
      assert q[j] - q[j - 1] < minInt;
    }
  }

  lemma {:induction false} CopyIsEnv(c: seq<Line>, path: seq<nat>, xs: seq<real>, env: Env)
    requires IsEnvelope(c, path, xs) && Copied(c, path, xs, env.steps, |xs|) && env.first == c[path[0]].id
    ensures EnvOf(c, env)
    ensures (exists i :: 0 <= i < |c| && c[i].id == env.first)
    ensures forall k :: 0 <= k < |env.steps| ==> exists i :: 0 <= i < |c| && c[i].id == env.steps[k].id
  {
    forall j, y | 0 <= j <= |env.steps| && Within(env.steps, j, y)
      ensures OneBest(c, Pick(env, j), y)
    {
      assert OnInterval(xs, j, y) && Best(c, path[j], y);
      assert c[path[j]].id == Pick(env, j);
    }
  }

  /** Every candidate has statistics with the same number of fields. */
  ghost predicate Matched(sentences: seq<seq<Line>>, data: Stats, fields: nat) {
    && |data| == |sentences|
    && (forall s :: 0 <= s < |sentences| ==>
         sentences[s] != [] && ByGradient(sentences[s]) && IdsIn(sentences[s], |data[s]|))
    && (forall s, j :: 0 <= s < |data| && 0 <= j < |data[s]| ==> |data[s][j]| == fields)
  }

  ghost predicate IdsIn(c: seq<Line>, n: nat) {
    forall i :: 0 <= i < |c| ==> c[i].id < n
  }

  /** `env` names only candidates below `n`. */
  ghost predicate EnvIds(env: Env, n: nat) {
    env.first < n && forall k :: 0 <= k < |env.steps| ==> env.steps[k].id < n
  }

  /** The corpus score of a choice in which every sentence has a 1-best at `y`. */
  ghost predicate ScoreOfBests(sentences: seq<seq<Line>>, data: Stats, calculate: seq<int> -> real, score: real,
                               y: real) {
    exists picks: seq<nat>, totals: seq<int> ::
      AllBest(sentences, picks, y) && FromScratch(data, picks, calculate, score, totals)
  }

  ghost predicate AllBest(sentences: seq<seq<Line>>, picks: seq<nat>, y: real) {
    |picks| == |sentences| && forall s :: 0 <= s < |sentences| ==> OneBest(sentences[s], picks[s], y)
  }

  /**
   LineOptimize up to the choice of the best interval: the k-th score is the corpus score
   of the 1-bests at every point of the k-th interval.
   */
  method LineScores(sentences: seq<seq<Line>>, minInt: real, data: Stats, calculate: seq<int> -> real,
                    ghost fields: nat)
    returns (near: bool, ts: seq<Threshold>, scores: seq<real>)
    requires sentences != [] && Matched(sentences, data, fields)
    ensures near <==> exists s {:trigger sentences[s]} :: 0 <= s < |sentences| && NearTurns(sentences[s], minInt)
    ensures !near ==> Ascending(ts) && |scores| == |ts| + 1
    ensures !near ==> forall k, y :: 0 <= k <= |ts| && OnGlobal(ts, k, y) ==>
              ScoreOfBests(sentences, data, calculate, scores[k], y)
  {
    var envs: seq<Env> := [];
    ts, scores := [], [];
    for s := 0 to |sentences|
      invariant |envs| == s
      invariant forall r :: 0 <= r < s ==> EnvOf(sentences[r], envs[r]) && EnvIds(envs[r], |data[r]|)
      invariant forall r {:trigger sentences[r]} :: 0 <= r < s ==> !NearTurns(sentences[r], minInt)
    {
      var env;
      near, env := Record(sentences[s], minInt);
      if near {
        return;
      }
      assert IdsIn(sentences[s], |data[s]|);
      envs := envs + [env];
    }
    near := false;
    ts := Collect(envs);
    forall k | 0 <= k < |ts|
      ensures DiffsOk(data, ts[k].diffs, fields)
    {
      RecordedDiffsOk(ts, envs, data, fields, k);
    }
    var ok;
    ghost var all;
    ok, scores, all := Score(data, Firsts(envs), DiffsOf(ts), calculate);
    forall k, y | 0 <= k <= |ts| && OnGlobal(ts, k, y)
      ensures ScoreOfBests(sentences, data, calculate, scores[k], y)
    {
      var picks := ApplyAll(Firsts(envs), DiffsOf(ts), k);
      forall s | 0 <= s < |sentences|
        ensures OneBest(sentences[s], picks[s], y)
      {
        PickIsBest(ts, envs, sentences[s], k, s, y);
      }
      assert FromScratch(data, picks, calculate, scores[k], all[k]);
      assert AllBest(sentences, picks, y);
    }
  }

  lemma {:induction false} RecordedDiffsOk(ts: seq<Threshold>, envs: seq<Env>, data: Stats, fields: nat, k: nat)
    requires Recorded(ts, envs, |envs|, 0) && k < |ts| && |envs| == |data|
    requires forall s :: 0 <= s < |data| ==> EnvIds(envs[s], |data[s]|)
    requires forall s, j :: 0 <= s < |data| && 0 <= j < |data[s]| ==> |data[s][j]| == fields
    ensures DiffsOk(data, ts[k].diffs, fields)
  {
    forall i | 0 <= i < |ts[k].diffs|
      ensures DiffOk(data, ts[k].diffs[i], fields)
    {
      var d := ts[k].diffs[i];
      assert HasDiff(ts, ts[k].x, d) && Entered(envs, |envs|, 0, ts[k].x, d);
    }
  }

  // ---------------------------------------------------------------- near thresholds

  /** Two candidates of different gradient are both best at `x`. */
  ghost predicate Turns(c: seq<Line>, x: real) {
    exists i, j {:trigger Tie(c, i, j, x)} :: Tie(c, i, j, x)
  }

  ghost predicate Tie(c: seq<Line>, i: int, j: int, x: real) {
    0 <= i < |c| && 0 <= j < |c| && c[i].gradient != c[j].gradient && Best(c, i, x) && Best(c, j, x)
  }

  ghost predicate IsEnvelope(c: seq<Line>, path: seq<nat>, xs: seq<real>) {
    && Envelops(c, path, xs)
    && forall k: nat, y {:trigger OnInterval(xs, k, y)} :: k <= |xs| && OnInterval(xs, k, y) ==> Best(c, path[k], y)
  }

  /** Inside an interval no line of another gradient ties. */
  lemma {:induction false} NoTieInside(a: Line, b: Line, x: real, below: real, above: real)
    requires below < x < above && a.gradient != b.gradient
    requires At(b, x) <= At(a, x) && At(b, below) <= At(a, below) && At(b, above) <= At(a, above)
    ensures At(b, x) < At(a, x)
  {
    var d := b.gradient - a.gradient;
    assert At(b, above) - At(a, above) == (At(b, x) - At(a, x)) + (above - x) * d;
    assert At(b, below) - At(a, below) == (At(b, x) - At(a, x)) - (x - below) * d;
    if d > 0.0 {
      SignOfProduct(above - x, d);
    } else {
      SignOfProduct(x - below, -d);
      assert (x - below) * -d == -((x - below) * d);
    }
  }

  /** The interval a point lies in, and whether it is one of its ends. */
  lemma {:induction false} IntervalOf(xs: seq<real>, x: real) returns (k: nat)
    requires x !in xs
    ensures k <= |xs| && (k > 0 ==> xs[k - 1] < x) && (k < |xs| ==> x < xs[k])
    decreases |xs|
  {
    var n := |xs| - 1;
    if xs == [] || xs[n] < x {
      k := |xs|;
    } else {
      k := IntervalOf(xs[..n], x);
      assert xs[n] in xs;
    }
  }

  /** The walk turns exactly where two candidates tie. */
  lemma {:induction false} TurnsAreThresholds(c: seq<Line>, path: seq<nat>, xs: seq<real>, x: real)
    requires IsEnvelope(c, path, xs)
    ensures Turns(c, x) <==> x in xs
  {
    if x in xs {
      var k :| 0 <= k < |xs| && xs[k] == x;
      TurnsAt(c, path, xs, k);
    } else {
      var k := IntervalOf(xs, x);
      forall i | 0 <= i < |c| && c[i].gradient != c[path[k]].gradient
        ensures !Best(c, i, x)
      {
        NotBestInside(c, path, xs, k, x, i);
      }
      assert forall i, j {:trigger Tie(c, i, j, x)} :: !Tie(c, i, j, x);
    }
  }

  lemma {:induction false} TurnsAt(c: seq<Line>, path: seq<nat>, xs: seq<real>, k: nat)
    requires IsEnvelope(c, path, xs) && k < |xs|
    ensures Turns(c, xs[k])
  {
    assert k > 0 ==> xs[k - 1] < xs[k];
    assert k + 1 < |xs| ==> xs[k] < xs[k + 1];
    assert OnInterval(xs, k, xs[k]) && OnInterval(xs, k + 1, xs[k]);
    assert Tie(c, path[k], path[k + 1], xs[k]);
  }

  lemma {:induction false} NotBestInside(c: seq<Line>, path: seq<nat>, xs: seq<real>, k: nat, x: real, i: nat)
    requires IsEnvelope(c, path, xs) && k <= |xs| && (k > 0 ==> xs[k - 1] < x) && (k < |xs| ==> x < xs[k])
    requires i < |c| && c[i].gradient != c[path[k]].gradient
    ensures !Best(c, i, x)
  {
    var below, above := if k > 0 then xs[k - 1] else x - 1.0, if k < |xs| then xs[k] else x + 1.0;
    assert OnInterval(xs, k, below) && OnInterval(xs, k, x) && OnInterval(xs, k, above);
    NoTieInside(c[path[k]], c[i], x, below, above);
  }

  /** Two turning points of one sentence are nearer than allowed. */
  ghost predicate NearTurns(c: seq<Line>, minInt: real) {
    exists x, y {:trigger TurnsNear(c, minInt, x, y)} :: TurnsNear(c, minInt, x, y)
  }

  ghost predicate TurnsNear(c: seq<Line>, minInt: real, x: real, y: real) {
    x < y && y - x < minInt && Turns(c, x) && Turns(c, y)
  }

  ghost predicate NearSteps(xs: seq<real>, minInt: real) {
    exists k {:trigger xs[k]} :: 0 < k < |xs| && xs[k] - xs[k - 1] < minInt
  }

  /** So neighbouring thresholds are near exactly if two turning points are. */
  lemma {:induction false} NearIffTurns(c: seq<Line>, path: seq<nat>, xs: seq<real>, minInt: real)
    requires IsEnvelope(c, path, xs)
    ensures NearSteps(xs, minInt) <==> NearTurns(c, minInt)
  {
    if NearSteps(xs, minInt) {
      var k :| 0 < k < |xs| && xs[k] - xs[k - 1] < minInt;
      TurnsAt(c, path, xs, k - 1);
      TurnsAt(c, path, xs, k);
      assert TurnsNear(c, minInt, xs[k - 1], xs[k]);
    }
    if NearTurns(c, minInt) {
      var x, y :| TurnsNear(c, minInt, x, y);
      TurnsAreThresholds(c, path, xs, x);
      TurnsAreThresholds(c, path, xs, y);
      var i :| 0 <= i < |xs| && xs[i] == x;
      var j :| 0 <= j < |xs| && xs[j] == y;
      assert i < j;
      assert xs[i] <= xs[j - 1] && xs[j] - xs[j - 1] < minInt;
    }
  }
}
