/**
 The greedy block-shift search of mert/TERsrc/tercalc.cpp: TER, CalcBestShift,
 FindAlignErr, GatherAllPossShifts, PerformShift and BuildWordMatches.

 The hash from joined words to reference positions is a map keyed by the words.
 */
module Shifts {
  import opened EditDistance

  const MAX_SHIFT_SIZE := 50
  const MAX_SHIFT_DIST := 50
  const SHIFT_COST := 1

  /** Words start..end of the hypothesis go behind word `newloc`; `moveto` is the reference position it was found at. */
  datatype Shift = Shift(start: nat, end: nat, moveto: int, newloc: int)

  predicate InRange(s: Shift, n: nat) {
    s.start <= s.end < n && -1 <= s.newloc < n
  }

  // ---------------------------------------------------------------- PerformShift

  /** What is left when the block is taken out. */
  function Rest(words: seq<Word>, s: Shift): (r: seq<Word>)
    requires InRange(s, |words|)
    ensures |r| == |words| - (s.end + 1 - s.start)
  {
    words[..s.start] + words[s.end + 1..]
  }

  /** Where the block is put back: a target inside the block pushes it that far to the right. */
  function Target(words: seq<Word>, s: Shift): (p: nat)
    requires InRange(s, |words|)
    ensures p <= |Rest(words, s)|
  {
    if s.newloc < s.start then s.newloc + 1
    else if s.newloc > s.end then s.newloc - (s.end - s.start)
    else Min(s.newloc, |Rest(words, s)|)
  }

  function Moved(words: seq<Word>, s: Shift): seq<Word>
    requires InRange(s, |words|)
  {
    PutAt(Rest(words, s), Target(words, s), words[s.start..s.end + 1])
  }

  function PutAt(rest: seq<Word>, p: nat, block: seq<Word>): seq<Word>
    requires p <= |rest|
  {
    rest[..p] + block + rest[p..]
  }

  lemma {:induction false} MovedIsPermutation(words: seq<Word>, s: Shift)
    requires InRange(s, |words|)
    ensures multiset(Moved(words, s)) == multiset(words) && |Moved(words, s)| == |words|
  {
    var p, rest := Target(words, s), Rest(words, s);
    assert rest == rest[..p] + rest[p..];
    assert words == words[..s.start] + words[s.start..s.end + 1] + words[s.end + 1..];
    Reinserted(words[..s.start], words[s.end + 1..], rest[..p], rest[p..], words[s.start..s.end + 1]);
  }

  lemma {:induction false} Reinserted(x: seq<Word>, y: seq<Word>, u: seq<Word>, v: seq<Word>, b: seq<Word>)
    requires x + y == u + v
    ensures multiset(u + b + v) == multiset(x + b + y)
  {
    calc {
      multiset(u + b + v);
      multiset(u + v) + multiset(b);
      multiset(x + y) + multiset(b);
      multiset(x + b + y);
    }
  }

  function Part(words: seq<Word>, from: nat, to: int): seq<Word>
    requires to <= |words|
  {
    if from < to then words[from..to] else []
  }

  /** One of the copying loops: words from..to (exclusive) are put behind those already copied. */
  method CopyRange(words: seq<Word>, out0: seq<Word>, from: nat, to: int) returns (out: seq<Word>)
    requires to <= |words|
    ensures out == out0 + Part(words, from, to)
  {
    out := out0;
    var i := from;
    while i < to
      invariant from <= i && (from < to ==> i <= to)
      invariant out == out0 + (if i <= to then Part(words, from, i) else [])
    {
      out := out + [words[i]];
      i := i + 1;
    }
  }

  function Four(a: seq<Word>, b: seq<Word>, c: seq<Word>, d: seq<Word>): seq<Word> {
    a + b + c + d
  }

  function Parts(words: seq<Word>, f1: nat, t1: int, f2: nat, t2: int, f3: nat, t3: int, f4: nat, t4: int): seq<Word>
    requires t1 <= |words| && t2 <= |words| && t3 <= |words| && t4 <= |words|
  {
    Four(Part(words, f1, t1), Part(words, f2, t2), Part(words, f3, t3), Part(words, f4, t4))
  }

  /** Three or four copied ranges that fill the whole vector. */
  method CopyAll(words: seq<Word>, f1: nat, t1: int, f2: nat, t2: int, f3: nat, t3: int, f4: nat, t4: int)
    returns (nwords: seq<Word>)
    requires t1 <= |words| && t2 <= |words| && t3 <= |words| && t4 <= |words|
    ensures nwords == Parts(words, f1, t1, f2, t2, f3, t3, f4, t4)
  {
    nwords := CopyRange(words, [], f1, t1);
    nwords := CopyRange(words, nwords, f2, t2);
    nwords := CopyRange(words, nwords, f3, t3);
    nwords := CopyRange(words, nwords, f4, t4);
  }

  /** The cases of the original each lay out the block and the rest in order. */
  method PerformShift(words: seq<Word>, s: Shift) returns (nwords: seq<Word>)
    requires InRange(s, |words|)
    ensures nwords == Moved(words, s)
  {
    if s.newloc < s.start {
      nwords := ShiftLeft(words, s);
    } else if s.newloc > s.end {
      nwords := ShiftRight(words, s, s.newloc + 1);
    } else {
      // Moving inside the block itself.
      var to := s.end + (s.newloc - s.start) + 1;
      nwords := ShiftRight(words, s, if to <= |words| then to else |words|);
    }
  }

  /** Covers newloc == -1 as well, where the first range is empty. */
  method ShiftLeft(words: seq<Word>, s: Shift) returns (nwords: seq<Word>)
    requires InRange(s, |words|) && s.newloc < s.start
    ensures nwords == Moved(words, s)
  {
    var p, q := s.newloc + 1, s.end + 1;
    MovedLeft(words, s, p, q);
    nwords := CopyAll(words, 0, p, s.start, q, p, s.start, q, |words|);
  }

  method ShiftRight(words: seq<Word>, s: Shift, to: nat) returns (nwords: seq<Word>)
    requires InRange(s, |words|) && s.end < to <= |words| && Target(words, s) == s.start + (to - (s.end + 1))
    ensures nwords == Moved(words, s)
  {
    var q := s.end + 1;
    MovedRight(words, s, q, to);
    nwords := CopyAll(words, 0, s.start, q, to, s.start, q, to, |words|);
  }

  lemma {:induction false} MovedLeft(words: seq<Word>, s: Shift, p: nat, q: nat)
    requires InRange(s, |words|) && s.newloc < s.start && p == s.newloc + 1 && q == s.end + 1
    ensures Moved(words, s) == Parts(words, 0, p, s.start, q, p, s.start, q, |words|)
  {
    assert words[..s.start] == Part(words, 0, p) + Part(words, p, s.start);
    assert words[q..] == Part(words, q, |words|);
    PutLeft(Part(words, 0, p), Part(words, p, s.start), Part(words, q, |words|), Part(words, s.start, q));
  }

  lemma {:induction false} MovedRight(words: seq<Word>, s: Shift, q: nat, to: nat)
    requires InRange(s, |words|) && q == s.end + 1 <= to <= |words| && Target(words, s) == s.start + (to - q)
    ensures Moved(words, s) == Parts(words, 0, s.start, q, to, s.start, q, to, |words|)
  {
    assert words[..s.start] == Part(words, 0, s.start);
    assert words[q..] == Part(words, q, to) + Part(words, to, |words|);
    PutRight(Part(words, 0, s.start), Part(words, q, to), Part(words, to, |words|), Part(words, s.start, q));
  }

  lemma {:induction false} PutLeft(a: seq<Word>, m: seq<Word>, z: seq<Word>, b: seq<Word>)
    ensures PutAt(a + m + z, |a|, b) == Four(a, b, m, z)
  {
    assert (a + m + z)[..|a|] == a && (a + m + z)[|a|..] == m + z;
    assert a + b + (m + z) == a + b + m + z;
  }

  lemma {:induction false} PutRight(a: seq<Word>, m: seq<Word>, z: seq<Word>, b: seq<Word>)
    ensures PutAt(a + (m + z), |a| + |m|, b) == Four(a, m, b, z)
  {
    assert (a + (m + z))[..|a| + |m|] == a + m && (a + (m + z))[|a| + |m|..] == z;
  }

  // ---------------------------------------------------------------- moving L words costs at most 2L edits

  /** `full` has one word more than `less`, and that changes the distance by at most one. */
  ghost predicate OneApart(ref: seq<Word>, i: nat, full: seq<Word>, less: seq<Word>, j: nat)
    requires i <= |ref| && j < |full| && j <= |less|
  {
    && Distance(ref, i, full, j + 1) <= Distance(ref, i, less, j) + 1
    && Distance(ref, i, less, j) <= Distance(ref, i, full, j + 1) + 1
  }

  /** `full` is `less` with a word put in at `p`. */
  ghost predicate Spliced(full: seq<Word>, less: seq<Word>, p: nat) {
    && |full| == |less| + 1 && p <= |less| && full[..p] == less[..p]
    && forall k {:trigger full[k]} :: p < k < |full| ==> full[k] == less[k - 1]
  }

  lemma {:induction false} RemoveOne(ref: seq<Word>, i: nat, full: seq<Word>, less: seq<Word>, p: nat, j: nat)
    requires i <= |ref| && Spliced(full, less, p) && p <= j <= |less|
    ensures OneApart(ref, i, full, less, j)
    decreases i + j
  {
    if j == p {
      RemoveLast(ref, i, full, less, j);
    } else if i > 0 {
      RemoveOne(ref, i, full, less, p, j - 1);
      RemoveOne(ref, i - 1, full, less, p, j - 1);
      RemoveOne(ref, i - 1, full, less, p, j);
      ApartInside(ref, i, full, less, j);
    }
  }

  lemma {:induction false} RemoveLast(ref: seq<Word>, i: nat, full: seq<Word>, less: seq<Word>, j: nat)
    requires i <= |ref| && j < |full| && j <= |less| && full[..j] == less[..j]
    ensures OneApart(ref, i, full, less, j)
    decreases i
  {
    if i > 0 {
      RemoveLast(ref, i - 1, full, less, j);
      SamePrefix(ref, i, full, less, j);
      SamePrefix(ref, i - 1, full, less, j);
      ApartAtEnd(ref, i, full, less, j);
    }
  }

  lemma {:induction false} ApartInside(ref: seq<Word>, i: nat, full: seq<Word>, less: seq<Word>, j: nat)
    requires 0 < i <= |ref| && 0 < j < |full| && j <= |less| && full[j] == less[j - 1]
    requires OneApart(ref, i, full, less, j - 1) && OneApart(ref, i - 1, full, less, j - 1)
             && OneApart(ref, i - 1, full, less, j)
    ensures OneApart(ref, i, full, less, j)
  {
  }

  lemma {:induction false} ApartAtEnd(ref: seq<Word>, i: nat, full: seq<Word>, less: seq<Word>, j: nat)
    requires 0 < i <= |ref| && j < |full| && j <= |less| && OneApart(ref, i - 1, full, less, j)
    requires Distance(ref, i, full, j) == Distance(ref, i, less, j)
             && Distance(ref, i - 1, full, j) == Distance(ref, i - 1, less, j)
    ensures OneApart(ref, i, full, less, j)
  {
    DropRef(ref, i, less, j);
  }

  /** One more word of reference costs at most one. */
  lemma {:induction false} DropRef(ref: seq<Word>, i: nat, hyp: seq<Word>, j: nat)
    requires 0 < i <= |ref| && j <= |hyp|
    ensures Distance(ref, i, hyp, j) <= Distance(ref, i - 1, hyp, j) + 1
  {
  }

  lemma {:induction false} SamePrefix(ref: seq<Word>, i: nat, h: seq<Word>, g: seq<Word>, j: nat)
    requires i <= |ref| && j <= |h| && j <= |g| && h[..j] == g[..j]
    ensures Distance(ref, i, h, j) == Distance(ref, i, g, j)
    decreases i + j
  {
    if i > 0 && j > 0 {
      assert h[j - 1] == h[..j][j - 1] && g[j - 1] == g[..j][j - 1];
      assert h[..j - 1] == h[..j][..j - 1] && g[..j - 1] == g[..j][..j - 1];
      SamePrefix(ref, i - 1, h, g, j - 1);
      SamePrefix(ref, i, h, g, j - 1);
      SamePrefix(ref, i - 1, h, g, j);
    }
  }

  function Lev(ref: seq<Word>, hyp: seq<Word>): nat {
    Distance(ref, |ref|, hyp, |hyp|)
  }

  lemma {:induction false} RemoveBlock(ref: seq<Word>, x: seq<Word>, b: seq<Word>, y: seq<Word>)
    ensures Lev(ref, x + b + y) <= Lev(ref, x + y) + |b|
    ensures Lev(ref, x + y) <= Lev(ref, x + b + y) + |b|
    decreases |b|
  {
    if b == [] {
      assert x + b + y == x + y;
    } else {
      var rest := b[1..] + y;
      assert x + b + y == x + [b[0]] + rest;
      assert x + b[1..] + y == x + rest;
      RemoveOne(ref, |ref|, x + [b[0]] + rest, x + rest, |x|, |x| + |rest|);
      RemoveBlock(ref, x, b[1..], y);
    }
  }

  /** So a shift of L words fixes at most 2L edits, the bound the search prunes by. */
  lemma {:induction false} ShiftFixesAtMost(ref: seq<Word>, words: seq<Word>, s: Shift)
    requires InRange(s, |words|)
    ensures Lev(ref, words) <= Lev(ref, Moved(words, s)) + 2 * (s.end + 1 - s.start)
  {
    var p, rest, block := Target(words, s), Rest(words, s), words[s.start..s.end + 1];
    assert words == words[..s.start] + block + words[s.end + 1..];
    RemoveBlock(ref, words[..s.start], block, words[s.end + 1..]);
    RemoveBlock(ref, rest[..p], block, rest[p..]);
    assert rest == rest[..p] + rest[p..];
  }

  // ---------------------------------------------------------------- FindAlignErr

  datatype Errors = Errors(herr: seq<bool>, rerr: seq<bool>, ralign: seq<int>)

  function RefUsed(path: seq<Edit>): nat {
    if path == [] then 0
    else RefUsed(path[..|path| - 1]) + if path[|path| - 1] == Insert then 0 else 1
  }

  function HypUsed(path: seq<Edit>): nat {
    if path == [] then 0
    else HypUsed(path[..|path| - 1]) + if path[|path| - 1] == Delete then 0 else 1
  }

  lemma {:induction false} ScriptUses(path: seq<Edit>, ref: seq<Word>, i: nat, hyp: seq<Word>, j: nat)
    requires i <= |ref| && j <= |hyp| && Script(path, ref, i, hyp, j)
    ensures RefUsed(path) == i && HypUsed(path) == j
    decreases |path|
  {
    if path != [] {
      var e := path[|path| - 1];
      ScriptUses(path[..|path| - 1], ref, if e == Insert then i else i - 1, hyp, if e == Delete then j else j - 1);
    }
  }

  /** Every prefix of a script is a script, of the words it uses. */
  lemma {:induction false} PrefixIsScript(path: seq<Edit>, ref: seq<Word>, i: nat, hyp: seq<Word>, j: nat, k: nat)
    requires i <= |ref| && j <= |hyp| && Script(path, ref, i, hyp, j) && k <= |path|
    ensures RefUsed(path[..k]) <= i && HypUsed(path[..k]) <= j
    ensures Script(path[..k], ref, RefUsed(path[..k]), hyp, HypUsed(path[..k]))
    decreases |path|
  {
    if k == |path| {
      assert path[..k] == path;
      ScriptUses(path, ref, i, hyp, j);
    } else {
      var e, before := path[|path| - 1], path[..|path| - 1];
      PrefixIsScript(before, ref, if e == Insert then i else i - 1, hyp, if e == Delete then j else j - 1, k);
      assert before[..k] == path[..k];
    }
  }

  /** The k-th edit is recorded at the words it uses. */
  predicate RecordedAt(e: Errors, path: seq<Edit>, k: nat)
    requires k < |path|
  {
    var r, h := RefUsed(path[..k]), HypUsed(path[..k]);
    && (path[k] != Insert ==> r < |e.rerr| && r < |e.ralign| && e.rerr[r] == (path[k] != Match)
                              && e.ralign[r] == (if path[k] == Delete then h - 1 else h))
    && (path[k] != Delete ==> h < |e.herr| && e.herr[h] == (path[k] != Match))
  }

  method FindAlignErr(path: seq<Edit>, ref: seq<Word>, hyp: seq<Word>) returns (e: Errors)
    requires Script(path, ref, |ref|, hyp, |hyp|)
    ensures |e.herr| == |hyp| && |e.rerr| == |e.ralign| == |ref|
    ensures forall k {:trigger RecordedAt(e, path, k)} :: 0 <= k < |path| ==> RecordedAt(e, path, k)
  {
    var herr, rerr, ralign := seq(|hyp|, _ => false), seq(|ref|, _ => false), seq(|ref|, _ => 0);
    var hpos, rpos := -1, -1;
    var i := 0;
    while i < |path|
      invariant 0 <= i <= |path| && |herr| == |hyp| && |rerr| == |ralign| == |ref|
      invariant rpos + 1 == RefUsed(path[..i]) && hpos + 1 == HypUsed(path[..i])
      invariant forall k {:trigger RecordedAt(Errors(herr, rerr, ralign), path, k)} :: 0 <= k < i ==>
                  RecordedAt(Errors(herr, rerr, ralign), path, k)
      invariant forall k {:trigger Before(path, k, i)} :: 0 <= k < i ==> Before(path, k, i)
    {
      ghost var e0 := Errors(herr, rerr, ralign);
      BeforeStep(path, i);
      PrefixIsScript(path, ref, |ref|, hyp, |hyp|, i + 1);
      match path[i] {
        case Match =>
          hpos, rpos := hpos + 1, rpos + 1;
          herr, rerr, ralign := herr[hpos := false], rerr[rpos := false], ralign[rpos := hpos];
        case Substitute =>
          hpos, rpos := hpos + 1, rpos + 1;
          herr, rerr, ralign := herr[hpos := true], rerr[rpos := true], ralign[rpos := hpos];
        case Insert =>
          hpos := hpos + 1;
          herr := herr[hpos := true];
        case Delete =>
          rpos := rpos + 1;
          rerr, ralign := rerr[rpos := true], ralign[rpos := hpos];
      }
      ghost var e1 := Errors(herr, rerr, ralign);
      forall k | 0 <= k < i
        ensures RecordedAt(e1, path, k)
      {
        assert RecordedAt(e0, path, k) && Before(path, k, i);
      }
      i := i + 1;
    }
    e := Errors(herr, rerr, ralign);
  }

  /** An earlier edit uses earlier words. */
  ghost predicate Before(path: seq<Edit>, k: nat, i: nat)
    requires k < i <= |path|
  {
    && (path[k] != Insert ==> RefUsed(path[..k]) < RefUsed(path[..i]))
    && (path[k] != Delete ==> HypUsed(path[..k]) < HypUsed(path[..i]))
    && RefUsed(path[..k]) <= RefUsed(path[..i]) && HypUsed(path[..k]) <= HypUsed(path[..i])
  }

  lemma {:induction false} BeforeStep(path: seq<Edit>, i: nat)
    requires i < |path| && forall k {:trigger Before(path, k, i)} :: 0 <= k < i ==> Before(path, k, i)
    ensures forall k {:trigger Before(path, k, i + 1)} :: 0 <= k < i + 1 ==> Before(path, k, i + 1)
    ensures RefUsed(path[..i + 1]) == RefUsed(path[..i]) + if path[i] == Insert then 0 else 1
    ensures HypUsed(path[..i + 1]) == HypUsed(path[..i]) + if path[i] == Delete then 0 else 1
  {
    assert path[..i + 1][..i] == path[..i];
    forall k: nat {:trigger Before(path, k, i + 1)} | k < i + 1
      ensures Before(path, k, i + 1)
    {
      assert k < i ==> Before(path, k, i);
    }
  }

  /** The alignment points into the hypothesis, and a reference word without error is aligned to its like. */
  ghost predicate ErrorsOk(e: Errors, ref: seq<Word>, hyp: seq<Word>) {
    && |e.herr| == |hyp| && |e.rerr| == |e.ralign| == |ref|
    && forall r {:trigger e.ralign[r]} :: 0 <= r < |ref| ==>
         && -1 <= e.ralign[r] < |hyp|
         && (!e.rerr[r] ==> e.ralign[r] >= 0 && ref[r] == hyp[e.ralign[r]] && !e.herr[e.ralign[r]])
  }

  /** Some edit of the script uses each reference word. */
  lemma {:induction false} EditUsing(path: seq<Edit>, r: nat) returns (k: nat)
    requires r < RefUsed(path)
    ensures k < |path| && path[k] != Insert && RefUsed(path[..k]) == r
    decreases |path|
  {
    var before := path[..|path| - 1];
    if r < RefUsed(before) {
      k := EditUsing(before, r);
      assert before[..k] == path[..k];
    } else {
      k := |path| - 1;
    }
  }

  lemma {:induction false} AlignmentErrorsOk(path: seq<Edit>, ref: seq<Word>, hyp: seq<Word>, e: Errors)
    requires Script(path, ref, |ref|, hyp, |hyp|) && |e.herr| == |hyp| && |e.rerr| == |e.ralign| == |ref|
    requires forall k {:trigger RecordedAt(e, path, k)} :: 0 <= k < |path| ==> RecordedAt(e, path, k)
    ensures ErrorsOk(e, ref, hyp)
  {
    ScriptUses(path, ref, |ref|, hyp, |hyp|);
    forall r: nat | r < |ref|
      ensures -1 <= e.ralign[r] < |hyp|
              && (!e.rerr[r] ==> e.ralign[r] >= 0 && ref[r] == hyp[e.ralign[r]] && !e.herr[e.ralign[r]])
    {
      var k := EditUsing(path, r);
      assert RecordedAt(e, path, k);
      PrefixIsScript(path, ref, |ref|, hyp, |hyp|, k + 1);
      assert path[..k + 1][..k] == path[..k];
    }
  }
}
