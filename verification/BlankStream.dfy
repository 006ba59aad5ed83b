/**
 The stream that the trie builder's merge produces (kenlm/lm/search_trie.cc): every listed
 n-gram, and a blank for every prefix that no file lists, based on the longest listed prefix.

 When BlankManager::Visit has inserted blanks it does not record the last word of the
 n-gram, so that the cell for it keeps what it held before.  The functions below take that
 content as a parameter, and the main result says exactly for which contents the stream is
 right.
 */
module BlankStream {
  import opened Lexicographic
  import opened Options

  /** What the `Doing` callbacks are told, in order. */
  datatype Event = Listed(gram: Gram) | Blank(gram: Gram, basedOn: nat, basis: real)

  /** The n-grams the files list, unigrams included, with their log-probabilities. */
  type Listing = map<Gram, real>

  /** What `basis_[i]` records on the way to `g`: a log-probability, or kBadProb for a blank. */
  function Basis(listed: Listing, g: Gram, i: nat): Option<real>
    requires i < |g|
  {
    if g[..i + 1] in listed then Some(listed[g[..i + 1]]) else None
  }

  lemma {:induction false} SameBasis(listed: Listing, last: Gram, to: Gram, c: nat)
    requires c <= |last| && c <= |to| && forall i :: 0 <= i < c ==> last[i] == to[i]
    ensures forall i :: 0 <= i < c ==> Basis(listed, last, i) == Basis(listed, to, i)
  {
    forall i | 0 <= i < c
      ensures Basis(listed, last, i) == Basis(listed, to, i)
    {
      assert last[..i + 1] == to[..i + 1];
    }
  }

  /** The longest listed n-gram among g[..1] to g[..c]; zero if there is none. */
  function LongestListed(listed: Listing, g: Gram, c: nat): (b: nat)
    requires c <= |g|
    ensures b <= c
    ensures b > 0 ==> g[..(b)] in listed
    ensures forall i {:trigger g[..i] in listed} :: b < i <= c ==> g[..i] !in listed
  {
    if c == 0 || g[..c] in listed then c else LongestListed(listed, g, c - 1)
  }

  lemma {:induction false} CommonIs(a: Gram, b: Gram, k: nat, c: nat)
    requires c <= k <= |a| && k <= |b| && forall i :: 0 <= i < c ==> a[i] == b[i]
    requires c < k ==> a[c] != b[c]
    ensures Common(a, b, k) == c
  {
    CommonAgrees(a, b, k);
  }

  lemma {:induction false} LongestPositive(listed: Listing, g: Gram, c: nat)
    requires 1 <= c <= |g| && g[..1] in listed
    ensures LongestListed(listed, g, c) > 0
  {
    if c > 1 && g[..c] !in listed {
      LongestPositive(listed, g, c - 1);
    }
  }

  lemma {:induction false} LongestIs(listed: Listing, g: Gram, c: nat, b: nat)
    requires 1 <= b <= c <= |g| && g[..b] in listed
    requires forall j :: b < j <= c ==> g[..j] !in listed
    ensures LongestListed(listed, g, c) == b
  {
    if c > b {
      LongestIs(listed, g, c - 1, b);
    }
  }

  /** How much of `to` is found in what is remembered of the n-gram visited last. */
  function Overlap(last: Gram, to: Gram): nat
    requires to != []
  {
    Common(last, to, Min(|to| - 1, |last|))
  }

  lemma {:induction false} OverlapAgrees(last: Gram, to: Gram)
    requires to != []
    ensures var c, m := Overlap(last, to), Min(|to| - 1, |last|);
            (forall i {:trigger last[i]} {:trigger to[i]} :: 0 <= i < c ==> last[i] == to[i]) && c <= m
              && (c < m ==> last[c] != to[c])
  {
    CommonAgrees(last, to, Min(|to| - 1, |last|));
  }

  // ---------------------------------------------------------------- one visit

  /** `been` holds the words remembered, `basis` what each length was listed with. */
  datatype Merge = Merge(been: Gram, basis: seq<Option<real>>, events: seq<Event>)

  predicate Started(s: Merge, order: nat) {
    |s.been| <= |s.basis| == order && (s.been != [] ==> s.basis[0].Some?)
  }

  /** The longest length up to `c` that is no blank, as an index. */
  function LastSet(basis: seq<Option<real>>, c: nat): (i: nat)
    requires 0 < c <= |basis| && basis[0].Some?
    ensures i < c && basis[i].Some? && forall j :: i < j < c ==> basis[j].None?
  {
    if basis[c - 1].Some? then c - 1 else LastSet(basis, c - 1)
  }

  /** Blanks for g[..c+1] up to g[..k-1]. */
  function Blanks(g: Gram, c: nat, k: nat, basedOn: nat, basis: real): (events: seq<Event>)
    requires c < k <= |g| + 1
    ensures |events| == k - 1 - c
    ensures forall i {:trigger events[i]} :: 0 <= i < |events| ==> events[i] == Blank(g[..c + 1 + i], basedOn, basis)
  {
    if k == c + 1 then [] else Blanks(g, c, k - 1, basedOn, basis) + [Blank(g[..k - 1], basedOn, basis)]
  }

  function Clear(basis: seq<Option<real>>, c: nat, k: nat): (r: seq<Option<real>>)
    requires c <= k <= |basis|
    ensures |r| == |basis| && forall i {:trigger r[i]} :: 0 <= i < |r| ==> r[i] == if c <= i < k then None else basis[i]
  {
    seq(|basis|, i requires 0 <= i < |basis| => if c <= i < k then None else basis[i])
  }

  /** Visit does not throw: the n-gram is a unigram, or shares its first word with the last. */
  predicate Goes(s: Merge, to: Gram) {
    to != [] && (|to| == 1 || Overlap(s.been, to) > 0)
  }

  /** What a visit emits, and then the report of the n-gram itself. */
  function NewEvents(s: Merge, order: nat, to: Gram, prob: real): (events: seq<Event>)
    requires Started(s, order) && |to| <= order && Goes(s, to)
    ensures |events| == |to| - Overlap(s.been, to)
  {
    var c := Overlap(s.been, to);
    if c == |to| - 1 then [Listed(to)]
    else
      var i := LastSet(s.basis, c);
      Blanks(to, c, |to|, i + 1, s.basis[i].value) + [Listed(to)]
  }

  /** All words but the last are recorded in any case. */
  predicate Remembers(been: Gram, last: Gram) {
    |been| == |last| && (|last| == 1 ==> been == last) && (last != [] ==> been[..|last| - 1] == last[..|last| - 1])
  }

  /** One round of the merge; `x` is what the cell of the last word holds. */
  function Step(s: Merge, order: nat, to: Gram, prob: real, x: nat): (r: Merge)
    requires Started(s, order) && |to| <= order && Goes(s, to)
    ensures Started(r, order) && Remembers(r.been, to) && s.events <= r.events
  {
    var basis := s.basis[|to| - 1 := Some(prob)];
    var c := Overlap(s.been, to);
    Merge(if c == |to| - 1 then to else to[..|to| - 1] + [x], Clear(basis, c, |to| - 1),
          s.events + NewEvents(s, order, to, prob))
  }

  // ---------------------------------------------------------------- what has been emitted

  predicate Le(a: Gram, b: Gram) {
    a == b || Less(a, b)
  }

  /** `g` is a listed n-gram not after `last`, or a prefix of one. */
  ghost predicate Reached(listed: Listing, last: Gram, g: Gram) {
    g != [] && exists l {:trigger Prefix(g, l)} :: l in listed && Le(l, last) && Prefix(g, l)
  }

  /** `g` is listed or a prefix of a listed n-gram. */
  ghost predicate Covered(listed: Listing, g: Gram) {
    exists l {:trigger Prefix(g, l)} :: l in listed && Prefix(g, l)
  }

  ghost predicate Emits(events: seq<Event>, g: Gram) {
    exists i {:trigger events[i]} :: 0 <= i < |events| && events[i].gram == g
  }

  /** A listed n-gram, or a blank that rests on its longest listed prefix. */
  ghost predicate EventOk(listed: Listing, e: Event) {
    match e
    case Listed(g) => g in listed
    case Blank(g, b, p) =>
      && 1 <= b < |g| && g[..b] in listed && p == listed[g[..b]]
      && forall i {:trigger g[..i]} :: b < i <= |g| ==> g[..i] !in listed
  }

  ghost predicate Ascending(events: seq<Event>) {
    forall i, j {:trigger Less(events[i].gram, events[j].gram)} :: 0 <= i < j < |events| ==>
        Less(events[i].gram, events[j].gram)
  }

  /** Strictly increasing, each reached n-gram once, nothing else. */
  ghost predicate EventsOk(listed: Listing, last: Gram, events: seq<Event>) {
    && Ascending(events)
    && (forall i {:trigger events[i]} :: 0 <= i < |events| ==> Le(events[i].gram, last) && EventOk(listed, events[i]))
    && (forall g {:trigger Reached(listed, last, g)} :: Reached(listed, last, g) <==> Emits(events, g))
  }

  /** No listed n-gram lies between two n-grams visited one after the other. */
  ghost predicate Adjacent(listed: Listing, last: Gram, to: Gram) {
    && to != [] && to in listed
    && (if last == [] then true else last in listed && Less(last, to))
    && forall l {:trigger Skips(last, to, l)} :: l in listed ==> !Skips(last, to, l)
  }

  predicate Skips(last: Gram, to: Gram, l: Gram) {
    (last == [] || Less(last, l)) && Less(l, to)
  }

  /** A prefix of `to` that is longer than its overlap with `last` was not reached before. */
  lemma {:induction false} BeyondOverlap(listed: Listing, last: Gram, to: Gram, i: nat)
    requires Adjacent(listed, last, to) && last != [] && Overlap(last, to) < i <= |to|
    ensures Less(last, to[..i])
    ensures i < |to| ==> to[..i] !in listed
  {
    OverlapAgrees(last, to);
    var c := Overlap(last, to);
    var p := to[..i];
    if c < |last| && c < |to| - 1 {
      FirstDifference(last, to, c);
      FirstDifference(last, p, c);
    } else if c == |last| {
      assert Prefix(last, p);
      PrefixLess(last, p);
    } else {
      assert p == to;
    }
    if i < |to| {
      PrefixLess(p, to);
      assert p in listed ==> !Skips(last, to, p);
    }
  }

  lemma {:induction false} Increasing(events: seq<Event>, last: Gram, to: Gram, c: nat, all: seq<Event>)
    requires Ascending(events) && forall i {:trigger events[i]} :: 0 <= i < |events| ==> Le(events[i].gram, last)
    requires |events| <= |all| && all[..|events|] == events && |all| - |events| <= |to| - c
    requires forall i :: |events| <= i < |all| ==>
               all[i].gram == to[..c + 1 + i - |events|] && (events == [] || Less(last, all[i].gram))
    ensures Ascending(all)
  {
    var n := |events|;
    forall i, j | 0 <= i < j < |all|
      ensures Less(all[i].gram, all[j].gram)
    {
      if i >= n {
        PrefixLess(all[i].gram, all[j].gram);
      } else {
        assert all[i] == all[..n][i];
        if j < n {
          assert all[j] == all[..n][j];
        } else if events[i].gram != last {
          LessTransitive(events[i].gram, last, all[j].gram);
        }
      }
    }
  }

  /** `all` is `events` followed by the prefixes of `to` beyond its overlap with `last`. */
  ghost predicate Appended(listed: Listing, last: Gram, to: Gram, events: seq<Event>, all: seq<Event>) {
    && EventsOk(listed, last, events) && Adjacent(listed, last, to) && (last == [] ==> events == [])
    && |events| <= |all| && all[..|events|] == events && |all| - |events| == |to| - Overlap(last, to)
    && forall i :: |events| <= i < |all| ==> all[i].gram == to[..Overlap(last, to) + 1 + i - |events|]
  }

  lemma {:induction false} ReachedStep(listed: Listing, last: Gram, to: Gram, events: seq<Event>, all: seq<Event>,
                                       g: Gram)
    requires Appended(listed, last, to, events, all)
    ensures Reached(listed, to, g) <==> Emits(all, g)
  {
    if Reached(listed, to, g) {
      ReachedIsEmitted(listed, last, to, events, all, g);
    }
    if Emits(all, g) {
      EmittedIsReached(listed, last, to, events, all, g);
    }
  }

  lemma {:induction false} ReachedIsEmitted(listed: Listing, last: Gram, to: Gram, events: seq<Event>, all: seq<Event>,
                                            g: Gram)
    requires Appended(listed, last, to, events, all) && Reached(listed, to, g)
    ensures Emits(all, g)
  {
    OverlapAgrees(last, to);
    var c, n := Overlap(last, to), |events|;
    var l :| l in listed && Le(l, to) && Prefix(g, l);
    if l == to && |g| > c {
      assert g == to[..|g|];
      assert all[n + |g| - c - 1].gram == g;
    } else {
      assert Reached(listed, last, g) by {
        if l == to {
          assert Prefix(g, last);
        } else {
          assert !Skips(last, to, l);
          LessTotal(last, l);
        }
      }
      var i :| 0 <= i < |events| && events[i].gram == g;
      assert all[i] == all[..n][i];
    }
  }

  lemma {:induction false} EmittedIsReached(listed: Listing, last: Gram, to: Gram, events: seq<Event>, all: seq<Event>,
                                            g: Gram)
    requires Appended(listed, last, to, events, all) && Emits(all, g)
    ensures Reached(listed, to, g)
  {
    var n := |events|;
    var i :| 0 <= i < |all| && all[i].gram == g;
    if i < n {
      assert all[i] == all[..n][i];
      assert Emits(events, g) && Reached(listed, last, g);
      var l :| l in listed && Le(l, last) && Prefix(g, l);
      if l != last {
        LessTransitive(l, last, to);
      }
    } else {
      assert Prefix(g, to);
    }
  }

  // ---------------------------------------------------------------- what is remembered of the last n-gram

  /** Blanks were inserted for `g`: what it extends is neither listed nor part of an earlier n-gram. */
  ghost predicate Lost(listed: Listing, g: Gram) {
    |g| > 1 && forall l {:trigger Before(g, l)} :: l in listed && Before(g, l) ==> !Prefix(g[..|g| - 1], l)
  }

  predicate Before(g: Gram, l: Gram) {
    Less(l, g)
  }

  /** The next n-gram will be compared with the cell of the last word of `g`. */
  predicate Compared(g: Gram, to: Gram) {
    g != [] && |to| > |g| && to[..|g| - 1] == g[..|g| - 1]
  }

  /** The content `x` of that cell gives the wrong answer. */
  ghost predicate Misled(listed: Listing, g: Gram, to: Gram, x: nat) {
    Lost(listed, g) && Compared(g, to) && (x == to[|g| - 1] <==> g[|g| - 1] != to[|g| - 1])
  }

  ghost function Recalled(listed: Listing, last: Gram, x: nat): Gram {
    if Lost(listed, last) then last[..|last| - 1] + [x] else last
  }

  ghost predicate BasisOk(listed: Listing, last: Gram, basis: seq<Option<real>>) {
    |last| <= |basis| && forall i {:trigger basis[i]} :: 0 <= i < |last| ==> basis[i] == Basis(listed, last, i)
  }

  /** The state after `last`, where the cell of its last word holds `x` if it was not recorded. */
  ghost predicate InOrder(listed: Listing, order: nat, last: Gram, s: Merge, x: nat) {
    && Started(s, order) && s.been == Recalled(listed, last, x) && BasisOk(listed, last, s.basis)
    && EventsOk(listed, last, s.events) && (last == [] ==> s.events == [])
    && (last != [] ==> last in listed && last[..1] in listed)
  }

  /** Unless it is misled, the comparison finds the true overlap. */
  lemma {:induction false} OverlapIs(listed: Listing, last: Gram, to: Gram, x: nat)
    requires to != [] && !Misled(listed, last, to, x)
    ensures Overlap(Recalled(listed, last, x), to) == Overlap(last, to)
  {
    OverlapAgrees(last, to);
    var been, c := Recalled(listed, last, x), Overlap(last, to);
    if Lost(listed, last) {
      var m, k := Min(|to| - 1, |last|), |last| - 1;
      assert forall i :: 0 <= i < k ==> been[i] == last[i];
      if c > k {
        assert to[..k] == last[..k];
      } else if c == k < m {
        assert to[..k] == last[..k];
      }
      CommonIs(been, to, m, c);
    }
  }

  /** Blanks are inserted for exactly the n-grams that get lost. */
  lemma {:induction false} LostIffBlank(listed: Listing, last: Gram, to: Gram)
    requires Adjacent(listed, last, to) && to[..1] in listed && last != []
    ensures Lost(listed, to) <==> Overlap(last, to) < |to| - 1
  {
    OverlapAgrees(last, to);
    var c, k := Overlap(last, to), |to| - 1;
    var p := to[..k];
    if c == k {
      assert Before(to, last) && Prefix(p, last);
    } else {
      BeyondOverlap(listed, last, to, k);
      forall l | l in listed && Before(to, l)
        ensures !Prefix(p, l)
      {
        NotBehind(listed, last, to, p, l);
      }
    }
  }

  lemma {:induction false} NotBehind(listed: Listing, last: Gram, to: Gram, p: Gram, l: Gram)
    requires Adjacent(listed, last, to) && last != [] && l in listed && Less(l, to) && Less(last, p)
    ensures !Prefix(p, l)
  {
    assert !Skips(last, to, l);
    LessTotal(last, l);
    if Prefix(p, l) {
      LePrefix(p, l);
      ChainLess(last, p, l);
    }
  }

  lemma {:induction false} LePrefix(p: Gram, l: Gram)
    requires Prefix(p, l)
    ensures Le(p, l)
  {
    if |p| < |l| {
      PrefixLess(p, l);
    }
  }

  lemma {:induction false} ChainLess(a: Gram, p: Gram, l: Gram)
    requires Less(a, p) && Le(p, l)
    ensures Less(a, l) && !Le(l, a)
  {
    if p != l {
      LessTransitive(a, p, l);
    }
    LessAsymmetric(a, l);
  }

  /** The first word is always shared, for its unigram is listed. */
  lemma {:induction false} SharesFirst(listed: Listing, last: Gram, to: Gram)
    requires Adjacent(listed, last, to) && to[..1] in listed && |to| > 1
    ensures last != [] && last[0] == to[0]
  {
    var u := to[..1];
    PrefixLess(u, to);
    assert !Skips(last, to, u);
    if last != [] && last != u {
      LessTotal(last, u);
      BetweenExtends(u, last, to);
    }
  }

  // ---------------------------------------------------------------- one step, not misled

  lemma {:induction false} NewEvent(listed: Listing, last: Gram, to: Gram, all: seq<Event>, i: nat, b: nat)
    requires Adjacent(listed, last, to) && last != [] && i < |to| - Overlap(last, to) && 0 < Overlap(last, to)
    requires b == LongestListed(listed, to, Overlap(last, to)) && 0 < b
    requires |all| == |to| - Overlap(last, to)
    requires all == Blanks(to, Overlap(last, to), |to|, b, listed[to[..b]]) + [Listed(to)]
    ensures all[i].gram == to[..Overlap(last, to) + 1 + i] && Less(last, all[i].gram) && EventOk(listed, all[i])
            && Le(all[i].gram, to)
  {
    var c := Overlap(last, to);
    var j := c + 1 + i;
    var p := to[..j];
    assert to[..|to|] == to;
    BeyondOverlap(listed, last, to, j);
    if j < |to| {
      PrefixLess(p, to);
      forall x | b < x <= |p|
        ensures p[..x] !in listed
      {
        assert p[..x] == to[..x];
        if x > c {
          BeyondOverlap(listed, last, to, x);
        }
      }
      assert p[..b] == to[..b];
    }
  }

  /** The new events of a visit that finds the true overlap keep the stream in order and complete. */
  lemma {:induction false} EventsStep(listed: Listing, last: Gram, to: Gram, events: seq<Event>, more: seq<Event>)
    requires EventsOk(listed, last, events) && Adjacent(listed, last, to) && last != []
    requires |more| == |to| - Overlap(last, to)
    requires forall i {:trigger more[i]} :: 0 <= i < |more| ==>
               more[i].gram == to[..Overlap(last, to) + 1 + i] && Less(last, more[i].gram)
                 && EventOk(listed, more[i]) && Le(more[i].gram, to)
    ensures EventsOk(listed, to, events + more)
  {
    var all := events + more;
    AllOk(listed, last, to, events, more);
    assert all[..|events|] == events;
    forall i | |events| <= i < |all|
      ensures all[i].gram == to[..Overlap(last, to) + 1 + i - |events|] && Less(last, all[i].gram)
    {
      assert all[i] == more[i - |events|];
    }
    Increasing(events, last, to, Overlap(last, to), all);
    forall g
      ensures Reached(listed, to, g) <==> Emits(all, g)
    {
      ReachedStep(listed, last, to, events, all, g);
    }
  }

  lemma {:induction false} AllOk(listed: Listing, last: Gram, to: Gram, events: seq<Event>, more: seq<Event>)
    requires EventsOk(listed, last, events) && Less(last, to)
    requires forall i {:trigger more[i]} :: 0 <= i < |more| ==> EventOk(listed, more[i]) && Le(more[i].gram, to)
    ensures forall i {:trigger (events + more)[i]} :: 0 <= i < |events + more| ==>
              Le((events + more)[i].gram, to) && EventOk(listed, (events + more)[i])
  {
    forall i | 0 <= i < |events|
      ensures Le(events[i].gram, to)
    {
      if events[i].gram != last {
        LessTransitive(events[i].gram, last, to);
      }
    }
  }

  lemma {:induction false} FirstStep(listed: Listing, to: Gram)
    requires Adjacent(listed, [], to) && |to| == 1
    ensures EventsOk(listed, to, [Listed(to)])
  {
    forall g
      ensures Reached(listed, to, g) <==> Emits([Listed(to)], g)
    {
      if Reached(listed, to, g) {
        var l :| l in listed && Le(l, to) && Prefix(g, l);
        assert !Skips([], to, l);
        assert [Listed(to)][0].gram == g;
      }
      assert Prefix(to, to);
    }
  }

  lemma {:induction false} NewBasis(listed: Listing, last: Gram, to: Gram, s: Merge, order: nat, x: nat)
    requires Started(s, order) && BasisOk(listed, last, s.basis) && |to| <= order && Goes(s, to)
    requires to in listed && Overlap(s.been, to) == Overlap(last, to)
    requires forall i {:trigger to[..i]} :: Overlap(last, to) < i < |to| ==> to[..i] !in listed
    ensures BasisOk(listed, to, Step(s, order, to, listed[to], x).basis)
    ensures forall i {:trigger Basis(listed, to, i)} :: 0 <= i < Overlap(last, to) ==>
              s.basis[i] == Basis(listed, to, i)
  {
    OverlapAgrees(last, to);
    OverlapAgrees(s.been, to);
    SameBasis(listed, last, to, Overlap(last, to));
    assert to[..|to|] == to;
  }

  /** A step that is not misled goes on, and keeps everything in order. */
  lemma {:induction false} StepInOrder(listed: Listing, order: nat, last: Gram, s: Merge, x: nat, to: Gram, y: nat)
    requires InOrder(listed, order, last, s, x) && Adjacent(listed, last, to) && to[..1] in listed && |to| <= order
    requires !Misled(listed, last, to, x)
    ensures Goes(s, to) && InOrder(listed, order, to, Step(s, order, to, listed[to], y), y)
  {
    var c := Overlap(last, to);
    OverlapIs(listed, last, to, x);
    if |to| > 1 {
      SharesFirst(listed, last, to);
    }
    if last == [] {
      FirstStep(listed, to);
      assert s.events + [Listed(to)] == [Listed(to)] && to[..1] == to;
      return;
    }
    forall i {:trigger to[..i]} | c < i < |to|
      ensures to[..i] !in listed
    {
      BeyondOverlap(listed, last, to, i);
    }
    LostIffBlank(listed, last, to);
    NewBasis(listed, last, to, s, order, y);
    StepEvents(listed, order, last, s, to, y);
  }

  lemma {:induction false} StepEvents(listed: Listing, order: nat, last: Gram, s: Merge, to: Gram, y: nat)
    requires Started(s, order) && |to| <= order && Goes(s, to) && Overlap(s.been, to) == Overlap(last, to)
    requires Adjacent(listed, last, to) && last != [] && to[..1] in listed && EventsOk(listed, last, s.events)
    requires forall i {:trigger Basis(listed, to, i)} :: 0 <= i < Overlap(last, to) ==>
               s.basis[i] == Basis(listed, to, i)
    ensures EventsOk(listed, to, Step(s, order, to, listed[to], y).events)
  {
    var more := NewEvents(s, order, to, listed[to]);
    forall j | 0 <= j < |more|
      ensures more[j].gram == to[..Overlap(last, to) + 1 + j] && Less(last, more[j].gram)
      ensures EventOk(listed, more[j]) && Le(more[j].gram, to)
    {
      NewEventOk(listed, order, last, s, to, j);
    }
    EventsStep(listed, last, to, s.events, more);
  }

  lemma {:induction false} NewEventOk(listed: Listing, order: nat, last: Gram, s: Merge, to: Gram, j: nat)
    requires Started(s, order) && |to| <= order && Goes(s, to) && Overlap(s.been, to) == Overlap(last, to)
    requires Adjacent(listed, last, to) && last != [] && to[..1] in listed && j < |to| - Overlap(last, to)
    requires forall i {:trigger Basis(listed, to, i)} :: 0 <= i < Overlap(last, to) ==>
               s.basis[i] == Basis(listed, to, i)
    ensures var e := NewEvents(s, order, to, listed[to])[j];
            e.gram == to[..Overlap(last, to) + 1 + j] && Less(last, e.gram) && EventOk(listed, e) && Le(e.gram, to)
  {
    var c := Overlap(last, to);
    if c == |to| - 1 {
      assert to[..|to|] == to;
    } else {
      LastSetIsLongest(listed, to, c, s.basis);
      NewEvent(listed, last, to, NewEvents(s, order, to, listed[to]), j, LastSet(s.basis, c) + 1);
    }
  }

  lemma {:induction false} LastSetIsLongest(listed: Listing, to: Gram, c: nat, basis: seq<Option<real>>)
    requires 0 < c < |to| <= |basis| && basis[0].Some?
    requires forall i {:trigger Basis(listed, to, i)} :: 0 <= i < c ==> basis[i] == Basis(listed, to, i)
    ensures LongestListed(listed, to, c) == LastSet(basis, c) + 1
            && basis[LastSet(basis, c)] == Some(listed[to[..LastSet(basis, c) + 1]])
  {
    var i := LastSet(basis, c);
    assert basis[i] == Basis(listed, to, i);
    forall j | i + 1 < j <= c
      ensures to[..j] !in listed
    {
      assert basis[j - 1] == Basis(listed, to, j - 1);
    }
    LongestIs(listed, to, c, i + 1);
  }

  // ---------------------------------------------------------------- one step, misled

  /** No later event can make this stream right. */
  ghost predicate Spoiled(listed: Listing, events: seq<Event>) {
    || !Ascending(events)
    || exists p, i {:trigger Passed(listed, events, p, i)} :: Passed(listed, events, p, i)
  }

  /** `p` should have been emitted before the i-th event. */
  ghost predicate Passed(listed: Listing, events: seq<Event>, p: Gram, i: int) {
    0 <= i < |events| && p != [] && Covered(listed, p) && Less(p, events[i].gram) && !Emits(events[..i], p)
  }

  /** The listed n-grams and their prefixes, each once and in order, and blanks on their longest listed prefix. */
  ghost predicate Right(listed: Listing, events: seq<Event>) {
    && Ascending(events)
    && (forall i {:trigger events[i]} :: 0 <= i < |events| ==> EventOk(listed, events[i]))
    && (forall g {:trigger Emits(events, g)} :: Emits(events, g) <==> g != [] && Covered(listed, g))
  }

  lemma {:induction false} SpoiledStays(listed: Listing, events: seq<Event>, all: seq<Event>)
    requires Spoiled(listed, events) && events <= all
    ensures Spoiled(listed, all)
  {
    if !Ascending(events) {
      var i, j :| 0 <= i < j < |events| && !Less(events[i].gram, events[j].gram);
      assert all[i] == events[i] && all[j] == events[j];
    } else {
      var p, i :| Passed(listed, events, p, i);
      assert all[..i] == events[..i];
      assert Passed(listed, all, p, i);
    }
  }

  lemma {:induction false} SpoiledIsWrong(listed: Listing, events: seq<Event>)
    requires Spoiled(listed, events)
    ensures !Right(listed, events)
  {
    if Right(listed, events) {
      var p, i :| Passed(listed, events, p, i);
      EmittedBefore(events, p, i);
    }
  }

  lemma {:induction false} EmittedBefore(events: seq<Event>, p: Gram, i: nat)
    requires Ascending(events) && Emits(events, p) && i < |events| && Less(p, events[i].gram)
    ensures Emits(events[..i], p)
  {
    var j :| 0 <= j < |events| && events[j].gram == p;
    assert i < j ==> Less(events[i].gram, events[j].gram);
    LessAsymmetric(p, events[i].gram);
    assert events[..i][j].gram == p;
  }

  /** A misled step emits the last n-gram again, or misses a prefix for good. */
  lemma {:induction false} StepSpoils(listed: Listing, order: nat, last: Gram, s: Merge, x: nat, to: Gram, y: nat)
    requires InOrder(listed, order, last, s, x) && Adjacent(listed, last, to) && to[..1] in listed && |to| <= order
    requires Misled(listed, last, to, x) && Goes(s, to)
    ensures Spoiled(listed, Step(s, order, to, listed[to], y).events)
  {
    OverlapAgrees(s.been, to);
    var k := |last| - 1;
    assert s.been == last[..k] + [x];
    var c := Overlap(s.been, to);
    assert to[..k] == last[..k] && forall i :: 0 <= i < k ==> s.been[i] == to[..k][i];
    if last[k] == to[k] {
      CommonIs(s.been, to, |last|, k);
      EmittedTwice(listed, order, last, s, to, y);
    } else {
      PrefixMissed(listed, order, last, s, to, y);
    }
  }

  lemma {:induction false} EmittedTwice(listed: Listing, order: nat, last: Gram, s: Merge, to: Gram, y: nat)
    requires Started(s, order) && |to| <= order && Goes(s, to) && to in listed && EventsOk(listed, last, s.events)
    requires last in listed && last != [] && Prefix(last, to) && |last| < |to| && Overlap(s.been, to) == |last| - 1
    ensures Spoiled(listed, Step(s, order, to, listed[to], y).events)
  {
    var more, n := NewEvents(s, order, to, listed[to]), |s.events|;
    assert Prefix(last, last) && Reached(listed, last, last) && Emits(s.events, last);
    var i :| 0 <= i < n && s.events[i].gram == last;
    assert more[0].gram == to[..|last|] == last;
    LessIrreflexive(last);
    var all := s.events + more;
    assert all[i] == s.events[i] && all[n] == more[0];
    assert !Less(all[i].gram, all[n].gram);
  }

  lemma {:induction false} PrefixMissed(listed: Listing, order: nat, last: Gram, s: Merge, to: Gram, y: nat)
    requires Started(s, order) && |to| <= order && Goes(s, to) && EventsOk(listed, last, s.events)
    requires Adjacent(listed, last, to) && Compared(last, to) && last[|last| - 1] != to[|last| - 1]
             && Overlap(s.been, to) >= |last|
    ensures Spoiled(listed, Step(s, order, to, listed[to], y).events)
  {
    var more, n := NewEvents(s, order, to, listed[to]), |s.events|;
    var p, all := to[..|last|], s.events + more;
    PrefixMissing(last, to);
    var i := |all| - 1;
    assert all[i] == more[|more| - 1] == Listed(to);
    forall j | 0 <= j < i
      ensures all[j].gram != p
    {
      if j < n {
        assert all[j] == s.events[j];
        if s.events[j].gram == p {
          LessAsymmetric(last, p);
        }
      } else {
        assert all[j] == more[j - n];
        assert |more[j - n].gram| > |last|;
      }
    }
    assert !Emits(all[..i], p);
    assert Prefix(p, to) && Covered(listed, p);
    assert Passed(listed, all, p, i);
  }

  lemma {:induction false} PrefixMissing(last: Gram, to: Gram)
    requires Less(last, to) && Compared(last, to) && last[|last| - 1] != to[|last| - 1]
    ensures Less(last, to[..|last|]) && Less(to[..|last|], to)
  {
    var k := |last| - 1;
    assert forall i :: 0 <= i < k ==> to[..k][i] == last[..k][i];
    FirstDifference(last, to, k);
    FirstDifference(last, to[..|last|], k);
    PrefixLess(to[..|last|], to);
  }

  // ---------------------------------------------------------------- the whole merge

  function Previous(visits: seq<Gram>, k: nat): Gram
    requires k <= |visits|
  {
    if k == 0 then [] else visits[k - 1]
  }

  /** The listed n-grams in their order, none left out. */
  ghost predicate Walk(listed: Listing, order: nat, visits: seq<Gram>) {
    forall k {:trigger VisitOk(listed, order, visits, k)} :: 0 <= k < |visits| ==> VisitOk(listed, order, visits, k)
  }

  ghost predicate VisitOk(listed: Listing, order: nat, visits: seq<Gram>, k: nat)
    requires k < |visits|
  {
    Adjacent(listed, Previous(visits, k), visits[k]) && visits[k][..1] in listed && |visits[k]| <= order
  }

  /** ... up to the last one. */
  ghost predicate Complete(listed: Listing, visits: seq<Gram>) {
    visits != [] && forall l {:trigger l in listed} :: l in listed ==> Le(l, visits[|visits| - 1])
  }

  /** A missing unigram is never reported. */
  lemma {:induction false} GoesOn(listed: Listing, last: Gram, s: Merge, to: Gram)
    requires Adjacent(listed, last, to) && to[..1] in listed && Remembers(s.been, last)
    ensures Goes(s, to)
  {
    if |to| > 1 {
      SharesFirst(listed, last, to);
      assert s.been[0] == if |last| == 1 then s.been[0] else s.been[..|last| - 1][0];
      assert |last| > 1 ==> last[0] == last[..|last| - 1][0];
      assert Common(s.been, to, 1) == 1;
      OverlapPositive(s.been, to);
    }
  }

  lemma {:induction false} OverlapPositive(been: Gram, to: Gram)
    requires |to| > 1 && been != [] && been[0] == to[0]
    ensures Overlap(been, to) > 0
  {
    OverlapAgrees(been, to);
  }

  predicate Follows(s: Merge, order: nat, visits: seq<Gram>) {
    Started(s, order) && Remembers(s.been, Previous(visits, |visits|))
  }

  function LastStep(listed: Listing, order: nat, visits: seq<Gram>, n: nat, s: Merge, x: nat): (r: Merge)
    requires Walk(listed, order, visits) && |visits| == n + 1 && Follows(s, order, visits[..n])
    ensures Follows(r, order, visits)
  {
    NextGoes(listed, order, visits, n, s);
    Step(s, order, visits[n], listed[visits[n]], x)
  }

  /** The stream of the merge; `lost[k]` is what the cell of the last word holds after the k-th visit. */
  function Stream(listed: Listing, order: nat, visits: seq<Gram>, lost: seq<nat>): (s: Merge)
    requires Walk(listed, order, visits) && |lost| == |visits|
    ensures Follows(s, order, visits)
    decreases |visits|
  {
    if visits == [] then Merge([], seq(order, _ => None), [])
    else
      var n := |visits| - 1;
      WalkPrefix(listed, order, visits, n);
      LastStep(listed, order, visits, n, Stream(listed, order, visits[..n], lost[..n]), lost[n])
  }

  lemma {:induction false} WalkPrefix(listed: Listing, order: nat, visits: seq<Gram>, n: nat)
    requires Walk(listed, order, visits) && n <= |visits|
    ensures Walk(listed, order, visits[..n])
  {
    forall k: nat | k < n
      ensures VisitOk(listed, order, visits[..n], k)
    {
      assert VisitOk(listed, order, visits, k);
      assert Previous(visits[..n], k) == Previous(visits, k) && visits[..n][k] == visits[k];
    }
  }

  lemma {:induction false} NextGoes(listed: Listing, order: nat, visits: seq<Gram>, n: nat, s: Merge)
    requires Walk(listed, order, visits) && n < |visits| && Remembers(s.been, Previous(visits[..n], |visits[..n]|))
    ensures visits[n] in listed && |visits[n]| <= order && Goes(s, visits[n])
    ensures Previous(visits[..n], n) == Previous(visits, n)
    ensures Adjacent(listed, Previous(visits, n), visits[n]) && visits[n][..1] in listed
  {
    assert Previous(visits[..n], n) == Previous(visits, n) && VisitOk(listed, order, visits, n);
    GoesOn(listed, Previous(visits, n), s, visits[n]);
  }

  /** Visit `k` is misled by what the cell of the n-gram before holds. */
  ghost predicate MisledAt(listed: Listing, visits: seq<Gram>, lost: seq<nat>, k: nat)
    requires |lost| == |visits| && 0 < k < |visits|
  {
    Misled(listed, visits[k - 1], visits[k], lost[k - 1])
  }

  ghost predicate NeverMisled(listed: Listing, visits: seq<Gram>, lost: seq<nat>)
    requires |lost| == |visits|
  {
    forall k {:trigger MisledAt(listed, visits, lost, k)} :: 0 < k < |visits| ==> !MisledAt(listed, visits, lost, k)
  }

  function LastOf(lost: seq<nat>): nat {
    if lost == [] then 0 else lost[|lost| - 1]
  }

  lemma {:induction false} NeverMisledLast(listed: Listing, visits: seq<Gram>, lost: seq<nat>, n: nat)
    requires |lost| == |visits| == n + 1 && NeverMisled(listed, visits, lost)
    ensures NeverMisled(listed, visits[..n], lost[..n])
    ensures !Misled(listed, Previous(visits, n), visits[n], LastOf(lost[..n]))
  {
    forall k: nat {:trigger MisledAt(listed, visits[..n], lost[..n], k)} | 0 < k < n
      ensures !MisledAt(listed, visits[..n], lost[..n], k)
    {
      assert !MisledAt(listed, visits, lost, k);
    }
    assert n > 0 ==> !MisledAt(listed, visits, lost, n);
  }

  /** The last step of the merge. */
  lemma {:induction false} StreamStep(listed: Listing, order: nat, visits: seq<Gram>, lost: seq<nat>, n: nat)
    requires Walk(listed, order, visits) && |lost| == |visits| == n + 1
    ensures Walk(listed, order, visits[..n]) && Previous(visits[..n], n) == Previous(visits, n)
    ensures Adjacent(listed, Previous(visits, n), visits[n]) && visits[n][..1] in listed && |visits[n]| <= order
    ensures var s := Stream(listed, order, visits[..n], lost[..n]);
            && Goes(s, visits[n])
            && Stream(listed, order, visits, lost) == Step(s, order, visits[n], listed[visits[n]], lost[n])
  {
    WalkPrefix(listed, order, visits, n);
    NextGoes(listed, order, visits, n, Stream(listed, order, visits[..n], lost[..n]));
  }

  lemma {:induction false} StreamInOrder(listed: Listing, order: nat, visits: seq<Gram>, lost: seq<nat>)
    requires Walk(listed, order, visits) && |lost| == |visits| && NeverMisled(listed, visits, lost)
    ensures InOrder(listed, order, Previous(visits, |visits|), Stream(listed, order, visits, lost), LastOf(lost))
    decreases |visits|
  {
    if visits == [] {
      NothingEmitted(listed, order);
      return;
    }
    var n := |visits| - 1;
    StreamStep(listed, order, visits, lost, n);
    NeverMisledLast(listed, visits, lost, n);
    StreamInOrder(listed, order, visits[..n], lost[..n]);
    var s := Stream(listed, order, visits[..n], lost[..n]);
    StepInOrder(listed, order, Previous(visits, n), s, LastOf(lost[..n]), visits[n], lost[n]);
  }

  lemma {:induction false} NothingEmitted(listed: Listing, order: nat)
    ensures InOrder(listed, order, [], Merge([], seq(order, _ => None), []), 0)
  {
    forall g
      ensures !Reached(listed, [], g)
    {
    }
  }

  lemma {:induction false} MisledSpoils(listed: Listing, order: nat, visits: seq<Gram>, lost: seq<nat>, k: nat)
    requires Walk(listed, order, visits) && |lost| == |visits| && 0 < k < |visits| && MisledAt(listed, visits, lost, k)
    ensures Spoiled(listed, Stream(listed, order, visits, lost).events)
    decreases |visits|
  {
    var n := |visits| - 1;
    StreamStep(listed, order, visits, lost, n);
    var s := Stream(listed, order, visits[..n], lost[..n]);
    if NeverMisled(listed, visits[..n], lost[..n]) {
      MisledLast(listed, visits, lost, n, k);
      StreamInOrder(listed, order, visits[..n], lost[..n]);
      StepSpoils(listed, order, Previous(visits, n), s, LastOf(lost[..n]), visits[n], lost[n]);
    } else {
      var j: nat :| 0 < j < n && MisledAt(listed, visits[..n], lost[..n], j);
      MisledSpoils(listed, order, visits[..n], lost[..n], j);
      SpoiledStays(listed, s.events, Stream(listed, order, visits, lost).events);
    }
  }

  lemma {:induction false} MisledLast(listed: Listing, visits: seq<Gram>, lost: seq<nat>, n: nat, k: nat)
    requires |lost| == |visits| == n + 1 && 0 < k <= n && MisledAt(listed, visits, lost, k)
    requires NeverMisled(listed, visits[..n], lost[..n])
    ensures Misled(listed, Previous(visits, n), visits[n], LastOf(lost[..n]))
  {
    assert k < n ==> !MisledAt(listed, visits[..n], lost[..n], k);
  }

  /** The stream is right exactly if no visit is misled. */
  lemma {:induction false} RightIffNeverMisled(listed: Listing, order: nat, visits: seq<Gram>, lost: seq<nat>)
    requires Walk(listed, order, visits) && Complete(listed, visits) && |lost| == |visits|
    ensures Right(listed, Stream(listed, order, visits, lost).events) <==> NeverMisled(listed, visits, lost)
  {
    var s := Stream(listed, order, visits, lost);
    if NeverMisled(listed, visits, lost) {
      StreamInOrder(listed, order, visits, lost);
      AllReached(listed, visits, s.events);
    } else {
      var k: nat :| 0 < k < |visits| && MisledAt(listed, visits, lost, k);
      MisledSpoils(listed, order, visits, lost, k);
      SpoiledIsWrong(listed, s.events);
    }
  }

  lemma {:induction false} AllReached(listed: Listing, visits: seq<Gram>, events: seq<Event>)
    requires Complete(listed, visits) && EventsOk(listed, visits[|visits| - 1], events)
    ensures Right(listed, events)
  {
    var last := visits[|visits| - 1];
    forall g
      ensures Emits(events, g) <==> g != [] && Covered(listed, g)
    {
      assert Reached(listed, last, g) <==> g != [] && Covered(listed, g);
    }
  }

  /** No n-gram that gets lost is compared with the one listed next to it. */
  ghost predicate LossHarmless(listed: Listing) {
    forall g, to {:trigger Adjacent(listed, g, to)} :: Adjacent(listed, g, to) ==> !(Lost(listed, g) && Compared(g, to))
  }

  /** Whatever the unrecorded cells hold, the stream is right: exactly if no loss can matter. */
  lemma {:induction false} AlwaysRightIff(listed: Listing, order: nat, visits: seq<Gram>)
    requires Walk(listed, order, visits) && Complete(listed, visits)
    ensures LossHarmless(listed) <==>
            forall lost: seq<nat> | |lost| == |visits| :: Right(listed, Stream(listed, order, visits, lost).events)
  {
    if LossHarmless(listed) {
      forall lost: seq<nat> | |lost| == |visits|
        ensures Right(listed, Stream(listed, order, visits, lost).events)
      {
        HarmlessIsNeverMisled(listed, order, visits, lost);
        RightIffNeverMisled(listed, order, visits, lost);
      }
    } else {
      var lost := HarmfulContent(listed, order, visits);
      RightIffNeverMisled(listed, order, visits, lost);
    }
  }

  lemma {:induction false} HarmfulContent(listed: Listing, order: nat, visits: seq<Gram>) returns (lost: seq<nat>)
    requires Walk(listed, order, visits) && Complete(listed, visits) && !LossHarmless(listed)
    ensures |lost| == |visits| && !NeverMisled(listed, visits, lost)
  {
    var g, to :| Adjacent(listed, g, to) && Lost(listed, g) && Compared(g, to);
    var k := PlaceOf(listed, order, visits, g, to);
    var w := to[|g| - 1];
    lost := seq(|visits|, _ => if g[|g| - 1] == w then w + 1 else w);
    assert MisledAt(listed, visits, lost, k);
  }

  lemma {:induction false} HarmlessIsNeverMisled(listed: Listing, order: nat, visits: seq<Gram>, lost: seq<nat>)
    requires Walk(listed, order, visits) && |lost| == |visits| && LossHarmless(listed)
    ensures NeverMisled(listed, visits, lost)
  {
    forall k: nat {:trigger MisledAt(listed, visits, lost, k)} | 0 < k < |visits|
      ensures !MisledAt(listed, visits, lost, k)
    {
      assert VisitOk(listed, order, visits, k);
    }
  }

  lemma {:induction false} HarmlessIsRight(listed: Listing, order: nat, visits: seq<Gram>, lost: seq<nat>)
    requires Walk(listed, order, visits) && Complete(listed, visits) && |lost| == |visits|
    ensures Right(listed, Stream(listed, order, visits, lost).events) <==> NeverMisled(listed, visits, lost)
    ensures LossHarmless(listed) ==> Right(listed, Stream(listed, order, visits, lost).events)
  {
    RightIffNeverMisled(listed, order, visits, lost);
    if LossHarmless(listed) {
      HarmlessIsNeverMisled(listed, order, visits, lost);
    }
  }

  /** Neighbours in the listing are visited one after the other. */
  lemma {:induction false} PlaceOf(listed: Listing, order: nat, visits: seq<Gram>, g: Gram, to: Gram) returns (k: nat)
    requires Walk(listed, order, visits) && Complete(listed, visits) && Adjacent(listed, g, to) && g != []
    ensures 0 < k < |visits| && visits[k - 1] == g && visits[k] == to
  {
    k := FirstNotBefore(listed, order, visits, to);
    assert VisitOk(listed, order, visits, k);
    Between(listed, Previous(visits, k), visits[k], to);
    HasPrevious(listed, Previous(visits, k), to, g);
    SamePrevious(listed, visits[k - 1], g, to);
  }

  lemma {:induction false} HasPrevious(listed: Listing, last: Gram, to: Gram, g: Gram)
    requires Adjacent(listed, last, to) && g in listed && Less(g, to)
    ensures last != []
  {
    assert !Skips(last, to, g);
  }

  lemma {:induction false} SamePrevious(listed: Listing, a: Gram, b: Gram, to: Gram)
    requires Adjacent(listed, a, to) && Adjacent(listed, b, to) && a != [] && b != []
    ensures a == b
  {
    assert !Skips(a, to, b) && !Skips(b, to, a);
    LessTotal(a, b);
  }

  lemma {:induction false} Between(listed: Listing, last: Gram, v: Gram, to: Gram)
    requires Adjacent(listed, last, v) && to in listed && Le(to, v) && (last == [] || Less(last, to))
    ensures v == to
  {
    assert !Skips(last, v, to);
  }

  lemma {:induction false} FirstNotBefore(listed: Listing, order: nat, visits: seq<Gram>, to: Gram) returns (k: nat)
    requires Complete(listed, visits) && to in listed
    ensures k < |visits| && Le(to, visits[k]) && (Previous(visits, k) == [] || Less(Previous(visits, k), to))
  {
    k := DownTo(visits, to, |visits| - 1);
  }

  lemma {:induction false} DownTo(visits: seq<Gram>, to: Gram, n: nat) returns (k: nat)
    requires n < |visits| && Le(to, visits[n])
    ensures k < |visits| && Le(to, visits[k]) && (Previous(visits, k) == [] || Less(Previous(visits, k), to))
    decreases n
  {
    k := n;
    if n > 0 && !Less(visits[n - 1], to) {
      LessTotal(visits[n - 1], to);
      k := DownTo(visits, to, n - 1);
    }
  }

  /** Below the highest order, every right-aligned shorter n-gram is listed as well. */
  ghost predicate ClosedBelow(listed: Listing, order: nat) {
    forall g {:trigger g[..|g| - 1]} :: g in listed ==> |g| <= order && (1 < |g| < order ==> g[..|g| - 1] in listed)
  }

  /** The usual way to be harmless: only n-grams of the highest order lack what they extend. */
  lemma {:induction false} ClosedIsHarmless(listed: Listing, order: nat)
    requires ClosedBelow(listed, order)
    ensures LossHarmless(listed)
  {
    forall g, to {:trigger Adjacent(listed, g, to)} | Adjacent(listed, g, to) && Compared(g, to)
      ensures !Lost(listed, g)
    {
      var p, q := g[..|g| - 1], to[..|to| - 1];
      if |g| > 1 {
        PrefixLess(p, g);
        assert Before(g, p) && Prefix(p, p);
      }
    }
  }
}
