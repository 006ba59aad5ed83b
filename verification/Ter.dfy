/**
 The search for shifts and the greedy loop of mert/TERsrc/tercalc.cpp: BuildWordMatches,
 GatherAllPossShifts, CalcBestShift and TER.
 */
module Ter {
  import opened EditDistance
  import opened Shifts

  // ---------------------------------------------------------------- BuildWordMatches

  type Locations = map<seq<Word>, seq<nat>>

  function Positions(rloc: Locations, key: seq<Word>): seq<nat> {
    if key in rloc then rloc[key] else []
  }

  /** `key` stands at `p` in the reference, is not too long, and the hypothesis knows all its words. */
  predicate Occurs(hyp: seq<Word>, ref: seq<Word>, key: seq<Word>, p: nat) {
    && 0 < |key| <= MAX_SHIFT_SIZE + 1 && p + |key| <= |ref| && ref[p..p + |key|] == key
    && AllKnown(hyp, key)
  }

  predicate AllKnown(hyp: seq<Word>, key: seq<Word>) {
    forall k {:trigger key[k]} :: 0 <= k < |key| ==> key[k] in hyp
  }

  ghost predicate LocationsOk(rloc: Locations, hyp: seq<Word>, ref: seq<Word>) {
    forall key, p: nat {:trigger Occurs(hyp, ref, key, p)} :: p in Positions(rloc, key) <==> Occurs(hyp, ref, key, p)
  }

  /** The occurrences that start before `start`, or at it and are at most `n` words long. */
  ghost predicate Listed(rloc: Locations, hyp: seq<Word>, ref: seq<Word>, start: nat, n: nat) {
    forall key, p: nat {:trigger Occurs(hyp, ref, key, p)} ::
      p in Positions(rloc, key) <==> (Occurs(hyp, ref, key, p) && (p < start || (p == start && |key| <= n)))
  }

  method BuildWordMatches(hyp: seq<Word>, ref: seq<Word>) returns (rloc: Locations)
    ensures LocationsOk(rloc, hyp, ref)
  {
    rloc := map[];
    var start := 0;
    while start < |ref|
      invariant 0 <= start <= |ref| && Listed(rloc, hyp, ref, start, 0)
    {
      var end := start;
      while end < |ref| && end - start <= MAX_SHIFT_SIZE && ref[end] in hyp
        invariant start <= end <= |ref| && end - start <= MAX_SHIFT_SIZE + 1
        invariant AllKnown(hyp, ref[start..end]) && Listed(rloc, hyp, ref, start, end - start)
      {
        var key := ref[start..end + 1];
        ghost var before := rloc;
        rloc := rloc[key := Positions(rloc, key) + [start]];
        assert key == ref[start..end] + [ref[end]];
        ListedStep(before, rloc, hyp, ref, start, end);
        end := end + 1;
      }
      ListedAll(rloc, hyp, ref, start, end);
      start := start + 1;
    }
  }

  lemma {:induction false} ListedStep(before: Locations, rloc: Locations, hyp: seq<Word>, ref: seq<Word>, start: nat,
                                      end: nat)
    requires start <= end < |ref| && end - start <= MAX_SHIFT_SIZE && AllKnown(hyp, ref[start..end + 1])
    requires Listed(before, hyp, ref, start, end - start)
    requires rloc == before[ref[start..end + 1] := Positions(before, ref[start..end + 1]) + [start]]
    ensures Listed(rloc, hyp, ref, start, end + 1 - start)
  {
    forall key, p: nat
      ensures p in Positions(rloc, key) <==>
                (Occurs(hyp, ref, key, p) && (p < start || (p == start && |key| <= end + 1 - start)))
    {
      assert p in Positions(rloc, key) <==> (p in Positions(before, key) || (p == start && key == ref[start..end + 1]));
      assert p in Positions(before, key) <==>
          (Occurs(hyp, ref, key, p) && (p < start || (p == start && |key| <= end - start)));
    }
  }

  lemma {:induction false} OccursKnown(hyp: seq<Word>, ref: seq<Word>, key: seq<Word>, p: nat)
    requires Occurs(hyp, ref, key, p)
    ensures forall q {:trigger ref[q]} :: p <= q < p + |key| ==> ref[q] in hyp
  {
    forall q {:trigger ref[q]} | p <= q < p + |key|
      ensures ref[q] in hyp
    {
      assert ref[q] == key[q - p];
    }
  }

  /** Where the inner loop stops, no longer key starts here. */
  lemma {:induction false} ListedAll(rloc: Locations, hyp: seq<Word>, ref: seq<Word>, start: nat, end: nat)
    requires start < |ref| && start <= end <= |ref| && end - start <= MAX_SHIFT_SIZE + 1
    requires Listed(rloc, hyp, ref, start, end - start)
    requires end == |ref| || end - start > MAX_SHIFT_SIZE || ref[end] !in hyp
    ensures Listed(rloc, hyp, ref, start + 1, 0)
  {
    forall key, p: nat | Occurs(hyp, ref, key, p) && p == start
      ensures |key| <= end - start
    {
      OccursKnown(hyp, ref, key, p);
    }
  }

  // ---------------------------------------------------------------- GatherAllPossShifts

  /** What the search for shifts looks at: the current hypothesis, the matches and the alignment errors. */
  datatype View = View(cur: seq<Word>, ref: seq<Word>, rloc: Locations, e: Errors)

  ghost predicate ViewOk(v: View) {
    ErrorsOk(v.e, v.ref, v.cur) && forall key :: Within(v, Positions(v.rloc, key), |key|)
  }

  /** `n` words fit in at each of the positions. */
  predicate Within(v: View, places: seq<nat>, n: nat) {
    forall p {:trigger p in places} :: p in places ==> p + n <= |v.ref|
  }

  function Block(v: View, start: nat, end: nat): seq<Word>
    requires start <= end < |v.cur|
  {
    v.cur[start..end + 1]
  }

  predicate HasError(errs: seq<bool>, from: nat, n: nat)
    requires from + n <= |errs|
  {
    exists i {:trigger errs[i]} :: from <= i < from + n && errs[i]
  }

  /** The single word at `start` has somewhere to go. */
  ghost predicate Opens(v: View, start: nat)
    requires start < |v.cur| && ViewOk(v)
  {
    SomeAway(v, start, Positions(v.rloc, [v.cur[start]]))
  }

  ghost predicate SomeAway(v: View, start: nat, places: seq<nat>)
    requires ViewOk(v) && Within(v, places, 1)
  {
    exists p {:trigger p in places} :: p in places && Away(v, start, p)
  }

  predicate Away(v: View, start: nat, p: nat)
    requires p < |v.e.ralign|
  {
    var at := v.e.ralign[p];
    start != at && at - start <= MAX_SHIFT_DIST && start - at - 1 <= MAX_SHIFT_DIST
  }

  /** The block may move to where reference position `p` is aligned: outside itself and not too far. */
  predicate Admissible(v: View, start: nat, end: nat, p: nat)
    requires p < |v.e.ralign|
  {
    var at := v.e.ralign[p];
    at != start && (at < start || at > end) && at - start <= MAX_SHIFT_DIST && start - at <= MAX_SHIFT_DIST
  }

  ghost predicate SomeAdmissible(v: View, start: nat, end: nat, places: seq<nat>)
    requires ViewOk(v) && Within(v, places, 1)
  {
    exists p {:trigger p in places} :: p in places && Admissible(v, start, end, p)
  }

  /** The search goes on to longer blocks from `start` only while this holds. */
  ghost predicate GoesOn(v: View, start: nat, end: nat)
    requires start <= end < |v.cur| && ViewOk(v)
  {
    var places := Positions(v.rloc, Block(v, start, end));
    && places != [] && Within(v, places, end + 1 - start)
    && (!HasError(v.e.herr, start, end + 1 - start) || SomeAdmissible(v, start, end, places))
  }

  ghost predicate Explored(v: View, start: nat, end: nat)
    requires ViewOk(v)
  {
    && start <= end < |v.cur| && end < start + MAX_SHIFT_SIZE && Opens(v, start)
    && forall t {:trigger GoesOn(v, start, t)} :: start <= t < end ==> GoesOn(v, start, t)
  }

  /** The shift that moves the block next to where reference position p + roff is aligned. */
  predicate Makes(v: View, s: Shift, p: nat, roff: int)
    requires s.start <= s.end && -1 <= roff <= s.end - s.start && p + (s.end - s.start) < |v.e.ralign|
  {
    if roff == -1 && p == 0 then s.moveto == -1 && s.newloc == -1
    else
      var at := v.e.ralign[p + roff];
      s.start != at && (roff == 0 || at != v.e.ralign[p]) && s.moveto == p + roff && s.newloc == at
  }

  ghost predicate MakesSome(v: View, s: Shift, p: nat)
    requires s.start <= s.end && p + (s.end - s.start) < |v.e.ralign|
  {
    exists roff {:trigger Makes(v, s, p, roff)} :: -1 <= roff <= s.end - s.start && Makes(v, s, p, roff)
  }

  /** The place found at `p` has an error of its own, and the shift goes there. */
  ghost predicate GoesTo(v: View, s: Shift, p: nat)
    requires s.start <= s.end && p + (s.end - s.start) < |v.e.ralign| && |v.e.rerr| == |v.e.ralign|
  {
    Admissible(v, s.start, s.end, p) && HasError(v.e.rerr, p, s.end + 1 - s.start) && MakesSome(v, s, p)
  }

  ghost predicate GoesToOneOf(v: View, s: Shift, places: seq<nat>)
    requires s.start <= s.end && ViewOk(v) && Within(v, places, s.end + 1 - s.start)
  {
    exists p {:trigger p in places} :: p in places && GoesTo(v, s, p)
  }

  ghost predicate OfferedHere(v: View, s: Shift)
    requires s.start <= s.end < |v.cur| && ViewOk(v)
  {
    && HasError(v.e.herr, s.start, s.end + 1 - s.start)
    && var places := Positions(v.rloc, Block(v, s.start, s.end));
       Within(v, places, s.end + 1 - s.start) && GoesToOneOf(v, s, places)
  }

  /** Exactly the shifts the search produces. */
  ghost predicate Offered(v: View, s: Shift)
    requires ViewOk(v)
  {
    Explored(v, s.start, s.end) && OfferedHere(v, s)
  }

  // ---------------------------------------------------------------- which shifts are offered

  /**
   Words start to end, not all of them right, stand in the reference at `p`, not all of them
   right there.  The first of these is aligned outside the block and at most 50 words away.
   The shift takes the block behind the word that one of them is aligned with, or the one before them.
   */
  predicate WorthAt(cur: seq<Word>, ref: seq<Word>, e: Errors, s: Shift, p: int, roff: int) {
    && |e.herr| == |cur| && |e.rerr| == |e.ralign| == |ref|
    && 0 <= s.start <= s.end < |cur| && s.end - s.start < 50
    && 0 <= p && p + (s.end - s.start) < |ref|
    && (forall i {:trigger cur[i]} :: s.start <= i <= s.end ==> cur[i] == ref[p + i - s.start])
    && (exists i {:trigger e.herr[i]} :: s.start <= i <= s.end && e.herr[i])
    && (exists i {:trigger e.rerr[i]} :: p <= i <= p + s.end - s.start && e.rerr[i])
    && !(s.start <= e.ralign[p] <= s.end) && s.start - 50 <= e.ralign[p] <= s.start + 50
    && -1 <= roff <= s.end - s.start && s.moveto == p + roff
    && (s.moveto == -1 ==> s.newloc == -1)
    && (s.moveto >= 0 ==> s.newloc == e.ralign[s.moveto] != s.start && (roff != 0 ==> s.newloc != e.ralign[p]))
  }

  ghost predicate Worth(cur: seq<Word>, ref: seq<Word>, e: Errors, s: Shift) {
    exists p, roff :: WorthAt(cur, ref, e, s, p, roff)
  }

  /** The matches are those of a hypothesis with the words of the current one. */
  ghost predicate Matches(v: View, hyp: seq<Word>) {
    LocationsOk(v.rloc, hyp, v.ref) && forall w {:trigger w in v.cur} :: w in v.cur ==> w in hyp
  }

  /** The search offers exactly these shifts. */
  lemma {:induction false} OfferedIff(v: View, hyp: seq<Word>, s: Shift)
    requires ViewOk(v) && Matches(v, hyp)
    ensures Offered(v, s) <==> Worth(v.cur, v.ref, v.e, s)
  {
    if Offered(v, s) {
      OfferedIsWorth(v, hyp, s);
    }
    if Worth(v.cur, v.ref, v.e, s) {
      var p, roff :| WorthAt(v.cur, v.ref, v.e, s, p, roff);
      WorthIsOffered(v, hyp, s, p, roff);
    }
  }

  lemma {:induction false} OfferedIsWorth(v: View, hyp: seq<Word>, s: Shift)
    requires ViewOk(v) && Matches(v, hyp) && Offered(v, s)
    ensures Worth(v.cur, v.ref, v.e, s)
  {
    var key := Block(v, s.start, s.end);
    var p :| p in Positions(v.rloc, key) && GoesTo(v, s, p);
    var roff :| -1 <= roff <= s.end - s.start && Makes(v, s, p, roff);
    assert Occurs(hyp, v.ref, key, p);
    forall i | s.start <= i <= s.end
      ensures v.cur[i] == v.ref[p + i - s.start]
    {
      assert key[i - s.start] == v.ref[p..p + |key|][i - s.start];
    }
    assert WorthAt(v.cur, v.ref, v.e, s, p, roff);
  }

  /** Wherever a block stands, its beginnings stand as well. */
  lemma {:induction false} BeginningStands(v: View, hyp: seq<Word>, start: nat, end: nat, p: nat)
    requires ViewOk(v) && Matches(v, hyp) && start <= end < |v.cur| && end - start < 50 && p + (end - start) < |v.ref|
    requires forall i {:trigger v.cur[i]} :: start <= i <= end ==> v.cur[i] == v.ref[p + i - start]
    ensures p in Positions(v.rloc, Block(v, start, end))
  {
    var key := Block(v, start, end);
    assert v.ref[p..p + |key|] == key;
    forall k | 0 <= k < |key|
      ensures key[k] in hyp
    {
      assert key[k] == v.cur[start + k] && v.cur[start + k] in v.cur;
    }
    assert Occurs(hyp, v.ref, key, p);
  }

  lemma {:induction false} WorthIsOffered(v: View, hyp: seq<Word>, s: Shift, p: nat, roff: int)
    requires ViewOk(v) && Matches(v, hyp) && WorthAt(v.cur, v.ref, v.e, s, p, roff)
    ensures Offered(v, s)
  {
    forall t {:trigger GoesOn(v, s.start, t)} | s.start <= t <= s.end
      ensures GoesOn(v, s.start, t) && p in Positions(v.rloc, Block(v, s.start, t))
    {
      BeginningStands(v, hyp, s.start, t, p);
      assert Admissible(v, s.start, t, p);
    }
    assert Block(v, s.start, s.start) == [v.cur[s.start]] && Away(v, s.start, p);
    assert GoesOn(v, s.start, s.start);
    assert Opens(v, s.start);
    assert GoesOn(v, s.start, s.end);
    assert Makes(v, s, p, roff);
    assert GoesTo(v, s, p);
  }

  /** Every offered shift can be performed. */
  lemma {:induction false} OfferedInRange(v: View, s: Shift)
    requires ViewOk(v) && Offered(v, s)
    ensures InRange(s, |v.cur|) && s.end - s.start < MAX_SHIFT_SIZE
  {
    var places := Positions(v.rloc, Block(v, s.start, s.end));
    var p :| p in places && GoesTo(v, s, p);
    var roff :| -1 <= roff <= s.end - s.start && Makes(v, s, p, roff);
    assert !(roff == -1 && p == 0) ==> -1 <= v.e.ralign[p + roff] < |v.cur|;
  }

  /** The three error scans of the original are this loop. */
  method AnyError(errs: seq<bool>, from: nat, n: nat) returns (any: bool)
    requires from + n <= |errs|
    ensures any == HasError(errs, from, n)
  {
    any := false;
    var i := 0;
    while i < n && !any
      invariant 0 <= i <= n && any == HasError(errs, from, i)
    {
      if errs[from + i] {
        any := true;
      }
      i := i + 1;
    }
  }

  /** The shifts of one block to the surroundings of one reference position. */
  method Offsets(v: View, start: nat, end: nat, p: nat) returns (out: seq<Shift>)
    requires start <= end < |v.cur| && ViewOk(v) && p + (end - start) < |v.e.ralign|
    ensures forall s {:trigger s in out} :: s in out <==> (s.start == start && s.end == end && MakesSome(v, s, p))
  {
    out := [];
    var roff := -1;
    while roff <= end - start
      invariant -1 <= roff <= end - start + 1
      invariant forall s {:trigger s in out} :: s in out <==> MakesBefore(v, s, start, end, p, roff)
    {
      ghost var before := out;
      if roff == -1 && p == 0 {
        out := out + [Shift(start, end, -1, -1)];
      } else if start != v.e.ralign[p + roff] && (roff == 0 || v.e.ralign[p + roff] != v.e.ralign[p]) {
        out := out + [Shift(start, end, p + roff, v.e.ralign[p + roff])];
      }
      forall s
        ensures s in out <==> MakesBefore(v, s, start, end, p, roff + 1)
      {
        assert s in out <==> (s in before || (s.start == start && s.end == end && Makes(v, s, p, roff)));
      }
      roff := roff + 1;
    }
  }

  ghost predicate MakesBefore(v: View, s: Shift, start: nat, end: nat, p: nat, bound: int)
    requires start <= end && p + (end - start) < |v.e.ralign| && bound <= end - start + 1
  {
    && s.start == start && s.end == end
    && exists roff {:trigger Makes(v, s, p, roff)} :: -1 <= roff < bound && Makes(v, s, p, roff)
  }

  method TryPlace(v: View, start: nat, end: nat, p: nat) returns (out: seq<Shift>)
    requires start <= end < |v.cur| && ViewOk(v) && p + (end - start) < |v.ref| && Admissible(v, start, end, p)
    ensures forall s {:trigger s in out} :: s in out <==> (s.start == start && s.end == end && GoesTo(v, s, p))
  {
    out := [];
    var anyErr := AnyError(v.e.rerr, p, end + 1 - start);
    if anyErr {
      out := Offsets(v, start, end, p);
    }
  }

  lemma {:induction false} PlacesStep(v: View, start: nat, end: nat, places: seq<nat>, p: nat)
    requires start <= end && ViewOk(v) && Within(v, places, end + 1 - start) && p + (end - start) < |v.ref|
    ensures SomeAway(v, start, places + [p]) == (SomeAway(v, start, places) || Away(v, start, p))
    ensures SomeAdmissible(v, start, end, places + [p]) ==
              (SomeAdmissible(v, start, end, places) || Admissible(v, start, end, p))
    ensures forall s: Shift {:trigger GoesToOneOf(v, s, places)} {:trigger GoesToOneOf(v, s, places + [p])} ::
              s.start == start && s.end == end ==>
              GoesToOneOf(v, s, places + [p]) == (GoesToOneOf(v, s, places) || GoesTo(v, s, p))
  {
    assert forall q {:trigger q in places} {:trigger q in places + [p]} :: q in places + [p] <==>
        (q in places || q == p);
    assert p in places + [p];
  }

  /** One block: does the search go on behind it, and which shifts does it offer? */
  method TryBlock(v: View, start: nat, end: nat) returns (ok: bool, out: seq<Shift>)
    requires start <= end < |v.cur| && ViewOk(v)
    ensures ok == GoesOn(v, start, end)
    ensures forall s {:trigger s in out} :: s in out <==> (s.start == start && s.end == end && OfferedHere(v, s))
  {
    ok, out := false, [];
    var places := Positions(v.rloc, Block(v, start, end));
    assert Within(v, places, end + 1 - start);
    if places == [] {
      return;
    }
    var anyErr := AnyError(v.e.herr, start, end + 1 - start);
    if !anyErr {
      ok := true;
      return;
    }
    var i := 0;
    while i < |places|
      invariant 0 <= i <= |places| && Within(v, places[..i], end + 1 - start)
      invariant ok == SomeAdmissible(v, start, end, places[..i])
      invariant forall s {:trigger s in out} :: s in out <==>
                  (s.start == start && s.end == end && GoesToOneOf(v, s, places[..i]))
    {
      var p := places[i];
      assert p in places && places[..i + 1] == places[..i] + [p];
      PlacesStep(v, start, end, places[..i], p);
      if Admissible(v, start, end, p) {
        ok := true;
        var more := TryPlace(v, start, end, p);
        out := out + more;
      }
      i := i + 1;
    }
    assert places[..i] == places;
  }

  type Buckets = b: seq<seq<Shift>> | |b| == MAX_SHIFT_SIZE + 1 witness seq(MAX_SHIFT_SIZE + 1, _ => [])

  /**
   Bucket k holds the offered shifts of k + 1 words that start before `start`, and at it those
   that end before `end`.
   */
  ghost predicate Gathered(v: View, b: Buckets, start: nat, end: nat)
    requires ViewOk(v)
  {
    forall s: Shift, k {:trigger s in b[k]} :: 0 <= k <= MAX_SHIFT_SIZE ==>
      (s in b[k] <==> (k == s.end - s.start && (s.start < start || (s.start == start && s.end < end)) && Offered(v, s)))
  }

  predicate AllByStart(b: Buckets) {
    forall k {:trigger b[k]} :: 0 <= k <= MAX_SHIFT_SIZE ==> ByStart(b[k])
  }

  /** What starts at `start` goes behind what starts before. */
  lemma {:induction false} StartsBehind(v: View, b: Buckets, start: nat, end: nat, more: seq<Shift>)
    requires ViewOk(v) && Gathered(v, b, start, end) && start <= end <= start + MAX_SHIFT_SIZE && AllByStart(b)
    requires forall s {:trigger s in more} :: s in more ==> s.start == start
    ensures AllByStart(b[end - start := b[end - start] + more])
  {
    var bucket := b[end - start];
    var all := bucket + more;
    forall j, k | 0 <= j < k < |all|
      ensures all[j].start <= all[k].start
    {
      if j < |bucket| {
        assert bucket[j] in b[end - start];
      }
      if k < |bucket| {
        assert bucket[k] in b[end - start];
      } else {
        assert more[k - |bucket|] in more;
      }
      if j >= |bucket| {
        assert more[j - |bucket|] in more;
      }
    }
  }

  method GatherAllPossShifts(v: View) returns (b: Buckets)
    requires ViewOk(v)
    ensures forall s: Shift, k {:trigger s in b[k]} :: 0 <= k <= MAX_SHIFT_SIZE ==>
              (s in b[k] <==> k == s.end - s.start && Offered(v, s))
    ensures forall hyp, s: Shift, k {:trigger Matches(v, hyp), s in b[k]} :: Matches(v, hyp) && 0 <= k <= 50 ==>
              (s in b[k] <==> k == s.end - s.start && Worth(v.cur, v.ref, v.e, s))
    ensures AllByStart(b)
  {
    b := seq(MAX_SHIFT_SIZE + 1, _ => []);
    var start := 0;
    while start < |v.cur|
      invariant 0 <= start <= |v.cur| && Gathered(v, b, start, start) && AllByStart(b)
    {
      var opens := TryStart(v, start);
      if opens {
        b := FromStart(v, b, start);
      }
      start := start + 1;
    }
    forall hyp, s: Shift | Matches(v, hyp)
      ensures Offered(v, s) <==> Worth(v.cur, v.ref, v.e, s)
    {
      OfferedIff(v, hyp, s);
    }
  }

  method TryStart(v: View, start: nat) returns (opens: bool)
    requires start < |v.cur| && ViewOk(v)
    ensures opens == Opens(v, start)
  {
    var places := Positions(v.rloc, [v.cur[start]]);
    assert Within(v, places, 1);
    opens := false;
    var i := 0;
    while i < |places| && !opens
      invariant 0 <= i <= |places| && Within(v, places[..i], 1) && opens == SomeAway(v, start, places[..i])
    {
      var p := places[i];
      assert p in places && places[..i + 1] == places[..i] + [p];
      PlacesStep(v, start, start, places[..i], p);
      opens := Away(v, start, p);
      i := i + 1;
    }
    assert forall p :: p in places[..i] ==> p in places;
    assert !opens ==> places[..i] == places;
  }

  method FromStart(v: View, b0: Buckets, start: nat) returns (b: Buckets)
    requires start < |v.cur| && ViewOk(v) && Opens(v, start) && Gathered(v, b0, start, start) && AllByStart(b0)
    ensures Gathered(v, b, start + 1, start + 1) && AllByStart(b)
  {
    b := b0;
    var ok, end := true, start;
    while ok && end < |v.cur| && end < start + MAX_SHIFT_SIZE
      invariant start <= end <= |v.cur| && end <= start + MAX_SHIFT_SIZE && Gathered(v, b, start, end)
      invariant AllByStart(b)
      invariant ok ==> forall t {:trigger GoesOn(v, start, t)} :: start <= t < end ==> GoesOn(v, start, t)
      invariant !ok ==> start < end && !GoesOn(v, start, end - 1)
      decreases |v.cur| - end
    {
      var more;
      ok, more := TryBlock(v, start, end);
      StartsBehind(v, b, start, end, more);
      b := b[end - start := b[end - start] + more];
      end := end + 1;
    }
  }

  // ---------------------------------------------------------------- CalcBestShift

  datatype Candidate = Candidate(aftershift: seq<Word>, alignment: Alignment)

  ghost predicate CandidateOk(c: Candidate, ref: seq<Word>) {
    Script(c.alignment.path, ref, |ref|, c.aftershift, |c.aftershift|)
      && Edits(c.alignment.path) == c.alignment.numEdits
  }

  /** The one alignment that is best and preferred. */
  ghost predicate Aligned(c: Candidate, ref: seq<Word>) {
    && c.alignment.numEdits == Lev(ref, c.aftershift)
    && Preferred(c.alignment.path, ref, |ref|, c.aftershift, |c.aftershift|)
  }

  /** The best shift so far; before the first one it is the current alignment, at no cost. */
  datatype Best = Best(any: bool, shift: Shift, candidate: Candidate, cost: nat)

  function Total(best: Best): nat {
    best.candidate.alignment.numEdits + best.cost
  }

  ghost predicate BestOk(v: View, med: Candidate, best: Best)
    requires ViewOk(v)
  {
    && CandidateOk(best.candidate, v.ref)
    && if best.any then
         && best.cost == SHIFT_COST && Offered(v, best.shift) && InRange(best.shift, |v.cur|)
         && best.candidate.aftershift == Moved(v.cur, best.shift)
         && Total(best) <= med.alignment.numEdits
       else best.cost == 0 && best.candidate == med
  }

  /** Longer blocks are tried first, and among equally long ones those that start earlier. */
  predicate Prior(s: Shift, t: Shift) {
    s.end - s.start > t.end - t.start || (s.end - s.start == t.end - t.start && s.start < t.start)
  }

  /** No cheaper than the best, dearer if it was tried before that, and strictly dearer than making no shift. */
  ghost predicate Beaten(v: View, best: Best, s: Shift)
    requires ViewOk(v)
  {
    && InRange(s, |v.cur|)
    && Total(best) <= Lev(v.ref, Moved(v.cur, s)) + (if best.any then SHIFT_COST else 0)
    && (best.any && Prior(s, best.shift) ==> Total(best) < Lev(v.ref, Moved(v.cur, s)) + SHIFT_COST)
  }

  /** Aligning the words after shift `s`, the beam cuts something off. */
  ghost predicate CutByBeam(v: View, s: Shift) {
    InRange(s, |v.cur|) && Cut(v.ref, Moved(v.cur, s))
  }

  ghost predicate SomeCut(v: View, shifts: seq<Shift>) {
    exists s :: s in shifts && CutByBeam(v, s)
  }

  lemma {:induction false} SomeCutJoins(v: View, a: seq<Shift>, b: seq<Shift>)
    ensures SomeCut(v, a + b) <==> SomeCut(v, a) || SomeCut(v, b)
  {
    assert forall s {:trigger s in a + b} :: s in a + b <==> s in a || s in b;
  }

  /** A shift takes over only if it is an improvement, or the first that costs nothing. */
  predicate TakesOver(before: Best, best: Best) {
    best == before || (best.any && Total(best) <= Total(before) && (before.any ==> Total(best) < Total(before)))
  }

  /** The shifts from `s` on come after the best one. */
  predicate Later(best: Best, s: Shift) {
    best.any ==> !Prior(s, best.shift)
  }

  /** Tries one shift. */
  method TryShift(v: View, med: Candidate, best0: Best, s: Shift) returns (best: Best, fired: bool)
    requires ViewOk(v) && BestOk(v, med, best0) && Offered(v, s) && |v.ref| < TABLE_SIZE && |v.cur| < TABLE_SIZE
    requires Later(best0, s)
    ensures BestOk(v, med, best) && TakesOver(best0, best) && (best != best0 ==> best.shift == s)
    ensures !fired ==> Beaten(v, best, s)
    ensures fired <==> CutByBeam(v, s)
    ensures best == best0 || (!fired ==> Aligned(best.candidate, v.ref))
  {
    OfferedInRange(v, s);
    MovedIsPermutation(v.cur, s);
    best := best0;
    var words := PerformShift(v.cur, s);
    var a;
    a, fired := MinEditDist(words, v.ref);
    var gain := Total(best) - (a.numEdits + SHIFT_COST);
    if gain > 0 || (best.cost == 0 && gain == 0) {
      best := Best(true, s, Candidate(words, a), SHIFT_COST);
    }
  }

  ghost predicate AllBeaten(v: View, best: Best, longerThan: int)
    requires ViewOk(v)
  {
    forall s {:trigger Offered(v, s)} :: Offered(v, s) && s.end - s.start > longerThan ==> Beaten(v, best, s)
  }

  ghost predicate SomeBeaten(v: View, best: Best, shifts: seq<Shift>)
    requires ViewOk(v)
  {
    forall s {:trigger s in shifts} :: s in shifts ==> Beaten(v, best, s)
  }

  /** Is the best so far beyond what shifts of i + 1 words can still fix? */
  predicate OutOfReach(med: Candidate, best: Best, i: int) {
    var curfix, maxfix := med.alignment.numEdits - Total(best), 2 * (1 + i);
    curfix > maxfix || (best.cost != 0 && curfix == maxfix)
  }

  /** Stopping early loses nothing: a shift of L words cannot fix more than 2L edits. */
  lemma {:induction false} OutOfReachIsBeaten(v: View, med: Candidate, best: Best, i: int, s: Shift)
    requires ViewOk(v) && BestOk(v, med, best) && OutOfReach(med, best, i) && 0 <= i && med.aftershift == v.cur
    requires med.alignment.numEdits == Lev(v.ref, v.cur) && Offered(v, s) && s.end - s.start <= i && Later(best, s)
    ensures Beaten(v, best, s)
  {
    OfferedInRange(v, s);
    ShiftFixesAtMost(v.ref, v.cur, s);
  }

  /** The best so far beats all shifts not longer than `i` words, if it is out of their reach. */
  lemma {:induction false} RestOutOfReach(v: View, med: Candidate, best: Best, i: nat, shifts: seq<Shift>, k: nat)
    requires ViewOk(v) && BestOk(v, med, best) && OutOfReach(med, best, i) && med.aftershift == v.cur
    requires med.alignment.numEdits == Lev(v.ref, v.cur) && OfLength(v, shifts, i) && k <= |shifts|
    requires SomeBeaten(v, best, shifts[..k]) && InTurn(best, shifts, k, i)
    ensures SomeBeaten(v, best, shifts)
  {
    forall s | s in shifts
      ensures Beaten(v, best, s)
    {
      var j :| 0 <= j < |shifts| && shifts[j] == s;
      if j < k {
        assert shifts[..k][j] == s && s in shifts[..k];
      } else {
        assert Later(best, shifts[j]);
        OutOfReachIsBeaten(v, med, best, i, s);
      }
    }
  }

  ghost predicate OfLength(v: View, shifts: seq<Shift>, i: nat)
    requires ViewOk(v)
  {
    && (forall s {:trigger s in shifts} :: s in shifts ==> Offered(v, s) && s.end - s.start == i)
    && ByStart(shifts)
  }

  predicate ByStart(shifts: seq<Shift>) {
    forall j, k {:trigger shifts[j], shifts[k]} :: 0 <= j < k < |shifts| ==> shifts[j].start <= shifts[k].start
  }

  /** What trying some shifts of a view does to the best one. */
  ghost predicate Improved(v: View, med: Candidate, best0: Best, best: Best, fired: bool)
    requires ViewOk(v)
  {
    && BestOk(v, med, best) && TakesOver(best0, best)
    && (best == best0 || fired || Aligned(best.candidate, v.ref))
  }

  /** The best shift is not shorter than this, and all still to come do not go before it. */
  ghost predicate InTurn(best: Best, shifts: seq<Shift>, k: nat, i: nat) {
    && (best.any ==> best.shift.end - best.shift.start >= i)
    && forall j {:trigger shifts[j]} :: k <= j < |shifts| ==> Later(best, shifts[j])
  }

  lemma {:induction false} NextInTurn(v: View, before: Best, best: Best, shifts: seq<Shift>, k: nat, i: nat)
    requires ViewOk(v) && OfLength(v, shifts, i) && k < |shifts| && InTurn(before, shifts, k, i)
    requires best == before || best.shift == shifts[k]
    ensures InTurn(best, shifts, k + 1, i)
  {
    assert shifts[k] in shifts;
    forall j | k < j < |shifts|
      ensures Later(best, shifts[j])
    {
      assert shifts[j] in shifts && shifts[k].start <= shifts[j].start;
    }
  }

  lemma {:induction false} FirstInTurn(v: View, best: Best, shifts: seq<Shift>, i: nat)
    requires ViewOk(v) && OfLength(v, shifts, i) && (best.any ==> best.shift.end - best.shift.start > i)
    ensures InTurn(best, shifts, 0, i)
  {
    forall j | 0 <= j < |shifts|
      ensures Later(best, shifts[j])
    {
      assert shifts[j] in shifts;
    }
  }

  lemma {:induction false} SomeBeatenStep(v: View, before: Best, best: Best, shifts: seq<Shift>, k: nat)
    requires ViewOk(v) && k < |shifts| && SomeBeaten(v, before, shifts[..k]) && Beaten(v, best, shifts[k])
    requires TakesOver(before, best)
    ensures SomeBeaten(v, best, shifts[..k + 1])
  {
    assert shifts[..k + 1] == shifts[..k] + [shifts[k]];
    forall s | s in shifts[..k + 1]
      ensures Beaten(v, best, s)
    {
      assert s in shifts[..k] ==> Beaten(v, before, s);
    }
  }

  /** The shifts of one length; the first `tried` of them are aligned. */
  method TryLength(v: View, med: Candidate, best0: Best, shifts: seq<Shift>, i: nat)
    returns (best: Best, fired: bool, ghost tried: nat)
    requires ViewOk(v) && BestOk(v, med, best0) && |v.ref| < TABLE_SIZE && |v.cur| < TABLE_SIZE
             && med.aftershift == v.cur
    requires OfLength(v, shifts, i) && (best0.any ==> best0.shift.end - best0.shift.start > i)
    ensures Improved(v, med, best0, best, fired) && (best.any ==> best.shift.end - best.shift.start >= i)
    ensures !fired && med.alignment.numEdits == Lev(v.ref, v.cur) ==> SomeBeaten(v, best, shifts)
    ensures tried <= |shifts| && (fired <==> SomeCut(v, shifts[..tried]))
  {
    best, fired, tried := best0, false, 0;
    FirstInTurn(v, best, shifts, i);
    var k := 0;
    while k < |shifts|
      invariant 0 <= k <= |shifts| && Improved(v, med, best0, best, fired)
      invariant !fired ==> SomeBeaten(v, best, shifts[..k])
      invariant tried == k && (fired <==> SomeCut(v, shifts[..k]))
      invariant InTurn(best, shifts, k, i)
    {
      if OutOfReach(med, best, i) {
        if !fired && med.alignment.numEdits == Lev(v.ref, v.cur) {
          RestOutOfReach(v, med, best, i, shifts, k);
        }
        return;
      }
      assert shifts[k] in shifts;
      var before, missed := best, false;
      best, missed := TryShift(v, med, best, shifts[k]);
      fired := fired || missed;
      if !fired {
        SomeBeatenStep(v, before, best, shifts, k);
      }
      NextInTurn(v, before, best, shifts, k, i);
      OneCutMore(v, shifts, k);
      k, tried := k + 1, k + 1;
    }
    assert shifts[..k] == shifts;
  }

  lemma {:induction false} OneCutMore(v: View, shifts: seq<Shift>, k: nat)
    requires k < |shifts|
    ensures SomeCut(v, shifts[..k + 1]) <==> SomeCut(v, shifts[..k]) || CutByBeam(v, shifts[k])
  {
    assert shifts[..k + 1] == shifts[..k] + [shifts[k]];
    SomeCutJoins(v, shifts[..k], [shifts[k]]);
    assert SomeCut(v, [shifts[k]]) <==> CutByBeam(v, shifts[k]) by {
      assert shifts[k] in [shifts[k]];
    }
  }

  lemma {:induction false} TriedMore(v: View, tried: seq<Shift>, shifts: seq<Shift>, i: nat, n: nat)
    requires ViewOk(v) && OfLength(v, shifts, i) && n <= |shifts|
    requires forall s {:trigger s in tried} :: s in tried ==> Offered(v, s)
    ensures forall s {:trigger s in tried + shifts[..n]} :: s in tried + shifts[..n] ==> Offered(v, s)
    ensures SomeCut(v, tried + shifts[..n]) <==> SomeCut(v, tried) || SomeCut(v, shifts[..n])
  {
    SomeCutJoins(v, tried, shifts[..n]);
    forall s | s in tried + shifts[..n]
      ensures Offered(v, s)
    {
      assert s in tried || s in shifts;
    }
  }

  /** CalcBestShift: the cheapest of all offered shifts, unless none is worth its cost or the beam interfered. */
  method CalcBestShift(v: View, med: Candidate) returns (best: Best, fired: bool, ghost tried: seq<Shift>)
    requires ViewOk(v) && CandidateOk(med, v.ref) && med.aftershift == v.cur && |v.ref| < TABLE_SIZE
             && |v.cur| < TABLE_SIZE
    ensures BestOk(v, med, best)
    ensures !fired && Aligned(med, v.ref) ==>
              && Aligned(best.candidate, v.ref)
              && AllBeaten(v, best, -1)
    ensures (fired <==> SomeCut(v, tried)) && forall s {:trigger s in tried} :: s in tried ==> Offered(v, s)
    ensures !fired && Aligned(med, v.ref) ==> forall hyp {:trigger Matches(v, hyp)} ::
              Matches(v, hyp) ==> Cheapest(v, med, best)
  {
    var poss := GatherAllPossShifts(v);
    best, fired, tried := Best(false, Shift(0, 0, 0, 0), med, 0), false, [];
    ghost var exact := Aligned(med, v.ref);
    AllBeatenStart(v, best);
    var i := MAX_SHIFT_SIZE;
    while i >= 0
      invariant -1 <= i <= MAX_SHIFT_SIZE && BestOk(v, med, best)
      invariant best.any ==> best.shift.end - best.shift.start > i
      invariant !fired && exact ==> AllBeaten(v, best, i)
      invariant !fired && exact ==> Aligned(best.candidate, v.ref)
      invariant (fired <==> SomeCut(v, tried)) && forall s {:trigger s in tried} :: s in tried ==> Offered(v, s)
    {
      if OutOfReach(med, best, i) {
        if exact && !fired {
          forall s | Offered(v, s) && s.end - s.start <= i
            ensures Beaten(v, best, s)
          {
            OutOfReachIsBeaten(v, med, best, i, s);
          }
        }
        break;
      }
      var before, missed := best, false;
      ghost var n;
      best, missed, n := TryLength(v, med, best, poss[i], i);
      fired := fired || missed;
      TriedMore(v, tried, poss[i], i, n);
      tried := tried + poss[i][..n];
      if exact && !fired {
        AllBeatenStep(v, before, best, i, poss[i]);
      }
      i := i - 1;
    }
    if exact && !fired {
      forall hyp | Matches(v, hyp)
        ensures Cheapest(v, med, best)
      {
        BestIsCheapest(v, hyp, med, best);
      }
    }
  }

  /**
   The shift taken, if any, saves its cost of one and leaves no more edits than any other; else
   none saves its cost.
   */
  ghost predicate Cheapest(v: View, med: Candidate, best: Best) {
    && (forall s {:trigger Worth(v.cur, v.ref, v.e, s)} :: Worth(v.cur, v.ref, v.e, s) ==>
         InRange(s, |v.cur|) && best.candidate.alignment.numEdits <= Lev(v.ref, Moved(v.cur, s)))
    && (best.any ==> FirstOf(v, best))
    && if best.any then
         && Worth(v.cur, v.ref, v.e, best.shift) && InRange(best.shift, |v.cur|)
         && best.candidate.aftershift == Moved(v.cur, best.shift)
         && Aligned(best.candidate, v.ref)
         && best.candidate.alignment.numEdits + 1 <= med.alignment.numEdits
       else best.candidate == med
  }

  /** Of those that leave equally few edits none is longer, and none of the same length starts earlier. */
  ghost predicate FirstOf(v: View, best: Best) {
    forall s {:trigger Worth(v.cur, v.ref, v.e, s)} :: Worth(v.cur, v.ref, v.e, s) && Prior(s, best.shift) ==>
      InRange(s, |v.cur|) && best.candidate.alignment.numEdits < Lev(v.ref, Moved(v.cur, s))
  }

  lemma {:induction false} BestIsCheapest(v: View, hyp: seq<Word>, med: Candidate, best: Best)
    requires ViewOk(v) && Matches(v, hyp) && BestOk(v, med, best) && AllBeaten(v, best, -1)
    requires Aligned(best.candidate, v.ref)
    ensures Cheapest(v, med, best)
  {
    forall s {:trigger Worth(v.cur, v.ref, v.e, s)} | Worth(v.cur, v.ref, v.e, s)
      ensures InRange(s, |v.cur|) && best.candidate.alignment.numEdits <= Lev(v.ref, Moved(v.cur, s))
      ensures best.any && Prior(s, best.shift) ==> best.candidate.alignment.numEdits < Lev(v.ref, Moved(v.cur, s))
    {
      OfferedIff(v, hyp, s);
      OfferedInRange(v, s);
      assert Beaten(v, best, s);
    }
    if best.any {
      OfferedIff(v, hyp, best.shift);
    }
  }

  lemma {:induction false} AllBeatenStep(v: View, before: Best, best: Best, i: int, shifts: seq<Shift>)
    requires ViewOk(v) && AllBeaten(v, before, i) && SomeBeaten(v, best, shifts) && TakesOver(before, best)
    requires forall s {:trigger s in shifts} {:trigger Offered(v, s)} :: Offered(v, s) && s.end - s.start == i ==>
               s in shifts
    ensures AllBeaten(v, best, i - 1)
  {
    forall s | Offered(v, s) && s.end - s.start > i - 1
      ensures Beaten(v, best, s)
    {
      assert s.end - s.start > i ==> Beaten(v, before, s);
      assert s.end - s.start == i ==> s in shifts;
    }
  }

  lemma {:induction false} AllBeatenStart(v: View, best: Best)
    requires ViewOk(v)
    ensures AllBeaten(v, best, MAX_SHIFT_SIZE)
  {
    forall s | Offered(v, s)
      ensures s.end - s.start <= MAX_SHIFT_SIZE
    {
      OfferedInRange(v, s);
    }
  }

  // ---------------------------------------------------------------- TER

  predicate AllInRange(shifts: seq<Shift>, n: nat) {
    forall k {:trigger shifts[k]} :: 0 <= k < |shifts| ==> InRange(shifts[k], n)
  }

  /** The words after all shifts, in order. */
  function After(words: seq<Word>, shifts: seq<Shift>): (r: seq<Word>)
    requires AllInRange(shifts, |words|)
    ensures |r| == |words|
  {
    if shifts == [] then words
    else
      var before := After(words, shifts[..|shifts| - 1]);
      MovedIsPermutation(before, shifts[|shifts| - 1]);
      Moved(before, shifts[|shifts| - 1])
  }

  lemma {:induction false} AfterIsPermutation(words: seq<Word>, shifts: seq<Shift>)
    requires AllInRange(shifts, |words|)
    ensures multiset(After(words, shifts)) == multiset(words)
    decreases |shifts|
  {
    if shifts != [] {
      var before := shifts[..|shifts| - 1];
      AfterIsPermutation(words, before);
      MovedIsPermutation(After(words, before), shifts[|shifts| - 1]);
    }
  }

  lemma {:induction false} OneMoreShift(words: seq<Word>, shifts: seq<Shift>, s: Shift)
    requires AllInRange(shifts, |words|) && InRange(s, |words|)
    ensures AllInRange(shifts + [s], |words|)
    ensures After(words, shifts + [s]) == Moved(After(words, shifts), s)
  {
    assert (shifts + [s])[..|shifts|] == shifts;
  }

  /** What one round starts from: the words, their alignment, and the errors FindAlignErr finds in it. */
  datatype Round = Round(c: Candidate, e: Errors)

  ghost predicate RoundOk(r: Round, ref: seq<Word>) {
    && CandidateOk(r.c, ref) && |r.e.herr| == |r.c.aftershift| && |r.e.rerr| == |r.e.ralign| == |ref|
    && forall k {:trigger RecordedAt(r.e, r.c.alignment.path, k)} :: 0 <= k < |r.c.alignment.path| ==>
         RecordedAt(r.e, r.c.alignment.path, k)
  }

  /** Shift `s` leaves the fewest edits of all, is the first of these, and saves its cost of one. */
  ghost predicate Greedy(ref: seq<Word>, r: Round, s: Shift, next: Candidate) {
    && Worth(r.c.aftershift, ref, r.e, s) && InRange(s, |r.c.aftershift|)
    && next.aftershift == Moved(r.c.aftershift, s) && next.alignment.numEdits + 1 <= r.c.alignment.numEdits
    && LeastOf(ref, r, next.alignment.numEdits)
    && forall t {:trigger Worth(r.c.aftershift, ref, r.e, t)} :: Worth(r.c.aftershift, ref, r.e, t) && Prior(t, s) ==>
         InRange(t, |r.c.aftershift|) && next.alignment.numEdits < Lev(ref, Moved(r.c.aftershift, t))
  }

  ghost predicate LeastOf(ref: seq<Word>, r: Round, edits: nat) {
    forall s {:trigger Worth(r.c.aftershift, ref, r.e, s)} :: Worth(r.c.aftershift, ref, r.e, s) ==>
      InRange(s, |r.c.aftershift|) && edits <= Lev(ref, Moved(r.c.aftershift, s))
  }

  /** Every round before the last makes its best shift, and the last one finds none that saves its cost. */
  ghost predicate AllGreedy(hyp: seq<Word>, ref: seq<Word>, rounds: seq<Round>, shifts: seq<Shift>) {
    && |rounds| == |shifts| + 1 && rounds[0].c.aftershift == hyp
    && (forall k {:trigger rounds[k]} :: 0 <= k < |rounds| ==> RoundOk(rounds[k], ref) && Aligned(rounds[k].c, ref))
    && (forall k {:trigger shifts[k]} :: 0 <= k < |shifts| ==> Greedy(ref, rounds[k], shifts[k], rounds[k + 1].c))
    && LeastOf(ref, rounds[|shifts|], Lev(ref, rounds[|shifts|].c.aftershift))
  }

  datatype Score = Score(candidate: Candidate, allshifts: seq<Shift>, numEdits: nat)

  /** The alignment's errors, as FindAlignErr finds them, and the matches in the reference. */
  ghost predicate Sees(v: View, c: Candidate, hyp: seq<Word>, ref: seq<Word>) {
    && v.cur == c.aftershift && v.ref == ref && LocationsOk(v.rloc, hyp, ref) && ViewOk(v)
    && forall k {:trigger RecordedAt(v.e, c.alignment.path, k)} :: 0 <= k < |c.alignment.path| ==>
         RecordedAt(v.e, c.alignment.path, k)
  }

  method Look(c: Candidate, ghost hyp: seq<Word>, ref: seq<Word>, rloc: Locations) returns (v: View)
    requires CandidateOk(c, ref) && LocationsOk(rloc, hyp, ref)
    ensures Sees(v, c, hyp, ref) && v.rloc == rloc
  {
    var e := FindAlignErr(c.alignment.path, ref, c.aftershift);
    AlignmentErrorsOk(c.alignment.path, ref, c.aftershift, e);
    v := View(c.aftershift, ref, rloc, e);
    forall key, p: nat | p in Positions(rloc, key)
      ensures p + |key| <= |ref|
    {
      assert Occurs(hyp, ref, key, p);
    }
  }

  predicate Reordered(hyp: seq<Word>, words: seq<Word>) {
    multiset(words) == multiset(hyp)
  }

  /** In some order of the words of the hypothesis the beam cuts something off. */
  ghost predicate CutReordered(ref: seq<Word>, hyp: seq<Word>) {
    exists words :: Reordered(hyp, words) && Cut(ref, words)
  }

  /** The beam cuts something off in one of these. */
  ghost predicate AnyCut(ref: seq<Word>, aligned: seq<seq<Word>>) {
    exists i {:trigger aligned[i]} :: 0 <= i < |aligned| && Cut(ref, aligned[i])
  }

  ghost predicate AllReordered(hyp: seq<Word>, aligned: seq<seq<Word>>) {
    forall i {:trigger aligned[i]} :: 0 <= i < |aligned| ==> Reordered(hyp, aligned[i])
  }

  /** What is aligned when shifts are tried. */
  ghost function ShiftedAll(v: View, tried: seq<Shift>): (aligned: seq<seq<Word>>)
    requires forall s {:trigger s in tried} :: s in tried ==> InRange(s, |v.cur|)
  {
    seq(|tried|, k requires 0 <= k < |tried| => assert tried[k] in tried; Moved(v.cur, tried[k]))
  }

  lemma {:induction false} TriedAreReordered(hyp: seq<Word>, v: View, tried: seq<Shift>)
    requires ViewOk(v) && Reordered(hyp, v.cur) && forall s {:trigger s in tried} :: s in tried ==> Offered(v, s)
    ensures forall s {:trigger s in tried} :: s in tried ==> InRange(s, |v.cur|)
    ensures AllReordered(hyp, ShiftedAll(v, tried)) && (AnyCut(v.ref, ShiftedAll(v, tried)) <==> SomeCut(v, tried))
  {
    forall s {:trigger s in tried} | s in tried
      ensures InRange(s, |v.cur|) && Reordered(hyp, Moved(v.cur, s))
    {
      OfferedInRange(v, s);
      MovedIsPermutation(v.cur, s);
    }
    CutWhenTried(v, tried);
    forall i | 0 <= i < |tried|
      ensures Reordered(hyp, ShiftedAll(v, tried)[i])
    {
      assert tried[i] in tried;
    }
  }

  lemma {:induction false} CutWhenTried(v: View, tried: seq<Shift>)
    requires forall s {:trigger s in tried} :: s in tried ==> InRange(s, |v.cur|)
    ensures AnyCut(v.ref, ShiftedAll(v, tried)) <==> SomeCut(v, tried)
  {
    var next := ShiftedAll(v, tried);
    if SomeCut(v, tried) {
      var s :| s in tried && CutByBeam(v, s);
      var k :| 0 <= k < |tried| && tried[k] == s;
      assert next[k] == Moved(v.cur, s);
    }
    if i :| 0 <= i < |next| && Cut(v.ref, next[i]) {
      assert tried[i] in tried && CutByBeam(v, tried[i]);
    }
  }

  lemma {:induction false} CutsJoin(ref: seq<Word>, a: seq<seq<Word>>, b: seq<seq<Word>>)
    ensures AnyCut(ref, a + b) <==> AnyCut(ref, a) || AnyCut(ref, b)
  {
    if i :| 0 <= i < |a| && Cut(ref, a[i]) {
      assert (a + b)[i] == a[i];
    }
    if i :| 0 <= i < |b| && Cut(ref, b[i]) {
      assert (a + b)[|a| + i] == b[i];
    }
  }

  /** Where nothing is cut in any order, nothing is cut in what is aligned. */
  lemma {:induction false} CutIsReordered(ref: seq<Word>, hyp: seq<Word>, aligned: seq<seq<Word>>)
    requires AllReordered(hyp, aligned) && AnyCut(ref, aligned)
    ensures CutReordered(ref, hyp)
  {
  }

  /** Short sentences are never cut, in whatever order. */
  lemma {:induction false} ShortIsNotCutReordered(ref: seq<Word>, hyp: seq<Word>)
    requires |ref| + |hyp| <= 20
    ensures !CutReordered(ref, hyp)
  {
    forall words | Reordered(hyp, words)
      ensures !Cut(ref, words)
    {
      assert |words| == |multiset(words)| == |hyp|;
      ShortIsNotCut(ref, words);
    }
  }

  /** One round: the errors of the alignment, and the best shift. */
  method NextRound(c: Candidate, ref: seq<Word>, rloc: Locations, ghost hyp: seq<Word>, ghost before: seq<seq<Word>>)
    returns (best: Best, fired: bool, ghost round: Round, ghost aligned: seq<seq<Word>>)
    requires CandidateOk(c, ref) && LocationsOk(rloc, hyp, ref) && Reordered(hyp, c.aftershift)
    requires |ref| < TABLE_SIZE && |hyp| < TABLE_SIZE && AllReordered(hyp, before)
    ensures RoundOk(round, ref) && round.c == c
    ensures CandidateOk(best.candidate, ref)
    ensures if best.any then Takes(c, best.shift, best.candidate) else best.candidate == c
    ensures !fired && Aligned(c, ref) ==> Aligned(best.candidate, ref)
    ensures !fired && Aligned(c, ref) ==>
              if best.any then Greedy(ref, round, best.shift, best.candidate)
              else LeastOf(ref, round, Lev(ref, c.aftershift))
    ensures AllReordered(hyp, aligned) && before <= aligned
    ensures AnyCut(ref, aligned) <==> AnyCut(ref, before) || fired
  {
    assert |c.aftershift| == |multiset(c.aftershift)| == |multiset(hyp)| == |hyp|;
    var v := Look(c, hyp, ref, rloc);
    ghost var tried;
    best, fired, tried := CalcBestShift(v, c);
    TriedAreReordered(hyp, v, tried);
    aligned, round := before + ShiftedAll(v, tried), Round(c, v.e);
    CutsJoin(ref, before, ShiftedAll(v, tried));
    SameWords(v, hyp);
    if !fired && Aligned(c, ref) {
      CheapestIsGreedy(v, c, best, round);
    }
  }

  lemma {:induction false} SameWords(v: View, hyp: seq<Word>)
    requires LocationsOk(v.rloc, hyp, v.ref) && Reordered(hyp, v.cur)
    ensures Matches(v, hyp)
  {
    assert forall w {:trigger w in v.cur} :: w in v.cur ==> w in multiset(v.cur);
  }

  lemma {:induction false} CheapestIsGreedy(v: View, c: Candidate, best: Best, round: Round)
    requires round == Round(c, v.e) && v.cur == c.aftershift && Aligned(c, v.ref) && Cheapest(v, c, best)
    ensures if best.any then Greedy(v.ref, round, best.shift, best.candidate)
            else LeastOf(v.ref, round, Lev(v.ref, c.aftershift))
  {
  }

  /** The shift is made, and saves its cost. */
  ghost predicate Takes(c: Candidate, s: Shift, next: Candidate) {
    && InRange(s, |c.aftershift|) && next.aftershift == Moved(c.aftershift, s)
    && next.alignment.numEdits + 1 <= c.alignment.numEdits
  }

  /**
   TER.  The loop ends, for every accepted shift lowers the edits by at least its cost.  The
   result is an alignment of the shifted hypothesis, and its total is never above that of
   the unshifted one.  Unless the beam interfered, every round makes the shift that leaves the
   fewest edits, and in the end none is worth its cost; it interferes exactly if something is
   cut off in one of the orders of the words that are aligned.
   */
  method TER(hyp: seq<Word>, ref: seq<Word>)
    returns (r: Score, fired: bool, ghost rounds: seq<Round>, ghost aligned: seq<seq<Word>>)
    requires |ref| < TABLE_SIZE && |hyp| < TABLE_SIZE
    ensures AllInRange(r.allshifts, |hyp|) && r.candidate.aftershift == After(hyp, r.allshifts)
    ensures CandidateOk(r.candidate, ref) && r.numEdits == r.candidate.alignment.numEdits + |r.allshifts|
    ensures |rounds| == |r.allshifts| + 1 && rounds[|r.allshifts|].c == r.candidate
    ensures RoundOk(rounds[0], ref) && r.numEdits <= rounds[0].c.alignment.numEdits <= |ref| + |hyp|
    ensures !fired ==> AllGreedy(hyp, ref, rounds, r.allshifts)
    ensures AllReordered(hyp, aligned) && hyp in aligned && (fired <==> AnyCut(ref, aligned))
    ensures fired ==> CutReordered(ref, hyp)
  {
    var rloc := BuildWordMatches(hyp, ref);
    var first;
    first, fired := MinEditDist(hyp, ref);
    aligned := [hyp];
    assert AnyCut(ref, aligned) <==> Cut(ref, aligned[0]);
    var cur := Candidate(hyp, first);
    var allshifts: seq<Shift> := [];
    var edits := 0;
    ghost var from: seq<Round> := [];
    while true
      invariant AllInRange(allshifts, |hyp|) && cur.aftershift == After(hyp, allshifts) && edits == |allshifts|
      invariant CandidateOk(cur, ref) && cur.alignment.numEdits + edits <= first.numEdits
      invariant |from| == |allshifts| && StartsAt(from, cur, Candidate(hyp, first), ref)
      invariant !fired ==> GreedySoFar(hyp, ref, from, allshifts, cur)
      invariant AllReordered(hyp, aligned) && [hyp] <= aligned && (fired <==> AnyCut(ref, aligned))
      decreases cur.alignment.numEdits
    {
      AfterIsPermutation(hyp, allshifts);
      var best, missed;
      ghost var round;
      best, missed, round, aligned := NextRound(cur, ref, rloc, hyp, aligned);
      fired := fired || missed;
      rounds := from + [round];
      if !best.any {
        if !fired {
          LastRound(hyp, ref, from, allshifts, round);
        }
        break;
      }
      OneMoreShift(hyp, allshifts, best.shift);
      if !fired {
        OneMoreRound(hyp, ref, from, allshifts, round, best.shift, best.candidate);
      }
      from := rounds;
      allshifts := allshifts + [best.shift];
      cur := best.candidate;
      edits := edits + SHIFT_COST;
    }
    if fired {
      CutIsReordered(ref, hyp, aligned);
    }
    r := Score(cur, allshifts, cur.alignment.numEdits + edits);
  }

  ghost predicate StartsAt(from: seq<Round>, cur: Candidate, first: Candidate, ref: seq<Word>) {
    if from == [] then cur == first else RoundOk(from[0], ref) && from[0].c == first
  }

  /** The rounds before the next, which starts from `cur`. */
  ghost predicate GreedySoFar(hyp: seq<Word>, ref: seq<Word>, from: seq<Round>, shifts: seq<Shift>, cur: Candidate) {
    && |from| == |shifts| && Aligned(cur, ref) && (from != [] ==> from[0].c.aftershift == hyp)
    && (from == [] ==> cur.aftershift == hyp)
    && (forall k {:trigger from[k]} :: 0 <= k < |from| ==> RoundOk(from[k], ref) && Aligned(from[k].c, ref))
    && forall k {:trigger shifts[k]} :: 0 <= k < |shifts| ==>
         Greedy(ref, from[k], shifts[k], if k + 1 < |from| then from[k + 1].c else cur)
  }

  lemma {:induction false} OneMoreRound(hyp: seq<Word>, ref: seq<Word>, from: seq<Round>, shifts: seq<Shift>,
                                        round: Round, s: Shift, next: Candidate)
    requires GreedySoFar(hyp, ref, from, shifts, round.c) && RoundOk(round, ref) && Greedy(ref, round, s, next)
    requires Aligned(next, ref)
    ensures GreedySoFar(hyp, ref, from + [round], shifts + [s], next)
  {
    var rounds, all := from + [round], shifts + [s];
    forall k | 0 <= k < |all|
      ensures RoundOk(rounds[k], ref) && Aligned(rounds[k].c, ref)
      ensures Greedy(ref, rounds[k], all[k], if k + 1 < |rounds| then rounds[k + 1].c else next)
    {
      if k < |shifts| {
        assert rounds[k] == from[k] && all[k] == shifts[k];
      }
    }
  }

  lemma {:induction false} LastRound(hyp: seq<Word>, ref: seq<Word>, from: seq<Round>, shifts: seq<Shift>, round: Round)
    requires GreedySoFar(hyp, ref, from, shifts, round.c) && RoundOk(round, ref)
    requires LeastOf(ref, round, Lev(ref, round.c.aftershift))
    ensures AllGreedy(hyp, ref, from + [round], shifts)
  {
    var rounds := from + [round];
    forall k | 0 <= k < |rounds|
      ensures RoundOk(rounds[k], ref) && Aligned(rounds[k].c, ref)
      ensures k < |shifts| ==> Greedy(ref, rounds[k], shifts[k], rounds[k + 1].c)
    {
      if k < |shifts| {
        assert rounds[k] == from[k];
      }
    }
  }

  // ---------------------------------------------------------------- what this means for the score

  /** A wrong word that stands in the reference, wrong there too and aligned elsewhere, may move there. */
  lemma {:induction false} WordMayMove(cur: seq<Word>, ref: seq<Word>, e: Errors, i: nat, p: nat)
    requires |e.herr| == |cur| && |e.rerr| == |e.ralign| == |ref| && i < |cur| && p < |ref|
    requires cur[i] == ref[p] && e.herr[i] && e.rerr[p] && e.ralign[p] != i && -50 <= e.ralign[p] - i <= 50
    ensures Worth(cur, ref, e, Shift(i, i, p, e.ralign[p]))
  {
    assert WorthAt(cur, ref, e, Shift(i, i, p, e.ralign[p]), p, 0);
  }

  /** The same for a block of at most 50 words, some of them wrong on both sides. */
  lemma {:induction false} BlockMayMove(cur: seq<Word>, ref: seq<Word>, e: Errors, start: nat, end: nat, p: nat)
    requires |e.herr| == |cur| && |e.rerr| == |e.ralign| == |ref|
    requires start <= end < |cur| && end - start < 50 && p + (end - start) < |ref|
    requires cur[start..end + 1] == ref[p..p + (end - start) + 1]
    requires (exists i :: start <= i <= end && e.herr[i]) && exists i :: p <= i <= p + (end - start) && e.rerr[i]
    requires (e.ralign[p] < start || end < e.ralign[p]) && -50 <= e.ralign[p] - start <= 50
    ensures Worth(cur, ref, e, Shift(start, end, p, e.ralign[p]))
  {
    forall i | start <= i <= end
      ensures cur[i] == ref[p + i - start]
    {
      assert cur[start..end + 1][i - start] == ref[p..p + (end - start) + 1][i - start];
    }
    assert WorthAt(cur, ref, e, Shift(start, end, p, e.ralign[p]), p, 0);
  }

  /** No round raises the total. */
  lemma {:induction false} TotalsFall(hyp: seq<Word>, ref: seq<Word>, rounds: seq<Round>, shifts: seq<Shift>, k: nat)
    requires AllGreedy(hyp, ref, rounds, shifts) && k <= |shifts|
    ensures rounds[|shifts|].c.alignment.numEdits + |shifts| <= rounds[k].c.alignment.numEdits + k
    decreases |shifts| - k
  {
    if k < |shifts| {
      assert Greedy(ref, rounds[k], shifts[k], rounds[k + 1].c);
      TotalsFall(hyp, ref, rounds, shifts, k + 1);
    }
  }

  /** The total is at most one more than what any worthwhile shift leaves. */
  lemma {:induction false} TotalAtMost(hyp: seq<Word>, ref: seq<Word>, rounds: seq<Round>, shifts: seq<Shift>, s: Shift)
    requires AllGreedy(hyp, ref, rounds, shifts) && Worth(hyp, ref, rounds[0].e, s)
    ensures InRange(s, |hyp|)
    ensures rounds[|shifts|].c.alignment.numEdits + |shifts| <= Lev(ref, Moved(hyp, s)) + 1
  {
    if shifts != [] {
      assert Greedy(ref, rounds[0], shifts[0], rounds[1].c);
      TotalsFall(hyp, ref, rounds, shifts, 1);
    } else {
      assert Aligned(rounds[0].c, ref);
    }
  }

  // ---------------------------------------------------------------- an example

  const HYP: seq<Word> := ["c", "a", "b"]
  const REF: seq<Word> := ["a", "b", "c"]

  lemma {:induction false} ExampleDistances()
    ensures Distance(REF, 1, HYP, 1) == 1 && Distance(REF, 1, HYP, 2) == 1 && Distance(REF, 1, HYP, 3) == 2
    ensures Distance(REF, 2, HYP, 1) == 2 && Distance(REF, 2, HYP, 2) == 2 && Distance(REF, 2, HYP, 3) == 1
    ensures Distance(REF, 3, HYP, 1) == 2 && Distance(REF, 3, HYP, 2) == 3 && Distance(REF, 3, HYP, 3) == 2
  {
    assert HYP[0] == "c" && HYP[1] == "a" && HYP[2] == "b" && REF[0] == "a" && REF[1] == "b" && REF[2] == "c";
    assert "a"[0] != "b"[0] && "a"[0] != "c"[0] && "b"[0] != "c"[0];
    assert Distance(REF, 1, HYP, 1) == 1;
    assert Distance(REF, 1, HYP, 2) == 1;
    assert Distance(REF, 1, HYP, 3) == 2;
    assert Distance(REF, 2, HYP, 1) == 2;
    assert Distance(REF, 2, HYP, 2) == 2;
    assert Distance(REF, 2, HYP, 3) == 1;
    assert Distance(REF, 3, HYP, 1) == 2;
    assert Distance(REF, 3, HYP, 2) == 3;
  }

  lemma {:induction false} ExamplePath(path: seq<Edit>)
    requires Preferred(path, REF, 3, HYP, 3)
    ensures path == [Insert, Match, Match, Delete]
  {
    ExampleDistances();
    var p4 := [Insert, Match, Match, Delete];
    var p3, p2, p1 := p4[..3], p4[..2], p4[..1];
    assert p3[..2] == p2 && p2[..1] == p1 && p1[..0] == [];
    assert Preferred([], REF, 0, HYP, 0);
    assert Preferred(p1, REF, 0, HYP, 1);
    assert Preferred(p2, REF, 1, HYP, 2);
    assert Preferred(p3, REF, 2, HYP, 3);
    assert Preferred(p4, REF, 3, HYP, 3);
    PreferredIsOne(path, p4, REF, 3, HYP, 3);
  }

  /** What FindAlignErr makes of that path. */
  lemma {:induction false} ExampleErrors(e: Errors, path: seq<Edit>)
    requires path == [Insert, Match, Match, Delete] && |e.herr| == |e.rerr| == |e.ralign| == 3
    requires forall k {:trigger RecordedAt(e, path, k)} :: 0 <= k < |path| ==> RecordedAt(e, path, k)
    ensures e.herr[0] && e.rerr[2] && e.ralign[2] == 2
  {
    var p3, p2, p1 := path[..3], path[..2], path[..1];
    assert p3[..2] == p2 && p2[..1] == p1 && p1[..0] == [] == path[..0];
    assert HypUsed(p1) == 1 && RefUsed(p1) == 0;
    assert HypUsed(p2) == 2 && RefUsed(p2) == 1;
    assert HypUsed(p3) == 3 && RefUsed(p3) == 2;
    assert RecordedAt(e, path, 0) && RecordedAt(e, path, 3);
  }

  lemma {:induction false} ExampleMoved()
    ensures InRange(Shift(0, 0, 2, 2), 3) && Moved(HYP, Shift(0, 0, 2, 2)) == REF
    ensures Lev(REF, REF) == 0
  {
    assert REF[0] == "a" && REF[1] == "b" && REF[2] == "c";
    assert Distance(REF, 1, REF, 1) == 0;
    assert Distance(REF, 2, REF, 2) == 0;
  }

  /** One word out of place costs one shift, where insertion and deletion would cost two edits. */
  method OneWordMoves() returns (r: Score)
    ensures r.numEdits == 1
  {
    var fired;
    ghost var rounds, aligned;
    r, fired, rounds, aligned := TER(HYP, REF);
    ShortIsNotCutReordered(REF, HYP);
    assert RoundOk(rounds[0], REF) && Aligned(rounds[0].c, REF);
    ExamplePath(rounds[0].c.alignment.path);
    ExampleErrors(rounds[0].e, rounds[0].c.alignment.path);
    WordMayMove(HYP, REF, rounds[0].e, 0, 2);
    TotalAtMost(HYP, REF, rounds, r.allshifts, Shift(0, 0, 2, 2));
    ExampleMoved();
    ExampleDistances();
  }
}
