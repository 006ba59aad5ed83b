/**
 The second pass of the trie builder (kenlm/lm/search_trie.cc): the n-grams of the stream are
 counted, and written into the bit-packed arrays with their weights.  Listed n-grams that are
 histories of longer ones are marked as extending right; they are read off in step from files
 of sorted histories.  Blanks get what SRISucks has found for them.
 */
module TrieWrite {
  import opened BitPacking
  import opened PackedArray
  import opened GramSets
  import opened Lexicographic
  import opened BlankStream
  import opened SriBackoffs
  import opened TrieLookup

  /** The n-grams of a stream. */
  ghost function GramsOf(events: seq<Event>, n: nat): set<Gram>
    requires n <= |events|
  {
    set i | 0 <= i < n :: events[i].gram
  }

  ghost predicate InPreOrder(events: seq<Event>, order: nat) {
    && (forall i :: 0 <= i < |events| ==> 1 <= |events[i].gram| <= order)
    && (forall i, j {:trigger Less(events[i].gram, events[j].gram)} :: 0 <= i < j < |events| ==>
         Less(events[i].gram, events[j].gram))
    && (forall i {:trigger events[i]} :: 0 <= i < |events| && |events[i].gram| > 1 ==>
         Emits(events, events[i].gram[..|events[i].gram| - 1]))
  }

  /** In a pre-order stream the parent of an n-gram has already been written. */
  lemma {:induction false} ParentWritten(events: seq<Event>, order: nat, i: nat)
    requires InPreOrder(events, order) && i < |events| && |events[i].gram| > 1
    ensures events[i].gram[..|events[i].gram| - 1] in GramsOf(events, i)
  {
    var g := events[i].gram;
    var p := g[..|g| - 1];
    assert Emits(events, p);
    assert forall j {:trigger events[j]} :: i < j < |events| ==> Less(events[i].gram, events[j].gram);
    var j :| 0 <= j < |events| && events[j].gram == p;
    PrefixLess(p, g);
    LessAsymmetric(p, g);
    LessIrreflexive(g);
  }

  /** The next n-gram comes after all those written, and behind its parent. */
  lemma {:induction false} NextEntry(events: seq<Event>, order: nat, i: nat)
    requires InPreOrder(events, order) && i < |events|
    ensures var g := events[i].gram;
            && 1 <= |g| <= order && GramsOf(events, i + 1) == GramsOf(events, i) + {g}
            && (forall h {:trigger h in GramsOf(events, i)} :: h in GramsOf(events, i) ==> Less(h, g))
            && (|g| > 1 ==> g[..|g| - 1] in GramsOf(events, i))
  {
    if |events[i].gram| > 1 {
      ParentWritten(events, order, i);
    }
    forall h | h in GramsOf(events, i)
      ensures Less(h, events[i].gram)
    {
      var j :| 0 <= j < i && events[j].gram == h;
      assert Less(events[j].gram, events[i].gram);
    }
  }

  // ---------------------------------------------------------------- counting

  /** How many of the first `n` n-grams have this length. */
  function Count(events: seq<Event>, n: nat, length: nat): nat
    requires n <= |events|
  {
    if n == 0 then 0 else Count(events, n - 1, length) + if |events[n - 1].gram| == length then 1 else 0
  }

  lemma {:induction false} CountGrows(events: seq<Event>, m: nat, n: nat, length: nat)
    requires m <= n <= |events|
    ensures Count(events, m, length) <= Count(events, n, length)
    decreases n
  {
    if m < n {
      CountGrows(events, m, n - 1, length);
    }
  }

  /** No n-gram of the stream is counted twice. */
  lemma {:induction false} CountIs(events: seq<Event>, order: nat, n: nat, length: nat)
    requires InPreOrder(events, order) && n <= |events|
    ensures Count(events, n, length) == |OfLength(GramsOf(events, n), length)|
  {
    if n == 0 {
      assert OfLength(GramsOf(events, 0), length) == {};
    } else {
      var g := events[n - 1].gram;
      CountIs(events, order, n - 1, length);
      NextEntry(events, order, n - 1);
      LessIrreflexive(g);
      OneMoreOfLength(GramsOf(events, n - 1), g, length);
    }
  }

  /** The counts of a set of n-grams; the unigrams are wrote one past. */
  ghost function CountsOf(grams: set<Gram>, order: nat): (counts: seq<nat>)
    ensures |counts| == order
  {
    seq(order, o requires 0 <= o < order =>
      var n := |OfLength(grams, o + 1)|;
      if o == 0 && n > 0 then n - 1 else n)
  }

  /** FindBlanks counts the n-grams of each order, blanks and all; Cleanup takes a unigram off. */
  method CountOrders(events: seq<Event>, order: nat) returns (counts: seq<nat>)
    requires order >= 2 && InPreOrder(events, order) && events != [] && |events[0].gram| == 1
    ensures counts == CountsOf(GramsOf(events, |events|), order)
  {
    counts := seq(order, _ => 0);
    for i := 0 to |events|
      invariant |counts| == order
      invariant forall o {:trigger counts[o]} :: 0 <= o < order ==> counts[o] == Count(events, i, o + 1)
    {
      var o := |events[i].gram| - 1;
      counts := counts[o := counts[o] + 1];
    }
    CountGrows(events, 1, |events|, 1);
    counts := counts[0 := counts[0] - 1];
    forall length: nat
      ensures Count(events, |events|, length) == |OfLength(GramsOf(events, |events|), length)|
    {
      CountIs(events, order, |events|, length);
    }
  }

  /** There is room for one more n-gram of this length. */
  lemma {:induction false} RoomLeft(counts: seq<nat>, events: seq<Event>, i: nat)
    requires |counts| >= 2 && InPreOrder(events, |counts|) && counts == CountsOf(GramsOf(events, |events|), |counts|)
    requires i < |events| && |events[i].gram| > 1
    ensures Count(events, i, |events[i].gram|) < counts[|events[i].gram| - 1]
  {
    CountGrows(events, i + 1, |events|, |events[i].gram|);
    CountIs(events, |counts|, |events|, |events[i].gram|);
  }

  // ---------------------------------------------------------------- files of histories

  /** `c` is the history of a listed n-gram. */
  ghost predicate IsContext(listed: Listing, c: Gram) {
    exists l {:trigger l in listed} :: l in listed && |l| == |c| + 1 && l[1..] == c
  }

  /** The histories of this length, sorted and each once. */
  ghost predicate ContextFile(listed: Listing, file: seq<Gram>, length: nat) {
    FileOk(file) && forall c {:trigger c in file} :: c in file <==> |c| == length && IsContext(listed, c)
  }

  ghost predicate ContextFiles(listed: Listing, contexts: seq<seq<Gram>>) {
    forall o {:trigger contexts[o]} :: 0 <= o < |contexts| ==> ContextFile(listed, contexts[o], o + 1)
  }

  /** Every n-gram that some listed one has as its history is listed. */
  ghost predicate HistoriesListed(listed: Listing) {
    forall g {:trigger g in listed} :: g in listed && |g| > 1 ==> g[1..] in listed
  }

  /** How far a file of histories is read: to the first history that has not been seen. */
  ghost predicate ReadTo(file: seq<Gram>, pos: nat, seen: set<Gram>) {
    && pos <= |file|
    && (forall x {:trigger file[x]} :: 0 <= x < pos ==> file[x] in seen)
    && (pos < |file| ==> file[pos] !in seen)
  }

  /** The next n-gram is read off if it is the next history. */
  lemma {:induction false} ReadOn(file: seq<Gram>, pos: nat, seen: set<Gram>, g: Gram)
    requires FileOk(file) && ReadTo(file, pos, seen) && forall h {:trigger h in seen} :: h in seen ==> Less(h, g)
    ensures var hit := pos < |file| && file[pos] == g;
            ReadTo(file, if hit then pos + 1 else pos, seen + {g})
    ensures pos < |file| && file[pos] == g ==> file[..pos + 1] == file[..pos] + [g]
  {
    if pos + 1 < |file| && file[pos] == g {
      var next := file[pos + 1];
      assert Less(file[pos], next);
      LessIrreflexive(next);
      forall h | h in seen
        ensures h != next
      {
        LessTransitive(h, g, next);
      }
    }
  }

  /** All histories are read off exactly if they have all been seen. */
  lemma {:induction false} AllRead(file: seq<Gram>, pos: nat, seen: set<Gram>)
    requires ReadTo(file, pos, seen)
    ensures pos == |file| <==> forall c {:trigger c in file} :: c in file ==> c in seen
  {
    if pos < |file| {
      assert file[pos] in file;
    }
  }

  lemma {:induction false} UnigramsInOrder(v: nat, w: nat)
    ensures Less([v], [w]) <==> v < w
  {
    LcpAgrees([v], [w]);
    if v == w {
      LessIrreflexive([v]);
    } else {
      FirstDifference([v], [w], 0);
    }
  }

  ghost predicate UnigramsMarked(level: Backs, marked: Backs, file: seq<Gram>) {
    && marked.Keys == level.Keys
    && forall g {:trigger g in marked} :: g in marked ==> marked[g] == if g in file then Extend(level[g]) else level[g]
  }

  /** PopulateUnigramWeights: marks the unigrams that are histories. */
  method PopulateUnigramWeights(n: nat, level: Backs, file: seq<Gram>, ghost listed: Listing)
    returns (marked: Backs, pos: nat)
    requires ContextFile(listed, file, 1) && forall c {:trigger c in file} :: c in file ==> c[0] < n
    requires forall w: nat {:trigger [w]} :: w < n ==> [w] in level
    ensures pos == |file| && UnigramsMarked(level, marked, file)
  {
    marked, pos := level, 0;
    ghost var seen: set<Gram> := {};
    for w := 0 to n
      invariant ReadTo(file, pos, seen) && marked.Keys == level.Keys
      invariant forall v: nat {:trigger [v]} :: v < w ==> [v] in seen
      invariant forall g {:trigger g in seen} :: g in seen ==> |g| == 1 && g[0] < w
      invariant forall g {:trigger g in marked} :: g in marked ==>
                  marked[g] == if g in file[..pos] then Extend(level[g]) else level[g]
    {
      forall h | h in seen
        ensures Less(h, [w])
      {
        assert h == [h[0]];
        UnigramsInOrder(h[0], w);
      }
      ReadOn(file, pos, seen, [w]);
      if pos < |file| && file[pos] == [w] {
        NotReadBefore(file, pos);
        marked := marked[[w] := Extend(marked[[w]])];
        pos := pos + 1;
      }
      seen := seen + {[w]};
    }
    forall c | c in file
      ensures c in seen
    {
      assert c == [c[0]];
    }
    AllRead(file, pos, seen);
    assert file[..pos] == file;
  }

  lemma {:induction false} NotReadBefore(file: seq<Gram>, pos: nat)
    requires FileOk(file) && pos < |file|
    ensures file[pos] !in file[..pos]
  {
    LessIrreflexive(file[pos]);
    forall x | 0 <= x < pos
      ensures file[x] != file[pos]
    {
      assert Less(file[x], file[pos]);
    }
  }

  // ---------------------------------------------------------------- writing

  /** How log-probabilities and backoffs become codes of these widths. */
  datatype Codes = Codes(prob: real -> nat, back: Flagged -> nat, probBits: nat, backoffBits: nat)

  ghost predicate CodesOk(c: Codes) {
    && c.probBits <= 57 && c.backoffBits <= 57
    && (forall p: real {:trigger c.prob(p)} :: c.prob(p) < Pow2(c.probBits))
    && forall f: Flagged {:trigger c.back(f)} :: c.back(f) < Pow2(c.backoffBits)
  }

  function WeightsOf(c: Codes, prob: real, back: Flagged): Weights {
    Weights(c.prob(prob), c.back(back))
  }

  /** What the second pass works with: `levels` holds the backoffs by length, as messages left them. */
  datatype Plan = Plan(counts: seq<nat>, layouts: seq<Layout>, listed: Listing, levels: seq<Backs>,
                       contexts: seq<seq<Gram>>, codes: Codes)

  ghost predicate PlanOk(plan: Plan, events: seq<Event>) {
    && |plan.counts| >= 2 && InPreOrder(events, |plan.counts|)
    && plan.counts == CountsOf(GramsOf(events, |events|), |plan.counts|)
    && LayoutsFor(plan.counts, plan.layouts) && CodesOk(plan.codes)
    && WidthsAre(plan.layouts, plan.codes.probBits, plan.codes.backoffBits)
    && |plan.levels| == |plan.contexts| == |plan.counts| - 1 && ContextFiles(plan.listed, plan.contexts)
    && forall i {:trigger events[i]} :: 0 <= i < |events| ==> Planned(plan, events[i])
  }

  ghost predicate Planned(plan: Plan, e: Event) {
    && 1 <= |e.gram| <= |plan.counts| && (e.Listed? <==> e.gram in plan.listed)
    && (e.Listed? && |e.gram| < |plan.counts| && |e.gram| - 1 < |plan.levels| ==> e.gram in plan.levels[|e.gram| - 1])
    && (|e.gram| > 1 && plan.counts != [] ==> e.gram[|e.gram| - 1] <= plan.counts[0])
  }

  /** No blanks of the longest length that has any are ever asked. */
  ghost predicate NotesOk(plan: Plan, noted: seq<seq<Gram>>) {
    && |noted| == |plan.counts| - 1 && noted != [] && noted[|noted| - 1] == []
    && forall o {:trigger noted[o]} :: 0 <= o < |noted| ==> NeverBack(noted[o])
  }

  predicate BlankOk(plan: Plan, values: Values, e: Event) {
    e.Blank? ==> e.gram in values && 1 < |e.gram| < |plan.counts|
  }

  /** Blanks have a value, and those noted are sorted. */
  ghost predicate BlanksOk(plan: Plan, events: seq<Event>, values: Values, noted: seq<seq<Gram>>) {
    && NotesOk(plan, noted)
    && forall x {:trigger events[x]} :: 0 <= x < |events| ==> BlankOk(plan, values, events[x])
  }

  /** The log-probability that is written. */
  function ProbOf(plan: Plan, values: Values, g: Gram): real {
    if g in plan.listed then plan.listed[g] else if g in values then values[g] else 0.0
  }

  /** The backoff that is written while the files of histories are read to `pos`. */
  function BackOf(plan: Plan, noted: seq<seq<Gram>>, pos: seq<nat>, g: Gram): Flagged {
    var o := |g| - 1;
    if g !in plan.listed then Flagged(0.0, 0 <= o < |noted| && g in noted[o])
    else if !(0 <= o < |plan.levels|) || g !in plan.levels[o] then Flagged(0.0, false)
    else if 1 <= o < |pos| && o < |plan.contexts| && pos[o] <= |plan.contexts[o]| && g in plan.contexts[o][..pos[o]]
      then Extend(plan.levels[o][g])
    else plan.levels[o][g]
  }

  ghost function Seen(listed: Listing, grams: set<Gram>): set<Gram> {
    set g | g in grams && g in listed
  }

  /** The files of the histories of two and more words, each read as far as what is written allows. */
  ghost predicate AllReadTo(plan: Plan, pos: seq<nat>, seen: set<Gram>) {
    |pos| == |plan.contexts| &&
    forall o {:trigger pos[o]} :: 1 <= o < |pos| ==> ReadTo(plan.contexts[o], pos[o], seen)
  }

  /** Is `g` the next history of its length? */
  predicate Hits(plan: Plan, pos: seq<nat>, g: Gram) {
    var o := |g| - 1;
    1 <= o < |pos| == |plan.contexts| && pos[o] < |plan.contexts[o]| && plan.contexts[o][pos[o]] == g
  }

  function Advanced(plan: Plan, pos: seq<nat>, g: Gram): (pos': seq<nat>)
    ensures |pos'| == |pos|
  {
    if Hits(plan, pos, g) then pos[|g| - 1 := pos[|g| - 1] + 1] else pos
  }

  lemma {:induction false} AllReadOn(plan: Plan, pos: seq<nat>, seen: set<Gram>, g: Gram)
    requires ContextFiles(plan.listed, plan.contexts) && AllReadTo(plan, pos, seen)
    requires forall h {:trigger h in seen} :: h in seen ==> Less(h, g)
    ensures AllReadTo(plan, Advanced(plan, pos, g), seen + {g})
    ensures Hits(plan, pos, g) ==>
              plan.contexts[|g| - 1][..pos[|g| - 1] + 1] == plan.contexts[|g| - 1][..pos[|g| - 1]] + [g]
    ensures !Hits(plan, pos, g) && 2 <= |g| <= |pos| ==> g !in plan.contexts[|g| - 1][..pos[|g| - 1]]
  {
    forall o | 1 <= o < |pos|
      ensures ReadTo(plan.contexts[o], Advanced(plan, pos, g)[o], seen + {g})
      ensures g !in plan.contexts[o][..pos[o]]
    {
      var file := plan.contexts[o];
      assert ContextFile(plan.listed, file, o + 1) && ReadTo(file, pos[o], seen);
      ReadOn(file, pos[o], seen, g);
      LessIrreflexive(g);
      forall x | 0 <= x < |file|
        ensures |file[x]| == o + 1 && (x < pos[o] ==> file[x] != g)
      {
        assert file[x] in file;
      }
    }
  }

  /** What is written of the others does not change when one is read off. */
  lemma {:induction false} SameBack(plan: Plan, noted: seq<seq<Gram>>, pos: seq<nat>, seen: set<Gram>, g: Gram, h: Gram)
    requires ContextFiles(plan.listed, plan.contexts) && AllReadTo(plan, pos, seen)
    requires forall h {:trigger h in seen} :: h in seen ==> Less(h, g)
    requires h != g
    ensures BackOf(plan, noted, Advanced(plan, pos, g), h) == BackOf(plan, noted, pos, h)
  {
    AllReadOn(plan, pos, seen, g);
  }

  /** The first `i` n-grams of the stream are in the trie. */
  ghost predicate InTrie(trie: Trie, plan: Plan, events: seq<Event>, i: nat)
    requires i <= |events|
    reads trie
  {
    && trie.Valid() && !trie.closed && trie.counts == plan.counts && trie.layouts == plan.layouts
    && trie.order == |plan.counts| && trie.stored.Keys == GramsOf(events, i)
    && forall o {:trigger trie.levels[o]} :: 0 <= o < trie.order ==> |trie.levels[o]| == Count(events, i, o + 1)
  }

  /** They have the weights they are to have, and the histories among them are read off. */
  ghost predicate AsPlanned(stored: map<Gram, Weights>, plan: Plan, values: Values, noted: seq<seq<Gram>>,
                            pos: seq<nat>) {
    && AllReadTo(plan, pos, Seen(plan.listed, stored.Keys))
    && forall g {:trigger g in stored} :: g in stored ==> stored[g] == Stores(plan, values, noted, pos, g)
  }

  function Stores(plan: Plan, values: Values, noted: seq<seq<Gram>>, pos: seq<nat>, g: Gram): Weights {
    Kept(|plan.counts|, g, WeightsOf(plan.codes, ProbOf(plan, values, g), BackOf(plan, noted, pos, g)))
  }

  /** The weights of the next n-gram of the stream: of its record, marked if it is the next history, or of a blank. */
  method NextWeights(sri: SriSucks, plan: Plan, e: Event, pos: seq<nat>, ghost seen: set<Gram>)
    returns (prob: real, back: Flagged, pos': seq<nat>)
    requires Planned(plan, e) && |plan.levels| == |plan.contexts| == |plan.counts| - 1 && sri.order == |plan.counts|
    requires ContextFiles(plan.listed, plan.contexts) && AllReadTo(plan, pos, seen)
    requires forall h {:trigger h in seen} :: h in seen ==> Less(h, e.gram)
    requires sri.Past(e.gram) && NotesOk(plan, sri.noted) && BlankOk(plan, sri.values, e)
    modifies sri`at
    ensures sri.Past(e.gram)
    ensures prob == ProbOf(plan, sri.values, e.gram)
    ensures pos' == if e.Listed? then Advanced(plan, pos, e.gram) else pos
    ensures back == BackOf(plan, sri.noted, pos', e.gram)
  {
    var g := e.gram;
    pos' := pos;
    match e
    case Blank(_, _, _) =>
      var ext;
      prob, ext := sri.GetBlank(g);
      back := Flagged(0.0, ext);
    case Listed(_) =>
      prob := plan.listed[g];
      if |g| == |plan.counts| {
        back := Flagged(0.0, false);
      } else {
        AllReadOn(plan, pos, seen, g);
        back := plan.levels[|g| - 1][g];
        if Hits(plan, pos, g) {
          back := Extend(back);
          pos' := pos[|g| - 1 := pos[|g| - 1] + 1];
        }
      }
  }

  /** What has been passed over comes before all that is still to be written. */
  ghost predicate Ready(sri: SriSucks, plan: Plan, events: seq<Event>, i: nat)
    reads sri
    requires i <= |events|
  {
    && sri.order == |plan.counts| >= 2 && BlanksOk(plan, events, sri.values, sri.noted)
    && (i < |events| ==> sri.Past(events[i].gram))
  }

  lemma {:induction false} PastLater(sri: SriSucks, g: Gram, h: Gram)
    requires sri.Past(g) && Less(g, h)
    ensures sri.Past(h)
  {
    forall o, x | 0 <= o < |sri.noted| && 0 <= x < sri.at[o]
      ensures Less(sri.noted[o][x], h)
    {
      LessTransitive(sri.noted[o][x], g, h);
    }
  }

  /** What Insert asks of the next n-gram: it comes in pre-order, and there is room for it and its codes. */
  ghost predicate Insertable(counts: seq<nat>, layouts: seq<Layout>, grams: set<Gram>, g: Gram, place: nat,
                             w: Weights) {
    && 1 <= |g| <= |counts| == |layouts|
    && (forall h {:trigger h in grams} :: h in grams ==> Less(h, g))
    && (|g| > 1 ==> g[..|g| - 1] in grams && place < counts[|g| - 1])
    && (|g| > 1 ==> g[|g| - 1] <= counts[0] && CodesFit(layouts[|g| - 1], w))
  }

  lemma {:induction false} NextInsertable(plan: Plan, events: seq<Event>, i: nat, w: Weights)
    requires PlanOk(plan, events) && i < |events|
    requires w.prob < Pow2(plan.codes.probBits) && w.backoff < Pow2(plan.codes.backoffBits)
    ensures var g := events[i].gram;
            && Insertable(plan.counts, plan.layouts, GramsOf(events, i), g, Count(events, i, |g|), w)
            && GramsOf(events, i + 1) == GramsOf(events, i) + {g}
  {
    var g := events[i].gram;
    NextEntry(events, |plan.counts|, i);
    assert Planned(plan, events[i]);
    if |g| > 1 {
      RoomLeft(plan.counts, events, i);
      assert plan.layouts[|g| - 1].probBits == plan.codes.probBits;
    }
  }

  /** Stores one n-gram with its weights. */
  method Store(trie: Trie, plan: Plan, events: seq<Event>, i: nat, weights: Weights)
    requires i < |events| && InTrie(trie, plan, events, i)
    requires Insertable(plan.counts, plan.layouts, GramsOf(events, i), events[i].gram,
                        Count(events, i, |events[i].gram|), weights)
    requires GramsOf(events, i + 1) == GramsOf(events, i) + {events[i].gram}
    modifies trie
    ensures InTrie(trie, plan, events, i + 1)
    ensures trie.stored == old(trie.stored)[events[i].gram := Kept(|plan.counts|, events[i].gram, weights)]
  {
    trie.Insert(events[i].gram, weights);
  }

  /** Stores the next n-gram of the stream. */
  method WriteNext(sri: SriSucks, trie: Trie, plan: Plan, events: seq<Event>, i: nat, pos: seq<nat>)
    returns (pos': seq<nat>)
    requires PlanOk(plan, events) && i < |events| && Ready(sri, plan, events, i)
    requires InTrie(trie, plan, events, i) && AsPlanned(trie.stored, plan, sri.values, sri.noted, pos)
    modifies sri`at, trie
    ensures Ready(sri, plan, events, i + 1)
    ensures InTrie(trie, plan, events, i + 1) && AsPlanned(trie.stored, plan, sri.values, sri.noted, pos')
  {
    var e := events[i];
    NextEntry(events, |plan.counts|, i);
    assert Planned(plan, e);
    ghost var stored := trie.stored;
    var prob, back;
    prob, back, pos' := NextWeights(sri, plan, e, pos, Seen(plan.listed, stored.Keys));
    if i + 1 < |events| {
      assert Less(events[i].gram, events[i + 1].gram);
      PastLater(sri, e.gram, events[i + 1].gram);
    }
    var weights := WeightsOf(plan.codes, prob, back);
    NextInsertable(plan, events, i, weights);
    Store(trie, plan, events, i, weights);
    MoreAsPlanned(stored, plan, sri.values, sri.noted, pos, pos', e);
  }

  lemma {:induction false} MoreAsPlanned(stored: map<Gram, Weights>, plan: Plan, values: Values, noted: seq<seq<Gram>>,
                                        pos: seq<nat>, pos': seq<nat>, e: Event)
    requires ContextFiles(plan.listed, plan.contexts) && AsPlanned(stored, plan, values, noted, pos)
    requires Planned(plan, e) && forall h {:trigger h in stored} :: h in stored ==> Less(h, e.gram)
    requires pos' == if e.Listed? then Advanced(plan, pos, e.gram) else pos
    ensures AsPlanned(stored[e.gram := Stores(plan, values, noted, pos', e.gram)], plan, values, noted, pos')
  {
    var g, seen := e.gram, Seen(plan.listed, stored.Keys);
    var more := stored[g := Stores(plan, values, noted, pos', g)];
    assert more.Keys == stored.Keys + {g};
    LessIrreflexive(g);
    if e.Listed? {
      AllReadOn(plan, pos, seen, g);
      assert Seen(plan.listed, more.Keys) == seen + {g};
      forall h | h in stored
        ensures Stores(plan, values, noted, pos', h) == Stores(plan, values, noted, pos, h)
      {
        SameBack(plan, noted, pos, seen, g, h);
      }
    } else {
      assert Seen(plan.listed, more.Keys) == seen;
    }
  }

  /** WriteEntries: stores every n-gram of the stream, and reads the files of histories as far as they are met. */
  method WriteEntries(sri: SriSucks, plan: Plan, events: seq<Event>) returns (trie: Trie, pos: seq<nat>)
    requires PlanOk(plan, events) && Ready(sri, plan, events, 0)
    modifies sri`at
    ensures fresh(trie) && InTrie(trie, plan, events, |events|)
    ensures AsPlanned(trie.stored, plan, sri.values, sri.noted, pos)
  {
    pos := seq(|plan.contexts|, _ => 0);
    trie := EmptyTrie(plan, events);
    NothingPlanned(plan, sri.values, sri.noted, pos);
    for i := 0 to |events|
      invariant fresh(trie) && Ready(sri, plan, events, i)
      invariant InTrie(trie, plan, events, i) && AsPlanned(trie.stored, plan, sri.values, sri.noted, pos)
    {
      pos := WriteNext(sri, trie, plan, events, i, pos);
    }
  }

  method EmptyTrie(plan: Plan, ghost events: seq<Event>) returns (trie: Trie)
    requires |plan.counts| >= 2 && LayoutsFor(plan.counts, plan.layouts)
    ensures fresh(trie) && InTrie(trie, plan, events, 0) && trie.stored == map[]
  {
    trie := new Trie(plan.counts, plan.layouts);
  }

  lemma {:induction false} NothingPlanned(plan: Plan, values: Values, noted: seq<seq<Gram>>, pos: seq<nat>)
    requires pos == seq(|plan.contexts|, _ => 0)
    ensures AsPlanned(map[], plan, values, noted, pos)
  {
  }

  /** The check behind the second pass: a file of histories that has not been read to its end names a missing one. */
  method ContextsRead(plan: Plan, first: nat, pos: seq<nat>, ghost seen: set<Gram>) returns (ok: bool)
    requires |plan.contexts| >= 1 && first == |plan.contexts[0]| && AllReadTo(plan, pos, seen)
    ensures ok <==> forall o {:trigger pos[o]} :: 1 <= o < |pos| ==> pos[o] == |plan.contexts[o]|
    ensures ok <==> forall o, c {:trigger c in plan.contexts[o]} ::
              1 <= o < |plan.contexts| && c in plan.contexts[o] ==> c in seen
  {
    ok := first == |plan.contexts[0]|;
    for o := 1 to |plan.contexts|
      invariant ok <==> forall x {:trigger pos[x]} :: 1 <= x < o ==> pos[x] == |plan.contexts[x]|
      invariant ok <==> forall x, c {:trigger c in plan.contexts[x]} :: 1 <= x < o && c in plan.contexts[x] ==>
                  c in seen
    {
      AllRead(plan.contexts[o], pos[o], seen);
      ok := ok && pos[o] == |plan.contexts[o]|;
    }
  }
}
