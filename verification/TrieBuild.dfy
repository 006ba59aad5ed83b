/**
 Merging the sorted n-gram files into one pre-order stream for the trie
 (kenlm/lm/search_trie.cc).  What the stream is, and when it is right, is in BlankStream.
 */
module TrieBuild {
  import opened Lexicographic
  import opened BlankStream
  import opened Options

  /** The words recorded: all but the last, and the last too if nothing was missing. */
  ghost predicate Cells(before: seq<nat>, to: Gram, c: nat, after: seq<nat>) {
    && |after| == |before|
    && forall i {:trigger after[i]} :: 0 <= i < |after| ==>
         after[i] == if i < |to| - 1 || (i == |to| - 1 == c) then to[i] else before[i]
  }

  class BlankManager {
    const totalOrder: nat
    const been: array<nat>
    const basis: array<Option<real>>
    var beenLength: nat
    var emitted: seq<Event>

    /** The cells of `been` hold whatever the memory held. */
    constructor (order: nat)
      requires order >= 2
      ensures totalOrder == order && Valid() && fresh(been) && fresh(basis)
      ensures View() == Merge([], seq(order, _ => None), [])
    {
      totalOrder := order;
      been := new nat[order];
      basis := new Option<real>[order](_ => None);
      beenLength, emitted := 0, [];
    }

    ghost predicate Valid()
      reads this, been, basis
    {
      been.Length == basis.Length == totalOrder >= 2 && beenLength <= totalOrder && (beenLength > 0 ==> basis[0].Some?)
    }

    ghost function View(): (s: Merge)
      reads this, been, basis
      requires Valid()
      ensures Started(s, totalOrder)
    {
      Merge(been[..beenLength], basis[..], emitted)
    }

    /**
     Inserts the blanks that lead from the last n-gram to this one.  False stands for the
     exception about a missing unigram.  Where blanks are inserted, the cell of the last word
     keeps what it held.
     */
    method Visit(to: Gram, prob: real) returns (ok: bool)
      requires Valid() && 1 <= |to| <= totalOrder
      modifies this, been, basis
      ensures ok <==> Goes(old(View()), to)
      ensures !ok ==> emitted == old(emitted)
      ensures ok ==> Cells(old(been[..]), to, Overlap(old(View()).been, to), been[..])
      ensures ok ==>
                && Valid()
                && View().(events := emitted + [Listed(to)]) ==
                   Step(old(View()), totalOrder, to, prob, old(been[|to| - 1]))
    {
      var cur := FindOverlap(to);
      if cur == |to| - 1 {
        Recall(to, prob);
        return true;
      }
      ok := cur > 0;
      if ok {
        VisitBlanks(to, prob, cur);
      } else {
        basis[|to| - 1] := Some(prob);
      }
    }

    /** Nothing is missing; the n-gram is recorded. */
    method Recall(to: Gram, prob: real)
      requires Valid() && 1 <= |to| <= totalOrder && Overlap(View().been, to) == |to| - 1
      modifies this, been, basis
      ensures Cells(old(been[..]), to, Overlap(old(View()).been, to), been[..])
      ensures Valid()
              && View().(events := emitted + [Listed(to)]) ==
                   Step(old(View()), totalOrder, to, prob, old(been[|to| - 1]))
    {
      OverlapAgrees(View().been, to);
      ghost var before := basis[..];
      basis[|to| - 1] := Some(prob);
      been[|to| - 1] := to[|to| - 1];
      beenLength := |to|;
      assert been[..beenLength] == to;
      assert basis[..] == Clear(before[|to| - 1 := Some(prob)], |to| - 1, |to| - 1);
    }

    /** There are blanks to insert above the overlap `cur`. */
    method VisitBlanks(to: Gram, prob: real, cur: nat)
      requires Valid() && 1 <= |to| <= totalOrder && 0 < cur == Overlap(View().been, to) < |to| - 1
      modifies this, been, basis
      ensures Cells(old(been[..]), to, Overlap(old(View()).been, to), been[..])
      ensures Valid()
              && View().(events := emitted + [Listed(to)]) ==
                   Step(old(View()), totalOrder, to, prob, old(been[|to| - 1]))
    {
      ghost var s, cells := View(), been[..];
      basis[|to| - 1] := Some(prob);
      var lower := FindBasis(cur);
      LastSetSame(s.basis, basis[..], cur);
      InsertBlanks(to, cur, lower);
      beenLength := |to|;
      BlanksAreStep(s, totalOrder, to, prob, cells, been[..], basis[..], emitted);
    }

    /** One round of the merge: visit the next n-gram, then report it. */
    method Process(to: Gram, prob: real, ghost listed: Listing, ghost visits: seq<Gram>, ghost lost: seq<nat>)
      returns (ok: bool, ghost x: nat)
      requires Valid() && Walk(listed, totalOrder, visits) && |lost| == |visits|
               && View() == Stream(listed, totalOrder, visits, lost)
      requires 1 <= |to| <= totalOrder && Adjacent(listed, Previous(visits, |visits|), to) && to[..1] in listed
               && listed[to] == prob
      modifies this, been, basis
      ensures ok && Valid() && Walk(listed, totalOrder, visits + [to])
      ensures x == old(been[|to| - 1]) && Cells(old(been[..]), to, Overlap(old(View()).been, to), been[..])
      ensures View() == Stream(listed, totalOrder, visits + [to], lost + [x])
    {
      GoesOn(listed, Previous(visits, |visits|), View(), to);
      WalkOn(listed, totalOrder, visits, lost, to, been[|to| - 1]);
      x := been[|to| - 1];
      ok := Visit(to, prob);
      emitted := emitted + [Listed(to)];
    }

    /** The first loop of Visit. */
    method FindOverlap(to: Gram) returns (cur: nat)
      requires Valid() && 1 <= |to| <= totalOrder
      ensures cur == Overlap(been[..beenLength], to)
    {
      var overlap := Min(|to| - 1, beenLength);
      cur := 0;
      while cur < overlap && been[cur] == to[cur]
        invariant 0 <= cur <= overlap
        invariant forall i {:trigger been[i]} :: 0 <= i < cur ==> been[i] == to[i]
      {
        cur := cur + 1;
      }
      CommonIs(been[..beenLength], to, overlap, cur);
    }

    /** The second loop of Visit: the longest length within the overlap that is no blank. */
    method FindBasis(c: nat) returns (lower: nat)
      requires 1 <= c <= basis.Length && basis[0].Some?
      ensures lower == LastSet(basis[..], c)
    {
      lower := c - 1;
      while basis[lower] == None
        invariant 0 <= lower < c && forall j {:trigger basis[j]} :: lower < j < c ==> basis[j].None?
        decreases lower
      {
        lower := lower - 1;
      }
      LastSetIs(basis[..], c, lower);
    }

    /** The last loop of Visit: blanks above the overlap `c`, based on index `lower`. */
    method InsertBlanks(to: Gram, c: nat, lower: nat)
      requires been.Length == basis.Length == totalOrder && lower < c < |to| <= totalOrder && basis[lower].Some?
      modifies `emitted, been, basis
      ensures emitted == old(emitted) + Blanks(to, c, |to|, lower + 1, old(basis[lower].value))
      ensures basis[..] == Clear(old(basis[..]), c, |to| - 1)
      ensures forall i {:trigger been[i]} :: 0 <= i < been.Length ==>
                been[i] == if c <= i < |to| - 1 then to[i] else old(been[i])
    {
      var cur := c;
      while cur != |to| - 1
        invariant c <= cur < |to|
        invariant emitted == old(emitted) + Blanks(to, c, cur + 1, lower + 1, old(basis[lower].value))
        invariant basis[..] == Clear(old(basis[..]), c, cur)
        invariant forall i {:trigger been[i]} :: 0 <= i < been.Length ==>
                    been[i] == if c <= i < cur then to[i] else old(been[i])
      {
        emitted := emitted + [Blank(to[..cur + 1], lower + 1, basis[lower].value)];
        been[cur] := to[cur];
        // Mark that the probability is a blank.
        basis[cur] := None;
        cur := cur + 1;
      }
    }
  }

  lemma {:induction false} BlanksAreStep(s: Merge, order: nat, to: Gram, prob: real, cells: seq<nat>,
                                         been: seq<nat>, basis: seq<Option<real>>, emitted: seq<Event>)
    requires to != [] && Started(s, order) && 0 < Overlap(s.been, to) < |to| - 1
             && |to| <= order == |cells| == |been| && s.been == cells[..|s.been|]
    requires forall i {:trigger been[i]} :: 0 <= i < |been| ==>
               been[i] == if Overlap(s.been, to) <= i < |to| - 1 then to[i] else cells[i]
    requires basis == Clear(s.basis[|to| - 1 := Some(prob)], Overlap(s.been, to), |to| - 1)
    requires var i := LastSet(s.basis, Overlap(s.been, to));
             emitted == s.events + Blanks(to, Overlap(s.been, to), |to|, i + 1, s.basis[i].value)
    ensures Merge(been[..|to|], basis, emitted + [Listed(to)]) == Step(s, order, to, prob, cells[|to| - 1])
    ensures Cells(cells, to, Overlap(s.been, to), been)
  {
    OverlapAgrees(s.been, to);
    assert forall i {:trigger cells[i]} :: 0 <= i < |s.been| ==> cells[i] == s.been[i];
    assert been[..|to|] == to[..|to| - 1] + [cells[|to| - 1]];
    var i := LastSet(s.basis, Overlap(s.been, to));
    Appending(s.events, Blanks(to, Overlap(s.been, to), |to|, i + 1, s.basis[i].value), Listed(to));
  }

  lemma {:induction false} Appending(a: seq<Event>, b: seq<Event>, e: Event)
    ensures a + b + [e] == a + (b + [e])
  {
  }

  lemma {:induction false} LastSetSame(a: seq<Option<real>>, b: seq<Option<real>>, c: nat)
    requires 0 < c <= |a| && c <= |b| && a[0].Some? && a[..c] == b[..c]
    ensures LastSet(a, c) == LastSet(b, c) && a[LastSet(a, c)] == b[LastSet(a, c)]
  {
    assert forall i {:trigger a[i]} {:trigger b[i]} :: 0 <= i < c ==> a[..c][i] == a[i] && b[..c][i] == b[i];
    LastSetIs(b, c, LastSet(a, c));
  }

  lemma {:induction false} LastSetIs(basis: seq<Option<real>>, c: nat, i: nat)
    requires i < c <= |basis| && basis[0].Some? && basis[i].Some?
    requires forall j {:trigger basis[j]} :: i < j < c ==> basis[j].None?
    ensures LastSet(basis, c) == i
  {
  }

  // ---------------------------------------------------------------- the merge

  datatype Record = Record(gram: Gram, prob: real)

  /** The sorted files together list exactly `listed`; `unigrams` is one longer than the vocabulary. */
  ghost predicate Files(listed: Listing, unigrams: seq<real>, inputs: seq<seq<Record>>) {
    && 1 <= |inputs| && 1 <= |unigrams|
    && (forall w {:trigger UnigramOk(listed, unigrams, w)} :: 0 <= w < |unigrams| ==> UnigramOk(listed, unigrams, w))
    && (forall o {:trigger SortedInput(listed, unigrams, inputs, o)} :: 0 <= o < |inputs| ==>
         SortedInput(listed, unigrams, inputs, o))
    && (forall g {:trigger FromFile(unigrams, inputs, g)} :: g in listed ==> FromFile(unigrams, inputs, g))
  }

  predicate UnigramOk(listed: Listing, unigrams: seq<real>, w: int) {
    0 <= w < |unigrams| && [w] in listed && listed[[w]] == unigrams[w]
  }

  ghost predicate SortedInput(listed: Listing, unigrams: seq<real>, inputs: seq<seq<Record>>, o: int) {
    0 <= o < |inputs| && unigrams != [] && SortedFile(listed, o + 2, inputs[o], |unigrams| - 1)
  }

  ghost predicate SortedFile(listed: Listing, order: nat, file: seq<Record>, vocabulary: nat) {
    && (forall j {:trigger file[j]} :: 0 <= j < |file| ==> RecordOk(listed, order, file[j], vocabulary))
    && (forall j, k {:trigger Less(file[j].gram, file[k].gram)} :: 0 <= j < k < |file| ==>
         Less(file[j].gram, file[k].gram))
  }

  ghost predicate RecordOk(listed: Listing, order: nat, r: Record, vocabulary: nat) {
    |r.gram| == order && order > 0 && r.gram[0] < vocabulary && r.gram in listed && listed[r.gram] == r.prob
  }

  ghost predicate FromFile(unigrams: seq<real>, inputs: seq<seq<Record>>, g: Gram) {
    if |g| == 1 then g[0] < |unigrams|
    else 2 <= |g| <= |inputs| + 1 && Holds(inputs[|g| - 2], g)
  }

  ghost predicate Holds(file: seq<Record>, g: Gram) {
    exists j {:trigger file[j]} :: 0 <= j < |file| && file[j].gram == g
  }

  /** Which records have been read: exactly those not after `last`. */
  ghost predicate Position(unigrams: seq<real>, inputs: seq<seq<Record>>, unigram: nat, pos: seq<nat>, last: Gram) {
    && |pos| == |inputs|
    && (forall w {:trigger After(last, [w])} :: 0 <= w < |unigrams| ==> (unigram <= w <==> After(last, [w])))
    && (forall o {:trigger InputAt(inputs, pos, o, last)} :: 0 <= o < |inputs| ==> InputAt(inputs, pos, o, last))
  }

  ghost predicate InputAt(inputs: seq<seq<Record>>, pos: seq<nat>, o: int, last: Gram) {
    0 <= o < |inputs| && o < |pos| && FileAt(inputs[o], pos[o], last)
  }

  predicate After(last: Gram, g: Gram) {
    last == [] || Less(last, g)
  }

  ghost predicate FileAt(file: seq<Record>, pos: nat, last: Gram) {
    && pos <= |file|
    && forall j {:trigger file[j]} :: 0 <= j < |file| ==> (pos <= j <==> After(last, file[j].gram))
  }

  /** The n-gram at the front of one input: the next unigram, or the next record of one order. */
  function Front(inputs: seq<seq<Record>>, pos: seq<nat>, unigram: nat, order: nat): Gram
    requires |pos| == |inputs| && 1 <= order <= |inputs| + 1
    requires order > 1 ==> pos[order - 2] < |inputs[order - 2]|
  {
    if order == 1 then [unigram] else inputs[order - 2][pos[order - 2]].gram
  }

  function FrontProb(unigrams: seq<real>, inputs: seq<seq<Record>>, pos: seq<nat>, unigram: nat, order: nat): real
    requires |pos| == |inputs| && 1 <= order <= |inputs| + 1 && unigram < |unigrams|
    requires order > 1 ==> pos[order - 2] < |inputs[order - 2]|
  {
    if order == 1 then unigrams[unigram] else inputs[order - 2][pos[order - 2]].prob
  }

  /** The top of the priority queue: the least of the fronts. */
  method Top(inputs: seq<seq<Record>>, pos: seq<nat>, unigram: nat) returns (order: nat)
    requires |pos| == |inputs|
    ensures LeastFront(inputs, pos, unigram, order)
  {
    order := 1;
    for o := 0 to |inputs|
      invariant 1 <= order <= o + 1
      invariant order > 1 ==> pos[order - 2] < |inputs[order - 2]|
      invariant Le(Front(inputs, pos, unigram, order), [unigram])
      invariant forall q :: 0 <= q < o && pos[q] < |inputs[q]| ==>
                  Le(Front(inputs, pos, unigram, order), inputs[q][pos[q]].gram)
    {
      if pos[o] < |inputs[o]| {
        ghost var best := Front(inputs, pos, unigram, order);
        var head := inputs[o][pos[o]].gram;
        LessTotal(best, head);
        if Less(head, Front(inputs, pos, unigram, order)) {
          order := o + 2;
          forall q | 0 <= q < o && pos[q] < |inputs[q]|
            ensures Le(head, inputs[q][pos[q]].gram)
          {
            if best != inputs[q][pos[q]].gram {
              LessTransitive(head, best, inputs[q][pos[q]].gram);
            }
          }
          if best != [unigram] {
            LessTransitive(head, best, [unigram]);
          }
        }
      }
    }
  }

  /** The least front is the next listed n-gram after `last`. */
  lemma {:induction false} FrontIsNext(listed: Listing, unigrams: seq<real>, inputs: seq<seq<Record>>,
                                       unigram: nat, pos: seq<nat>, last: Gram, order: nat)
    requires Files(listed, unigrams, inputs) && Position(unigrams, inputs, unigram, pos, last)
    requires unigram < |unigrams| && (last != [] ==> last in listed) && LeastFront(inputs, pos, unigram, order)
    ensures var to := Front(inputs, pos, unigram, order);
            && |to| == order && Adjacent(listed, last, to) && to[..1] in listed
            && listed[to] == FrontProb(unigrams, inputs, pos, unigram, order)
  {
    var to := Front(inputs, pos, unigram, order);
    if order > 1 {
      assert SortedInput(listed, unigrams, inputs, order - 2);
      assert InputAt(inputs, pos, order - 2, last);
      assert RecordOk(listed, order, inputs[order - 2][pos[order - 2]], |unigrams| - 1);
    } else {
      assert After(last, [unigram]);
    }
    assert UnigramOk(listed, unigrams, to[0]) && to[..1] == [to[0]];
    forall l | l in listed
      ensures !Skips(last, to, l)
    {
      if Skips(last, to, l) {
        LessAsymmetric(l, to);
        PendingNotBefore(listed, unigrams, inputs, unigram, pos, last, to, l);
      }
    }
  }

  lemma {:induction false} PendingNotBefore(listed: Listing, unigrams: seq<real>, inputs: seq<seq<Record>>,
                                            unigram: nat, pos: seq<nat>, last: Gram, to: Gram, l: Gram)
    requires Files(listed, unigrams, inputs) && Position(unigrams, inputs, unigram, pos, last)
    requires l in listed && After(last, l) && Le(to, [unigram])
    requires forall o :: 0 <= o < |inputs| && pos[o] < |inputs[o]| ==> Le(to, inputs[o][pos[o]].gram)
    ensures Le(to, l)
  {
    assert FromFile(unigrams, inputs, l);
    if |l| == 1 {
      assert l == [l[0]];
      if l[0] > unigram {
        FirstDifference([unigram], l, 0);
        if to != [unigram] { LessTransitive(to, [unigram], l); }
      }
    } else {
      var o := |l| - 2;
      var j :| 0 <= j < |inputs[o]| && inputs[o][j].gram == l;
      assert SortedInput(listed, unigrams, inputs, o) && InputAt(inputs, pos, o, last);
      var head := inputs[o][pos[o]].gram;
      if pos[o] < j && to != head {
        LessTransitive(to, head, l);
      }
    }
  }

  /** Reading the front moves the position past it. */
  lemma {:induction false} Advance(listed: Listing, unigrams: seq<real>, inputs: seq<seq<Record>>,
                                   unigram: nat, pos: seq<nat>, last: Gram, order: nat)
    requires Files(listed, unigrams, inputs) && Position(unigrams, inputs, unigram, pos, last)
    requires unigram < |unigrams|
    requires 1 <= order <= |inputs| + 1 && (order > 1 ==> pos[order - 2] < |inputs[order - 2]|)
    requires Adjacent(listed, last, Front(inputs, pos, unigram, order)) && |Front(inputs, pos, unigram, order)| == order
    ensures Position(unigrams, inputs, if order == 1 then unigram + 1 else unigram,
                     if order == 1 then pos else pos[order - 2 := pos[order - 2] + 1],
                     Front(inputs, pos, unigram, order))
  {
    var to := Front(inputs, pos, unigram, order);
    var unigram' := if order == 1 then unigram + 1 else unigram;
    var pos' := if order == 1 then pos else pos[order - 2 := pos[order - 2] + 1];
    forall w | 0 <= w < |unigrams|
      ensures unigram' <= w <==> After(to, [w])
    {
      assert UnigramOk(listed, unigrams, w) && (unigram <= w <==> After(last, [w]));
      Moves(listed, last, to, [w]);
      assert to == [w] ==> order == 1 && w == unigram;
    }
    forall o | 0 <= o < |inputs|
      ensures InputAt(inputs, pos', o, to)
    {
      assert SortedInput(listed, unigrams, inputs, o) && InputAt(inputs, pos, o, last);
      forall j | 0 <= j < |inputs[o]|
        ensures pos'[o] <= j <==> After(to, inputs[o][j].gram)
      {
        assert RecordOk(listed, o + 2, inputs[o][j], |unigrams| - 1);
        Moves(listed, last, to, inputs[o][j].gram);
        LessIrreflexive(to);
      }
    }
  }

  lemma {:induction false} Moves(listed: Listing, last: Gram, to: Gram, g: Gram)
    requires Adjacent(listed, last, to) && g in listed
    ensures After(to, g) <==> After(last, g) && g != to
  {
    assert !Skips(last, to, g);
    LessTotal(to, g);
    LessIrreflexive(to);
    if After(to, g) && last != [] {
      LessTransitive(last, to, g);
    }
    if Less(g, to) {
      LessAsymmetric(g, to);
    }
  }

  ghost function Rest(listed: Listing, last: Gram): set<Gram> {
    set g | g in listed && After(last, g)
  }

  lemma {:induction false} WalkOn(listed: Listing, order: nat, visits: seq<Gram>, lost: seq<nat>, to: Gram, x: nat)
    requires Walk(listed, order, visits) && |lost| == |visits| && |to| <= order
    requires Adjacent(listed, Previous(visits, |visits|), to) && to[..1] in listed
    ensures Walk(listed, order, visits + [to]) && Goes(Stream(listed, order, visits, lost), to)
    ensures Stream(listed, order, visits + [to], lost + [x]) ==
              Step(Stream(listed, order, visits, lost), order, to, listed[to], x)
  {
    var longer := visits + [to];
    forall k: nat | k < |longer|
      ensures VisitOk(listed, order, longer, k)
    {
      assert Previous(longer, k) == Previous(visits, k);
      assert k < |visits| ==> longer[k] == visits[k] && VisitOk(listed, order, visits, k);
    }
    assert longer[..|visits|] == visits && (lost + [x])[..|visits|] == lost;
    GoesOn(listed, Previous(visits, |visits|), Stream(listed, order, visits, lost), to);
  }

  /** Nothing is listed after the last unigram. */
  lemma {:induction false} LastIsLast(listed: Listing, unigrams: seq<real>, inputs: seq<seq<Record>>, visits: seq<Gram>)
    requires Files(listed, unigrams, inputs) && Previous(visits, |visits|) == [|unigrams| - 1]
    ensures Complete(listed, visits)
  {
    forall l {:trigger l in listed} | l in listed
      ensures Le(l, [|unigrams| - 1])
    {
      NotBeyond(listed, unigrams, inputs, l);
    }
  }

  lemma {:induction false} NotBeyond(listed: Listing, unigrams: seq<real>, inputs: seq<seq<Record>>, l: Gram)
    requires Files(listed, unigrams, inputs) && l in listed
    ensures Le(l, [|unigrams| - 1])
  {
    var u := [|unigrams| - 1];
    assert FromFile(unigrams, inputs, l);
    if |l| > 1 {
      var j :| 0 <= j < |inputs[|l| - 2]| && inputs[|l| - 2][j].gram == l;
      assert SortedInput(listed, unigrams, inputs, |l| - 2);
    }
    if l[0] < u[0] {
      FirstDifference(l, u, 0);
    }
  }

  lemma {:induction false} RestShrinks(listed: Listing, last: Gram, to: Gram)
    requires Adjacent(listed, last, to)
    ensures Rest(listed, to) < Rest(listed, last)
  {
    forall g | g in Rest(listed, to)
      ensures g in Rest(listed, last)
    {
      Moves(listed, last, to, g);
    }
    LessIrreflexive(to);
    assert to in Rest(listed, last) && to !in Rest(listed, to);
  }

  /**
   Merges the sorted files.  It visits every listed n-gram in order and never misses a
   unigram.  The stream is right, that is, strictly increasing, of exactly the listed n-grams
   and their prefixes, and with every blank on its longest listed prefix, exactly if no visit
   is misled by a cell that was not recorded.
   */
  method RecursiveInsert(unigrams: seq<real>, inputs: seq<seq<Record>>, ghost listed: Listing)
    returns (ok: bool, events: seq<Event>, ghost visits: seq<Gram>, ghost lost: seq<nat>)
    requires Files(listed, unigrams, inputs)
    ensures ok && Walk(listed, |inputs| + 1, visits) && Complete(listed, visits) && |lost| == |visits|
    ensures events == Stream(listed, |inputs| + 1, visits, lost).events
    ensures Right(listed, events) <==> NeverMisled(listed, visits, lost)
    ensures LossHarmless(listed) ==> Right(listed, events)
  {
    ok, events, visits, lost := MergeFiles(unigrams, inputs, listed);
    LastIsLast(listed, unigrams, inputs, visits);
    HarmlessIsRight(listed, |inputs| + 1, visits, lost);
  }

  method MergeFiles(unigrams: seq<real>, inputs: seq<seq<Record>>, ghost listed: Listing)
    returns (ok: bool, events: seq<Event>, ghost visits: seq<Gram>, ghost lost: seq<nat>)
    requires Files(listed, unigrams, inputs)
    ensures ok && Walk(listed, |inputs| + 1, visits) && |lost| == |visits|
    ensures events == Stream(listed, |inputs| + 1, visits, lost).events
    ensures Previous(visits, |visits|) == [|unigrams| - 1]
  {
    var blank := new BlankManager(|inputs| + 1);
    var unigram: nat, pos: seq<nat> := 0, seq(|inputs|, _ => 0);
    visits, lost := [], [];
    ok := true;
    var done := false;
    while !done
      invariant fresh(blank) && fresh(blank.been) && fresh(blank.basis) && blank.totalOrder == |inputs| + 1
      invariant ok && Merged(blank, listed, visits, lost)
      invariant if done then Previous(visits, |visits|) == [|unigrams| - 1]
                else 0 <= unigram < |unigrams| && Position(unigrams, inputs, unigram, pos, Previous(visits, |visits|))
      decreases !done, Rest(listed, Previous(visits, |visits|))
    {
      ok, unigram, pos, done, visits, lost := Round(blank, unigrams, inputs, unigram, pos, listed, visits, lost);
    }
    events := blank.emitted;
  }

  ghost predicate LeastFront(inputs: seq<seq<Record>>, pos: seq<nat>, unigram: nat, order: nat) {
    && |pos| == |inputs| && 1 <= order <= |inputs| + 1 && (order > 1 ==> pos[order - 2] < |inputs[order - 2]|)
    && Le(Front(inputs, pos, unigram, order), [unigram])
    && forall o {:trigger inputs[o]} :: 0 <= o < |inputs| && pos[o] < |inputs[o]| ==>
         Le(Front(inputs, pos, unigram, order), inputs[o][pos[o]].gram)
  }

  /** Visits the least front, and reads on; the last unigram ends the merge. */
  method Round(blank: BlankManager, unigrams: seq<real>, inputs: seq<seq<Record>>, unigram: nat, pos: seq<nat>,
               ghost listed: Listing, ghost visits: seq<Gram>, ghost lost: seq<nat>)
    returns (ok: bool, unigram': nat, pos': seq<nat>, done: bool, ghost visits': seq<Gram>, ghost lost': seq<nat>)
    requires Files(listed, unigrams, inputs) && unigram < |unigrams| && blank.totalOrder == |inputs| + 1
    requires Position(unigrams, inputs, unigram, pos, Previous(visits, |visits|)) && Merged(blank, listed, visits, lost)
    modifies blank, blank.been, blank.basis
    ensures ok && Merged(blank, listed, visits', lost')
    ensures if done then Previous(visits', |visits'|) == [|unigrams| - 1]
            else unigram' < |unigrams| && Position(unigrams, inputs, unigram', pos', Previous(visits', |visits'|))
    ensures Rest(listed, Previous(visits', |visits'|)) < Rest(listed, Previous(visits, |visits|))
  {
    ghost var last := Previous(visits, |visits|);
    PreviousListed(listed, blank.totalOrder, visits);
    var to, prob;
    to, prob, unigram', pos', done := ReadFront(unigrams, inputs, unigram, pos, listed, last);
    ghost var x;
    ok, x := blank.Process(to, prob, listed, visits, lost);
    visits', lost' := visits + [to], lost + [x];
  }

  /** Takes the least front off its input. */
  method ReadFront(unigrams: seq<real>, inputs: seq<seq<Record>>, unigram: nat, pos: seq<nat>, ghost listed: Listing,
                   ghost last: Gram)
    returns (to: Gram, prob: real, unigram': nat, pos': seq<nat>, done: bool)
    requires Files(listed, unigrams, inputs) && unigram < |unigrams| && Position(unigrams, inputs, unigram, pos, last)
    requires last != [] ==> last in listed
    ensures 1 <= |to| <= |inputs| + 1 && Adjacent(listed, last, to) && to[..1] in listed && listed[to] == prob
    ensures Rest(listed, to) < Rest(listed, last)
    ensures if done then to == [|unigrams| - 1]
            else unigram' < |unigrams| && Position(unigrams, inputs, unigram', pos', to)
  {
    var order := Top(inputs, pos, unigram);
    RoundReady(listed, unigrams, inputs, unigram, pos, last, order);
    to, prob := Front(inputs, pos, unigram, order), FrontProb(unigrams, inputs, pos, unigram, order);
    unigram', pos', done := unigram, pos, false;
    if order == 1 {
      unigram' := unigram + 1;
      done := unigram' == |unigrams|;
    } else {
      pos' := pos[order - 2 := pos[order - 2] + 1];
    }
  }

  lemma {:induction false} PreviousListed(listed: Listing, order: nat, visits: seq<Gram>)
    requires Walk(listed, order, visits)
    ensures Previous(visits, |visits|) != [] ==> Previous(visits, |visits|) in listed
  {
    assert visits != [] ==> VisitOk(listed, order, visits, |visits| - 1);
  }

  /** The least front is the next n-gram, and reading it moves on. */
  lemma {:induction false} RoundReady(listed: Listing, unigrams: seq<real>, inputs: seq<seq<Record>>,
                                      unigram: nat, pos: seq<nat>, last: Gram, order: nat)
    requires Files(listed, unigrams, inputs) && Position(unigrams, inputs, unigram, pos, last)
    requires unigram < |unigrams| && (last != [] ==> last in listed) && LeastFront(inputs, pos, unigram, order)
    ensures var to := Front(inputs, pos, unigram, order);
            && |to| == order && Adjacent(listed, last, to) && to[..1] in listed
            && listed[to] == FrontProb(unigrams, inputs, pos, unigram, order)
            && Rest(listed, to) < Rest(listed, last)
            && Position(unigrams, inputs, if order == 1 then unigram + 1 else unigram,
                        if order == 1 then pos else pos[order - 2 := pos[order - 2] + 1], to)
  {
    FrontIsNext(listed, unigrams, inputs, unigram, pos, last, order);
    Advance(listed, unigrams, inputs, unigram, pos, last, order);
    RestShrinks(listed, last, Front(inputs, pos, unigram, order));
  }

  ghost predicate Merged(blank: BlankManager, listed: Listing, visits: seq<Gram>, lost: seq<nat>)
    reads blank, blank.been, blank.basis
  {
    && blank.Valid() && Walk(listed, blank.totalOrder, visits) && |lost| == |visits|
    && blank.View() == Stream(listed, blank.totalOrder, visits, lost)
  }

  // ---------------------------------------------------------------- an input that goes wrong

  /** Order 4, with the trigram "0 1 1" and the 4-gram "0 1 1 0" but without the bigram "0 1". */
  const GAPPED: seq<Gram> := [[0], [0, 0], [0, 0, 0], [0, 1, 1], [0, 1, 1, 0], [1]]

  ghost function GappedListing(): Listing {
    map g | g in GAPPED :: -1.0
  }

  lemma {:induction false} GappedSorted()
    ensures forall k: nat {:trigger GAPPED[k]} :: 0 < k < 6 ==> Less(GAPPED[k - 1], GAPPED[k])
  {
    FirstDifference([0], [0, 0], 1);
    FirstDifference([0, 0], [0, 0, 0], 2);
    FirstDifference([0, 0, 0], [0, 1, 1], 1);
    FirstDifference([0, 1, 1], [0, 1, 1, 0], 3);
    FirstDifference([0, 1, 1, 0], [1], 0);
  }

  lemma {:induction false} GappedLess(i: nat, j: nat)
    requires i < j < 6
    ensures Less(GAPPED[i], GAPPED[j])
    decreases j
  {
    GappedSorted();
    assert Less(GAPPED[j - 1], GAPPED[j]);
    if i < j - 1 {
      GappedLess(i, j - 1);
      LessTransitive(GAPPED[i], GAPPED[j - 1], GAPPED[j]);
    }
  }

  lemma {:induction false} GappedAdjacent(k: nat)
    requires k < 6
    ensures VisitOk(GappedListing(), 4, GAPPED, k)
  {
    var listed, last, to := GappedListing(), Previous(GAPPED, k), GAPPED[k];
    if k > 0 {
      GappedLess(k - 1, k);
    }
    forall l {:trigger Skips(last, to, l)} | l in listed
      ensures !Skips(last, to, l)
    {
      var i :| 0 <= i < 6 && GAPPED[i] == l;
      NotBetween(i, k);
    }
    assert to[..1] == [to[0]] && (to[..1] == GAPPED[0] || to[..1] == GAPPED[5]);
  }

  lemma {:induction false} NotBetween(i: nat, k: nat)
    requires i < 6 && k < 6
    ensures !Skips(Previous(GAPPED, k), GAPPED[k], GAPPED[i])
  {
    LessIrreflexive(GAPPED[i]);
    if i > k {
      GappedLess(k, i);
      LessAsymmetric(GAPPED[k], GAPPED[i]);
    } else if i + 1 < k {
      GappedLess(i, k - 1);
      LessAsymmetric(GAPPED[i], GAPPED[k - 1]);
    }
  }

  /** The trigram gets lost, and the 4-gram is compared with it. */
  lemma {:induction false} GappedMisled(x: nat)
    requires x != 1
    ensures Misled(GappedListing(), [0, 1, 1], [0, 1, 1, 0], x)
  {
    var listed, g := GappedListing(), [0, 1, 1];
    var p := g[..2];
    assert p == [0, 1];
    forall l {:trigger Before(g, l)} | l in listed && Before(g, l)
      ensures !Prefix(p, l)
    {
      var i :| 0 <= i < 6 && GAPPED[i] == l;
      assert g == GAPPED[3];
      AfterThird(i);
    }
    assert [0, 1, 1, 0][..2] == p;
  }

  lemma {:induction false} AfterThird(i: nat)
    requires i < 6 && Less(GAPPED[i], GAPPED[3])
    ensures !Prefix([0, 1], GAPPED[i])
  {
    LessIrreflexive(GAPPED[3]);
    if i > 3 {
      GappedLess(3, i);
      LessAsymmetric(GAPPED[3], GAPPED[i]);
    }
    assert i < 3 ==> |GAPPED[i]| < 2 || GAPPED[i][1] != [0, 1][1];
  }

  lemma {:induction false} GappedOverlap(k: nat)
    requires k < 3
    ensures Overlap(Previous(GAPPED, k), GAPPED[k]) == |GAPPED[k]| - 1
  {
    OverlapAgrees(Previous(GAPPED, k), GAPPED[k]);
  }

  lemma {:induction false} AllRecorded(before: seq<nat>, to: Gram, after: seq<nat>)
    requires to != [] && |to| <= |before| && Cells(before, to, |to| - 1, after)
    ensures after[..|to|] == to
  {
  }

  /** Nothing is missing in the first three, and the third leaves a 0 in the cell of the third word. */
  ghost predicate Gapped(blank: BlankManager, k: nat, visits: seq<Gram>, lost: seq<nat>)
    reads blank, blank.been, blank.basis
  {
    && k <= 6 && blank.totalOrder == 4 && Merged(blank, GappedListing(), visits, lost) && visits == GAPPED[..k]
    && (k <= 3 ==> blank.View().been == Previous(GAPPED, k))
    && (k > 3 ==> lost[3] == 0)
  }

  method GappedRound(blank: BlankManager, k: nat, ghost visits: seq<Gram>, ghost lost: seq<nat>)
    returns (ghost visits': seq<Gram>, ghost lost': seq<nat>)
    requires k < 6 && Gapped(blank, k, visits, lost)
    modifies blank, blank.been, blank.basis
    ensures Gapped(blank, k + 1, visits', lost')
  {
    GappedAdjacent(k);
    GappedPrefix(k);
    ghost var cells, s := blank.been[..], blank.View();
    Shown(blank);
    var ok;
    ghost var x;
    ok, x := blank.Process(GAPPED[k], -1.0, GappedListing(), visits, lost);
    Shown(blank);
    GappedNext(k, lost, x, cells, |s.been|, blank.been[..]);
    visits', lost' := visits + [GAPPED[k]], lost + [x];
  }

  lemma {:induction false} Shown(blank: BlankManager)
    requires blank.Valid()
    ensures |blank.View().been| <= |blank.been[..]| && blank.been[..][..|blank.View().been|] == blank.View().been
  {
  }

  lemma {:induction false} GappedPrefix(k: nat)
    requires k < 6
    ensures GAPPED[..k] + [GAPPED[k]] == GAPPED[..k + 1] && Previous(GAPPED[..k], k) == Previous(GAPPED, k)
  {
  }

  lemma {:induction false} GappedNext(k: nat, lost: seq<nat>, x: nat, before: seq<nat>, n: nat, after: seq<nat>)
    requires k < 6 && |lost| == k && n <= |before| == |after| == 4 && x == before[|GAPPED[k]| - 1]
    requires k <= 3 ==> before[..n] == Previous(GAPPED, k)
    requires Cells(before, GAPPED[k], Overlap(before[..n], GAPPED[k]), after) && (k > 3 ==> lost[3] == 0)
    ensures k < 3 ==> after[..|GAPPED[k]|] == GAPPED[k]
    ensures k >= 3 ==> (lost + [x])[3] == 0
  {
    if k < 3 {
      GappedOverlap(k);
      AllRecorded(before, GAPPED[k], after);
    } else if k == 3 {
      assert before[..n][2] == 0;
    }
  }

  /** The merge runs over these six n-grams, finds a 0 for the lost 1, and the stream is wrong. */
  method LosesTrack() returns (events: seq<Event>)
    ensures !Right(GappedListing(), events)
  {
    var blank := new BlankManager(4);
    ghost var visits: seq<Gram>, lost: seq<nat> := [], [];
    assert GAPPED[..0] == [];
    for k := 0 to 6
      invariant fresh(blank) && fresh(blank.been) && fresh(blank.basis)
      invariant Gapped(blank, k, visits, lost)
    {
      visits, lost := GappedRound(blank, k, visits, lost);
    }
    events := blank.emitted;
    GappedEnds(blank, visits, lost);
  }

  lemma {:induction false} GappedEnds(blank: BlankManager, visits: seq<Gram>, lost: seq<nat>)
    requires Gapped(blank, 6, visits, lost)
    ensures !Right(GappedListing(), blank.emitted)
  {
    assert visits == GAPPED;
    GappedWrong(visits, lost);
    assert blank.View().events == blank.emitted;
  }

  lemma {:induction false} GappedWrong(visits: seq<Gram>, lost: seq<nat>)
    requires visits == GAPPED && |lost| == 6 && lost[3] == 0 && Walk(GappedListing(), 4, visits)
    ensures !Right(GappedListing(), Stream(GappedListing(), 4, visits, lost).events)
  {
    GappedMisled(0);
    assert MisledAt(GappedListing(), visits, lost, 4);
    MisledSpoils(GappedListing(), 4, visits, lost, 4);
    SpoiledIsWrong(GappedListing(), Stream(GappedListing(), 4, visits, lost).events);
  }
}
