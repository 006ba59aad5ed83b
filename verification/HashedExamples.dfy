/**
 Small files on which the loader of kenlm/lm/search_hashed.cc does not do what one would
 like: a blank that would be positive, a zero unigram that starts nothing, and a blank too
 many for its probing table.  The tables have the default size.
 */
module HashedExamples {
  import opened GramSets
  import opened NGram
  import opened HashedLoad
  import Probing

  /** The default of Config::probing_multiplier. */
  const MULTIPLIER := 1.5

  // The words of the files.
  const X: Word := 0
  const Y: Word := 1
  const Z: Word := 2

  /** "y" has a positive backoff, and "y x" is missing below "z y x"; the other bigrams make room for it. */
  function PositiveFile(): seq<seq<Line>> {
    [[Line([X], -1.0, 0.0), Line([Y], -1.0, 2.0), Line([Z], -1.0, 0.0)],
     [Line([Y, Z], -1.0, 0.0), Line([Z, X], -1.0, 0.0), Line([Z, Y], -1.0, 0.0), Line([Z, Z], -1.0, 0.0)],
     [Line([X, Y, Z], -1.0, 0.0)]]
  }

  function PositiveListed(): Model {
    Model(3, map[[X] := Entry(-1.0, 0.0, false, false),
                 [Y] := Entry(-1.0, 2.0, false, false),
                 [Z] := Entry(-1.0, 0.0, false, false),
                 [Y, Z] := Entry(-1.0, 0.0, false, false),
                 [Z, X] := Entry(-1.0, 0.0, false, false),
                 [Z, Y] := Entry(-1.0, 0.0, false, false),
                 [Z, Z] := Entry(-1.0, 0.0, false, false),
                 [X, Y, Z] := Entry(-1.0, 0.0, false, false)])
  }

  /** The load succeeds, yet "x" after "y" has the score 1 by the file and none above 0 by the table. */
  method LoadPositiveBlank() returns (ok: bool, t: Table)
    ensures ok && FullyLoaded(PositiveListed(), t)
    ensures Score(PositiveListed(), [X, Y]) == 1.0
    ensures Score(AsModel(3, t), [X, Y]) <= 0.0
  {
    PositiveIsListed();
    PositiveContexts();
    PositiveFits();
    var search := new HashedSearch(CountsOf(PositiveFile()), MULTIPLIER);
    ok := search.InitializeFromARPA(PositiveFile(), MULTIPLIER, PositiveListed());
    t := search.table;
    PositiveScores(t);
  }

  lemma {:induction false} PositiveIsListed()
    ensures ListedOk(PositiveListed()) && Lists(PositiveListed(), PositiveFile())
  {
    PositiveLines();
    PositiveUnigrams();
    PositiveBigrams();
    PositiveTrigrams();
    assert forall i :: 0 <= i < 3 ==> ListsOrder(PositiveListed(), i + 1, PositiveFile()[i]);
  }

  lemma {:induction false} PositiveLines()
    ensures ListedOk(PositiveListed())
  {
    forall g | g in PositiveListed().table
      ensures LineOk(PositiveListed(), g)
    {
    }
  }

  lemma {:induction false} PositiveUnigrams()
    ensures ListsOrder(PositiveListed(), 1, PositiveFile()[0])
  {
    var lines := PositiveFile()[0];
    InGrams(lines);
    assert lines[0].gram == [X] && lines[1].gram == [Y] && lines[2].gram == [Z];
  }

  lemma {:induction false} PositiveBigrams()
    ensures ListsOrder(PositiveListed(), 2, PositiveFile()[1])
  {
    var lines := PositiveFile()[1];
    InGrams(lines);
    assert lines[0].gram == [Y, Z] && lines[1].gram == [Z, X] && lines[2].gram == [Z, Y] && lines[3].gram == [Z, Z];
  }

  lemma {:induction false} PositiveTrigrams()
    ensures ListsOrder(PositiveListed(), 3, PositiveFile()[2])
  {
    var lines := PositiveFile()[2];
    InGrams(lines);
    assert lines[0].gram == [X, Y, Z];
  }

  /** Five bigrams, one of them a blank, in the six buckets that four are given. */
  lemma {:induction false} PositiveFits()
    ensures RoomForBlanks(PositiveListed(), PositiveFile(), MULTIPLIER)
  {
    var listed := PositiveListed();
    var rest := {[Y, Z], [Z, X], [Z, Y], [Z, Z]};
    forall g
      ensures g in StartsOfLength(listed, 2) ==> g in rest + {[X, Y]}
    {
      if g in StartsOfLength(listed, 2) {
        var v :| v in listed.table && 2 <= |v| && g == v[..2];
        assert v[..2] == v || v == [X, Y, Z];
        assert [X, Y, Z][..2] == [X, Y];
      }
    }
    SubsetSize(StartsOfLength(listed, 2), rest + {[X, Y]});
    assert |rest| <= 4;
    assert (1.5 * 4 as real) == 6.0;
  }

  lemma {:induction false} InGrams(lines: seq<Line>)
    ensures forall i {:trigger lines[i]} :: 0 <= i < |lines| ==> lines[i].gram in Grams(lines)
  {
  }

  lemma {:induction false} PositiveContexts()
    ensures ContextsReady(PositiveListed(), PositiveFile(), 3)
  {
    assert [Y, Z][1..] == [Z] && [Z, X][1..] == [X] && [Z, Y][1..] == [Y] && [Z, Z][1..] == [Z];
    assert [X, Y, Z][1..] == [Y, Z];
  }

  lemma {:induction false} PositiveScores(t: Table)
    requires FullyLoaded(PositiveListed(), t)
    ensures Score(PositiveListed(), [X, Y]) == 1.0
    ensures Score(AsModel(3, t), [X, Y]) <= 0.0
  {
    var listed, v := PositiveListed(), [X, Y, Z];
    assert [X, Y][..2] == [X, Y] == v[..2] && [X, Y][..1] == [X] && [X, Y][1..2] == [Y];
    assert Katz(listed, [X, Y], 1) == -1.0;
    StoredPrefix(listed, t, 3, v, 2);
    assert Good(listed, t, 3, [X, Y]);
  }

  /** One word of log-probability zero, and nothing longer. */
  function ZeroFile(): seq<seq<Line>> {
    [[Line([X], 0.0, 0.0)], []]
  }

  function ZeroListed(): Model {
    Model(2, map[[X] := Entry(0.0, 0.0, false, false)])
  }

  /** The load succeeds and marks the word as one that extends left, although nothing starts with it. */
  method LoadLonelyZero() returns (ok: bool, t: Table)
    ensures ok && FullyLoaded(ZeroListed(), t)
    ensures LeftExtends(AsModel(2, t), [X]) && forall w :: !Longer(AsModel(2, t), [X], w)
  {
    ZeroIsListed();
    var search := new HashedSearch(CountsOf(ZeroFile()), MULTIPLIER);
    ok := search.InitializeFromARPA(ZeroFile(), MULTIPLIER, ZeroListed());
    t := search.table;
    ZeroFlag(t);
  }

  lemma {:induction false} ZeroIsListed()
    ensures ListedOk(ZeroListed()) && Lists(ZeroListed(), ZeroFile())
    ensures BlanksNonPositive(ZeroListed()) && LonelyZero(ZeroListed(), [X])
  {
    var listed, lists := ZeroListed(), ZeroFile();
    assert LineOk(listed, [X]);
    InGrams(lists[0]);
    assert lists[0][0].gram in Grams(lists[0]);
    assert forall i :: 0 <= i < 2 ==> ListsOrder(listed, i + 1, lists[i]);
    assert [X][..1] == [X];
  }

  lemma {:induction false} ZeroFlag(t: Table)
    requires FullyLoaded(ZeroListed(), t) && AllExact(ZeroListed(), t)
    ensures LeftExtends(AsModel(2, t), [X]) && forall w :: !Longer(AsModel(2, t), [X], w)
  {
    assert Exact(ZeroListed(), t, [X]);
    GrowsIffListed(ZeroListed(), t, [X]);
    GrowsIffLonger(2, t, [X]);
  }

  /** One listed bigram, and one to be filled in. */
  function FullFile(): seq<seq<Line>> {
    [[Line([X], -1.0, 0.0), Line([Y], -1.0, 0.0), Line([Z], -1.0, 0.0)],
     [Line([Y, Z], -1.0, 0.0)],
     [Line([X, Y, Z], -1.0, 0.0)]]
  }

  function FullListed(): Model {
    Model(3, map[[X] := Entry(-1.0, 0.0, false, false),
                 [Y] := Entry(-1.0, 0.0, false, false),
                 [Z] := Entry(-1.0, 0.0, false, false),
                 [Y, Z] := Entry(-1.0, 0.0, false, false),
                 [X, Y, Z] := Entry(-1.0, 0.0, false, false)])
  }

  /** All histories are listed, but a table for one bigram has two buckets and takes no blank. */
  method LoadFullTable() returns (ok: bool)
    ensures ContextsReady(FullListed(), FullFile(), 3) && BlanksNonPositive(FullListed())
    ensures !ok
  {
    FullIsListed();
    FullDoesNotFit();
    var search := new HashedSearch(CountsOf(FullFile()), MULTIPLIER);
    ok := search.InitializeFromARPA(FullFile(), MULTIPLIER, FullListed());
  }

  lemma {:induction false} FullIsListed()
    ensures ListedOk(FullListed()) && Lists(FullListed(), FullFile())
    ensures ContextsReady(FullListed(), FullFile(), 3) && BlanksNonPositive(FullListed())
  {
    var listed, lists := FullListed(), FullFile();
    FullLines();
    FullUnigrams();
    FullLonger();
    assert forall i :: 0 <= i < 3 ==> ListsOrder(listed, i + 1, lists[i]);
    assert [Y, Z][1..] == [Z] && [X, Y, Z][1..] == [Y, Z];
    forall g, k: nat | 1 <= k <= |g|
      ensures Katz(listed, g, k) <= 0.0
    {
      FreeBackoffs(g, k);
    }
  }

  lemma {:induction false} FullLines()
    ensures ListedOk(FullListed())
  {
    forall g | g in FullListed().table
      ensures LineOk(FullListed(), g)
    {
    }
  }

  lemma {:induction false} FullUnigrams()
    ensures ListsOrder(FullListed(), 1, FullFile()[0])
  {
    var lines := FullFile()[0];
    InGrams(lines);
    assert lines[0].gram == [X] && lines[1].gram == [Y] && lines[2].gram == [Z];
  }

  lemma {:induction false} FullLonger()
    ensures ListsOrder(FullListed(), 2, FullFile()[1]) && ListsOrder(FullListed(), 3, FullFile()[2])
  {
    InGrams(FullFile()[1]);
    InGrams(FullFile()[2]);
    assert FullFile()[1][0].gram == [Y, Z] && FullFile()[2][0].gram == [X, Y, Z];
  }

  /** No score is positive where no backoff is. */
  lemma {:induction false} FreeBackoffs(g: Gram, k: nat)
    requires 1 <= k <= |g|
    ensures Katz(FullListed(), g, k) <= 0.0
  {
    if k > 1 {
      FreeBackoffs(g, k - 1);
    }
  }

  lemma {:induction false} FullDoesNotFit()
    ensures !RoomForBlanks(FullListed(), FullFile(), MULTIPLIER)
  {
    var listed := FullListed();
    assert [X, Y, Z] in listed.table && [X, Y, Z][..2] == [X, Y];
    assert [Y, Z] in listed.table && [Y, Z][..2] == [Y, Z];
    SubsetSize({[X, Y], [Y, Z]}, StartsOfLength(listed, 2));
    assert [X, Y][0] != [Y, Z][0];
    assert (1.5 * 1 as real).Floor == 1;
  }
}
