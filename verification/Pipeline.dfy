/**
 The hashed model end to end: load a file, then query it.
 */
module Pipeline {
  import opened NGram
  import opened Query
  import opened HashedLoad

  /** What a file must satisfy for the loaded table to be faithful; see HashedLoad. */
  ghost predicate Faithful(listed: Model) {
    ListedOk(listed) && BlanksNonPositive(listed)
  }

  lemma {:induction false} LoadedScores(listed: Model, t: Table, g: Gram)
    requires Faithful(listed) && FullyLoaded(listed, t) && AllExact(listed, t)
    ensures Valid(AsModel(listed.order, t))
    ensures Known(listed, g) ==> Known(AsModel(listed.order, t), g)
    ensures g != [] && Known(listed, g) ==> Score(AsModel(listed.order, t), g) == Score(listed, g)
  {
    LoadedTableIsValid(listed, t);
    if g != [] && Known(listed, g) {
      assert g[..1] == [g[0]];
      ScoresAreListed(listed, t, g, |g|);
    }
  }

  /** Every word of every text gets the score the file itself gives it by the textbook. */
  method LoadAndScore(lists: seq<seq<Line>>, multiplier: real, text: seq<Word>, ghost listed: Model)
    returns (ok: bool, probs: seq<real>)
    requires Faithful(listed) && Lists(listed, lists) && Known(listed, text) && multiplier >= 0.0
    ensures ok <==> ContextsReady(listed, lists, |lists|) && RoomForBlanks(listed, lists, multiplier)
    ensures ok ==> |probs| == |text|
    ensures ok ==> forall i :: 0 <= i < |text| ==> probs[i] == Score(listed, History(text, [], i + 1))
  {
    var search := new HashedSearch(CountsOf(lists), multiplier);
    ok := search.InitializeFromARPA(lists, multiplier, listed);
    probs := [];
    if ok {
      var m := AsModel(|lists|, search.table);
      LoadedScores(listed, search.table, text);
      var out;
      probs, out := ScoreText(m, NULL_CONTEXT, text, []);
      forall i | 0 <= i < |text|
        ensures probs[i] == Score(listed, History(text, [], i + 1))
      {
        HistoryKnown(listed, text, i + 1);
        LoadedScores(listed, search.table, History(text, [], i + 1));
      }
    }
  }

  lemma {:induction false} HistoryKnown(m: Model, text: seq<Word>, n: nat)
    requires n <= |text| && Known(m, text)
    ensures Known(m, History(text, [], n))
  {
    if n > 0 {
      HistoryKnown(m, text, n - 1);
    }
  }
}
