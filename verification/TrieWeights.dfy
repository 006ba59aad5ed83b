/**
 What the second pass of the trie builder writes, said of the file alone: a stored n-gram has
 its textbook log-probability and its backoff, and is marked as extending right if it has a
 backoff to charge or is the history of something stored.  Only blanks that come after every
 listed n-gram of their length lose their mark.
 */
module TrieWeights {
  import opened Lexicographic
  import opened BlankStream
  import opened SriBackoffs
  import opened TrieLookup
  import opened TrieWrite
  import N = NGram

  function BackoffIn(backoffs: map<Gram, real>, g: Gram): real {
    if g in backoffs then backoffs[g] else 0.0
  }

  /** The file as a table for the textbook score. */
  function FileModel(order: nat, listed: Listing, backoffs: map<Gram, real>): N.Model {
    N.Model(order, map g | g in listed :: N.Entry(listed[g], BackoffIn(backoffs, g), false, false))
  }

  /** ReadBackoff leaves zeros unmarked. */
  function ReadBackoff(b: real): Flagged {
    Flagged(b, b != 0.0)
  }

  function LevelOf(listed: Listing, backoffs: map<Gram, real>, length: nat): Backs {
    map g | g in listed && |g| == length :: ReadBackoff(BackoffIn(backoffs, g))
  }

  /** The backoffs as the files hold them, one map for each order but the highest. */
  function LevelsOf(listed: Listing, backoffs: map<Gram, real>, n: nat): (levels: seq<Backs>) {
    seq(n, o requires 0 <= o < n => LevelOf(listed, backoffs, o + 1))
  }

  ghost predicate FilesList(listed: Listing, files: seq<seq<Gram>>) {
    forall o {:trigger files[o]} :: 0 <= o < |files| ==> FileLists(listed, files[o], o + 1)
  }

  ghost predicate FileLists(listed: Listing, file: seq<Gram>, length: nat) {
    FileOk(file) && forall g {:trigger g in file} :: g in file <==> g in listed && |g| == length
  }

  lemma {:induction false} LevelsAreOk(listed: Listing, backoffs: map<Gram, real>, files: seq<seq<Gram>>)
    requires FilesList(listed, files)
    ensures AllBacksOk(LevelsOf(listed, backoffs, |files|), files)
  {
    var levels := LevelsOf(listed, backoffs, |files|);
    forall o | 0 <= o < |files|
      ensures BacksOk(levels[o], files[o], o + 1)
    {
      assert FileLists(listed, files[o], o + 1);
    }
  }

  /** All words but the one past the vocabulary. */
  ghost predicate WordsBelow(listed: Listing, n: nat) {
    forall l, i {:trigger l[i]} :: l in listed && 0 <= i < |l| ==> l[i] < n && (|l| > 1 ==> l[i] + 1 < n)
  }

  lemma {:induction false} CoveredWords(listed: Listing, g: Gram, n: nat)
    requires WordsBelow(listed, n) && Covered(listed, g)
    ensures forall i {:trigger g[i]} :: 0 <= i < |g| ==> g[i] < n && (|g| > 1 ==> g[i] + 1 < n)
  {
    var l :| l in listed && Prefix(g, l);
    assert forall i :: 0 <= i < |g| ==> g[i] == l[i];
  }

  // ---------------------------------------------------------------- who is asked

  /** Something stored has `g` as its history. */
  ghost predicate IsHistory(listed: Listing, g: Gram) {
    exists v: nat {:trigger [v] + g} :: Covered(listed, [v] + g)
  }

  /** Some blank has `g` as its history. */
  ghost predicate HistoryOfBlank(listed: Listing, g: Gram) {
    exists v: nat {:trigger [v] + g} :: Covered(listed, [v] + g) && [v] + g !in listed
  }

  lemma {:induction false} HistoryIff(listed: Listing, g: Gram)
    ensures IsHistory(listed, g) <==> IsContext(listed, g) || HistoryOfBlank(listed, g)
  {
    if IsHistory(listed, g) && !HistoryOfBlank(listed, g) {
      var v: nat :| Covered(listed, [v] + g);
      var l := [v] + g;
      assert l in listed && |l| == |g| + 1 && l[1..] == g;
    }
    if IsContext(listed, g) {
      var l :| l in listed && |l| == |g| + 1 && l[1..] == g;
      assert l == [l[0]] + g && Prefix(l, l);
      assert Covered(listed, [l[0]] + g);
    }
  }

  /** Messages reach exactly the histories of blanks. */
  lemma {:induction false} AskedIff(listed: Listing, events: seq<Event>, g: Gram)
    requires Right(listed, events) && g != []
    ensures Asked(Messages(events, |events|, |g|), g) <==> HistoryOfBlank(listed, g)
  {
    var ms := Messages(events, |events|, |g|);
    if Asked(ms, g) {
      var m :| m in ms && m.to == g;
      AskedByBlank(listed, events, g, m);
    }
    if HistoryOfBlank(listed, g) {
      var v: nat :| Covered(listed, [v] + g) && [v] + g !in listed;
      var b := [v] + g;
      assert Emits(events, b);
      var x :| 0 <= x < |events| && events[x].gram == b;
      assert EventOk(listed, events[x]);
      assert Sends(events[x], |g|) && MessageOf(events[x], |g|).to == b[1..|g| + 1] == g;
      MessagesAre(events, |events|, |g|, MessageOf(events[x], |g|));
    }
  }

  lemma {:induction false} AskedByBlank(listed: Listing, events: seq<Event>, g: Gram, m: Message)
    requires Right(listed, events) && g != [] && m in Messages(events, |events|, |g|) && m.to == g
    ensures HistoryOfBlank(listed, g)
  {
    MessagesAre(events, |events|, |g|, m);
    var x :| 0 <= x < |events| && Sends(events[x], |g|) && m == MessageOf(events[x], |g|);
    var h := events[x].gram;
    assert EventOk(listed, events[x]) && Emits(events, h);
    var b := h[..|g| + 1];
    assert b == [h[0]] + g;
    var l :| l in listed && Prefix(h, l);
    assert Prefix(b, l);
    assert Covered(listed, [h[0]] + g);
  }

  /** A listed n-gram of the same length comes after `g`. */
  ghost predicate BeforeListed(listed: Listing, g: Gram) {
    exists r {:trigger Less(g, r)} :: r in listed && |r| == |g| && Less(g, r)
  }

  /** The mark that is written. */
  ghost predicate RightMark(listed: Listing, backoffs: map<Gram, real>, g: Gram) {
    if g in listed then BackoffIn(backoffs, g) != 0.0 || IsHistory(listed, g)
    else IsHistory(listed, g) && BeforeListed(listed, g)
  }

  lemma {:induction false} NotedIff(listed: Listing, events: seq<Event>, file: seq<Gram>, noted: seq<Gram>, g: Gram)
    requires Right(listed, events) && g != [] && g !in listed && HistoriesListed(listed) && FileLists(listed, file, |g|)
    requires Noted(Messages(events, |events|, |g|), file, noted)
    ensures g in noted <==> IsHistory(listed, g) && BeforeListed(listed, g)
  {
    AskedIff(listed, events, g);
    HistoryIff(listed, g);
    forall l {:trigger l in listed} | l in listed && |l| == |g| + 1
      ensures l[1..] != g
    {
    }
    assert BeforeSome(file, g) <==> BeforeListed(listed, g);
  }

  // ---------------------------------------------------------------- what blanks are worth

  /** A blank is worth what the textbook gives it. */
  lemma {:induction false} OwedIsKatz(order: nat, listed: Listing, backoffs: map<Gram, real>, e: Event, k: nat)
    requires e.Blank? && EventOk(listed, e) && e.basedOn <= k <= |e.gram| < order
    ensures e.basis + Owed(LevelsOf(listed, backoffs, order - 1), e.gram, e.basedOn, k) ==
            N.Katz(FileModel(order, listed, backoffs), e.gram, k)
  {
    var file := FileModel(order, listed, backoffs);
    if k == e.basedOn {
      assert e.gram[..k] in file.table;
    } else {
      OwedIsKatz(order, listed, backoffs, e, k - 1);
      assert e.gram[..k] !in listed;
      assert Gives(LevelsOf(listed, backoffs, order - 1)[k - 2], e.gram[1..k]) == N.BackoffOf(file, e.gram[1..k]);
    }
  }

  lemma {:induction false} ListedScore(order: nat, listed: Listing, backoffs: map<Gram, real>, g: Gram)
    requires g in listed && g != []
    ensures N.Score(FileModel(order, listed, backoffs), g) == listed[g]
  {
    assert g[..|g|] == g;
  }

  // ---------------------------------------------------------------- what is written

  /** The messages are delivered and the unigrams marked; all files of histories are read. */
  ghost predicate Prepared(plan: Plan, backoffs: map<Gram, real>, events: seq<Event>, files: seq<seq<Gram>>,
                           levels: seq<Backs>, values: Values, noted: seq<seq<Gram>>) {
    && |plan.counts| >= 2 && |files| == |plan.levels| == |plan.contexts| == |plan.counts| - 1
    && Right(plan.listed, events) && StreamOk(events, |plan.counts|) && FilesList(plan.listed, files)
    && UpTo(events, LevelsOf(plan.listed, backoffs, |files|), files, levels, values, noted, |plan.counts|)
    && ContextFiles(plan.listed, plan.contexts)
    && plan.levels == levels[0 := plan.levels[0]] && UnigramsMarked(levels[0], plan.levels[0], plan.contexts[0])
  }

  ghost predicate FilesRead(plan: Plan, pos: seq<nat>) {
    |pos| == |plan.contexts| && forall o {:trigger pos[o]} :: 1 <= o < |pos| ==> pos[o] == |plan.contexts[o]|
  }

  lemma {:induction false} EventOf(listed: Listing, events: seq<Event>, g: Gram) returns (x: nat)
    requires Right(listed, events) && g != [] && Covered(listed, g)
    ensures x < |events| && events[x].gram == g && EventOk(listed, events[x]) && (events[x].Listed? <==> g in listed)
  {
    assert Emits(events, g);
    x :| 0 <= x < |events| && events[x].gram == g;
    assert EventOk(listed, events[x]);
    assert g[..|g|] == g;
  }

  /** Once all messages are delivered, a blank has its textbook value. */
  lemma {:induction false} PaidIsScore(order: nat, listed: Listing, backoffs: map<Gram, real>, e: Event)
    requires order >= 2 && e.Blank? && EventOk(listed, e) && |e.gram| < order
    ensures Paid(LevelsOf(listed, backoffs, order - 1), e, order) == N.Score(FileModel(order, listed, backoffs), e.gram)
  {
    OwedIsKatz(order, listed, backoffs, e, |e.gram|);
  }

  lemma {:induction false} BlankPaid(plan: Plan, backoffs: map<Gram, real>, events: seq<Event>, values: Values, x: nat)
    requires |plan.counts| >= 2 && StreamOk(events, |plan.counts|) && x < |events| && events[x].Blank?
    requires EventOk(plan.listed, events[x])
    requires PaidUpTo(events, LevelsOf(plan.listed, backoffs, |plan.counts| - 1), values, |plan.counts|)
    ensures var g := events[x].gram;
            g in values && values[g] == N.Score(FileModel(|plan.counts|, plan.listed, backoffs), g)
  {
    PaidIsScore(|plan.counts|, plan.listed, backoffs, events[x]);
  }

  /** Listed or not, the log-probability written is the one of the textbook. */
  lemma {:induction false} ProbIsScore(plan: Plan, backoffs: map<Gram, real>, events: seq<Event>, files: seq<seq<Gram>>,
                                       levels: seq<Backs>, values: Values, noted: seq<seq<Gram>>, g: Gram)
    requires Prepared(plan, backoffs, events, files, levels, values, noted) && g != [] && Covered(plan.listed, g)
    ensures ProbOf(plan, values, g) == N.Score(FileModel(|plan.counts|, plan.listed, backoffs), g)
  {
    if g in plan.listed {
      ListedScore(|plan.counts|, plan.listed, backoffs, g);
    } else {
      var x := EventOf(plan.listed, events, g);
      BlankPaid(plan, backoffs, events, values, x);
    }
  }

  /** A listed backoff is marked if there is one or the n-gram is a history. */
  lemma {:induction false} ListedBack(plan: Plan, backoffs: map<Gram, real>, events: seq<Event>, level: Backs,
                                      noted: seq<seq<Gram>>, pos: seq<nat>, g: Gram)
    requires Right(plan.listed, events) && g in plan.listed && 1 <= |g| <= |plan.levels| == |plan.contexts|
    requires FilesRead(plan, pos) && ContextFile(plan.listed, plan.contexts[|g| - 1], |g|)
    requires Marked(Messages(events, |events|, |g|), LevelOf(plan.listed, backoffs, |g|), level)
    requires if |g| == 1 then UnigramsMarked(level, plan.levels[0], plan.contexts[0]) else plan.levels[|g| - 1] == level
    ensures BackOf(plan, noted, pos, g) == Flagged(BackoffIn(backoffs, g), RightMark(plan.listed, backoffs, g))
  {
    AskedIff(plan.listed, events, g);
    HistoryIff(plan.listed, g);
    var file := plan.contexts[|g| - 1];
    assert file[..|file|] == file;
    assert level[g].value == BackoffIn(backoffs, g);
    assert g in file <==> IsContext(plan.listed, g);
  }

  lemma {:induction false} LevelDone(plan: Plan, backoffs: map<Gram, real>, events: seq<Event>, files: seq<seq<Gram>>,
                                     levels: seq<Backs>, values: Values, noted: seq<seq<Gram>>, o: nat)
    requires Prepared(plan, backoffs, events, files, levels, values, noted) && o < |files|
    ensures |levels| == |files| && ContextFile(plan.listed, plan.contexts[o], o + 1)
    ensures Marked(Messages(events, |events|, o + 1), LevelOf(plan.listed, backoffs, o + 1), levels[o])
  {
    assert LevelUpTo(events, LevelsOf(plan.listed, backoffs, |files|)[o], levels[o], o + 1, |plan.counts|);
  }

  lemma {:induction false} NotesDone(plan: Plan, backoffs: map<Gram, real>, events: seq<Event>, files: seq<seq<Gram>>,
                                     levels: seq<Backs>, values: Values, noted: seq<seq<Gram>>, o: nat)
    requires Prepared(plan, backoffs, events, files, levels, values, noted) && 1 <= o < |files|
    ensures |noted| == |files| && FileLists(plan.listed, files[o], o + 1)
    ensures Noted(Messages(events, |events|, o + 1), files[o], noted[o])
  {
    assert NotedUpTo(events, files[o], noted[o], o + 1, |plan.counts|);
  }

  /** A blank is marked if it is a history that has been noted. */
  lemma {:induction false} BlankBack(plan: Plan, backoffs: map<Gram, real>, events: seq<Event>, file: seq<Gram>,
                                     noted: seq<seq<Gram>>, pos: seq<nat>, g: Gram)
    requires Right(plan.listed, events) && g !in plan.listed && HistoriesListed(plan.listed) && 1 < |g| <= |noted|
    requires FileLists(plan.listed, file, |g|) && Noted(Messages(events, |events|, |g|), file, noted[|g| - 1])
    ensures BackOf(plan, noted, pos, g) == Flagged(0.0, RightMark(plan.listed, backoffs, g))
  {
    NotedIff(plan.listed, events, file, noted[|g| - 1], g);
  }

  lemma {:induction false} ListedIsMarked(plan: Plan, backoffs: map<Gram, real>, events: seq<Event>,
                                          files: seq<seq<Gram>>, levels: seq<Backs>, values: Values,
                                          noted: seq<seq<Gram>>, pos: seq<nat>, g: Gram)
    requires Prepared(plan, backoffs, events, files, levels, values, noted) && g in plan.listed
    requires FilesRead(plan, pos) && 1 <= |g| < |plan.counts|
    ensures BackOf(plan, noted, pos, g) == Flagged(BackoffIn(backoffs, g), RightMark(plan.listed, backoffs, g))
  {
    LevelDone(plan, backoffs, events, files, levels, values, noted, |g| - 1);
    ListedBack(plan, backoffs, events, levels[|g| - 1], noted, pos, g);
  }

  lemma {:induction false} BlankIsMarked(plan: Plan, backoffs: map<Gram, real>, events: seq<Event>,
                                         files: seq<seq<Gram>>, levels: seq<Backs>, values: Values,
                                         noted: seq<seq<Gram>>, pos: seq<nat>, g: Gram)
    requires Prepared(plan, backoffs, events, files, levels, values, noted) && g !in plan.listed
    requires HistoriesListed(plan.listed) && 1 < |g| < |plan.counts|
    ensures BackOf(plan, noted, pos, g) == Flagged(0.0, RightMark(plan.listed, backoffs, g))
  {
    NotesDone(plan, backoffs, events, files, levels, values, noted, |g| - 1);
    BlankBack(plan, backoffs, events, files[|g| - 1], noted, pos, g);
  }

  lemma {:induction false} BlankIsLonger(listed: Listing, events: seq<Event>, g: Gram)
    requires Right(listed, events) && g != [] && Covered(listed, g) && g !in listed
    ensures |g| > 1
  {
    var x := EventOf(listed, events, g);
  }

  /** The backoff written is the listed one, with the mark it is to have. */
  lemma {:induction false} BackIsMarked(plan: Plan, backoffs: map<Gram, real>, events: seq<Event>,
                                        files: seq<seq<Gram>>, levels: seq<Backs>, values: Values,
                                        noted: seq<seq<Gram>>, pos: seq<nat>, g: Gram)
    requires Prepared(plan, backoffs, events, files, levels, values, noted) && Covered(plan.listed, g)
    requires HistoriesListed(plan.listed) && FilesRead(plan, pos) && 1 <= |g| < |plan.counts|
    ensures BackOf(plan, noted, pos, g) ==
            Flagged(N.BackoffOf(FileModel(|plan.counts|, plan.listed, backoffs), g),
              RightMark(plan.listed, backoffs, g))
  {
    if g in plan.listed {
      ListedIsMarked(plan, backoffs, events, files, levels, values, noted, pos, g);
    } else {
      BlankIsLonger(plan.listed, events, g);
      BlankIsMarked(plan, backoffs, events, files, levels, values, noted, pos, g);
    }
  }

  /** The weights a trie has for a file. */
  ghost function WeightsInFile(order: nat, listed: Listing, backoffs: map<Gram, real>, codes: Codes, g: Gram): Weights
    requires g != []
  {
    var file := FileModel(order, listed, backoffs);
    Kept(order, g, WeightsOf(codes, N.Score(file, g), Flagged(N.BackoffOf(file, g), RightMark(listed, backoffs, g))))
  }

  /** All that is stored has the weights of the file. */
  lemma {:induction false} WrittenAsInFile(plan: Plan, backoffs: map<Gram, real>, events: seq<Event>,
                                           files: seq<seq<Gram>>, levels: seq<Backs>, values: Values,
                                           noted: seq<seq<Gram>>, pos: seq<nat>, g: Gram)
    requires Prepared(plan, backoffs, events, files, levels, values, noted) && Covered(plan.listed, g)
    requires HistoriesListed(plan.listed) && FilesRead(plan, pos) && 1 <= |g| <= |plan.counts|
    ensures Stores(plan, values, noted, pos, g) == WeightsInFile(|plan.counts|, plan.listed, backoffs, plan.codes, g)
  {
    ProbIsScore(plan, backoffs, events, files, levels, values, noted, g);
    if |g| < |plan.counts| {
      BackIsMarked(plan, backoffs, events, files, levels, values, noted, pos, g);
    }
  }
}
