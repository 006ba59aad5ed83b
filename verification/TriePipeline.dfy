/**
 The trie end to end (BuildTrie of search_trie.cc): merge the sorted files, count the n-grams
 of the stream and let blanks ask for backoffs; lay out the bit-packed arrays, write every
 n-gram into them in a second pass and check that all histories have been met; then look
 n-grams up.
 */
module TriePipeline {
  import opened BitPacking
  import opened PackedArray
  import opened GramSets
  import opened Lexicographic
  import opened BlankStream
  import opened TrieBuild
  import opened SriBackoffs
  import opened TrieLookup
  import opened TrieWrite
  import opened TrieWeights
  import opened TrieTable
  import N = NGram

  /** The n-grams of the files, in their order, for each order but the highest. */
  function FilesOf(unigrams: seq<real>, inputs: seq<seq<Record>>): (files: seq<seq<Gram>>)
    ensures |files| == |inputs|
  {
    seq(|inputs|, o requires 0 <= o < |inputs| => if o == 0 then UnigramsOf(unigrams) else GramsIn(inputs[o - 1]))
  }

  function UnigramsOf(unigrams: seq<real>): (file: seq<Gram>)
    ensures |file| == |unigrams| && forall w {:trigger file[w]} :: 0 <= w < |file| ==> file[w] == [w]
  {
    seq(|unigrams|, w requires 0 <= w < |unigrams| => [w])
  }

  function GramsIn(records: seq<Record>): (file: seq<Gram>)
    ensures |file| == |records| && forall j {:trigger file[j]} :: 0 <= j < |file| ==> file[j] == records[j].gram
  {
    seq(|records|, j requires 0 <= j < |records| => records[j].gram)
  }

  lemma {:induction false} FilesAreListed(listed: Listing, unigrams: seq<real>, inputs: seq<seq<Record>>)
    requires Files(listed, unigrams, inputs)
    ensures FilesList(listed, FilesOf(unigrams, inputs))
  {
    var files := FilesOf(unigrams, inputs);
    UnigramsListed(listed, unigrams, inputs);
    forall o | 0 <= o < |files|
      ensures FileLists(listed, files[o], o + 1)
    {
      if o > 0 {
        RecordsListed(listed, unigrams, inputs, o - 1);
      }
    }
  }

  lemma {:induction false} UnigramsListed(listed: Listing, unigrams: seq<real>, inputs: seq<seq<Record>>)
    requires Files(listed, unigrams, inputs)
    ensures FileLists(listed, UnigramsOf(unigrams), 1)
  {
    var file := UnigramsOf(unigrams);
    forall i: nat, j: nat | i < j < |file|
      ensures Less(file[i], file[j])
    {
      UnigramsInOrder(i, j);
    }
    forall g {:trigger g in file}
      ensures g in file <==> g in listed && |g| == 1
    {
      if g in listed && |g| == 1 {
        assert FromFile(unigrams, inputs, g);
        assert file[g[0]] == [g[0]] == g;
      }
      if g in file {
        var w :| 0 <= w < |file| && file[w] == g;
        assert UnigramOk(listed, unigrams, w);
      }
    }
  }

  lemma {:induction false} RecordsListed(listed: Listing, unigrams: seq<real>, inputs: seq<seq<Record>>, o: nat)
    requires Files(listed, unigrams, inputs) && o < |inputs|
    ensures FileLists(listed, GramsIn(inputs[o]), o + 2)
  {
    var file := GramsIn(inputs[o]);
    assert SortedInput(listed, unigrams, inputs, o);
    forall i, j | 0 <= i < j < |file|
      ensures Less(file[i], file[j])
    {
      assert Less(inputs[o][i].gram, inputs[o][j].gram);
    }
    forall g {:trigger g in file}
      ensures g in file <==> g in listed && |g| == o + 2
    {
      if g in listed && |g| == o + 2 {
        assert FromFile(unigrams, inputs, g);
        var j :| 0 <= j < |inputs[o]| && inputs[o][j].gram == g;
        assert file[j] == g;
      }
      if g in file {
        var j :| 0 <= j < |file| && file[j] == g;
        assert RecordOk(listed, o + 2, inputs[o][j], |unigrams| - 1);
      }
    }
  }

  // ---------------------------------------------------------------- first pass

  /** FindBlanks: counts the n-grams of the merged stream, and lets its blanks ask for backoffs. */
  method FindBlanks(unigrams: seq<real>, inputs: seq<seq<Record>>, ghost listed: Listing)
    returns (counts: seq<nat>, sri: SriSucks, ghost events: seq<Event>)
    requires Files(listed, unigrams, inputs) && LossHarmless(listed)
    ensures Right(listed, events) && InPreOrder(events, |inputs| + 1)
    ensures counts == CountsOf(GramsOf(events, |events|), |inputs| + 1)
    ensures fresh(sri) && sri.order == |inputs| + 1 && sri.Sent(events, |events|) && StreamOk(events, sri.order)
  {
    var stream := Merged(unigrams, inputs, listed);
    events := stream;
    UnigramFirst(listed, unigrams, inputs, stream);
    counts := CountOrders(stream, |inputs| + 1);
    sri := new SriSucks(|inputs| + 1);
    StreamIsOk(listed, unigrams, inputs, stream);
    assert sri.Sent(stream, 0);
    sri.SendAll(stream);
  }

  /** RecursiveInsert over files that cannot mislead it. */
  method Merged(unigrams: seq<real>, inputs: seq<seq<Record>>, ghost listed: Listing) returns (events: seq<Event>)
    requires Files(listed, unigrams, inputs) && LossHarmless(listed)
    ensures Right(listed, events) && InPreOrder(events, |inputs| + 1)
  {
    var ok;
    ghost var visits, lost;
    ok, events, visits, lost := RecursiveInsert(unigrams, inputs, listed);
    StreamInPreOrder(listed, unigrams, inputs, events);
  }

  /** Blanks are shorter than the highest order: what they begin goes on. */
  lemma {:induction false} StreamIsOk(listed: Listing, unigrams: seq<real>, inputs: seq<seq<Record>>,
                                      events: seq<Event>)
    requires Files(listed, unigrams, inputs) && Right(listed, events)
    ensures StreamOk(events, |inputs| + 1)
  {
    forall x | 0 <= x < |events| && events[x].Blank?
      ensures 1 <= events[x].basedOn < |events[x].gram| < |inputs| + 1
    {
      var g := events[x].gram;
      assert EventOk(listed, events[x]) && Emits(events, g);
      var l :| l in listed && Prefix(g, l);
      assert FromFile(unigrams, inputs, l);
      assert |g| == |l| ==> g == l;
      assert g[..|g|] == g;
    }
  }

  /** Both passes see the same stream. */
  lemma {:induction false} SameStream(listed: Listing, a: seq<Event>, b: seq<Event>, n: nat)
    requires Right(listed, a) && Right(listed, b) && n <= |a| && n <= |b|
    ensures a[..n] == b[..n]
  {
    if n > 0 {
      SameStream(listed, a, b, n - 1);
      NotBefore(listed, a, b, n - 1);
      NotBefore(listed, b, a, n - 1);
      LessTotal(a[n - 1].gram, b[n - 1].gram);
      SameEvent(listed, a[n - 1], b[n - 1]);
      assert a[..n] == a[..n - 1] + [a[n - 1]] && b[..n] == b[..n - 1] + [b[n - 1]];
    }
  }

  lemma {:induction false} NotBefore(listed: Listing, a: seq<Event>, b: seq<Event>, k: nat)
    requires Right(listed, a) && Right(listed, b) && k < |a| && k < |b| && a[..k] == b[..k]
    ensures !Less(a[k].gram, b[k].gram)
  {
    assert Emits(a, a[k].gram) && Emits(b, a[k].gram);
    forall j | 0 <= j < k
      ensures b[j].gram != a[k].gram
    {
      assert a[..k][j] == b[..k][j];
      assert Less(a[j].gram, a[k].gram);
      LessIrreflexive(a[k].gram);
    }
    var j :| 0 <= j < |b| && b[j].gram == a[k].gram;
    LessIrreflexive(a[k].gram);
    if j > k {
      assert Less(b[k].gram, b[j].gram);
      LessAsymmetric(b[k].gram, b[j].gram);
    }
  }

  lemma {:induction false} SameEvent(listed: Listing, a: Event, b: Event)
    requires EventOk(listed, a) && EventOk(listed, b) && a.gram == b.gram
    ensures a == b
  {
    assert a.gram[..|a.gram|] == a.gram;
  }

  lemma {:induction false} SameLength(listed: Listing, a: seq<Event>, b: seq<Event>)
    requires Right(listed, a) && Right(listed, b)
    ensures |a| <= |b|
  {
    if |a| > |b| {
      SameStream(listed, a, b, |b|);
      var g := a[|b|].gram;
      assert Emits(a, g) && Emits(b, g);
      var j :| 0 <= j < |b| && b[j].gram == g;
      assert a[j] == a[..|b|][j] == b[..|b|][j];
      assert Less(a[j].gram, a[|b|].gram);
      LessIrreflexive(g);
    }
  }

  lemma {:induction false} GramsCovered(listed: Listing, events: seq<Event>)
    requires Right(listed, events)
    ensures forall g {:trigger g in GramsOf(events, |events|)} :: g in GramsOf(events, |events|) <==>
              g != [] && Covered(listed, g)
  {
    forall g {:trigger g in GramsOf(events, |events|)}
      ensures g in GramsOf(events, |events|) <==> g != [] && Covered(listed, g)
    {
      assert g in GramsOf(events, |events|) <==> Emits(events, g);
    }
  }

  /** The stream starts with a unigram, since it starts with the parent of what it starts with. */
  lemma {:induction false} UnigramFirst(listed: Listing, unigrams: seq<real>, inputs: seq<seq<Record>>,
                                        events: seq<Event>)
    requires Files(listed, unigrams, inputs) && Right(listed, events) && InPreOrder(events, |inputs| + 1)
    ensures events != [] && |events[0].gram| == 1
  {
    assert UnigramOk(listed, unigrams, 0) && Prefix([0], [0]);
    assert Covered(listed, [0]) && Emits(events, [0]);
    if |events[0].gram| > 1 {
      ParentWritten(events, |inputs| + 1, 0);
    }
  }

  /** The unigrams are the words up to the one past the vocabulary. */
  lemma {:induction false} VocabularyIs(listed: Listing, unigrams: seq<real>, inputs: seq<seq<Record>>,
                                        grams: set<Gram>)
    requires Files(listed, unigrams, inputs)
    requires forall g {:trigger g in grams} :: g in grams <==> g != [] && Covered(listed, g)
    ensures |OfLength(grams, 1)| == |unigrams| && CountsOf(grams, |inputs| + 1)[0] == |unigrams| - 1
  {
    forall g
      ensures g in OfLength(grams, 1) <==> |g| == 1 && g[0] < |unigrams|
    {
      if |g| == 1 {
        assert g == [g[0]];
        UnigramsCovered(listed, unigrams, inputs, g[0]);
      }
    }
    WordsCounted(OfLength(grams, 1), |unigrams|);
  }

  lemma {:induction false} WordsCounted(words: set<Gram>, n: nat)
    requires forall g {:trigger g in words} :: g in words <==> |g| == 1 && g[0] < n
    ensures |words| == n
  {
    if n == 0 {
      assert words == {};
    } else {
      var last := [n - 1];
      assert last in words;
      var rest := words - {last};
      forall g: Gram {:trigger g in rest}
        ensures g in rest <==> |g| == 1 && g[0] < n - 1
      {
        assert g in words <==> |g| == 1 && g[0] < n;
        assert |g| == 1 ==> g == [g[0]];
      }
      WordsCounted(rest, n - 1);
    }
  }

  lemma {:induction false} StreamInPreOrder(listed: Listing, unigrams: seq<real>, inputs: seq<seq<Record>>,
                                            events: seq<Event>)
    requires Files(listed, unigrams, inputs) && Right(listed, events)
    ensures InPreOrder(events, |inputs| + 1)
    ensures forall i {:trigger events[i]} :: 0 <= i < |events| ==>
              events[i].gram != [] && Covered(listed, events[i].gram)
  {
    forall i | 0 <= i < |events|
      ensures 1 <= |events[i].gram| <= |inputs| + 1
      ensures Covered(listed, events[i].gram)
      ensures |events[i].gram| > 1 ==> Emits(events, events[i].gram[..|events[i].gram| - 1])
    {
      var g := events[i].gram;
      assert Emits(events, g);
      var l :| l in listed && Prefix(g, l);
      assert FromFile(unigrams, inputs, l);
      if |g| > 1 {
        assert Prefix(g[..|g| - 1], l);
      }
    }
  }

  // ---------------------------------------------------------------- looking up what was built

  lemma {:induction false} InFront(keys: seq<Gram>, g: Gram)
    requires keys != []
    ensures keys[|keys| - 1] in keys
    ensures g in keys <==> g in keys[..|keys| - 1] || g == keys[|keys| - 1]
  {
    assert keys == keys[..|keys| - 1] + [keys[|keys| - 1]];
  }

  /** An array has one entry for each n-gram of its length. */
  lemma {:induction false} LevelSize(keys: seq<Gram>, grams: set<Gram>)
    requires forall i, j {:trigger Less(keys[i], keys[j])} :: 0 <= i < j < |keys| ==> Less(keys[i], keys[j])
    requires forall g {:trigger g in grams} :: g in grams <==> g in keys
    ensures |keys| == |grams|
    decreases |keys|
  {
    if keys == [] {
      assert grams == {};
    } else {
      var n := |keys| - 1;
      var rest := grams - {keys[n]};
      forall g {:trigger g in rest}
        ensures g in rest <==> g in keys[..n]
      {
        InFront(keys, g);
        if g in keys[..n] {
          var i :| 0 <= i < n && keys[..n][i] == g;
          assert Less(keys[i], keys[n]);
          LessIrreflexive(g);
        }
      }
      LevelSize(keys[..n], rest);
    }
  }

  lemma {:induction false} LevelIs(order: nat, levels: seq<seq<Node>>, keys: seq<seq<Gram>>, stored: map<Gram, Weights>,
                                   o: nat)
    requires TrieOk(order, levels, keys, stored) && o < order
    ensures |levels[o]| == |keys[o]| == |OfLength(stored.Keys, o + 1)|
    ensures forall g {:trigger g in keys[o]} :: g in keys[o] <==> g in stored && |g| == o + 1
    ensures forall i, j {:trigger Less(keys[o][i], keys[o][j])} :: 0 <= i < j < |keys[o]| ==>
              Less(keys[o][i], keys[o][j])
  {
    assert LevelOk(levels[o], keys[o], o + 1, stored);
    forall g {:trigger g in keys[o]}
      ensures g in keys[o] <==> g in stored && |g| == o + 1
    {
      if g in keys[o] {
        var i :| 0 <= i < |keys[o]| && keys[o][i] == g;
        assert EntryOk(levels[o][i], g, o + 1, stored);
      } else if g in stored {
        assert HasPlace(order, keys, g);
      }
    }
    LevelSize(keys[o], OfLength(stored.Keys, o + 1));
  }

  /** The unigram array is addressed by the word itself. */
  lemma {:induction false} UnigramsAreIdentity(keys: seq<Gram>, n: nat)
    requires forall i, j {:trigger Less(keys[i], keys[j])} :: 0 <= i < j < |keys| ==> Less(keys[i], keys[j])
    requires forall g {:trigger g in keys} :: g in keys <==> |g| == 1 && g[0] < n
    ensures |keys| == n && forall w: nat {:trigger keys[w]} :: w < n ==> keys[w] == [w]
    decreases n
  {
    if n == 0 {
      if keys != [] {
        InFront(keys, []);
      }
    } else {
      var last := |keys| - 1;
      assert [n - 1] in keys;
      var i :| 0 <= i < |keys| && keys[i] == [n - 1];
      if i < last {
        assert keys[last] in keys && Less(keys[i], keys[last]);
        UnigramLess(n - 1, keys[last]);
      }
      var rest := keys[..last];
      forall g {:trigger g in rest}
        ensures g in rest <==> |g| == 1 && g[0] < n - 1
      {
        RestIs(keys, n, g);
      }
      UnigramsAreIdentity(rest, n - 1);
    }
  }

  lemma {:induction false} UnigramLess(w: nat, g: Gram)
    requires |g| == 1 && Less([w], g)
    ensures w < g[0]
  {
    LcpAgrees([w], g);
  }

  lemma {:induction false} RestIs(keys: seq<Gram>, n: nat, g: Gram)
    requires keys != [] && n > 0 && keys[|keys| - 1] == [n - 1]
    requires forall i, j {:trigger Less(keys[i], keys[j])} :: 0 <= i < j < |keys| ==> Less(keys[i], keys[j])
    requires forall h {:trigger h in keys} :: h in keys <==> |h| == 1 && h[0] < n
    ensures g in keys[..|keys| - 1] <==> |g| == 1 && g[0] < n - 1
  {
    var last := |keys| - 1;
    InFront(keys, g);
    if g in keys[..last] {
      var i :| 0 <= i < last && keys[..last][i] == g;
      assert Less(keys[i], keys[last]) && g == [g[0]];
      UnigramLess(g[0], [n - 1]);
    }
  }

  /** What `Lookup` asks of the arrays. */
  lemma {:induction false} ReadyForLookup(trie: Trie, listed: Listing, unigrams: seq<real>, inputs: seq<seq<Record>>)
    requires trie.Valid() && trie.order == |inputs| + 1 && Files(listed, unigrams, inputs)
    requires forall g {:trigger g in trie.stored} :: g in trie.stored <==> g != [] && Covered(listed, g)
    requires trie.counts == CountsOf(trie.stored.Keys, trie.order) && CountsFit(trie.counts)
    requires |unigrams| < WORD_LIMIT && |inputs[|inputs| - 1]| < INDEX_LIMIT - 1
    ensures trie.counts[0] == |unigrams| - 1
    ensures |trie.keys[0]| == |unigrams| && forall w: nat {:trigger trie.keys[0][w]} :: w < |unigrams| ==>
              trie.keys[0][w] == [w]
    ensures forall o {:trigger trie.levels[o]} :: 0 <= o < trie.order ==> |trie.levels[o]| < INDEX_LIMIT - 1
  {
    VocabularyIs(listed, unigrams, inputs, trie.stored.Keys);
    LevelIs(trie.order, trie.levels, trie.keys, trie.stored, 0);
    forall g {:trigger g in trie.keys[0]}
      ensures g in trie.keys[0] <==> |g| == 1 && g[0] < |unigrams|
    {
      if |g| == 1 {
        assert g == [g[0]];
        UnigramsCovered(listed, unigrams, inputs, g[0]);
      }
    }
    UnigramsAreIdentity(trie.keys[0], |unigrams|);
    forall o | 1 <= o < trie.order
      ensures |trie.levels[o]| < INDEX_LIMIT - 1
    {
      LevelIs(trie.order, trie.levels, trie.keys, trie.stored, o);
      if o < trie.order - 1 {
        assert MiddleFits(trie.counts, o);
        MaxEntriesIs();
      } else {
        LongestCounted(listed, unigrams, inputs, trie.stored.Keys);
      }
    }
  }

  lemma {:induction false} MaxEntriesIs()
    ensures MAX_ENTRIES == 0x200_0000_0000_0000
  {
    assert Pow2(1) == 2;
    EightMore(1);
    EightMore(9);
    EightMore(17);
    EightMore(25);
    EightMore(33);
    EightMore(41);
    EightMore(49);
  }

  lemma {:induction false} EightMore(n: nat)
    ensures Pow2(n + 8) == 256 * Pow2(n)
  {
    assert Pow2(n + 2) == 2 * Pow2(n + 1) == 4 * Pow2(n);
    assert Pow2(n + 4) == 2 * Pow2(n + 3) == 4 * Pow2(n + 2);
    assert Pow2(n + 6) == 2 * Pow2(n + 5) == 4 * Pow2(n + 4);
    assert Pow2(n + 8) == 2 * Pow2(n + 7);
  }

  /** The n-grams of the highest order are records of the last file. */
  lemma {:induction false} LongestCounted(listed: Listing, unigrams: seq<real>, inputs: seq<seq<Record>>,
                                          grams: set<Gram>)
    requires Files(listed, unigrams, inputs)
    requires forall g {:trigger g in grams} :: g in grams <==> g != [] && Covered(listed, g)
    ensures |OfLength(grams, |inputs| + 1)| <= |inputs[|inputs| - 1]|
  {
    var file := inputs[|inputs| - 1];
    RecordsCounted(file, |file|);
    forall g | g in OfLength(grams, |inputs| + 1)
      ensures g in RecordGrams(file, |file|)
    {
      var l :| l in listed && Prefix(g, l);
      assert FromFile(unigrams, inputs, l);
      assert g == l;
    }
    SubsetSize(OfLength(grams, |inputs| + 1), RecordGrams(file, |file|));
  }

  ghost function RecordGrams(file: seq<Record>, n: nat): set<Gram>
    requires n <= |file|
  {
    if n == 0 then {} else RecordGrams(file, n - 1) + {file[n - 1].gram}
  }

  lemma {:induction false} RecordsCounted(file: seq<Record>, n: nat)
    requires n <= |file|
    ensures |RecordGrams(file, n)| <= n
    ensures forall j {:trigger file[j]} :: 0 <= j < n ==> file[j].gram in RecordGrams(file, n)
  {
    if n > 0 {
      RecordsCounted(file, n - 1);
    }
  }

  lemma {:induction false} UnigramsCovered(listed: Listing, unigrams: seq<real>, inputs: seq<seq<Record>>, w: nat)
    requires Files(listed, unigrams, inputs)
    ensures Covered(listed, [w]) <==> w < |unigrams|
  {
    if w < |unigrams| {
      assert UnigramOk(listed, unigrams, w) && Prefix([w], [w]);
    }
    if Covered(listed, [w]) {
      var l :| l in listed && Prefix([w], l);
      assert [w][0] == l[0];
      FirstWordInside(listed, unigrams, inputs, l);
    }
  }

  lemma {:induction false} FirstWordInside(listed: Listing, unigrams: seq<real>, inputs: seq<seq<Record>>, l: Gram)
    requires Files(listed, unigrams, inputs) && l in listed && l != []
    ensures l[0] < |unigrams|
  {
    assert FromFile(unigrams, inputs, l);
    if |l| > 1 {
      assert SortedInput(listed, unigrams, inputs, |l| - 2);
      var j :| 0 <= j < |inputs[|l| - 2]| && inputs[|l| - 2][j].gram == l;
    }
  }

  // ---------------------------------------------------------------- second pass

  /** The histories of bigrams are words. */
  lemma {:induction false} HistoryWords(listed: Listing, unigrams: seq<real>, inputs: seq<seq<Record>>, g: Gram)
    requires Files(listed, unigrams, inputs) && WordsBelow(listed, |unigrams|) && |g| == 1 && IsHistory(listed, g)
    ensures g in listed && g[0] + 1 < |unigrams|
  {
    var v: nat :| Covered(listed, [v] + g);
    CoveredWords(listed, [v] + g, |unigrams|);
    assert ([v] + g)[1] == g[0] && g == [g[0]];
    assert UnigramOk(listed, unigrams, g[0]);
  }

  /** Messages to unigrams are answered. */
  lemma {:induction false} UnigramsAnswer(listed: Listing, unigrams: seq<real>, inputs: seq<seq<Record>>,
                                          backoffs: map<Gram, real>, events: seq<Event>, m: Message)
    requires Files(listed, unigrams, inputs) && WordsBelow(listed, |unigrams|) && Right(listed, events)
    requires m in Messages(events, |events|, 1)
    ensures m.to in LevelsOf(listed, backoffs, |inputs|)[0]
  {
    MessagesAre(events, |events|, 1, m);
    AskedIff(listed, events, m.to);
    HistoryIff(listed, m.to);
    assert Asked(Messages(events, |events|, 1), m.to);
    HistoryWords(listed, unigrams, inputs, m.to);
  }

  /** No blank is as long as the histories of the highest order, so none is asked there. */
  lemma {:induction false} NotesAreOk(plan: Plan, events: seq<Event>, files: seq<seq<Gram>>, noted: seq<seq<Gram>>)
    requires |plan.counts| == |files| + 1 == |noted| + 1 >= 2 && StreamOk(events, |plan.counts|)
    requires forall o {:trigger noted[o]} :: 0 <= o < |noted| ==>
               NotedUpTo(events, files[o], noted[o], o + 1, |plan.counts|)
    ensures NotesOk(plan, noted)
  {
    forall o | 0 <= o < |noted|
      ensures NeverBack(noted[o]) && (o == |noted| - 1 ==> noted[o] == [])
    {
      assert NotedUpTo(events, files[o], noted[o], o + 1, |plan.counts|);
      if o == |noted| - 1 {
        assert noted[o] != [] ==> noted[o][0] in noted[o];
        forall c
          ensures c !in noted[o]
        {
          NobodyAsks(events, |plan.counts|, c);
        }
      }
    }
  }

  lemma {:induction false} NobodyAsks(events: seq<Event>, order: nat, c: Gram)
    requires order >= 2 && StreamOk(events, order)
    ensures !Asked(Messages(events, |events|, order - 1), c)
  {
    forall m {:trigger m in Messages(events, |events|, order - 1)}
      ensures m !in Messages(events, |events|, order - 1)
    {
      MessagesAre(events, |events|, order - 1, m);
    }
  }

  /** The files of histories come to their end exactly if all histories are listed. */
  lemma {:induction false} AllReadIffListed(listed: Listing, unigrams: seq<real>, inputs: seq<seq<Record>>,
                                            contexts: seq<seq<Gram>>, grams: set<Gram>)
    requires Files(listed, unigrams, inputs) && WordsBelow(listed, |unigrams|)
    requires |contexts| == |inputs| && ContextFiles(listed, contexts)
    requires forall g {:trigger g in grams} :: g in grams <==> g != [] && Covered(listed, g)
    ensures HistoriesListed(listed) <==>
              forall o, c {:trigger c in contexts[o]} :: 1 <= o < |contexts| && c in contexts[o] ==>
                  c in Seen(listed, grams)
  {
    forall g {:trigger g in listed} | g in listed && |g| > 1
      ensures |g| == 2 ==> g[1..] in listed
      ensures |g| > 2 ==> |g| - 2 < |contexts| && g[1..] in contexts[|g| - 2]
    {
      assert FromFile(unigrams, inputs, g) && Prefix(g, g);
      if |g| == 2 {
        assert g[1..] == [g[1]] && g[1] + 1 < |unigrams|;
        assert UnigramOk(listed, unigrams, g[1]);
      } else {
        assert ContextFile(listed, contexts[|g| - 2], |g| - 1) && IsContext(listed, g[1..]);
      }
    }
    forall o, c {:trigger c in contexts[o]} | 1 <= o < |contexts| && c in contexts[o]
      ensures HistoriesListed(listed) ==> c in listed
      ensures c in listed ==> c in Seen(listed, grams)
    {
      assert ContextFile(listed, contexts[o], o + 1);
      assert Prefix(c, c);
    }
  }

  /** What the first pass leaves for the second. */
  ghost predicate FirstPassDone(sri: SriSucks, listed: Listing, backoffs: map<Gram, real>, unigrams: seq<real>,
                                inputs: seq<seq<Record>>, events: seq<Event>, levels: seq<Backs>)
    reads sri
  {
    && sri.order == |inputs| + 1 >= 2 && StreamOk(events, sri.order) && sri.at == seq(sri.order - 1, _ => 0)
    && UpTo(events, LevelsOf(listed, backoffs, |inputs|), FilesOf(unigrams, inputs), levels, sri.values, sri.noted,
         sri.order)
  }

  /** FindBlanks and ObtainBackoffs. */
  method FirstPass(unigrams: seq<real>, inputs: seq<seq<Record>>, backoffs: map<Gram, real>, listed: Listing)
    returns (counts: seq<nat>, sri: SriSucks, levels: seq<Backs>, ghost events: seq<Event>)
    requires Files(listed, unigrams, inputs) && LossHarmless(listed) && WordsBelow(listed, |unigrams|)
    ensures Right(listed, events) && InPreOrder(events, |inputs| + 1)
    ensures counts == CountsOf(GramsOf(events, |events|), |inputs| + 1)
    ensures fresh(sri) && FirstPassDone(sri, listed, backoffs, unigrams, inputs, events, levels)
  {
    counts, sri, events := FindBlanks(unigrams, inputs, listed);
    var files := FilesOf(unigrams, inputs);
    FilesAreListed(listed, unigrams, inputs);
    LevelsAreOk(listed, backoffs, files);
    forall m {:trigger m in Messages(events, |events|, 1)} | m in Messages(events, |events|, 1)
      ensures m.to in LevelsOf(listed, backoffs, |inputs|)[0]
    {
      UnigramsAnswer(listed, unigrams, inputs, backoffs, events, m);
    }
    levels := sri.ObtainBackoffs(LevelsOf(listed, backoffs, |inputs|), files, events);
  }

  lemma {:induction false} PlanIsOk(plan: Plan, backoffs: map<Gram, real>, unigrams: seq<real>,
                                    inputs: seq<seq<Record>>, events: seq<Event>, levels: seq<Backs>, values: Values,
                                    noted: seq<seq<Gram>>)
    requires Files(plan.listed, unigrams, inputs) && WordsBelow(plan.listed, |unigrams|)
             && |plan.counts| == |inputs| + 1
    requires Right(plan.listed, events) && InPreOrder(events, |plan.counts|) && StreamOk(events, |plan.counts|)
    requires plan.counts == CountsOf(GramsOf(events, |events|), |plan.counts|) && plan.counts[0] == |unigrams| - 1
    requires LayoutsFor(plan.counts, plan.layouts) && CodesOk(plan.codes)
    requires WidthsAre(plan.layouts, plan.codes.probBits, plan.codes.backoffBits)
    requires |plan.contexts| == |inputs| && ContextFiles(plan.listed, plan.contexts)
    requires UpTo(events, LevelsOf(plan.listed, backoffs, |inputs|), FilesOf(unigrams, inputs), levels, values, noted,
                  |plan.counts|)
    requires |plan.levels| == |levels| == |inputs|
    requires plan.levels == levels[0 := plan.levels[0]] && plan.levels[0].Keys == levels[0].Keys
    ensures PlanOk(plan, events) && BlanksOk(plan, events, values, noted)
  {
    NotesAreOk(plan, events, FilesOf(unigrams, inputs), noted);
    forall x | 0 <= x < |events|
      ensures Planned(plan, events[x]) && BlankOk(plan, values, events[x])
    {
      PlannedOne(plan, backoffs, unigrams, inputs, events, levels, x);
    }
  }

  lemma {:induction false} PlannedOne(plan: Plan, backoffs: map<Gram, real>, unigrams: seq<real>,
                                      inputs: seq<seq<Record>>, events: seq<Event>, levels: seq<Backs>, x: nat)
    requires WordsBelow(plan.listed, |unigrams|) && |plan.counts| == |inputs| + 1 >= 2
    requires Right(plan.listed, events) && InPreOrder(events, |plan.counts|) && x < |events|
    requires plan.counts[0] == |unigrams| - 1 && |plan.levels| == |levels| == |inputs|
    requires forall o {:trigger levels[o]} :: 0 <= o < |levels| ==>
               LevelUpTo(events, LevelsOf(plan.listed, backoffs, |inputs|)[o], levels[o], o + 1, |plan.counts|)
    requires plan.levels == levels[0 := plan.levels[0]] && plan.levels[0].Keys == levels[0].Keys
    ensures Planned(plan, events[x])
  {
    var g := events[x].gram;
    assert Emits(events, g);
    EventKind(plan.listed, events, x);
    CoveredWords(plan.listed, g, |unigrams|);
    if g in plan.listed && |g| < |plan.counts| {
      InItsLevel(plan.listed, backoffs, events, levels, g);
    }
  }

  lemma {:induction false} EventKind(listed: Listing, events: seq<Event>, x: nat)
    requires Right(listed, events) && x < |events|
    ensures events[x].Listed? <==> events[x].gram in listed
  {
    assert EventOk(listed, events[x]);
    assert events[x].gram[..|events[x].gram|] == events[x].gram;
  }

  lemma {:induction false} InItsLevel(listed: Listing, backoffs: map<Gram, real>, events: seq<Event>,
                                      levels: seq<Backs>, g: Gram)
    requires g in listed && 1 <= |g| <= |levels|
    requires LevelUpTo(events, LevelsOf(listed, backoffs, |levels|)[|g| - 1], levels[|g| - 1], |g|, |levels| + 1)
    ensures g in levels[|g| - 1]
  {
    assert g in LevelOf(listed, backoffs, |g|);
  }

  /** The plan of the second pass for these files. */
  ghost predicate PlanFor(plan: Plan, backoffs: map<Gram, real>, unigrams: seq<real>, inputs: seq<seq<Record>>,
                          events: seq<Event>, levels: seq<Backs>, values: Values, noted: seq<seq<Gram>>) {
    && Files(plan.listed, unigrams, inputs) && WordsBelow(plan.listed, |unigrams|)
    && |plan.counts| == |inputs| + 1 && PlanOk(plan, events) && BlanksOk(plan, events, values, noted)
    && Prepared(plan, backoffs, events, FilesOf(unigrams, inputs), levels, values, noted)
  }

  /** PopulateUnigramWeights completes the plan. */
  method PlanSecondPass(counts: seq<nat>, layouts: seq<Layout>, codes: Codes, unigrams: seq<real>,
                        inputs: seq<seq<Record>>, backoffs: map<Gram, real>, contexts: seq<seq<Gram>>,
                        levels: seq<Backs>, listed: Listing, ghost events: seq<Event>, ghost values: Values,
                        ghost noted: seq<seq<Gram>>)
    returns (plan: Plan, first: nat)
    requires Files(listed, unigrams, inputs) && WordsBelow(listed, |unigrams|)
    requires Right(listed, events) && InPreOrder(events, |inputs| + 1) && StreamOk(events, |inputs| + 1)
    requires counts == CountsOf(GramsOf(events, |events|), |inputs| + 1)
    requires UpTo(events, LevelsOf(listed, backoffs, |inputs|), FilesOf(unigrams, inputs), levels, values, noted,
             |inputs| + 1)
    requires |contexts| == |inputs| && ContextFiles(listed, contexts)
    requires LayoutsFor(counts, layouts) && CodesOk(codes) && WidthsAre(layouts, codes.probBits, codes.backoffBits)
    ensures PlanFor(plan, backoffs, unigrams, inputs, events, levels, values, noted) && first == |contexts[0]|
    ensures plan == Plan(counts, layouts, listed, plan.levels, contexts, codes)
  {
    GramsCovered(listed, events);
    VocabularyIs(listed, unigrams, inputs, GramsOf(events, |events|));
    UnigramHistories(listed, unigrams, inputs, contexts[0]);
    LevelsStart(listed, unigrams, inputs, backoffs, events, levels);
    FilesAreListed(listed, unigrams, inputs);
    var marked;
    marked, first := PopulateUnigramWeights(counts[0], levels[0], contexts[0], listed);
    plan := Plan(counts, layouts, listed, levels[0 := marked], contexts, codes);
    PlanIsOk(plan, backoffs, unigrams, inputs, events, levels, values, noted);
  }

  /** All files of histories have been read to their end exactly if all histories are listed. */
  method CheckContexts(plan: Plan, first: nat, pos: seq<nat>, backoffs: map<Gram, real>, ghost unigrams: seq<real>,
                       ghost inputs: seq<seq<Record>>, ghost events: seq<Event>, ghost levels: seq<Backs>,
                       ghost values: Values, ghost noted: seq<seq<Gram>>, ghost stored: map<Gram, Weights>)
    returns (ok: bool)
    requires PlanFor(plan, backoffs, unigrams, inputs, events, levels, values, noted) && first == |plan.contexts[0]|
    requires stored.Keys == GramsOf(events, |events|) && AsPlanned(stored, plan, values, noted, pos)
    ensures ok <==> HistoriesListed(plan.listed)
    ensures ok ==> forall g {:trigger g in stored} :: g in stored ==>
              g != [] && stored[g] == WeightsInFile(|plan.counts|, plan.listed, backoffs, plan.codes, g)
  {
    GramsCovered(plan.listed, events);
    ok := ContextsRead(plan, first, pos, Seen(plan.listed, stored.Keys));
    AllReadIffListed(plan.listed, unigrams, inputs, plan.contexts, stored.Keys);
    if ok {
      forall g {:trigger g in stored} | g in stored
        ensures g != [] && stored[g] == WeightsInFile(|plan.counts|, plan.listed, backoffs, plan.codes, g)
      {
        GramInside(events, |plan.counts|, g);
        WrittenAsInFile(plan, backoffs, events, FilesOf(unigrams, inputs), levels, values, noted, pos, g);
      }
    }
  }

  lemma {:induction false} GramInside(events: seq<Event>, order: nat, g: Gram)
    requires InPreOrder(events, order) && g in GramsOf(events, |events|)
    ensures 1 <= |g| <= order
  {
  }

  /**
   WriteEntries over the stream merged once more, the check that all histories have been met,
   and the ending pointers.
   */
  method WriteAndCheck(sri: SriSucks, plan: Plan, first: nat, backoffs: map<Gram, real>, unigrams: seq<real>,
                       inputs: seq<seq<Record>>, ghost events: seq<Event>, ghost levels: seq<Backs>)
    returns (ok: bool, trie: Trie)
    requires LossHarmless(plan.listed) && Ready(sri, plan, events, 0)
    requires PlanFor(plan, backoffs, unigrams, inputs, events, levels, sri.values, sri.noted)
    requires first == |plan.contexts[0]|
    modifies sri`at
    ensures ok <==> HistoriesListed(plan.listed)
    ensures fresh(trie) && trie.Valid() && trie.order == |inputs| + 1 && trie.counts == plan.counts
    ensures trie.stored.Keys == GramsOf(events, |events|) && (ok ==> trie.closed)
    ensures ok ==> forall g {:trigger g in trie.stored} :: g in trie.stored ==>
              g != [] && trie.stored[g] == WeightsInFile(|plan.counts|, plan.listed, backoffs, plan.codes, g)
  {
    var stream := Merged(unigrams, inputs, plan.listed);
    StreamsAgree(plan.listed, events, stream);
    var pos;
    trie, pos := WriteEntries(sri, plan, stream);
    ok := CheckContexts(plan, first, pos, backoffs, unigrams, inputs, events, levels, sri.values, sri.noted,
      trie.stored);
    if ok {
      trie.FinishedLoading();
    }
  }

  lemma {:induction false} NothingPassed(sri: SriSucks, plan: Plan, events: seq<Event>)
    requires sri.order == |plan.counts| >= 2 && BlanksOk(plan, events, sri.values, sri.noted)
    requires sri.at == seq(sri.order - 1, _ => 0)
    ensures Ready(sri, plan, events, 0)
  {
  }

  /** The second pass. */
  method SecondPass(sri: SriSucks, counts: seq<nat>, layouts: seq<Layout>, codes: Codes, unigrams: seq<real>,
                    inputs: seq<seq<Record>>, backoffs: map<Gram, real>, contexts: seq<seq<Gram>>, levels: seq<Backs>,
                    listed: Listing, ghost events: seq<Event>)
    returns (ok: bool, trie: Trie)
    requires Files(listed, unigrams, inputs) && LossHarmless(listed) && WordsBelow(listed, |unigrams|)
    requires Right(listed, events) && InPreOrder(events, |inputs| + 1)
    requires counts == CountsOf(GramsOf(events, |events|), |inputs| + 1)
    requires FirstPassDone(sri, listed, backoffs, unigrams, inputs, events, levels)
    requires |contexts| == |inputs| && ContextFiles(listed, contexts)
    requires LayoutsFor(counts, layouts) && CodesOk(codes) && WidthsAre(layouts, codes.probBits, codes.backoffBits)
    modifies sri`at
    ensures ok <==> HistoriesListed(listed)
    ensures fresh(trie) && trie.Valid() && trie.order == |inputs| + 1 && trie.counts == counts
    ensures trie.stored.Keys == GramsOf(events, |events|) && (ok ==> trie.closed)
    ensures ok ==> forall g {:trigger g in trie.stored} :: g in trie.stored ==>
              g != [] && trie.stored[g] == WeightsInFile(trie.order, listed, backoffs, codes, g)
  {
    var plan, first := PlanSecondPass(counts, layouts, codes, unigrams, inputs, backoffs, contexts, levels, listed,
      events,
                                      sri.values, sri.noted);
    NothingPassed(sri, plan, events);
    ok, trie := WriteAndCheck(sri, plan, first, backoffs, unigrams, inputs, events, levels);
  }

  lemma {:induction false} StreamsAgree(listed: Listing, a: seq<Event>, b: seq<Event>)
    requires Right(listed, a) && Right(listed, b)
    ensures a == b
  {
    SameLength(listed, a, b);
    SameLength(listed, b, a);
    SameStream(listed, a, b, |a|);
    assert a[..|a|] == a && b[..|b|] == b;
  }

  lemma {:induction false} UnigramHistories(listed: Listing, unigrams: seq<real>, inputs: seq<seq<Record>>,
                                            file: seq<Gram>)
    requires Files(listed, unigrams, inputs) && WordsBelow(listed, |unigrams|) && ContextFile(listed, file, 1)
    ensures forall c {:trigger c in file} :: c in file ==> c[0] < |unigrams| - 1
  {
    forall c {:trigger c in file} | c in file
      ensures c[0] < |unigrams| - 1
    {
      HistoryIff(listed, c);
      HistoryWords(listed, unigrams, inputs, c);
    }
  }

  lemma {:induction false} LevelsStart(listed: Listing, unigrams: seq<real>, inputs: seq<seq<Record>>,
                                       backoffs: map<Gram, real>, events: seq<Event>, levels: seq<Backs>)
    requires Files(listed, unigrams, inputs) && |levels| == |inputs|
    requires LevelUpTo(events, LevelsOf(listed, backoffs, |inputs|)[0], levels[0], 1, |inputs| + 1)
    ensures forall w: nat {:trigger [w]} :: w < |unigrams| ==> [w] in levels[0]
  {
    forall w: nat {:trigger [w]} | w < |unigrams|
      ensures [w] in levels[0]
    {
      assert UnigramOk(listed, unigrams, w);
    }
  }

  /**
   The trie built from the files stores exactly their n-grams and all prefixes of these, with the
   weights of the file; of the word one past the vocabulary only the pointer counts.  Building
   fails only where there are too many entries of one order, or where the history of a listed
   n-gram is not listed.
   */
  method BuildTrie(unigrams: seq<real>, inputs: seq<seq<Record>>, backoffs: map<Gram, real>, contexts: seq<seq<Gram>>,
                   codes: Codes, listed: Listing)
    returns (ok: bool, trie: Trie?, ghost grams: set<Gram>)
    requires Files(listed, unigrams, inputs) && LossHarmless(listed) && WordsBelow(listed, |unigrams|)
    requires |contexts| == |inputs| && ContextFiles(listed, contexts) && CodesOk(codes)
    ensures forall g {:trigger g in grams} :: g in grams <==> g != [] && Covered(listed, g)
    ensures ok <==> CountsFit(CountsOf(grams, |inputs| + 1)) && HistoriesListed(listed)
    ensures ok ==> trie != null && fresh(trie) && trie.Valid() && trie.closed && trie.order == |inputs| + 1
    ensures ok ==> trie.counts == CountsOf(grams, |inputs| + 1) && trie.stored.Keys == grams
    ensures ok ==> BuiltFrom(trie.order, trie.stored, listed, backoffs, codes, |unigrams|)
  {
    ghost var events;
    var counts, sri, levels;
    counts, sri, levels, events := FirstPass(unigrams, inputs, backoffs, listed);
    grams := GramsOf(events, |events|);
    GramsCovered(listed, events);
    var layouts;
    ok, layouts := ChooseLayouts(counts, codes.probBits, codes.backoffBits);
    trie := null;
    if ok {
      ok, trie := SecondPass(sri, counts, layouts, codes, unigrams, inputs, backoffs, contexts, levels, listed, events);
    }
  }

  /**
   From sorted files through bits to an answer: an n-gram is found exactly if it is in the table
   that stands for the file, with its log-probability, backoff and flags.
   */
  method BuildAndLookup(unigrams: seq<real>, inputs: seq<seq<Record>>, backoffs: map<Gram, real>,
                        contexts: seq<seq<Gram>>, codes: Codes, d: Decoder, g: Gram, listed: Listing)
    returns (ok: bool, found: bool, entry: N.Entry, ghost grams: set<Gram>, ghost m: N.Model)
    requires Files(listed, unigrams, inputs) && LossHarmless(listed) && WordsBelow(listed, |unigrams|)
    requires |contexts| == |inputs| && ContextFiles(listed, contexts) && CodesOk(codes)
    requires Decodes(d, codes, |inputs| + 1, listed, backoffs, |unigrams|)
    requires |unigrams| < WORD_LIMIT && |inputs[|inputs| - 1]| < INDEX_LIMIT - 1
    requires 1 <= |g| <= |inputs| + 1 && forall i {:trigger g[i]} :: 0 <= i < |g| ==> g[i] + 1 < |unigrams|
    ensures forall h {:trigger h in grams} :: h in grams <==> h != [] && Covered(listed, h)
    ensures ok <==> CountsFit(CountsOf(grams, |inputs| + 1)) && HistoriesListed(listed)
    ensures ok ==> m.order == |inputs| + 1 && Trusted(m, listed, backoffs, |unigrams|)
    ensures ok ==> (found <==> g in m.table)
    ensures ok && found ==> entry == m.table[g]
  {
    var trie;
    ok, trie, grams := BuildTrie(unigrams, inputs, backoffs, contexts, codes, listed);
    found, entry, m := false, N.Entry(0.0, 0.0, false, false), N.Model(0, map[]);
    if ok {
      found, entry, m := Ask(trie, codes, d, g, listed, backoffs, unigrams, inputs);
    }
  }

  lemma {:induction false} BuiltIsTrusted(order: nat, stored: map<Gram, Weights>, d: Decoder, codes: Codes,
                                          listed: Listing, backoffs: map<Gram, real>, unigrams: seq<real>,
                                          inputs: seq<seq<Record>>)
    requires Files(listed, unigrams, inputs) && WordsBelow(listed, |unigrams|) && HistoriesListed(listed)
    requires order == |inputs| + 1 && Decodes(d, codes, order, listed, backoffs, |unigrams|)
    requires BuiltFrom(order, stored, listed, backoffs, codes, |unigrams|)
    ensures Trusted(TrieModel(order, stored, d, |unigrams|), listed, backoffs, |unigrams|)
  {
    ListingIsOk(listed, unigrams, inputs);
    TrieIsTrusted(order, stored, d, codes, listed, backoffs, |unigrams|);
  }

  /** One lookup, read back from its codes. */
  method Ask(trie: Trie, ghost codes: Codes, d: Decoder, g: Gram, ghost listed: Listing,
             ghost backoffs: map<Gram, real>, ghost unigrams: seq<real>, ghost inputs: seq<seq<Record>>)
    returns (found: bool, entry: N.Entry, ghost m: N.Model)
    requires trie.Valid() && trie.closed && trie.order == |inputs| + 1
    requires Files(listed, unigrams, inputs) && WordsBelow(listed, |unigrams|) && HistoriesListed(listed)
    requires BuiltFrom(trie.order, trie.stored, listed, backoffs, codes, |unigrams|)
    requires Decodes(d, codes, trie.order, listed, backoffs, |unigrams|)
    requires trie.counts == CountsOf(trie.stored.Keys, trie.order) && CountsFit(trie.counts)
    requires |unigrams| < WORD_LIMIT && |inputs[|inputs| - 1]| < INDEX_LIMIT - 1
    requires 1 <= |g| <= trie.order && forall i {:trigger g[i]} :: 0 <= i < |g| ==> g[i] + 1 < |unigrams|
    ensures m.order == trie.order && Trusted(m, listed, backoffs, |unigrams|)
    ensures found <==> g in m.table
    ensures found ==> entry == m.table[g]
  {
    m := TrieModel(trie.order, trie.stored, d, |unigrams|);
    BuiltIsTrusted(trie.order, trie.stored, d, codes, listed, backoffs, unigrams, inputs);
    found, entry := ReadEntry(trie, d, g, listed, unigrams, inputs);
    assert g[0] + 1 < |unigrams|;
    EntryInTable(trie.order, trie.stored, d, |unigrams|, g);
  }

  method ReadEntry(trie: Trie, d: Decoder, g: Gram, ghost listed: Listing, ghost unigrams: seq<real>,
                   ghost inputs: seq<seq<Record>>)
    returns (found: bool, entry: N.Entry)
    requires trie.Valid() && trie.closed && trie.order == |inputs| + 1 && Files(listed, unigrams, inputs)
    requires StoresCovered(trie.stored, listed)
    requires trie.counts == CountsOf(trie.stored.Keys, trie.order) && CountsFit(trie.counts)
    requires |unigrams| < WORD_LIMIT && |inputs[|inputs| - 1]| < INDEX_LIMIT - 1
    requires 1 <= |g| <= trie.order && forall i {:trigger g[i]} :: 0 <= i < |g| ==> g[i] + 1 < |unigrams|
    ensures found <==> g in trie.stored
    ensures found ==> entry == EntryAt(trie.order, trie.stored, d, g)
  {
    ReadyForLookup(trie, listed, unigrams, inputs);
    var w, independentLeft;
    found, w, independentLeft := trie.Lookup(g);
    entry := if |g| == trie.order then N.Entry(d.prob(w.prob), 0.0, !independentLeft, false)
      else N.Entry(d.prob(w.prob), d.back(w.backoff).value, !independentLeft, d.back(w.backoff).ext);
  }

  lemma {:induction false} ListingIsOk(listed: Listing, unigrams: seq<real>, inputs: seq<seq<Record>>)
    requires Files(listed, unigrams, inputs) && WordsBelow(listed, |unigrams|) && HistoriesListed(listed)
    ensures ListingOk(listed, |inputs| + 1, |unigrams|)
  {
    forall g | g in listed
      ensures 1 <= |g| <= |inputs| + 1
    {
      assert FromFile(unigrams, inputs, g);
    }
    forall w: nat | w < |unigrams|
      ensures [w] in listed
    {
      assert UnigramOk(listed, unigrams, w);
    }
  }
}
