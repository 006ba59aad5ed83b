/**
 The trie as a table that the queries can walk.  Its flags are exact: an n-gram is independent
 of the left if it has no child, and it is marked as extending right.  The table is what the
 queries assume exactly if no blank has lost its mark.  Scores are those of the file in any case.
 */
module TrieTable {
  import opened Lexicographic
  import opened BlankStream
  import opened SriBackoffs
  import opened TrieLookup
  import opened TrieWrite
  import opened TrieWeights
  import N = NGram
  import Q = Query

  /** How codes are read back. */
  datatype Decoder = Decoder(prob: nat -> real, back: nat -> Flagged)

  /** A file that a trie can be built from; `n` - 1 is the word one past the vocabulary. */
  ghost predicate ListingOk(listed: Listing, order: nat, n: nat) {
    && order >= 2 && n >= 1 && WordsBelow(listed, n) && HistoriesListed(listed)
    && (forall g {:trigger g in listed} :: g in listed ==> 1 <= |g| <= order)
    && forall w: nat {:trigger [w]} :: w < n ==> [w] in listed
  }

  /** The codes keep the log-probabilities and backoffs that occur, apart from the word one past. */
  ghost predicate Decodes(d: Decoder, codes: Codes, order: nat, listed: Listing, backoffs: map<Gram, real>, n: nat) {
    forall g {:trigger Covered(listed, g)} :: g != [] && g != [n - 1] && Covered(listed, g) ==>
        DecodesOne(d, codes, FileModel(order, listed, backoffs), g, RightMark(listed, backoffs, g))
  }

  predicate DecodesOne(d: Decoder, codes: Codes, file: N.Model, g: Gram, ext: bool)
    requires g != []
  {
    var back := Flagged(N.BackoffOf(file, g), ext);
    d.prob(codes.prob(N.Score(file, g))) == N.Score(file, g) && (|g| < file.order ==> d.back(codes.back(back)) == back)
  }

  /** What a lookup of a stored n-gram answers. */
  ghost function EntryAt(order: nat, stored: map<Gram, Weights>, d: Decoder, g: Gram): N.Entry
    requires g in stored
  {
    var child := exists w: nat {:trigger g + [w]} :: g + [w] in stored;
    if |g| == order then N.Entry(d.prob(stored[g].prob), 0.0, child, false)
    else N.Entry(d.prob(stored[g].prob), d.back(stored[g].backoff).value, child, d.back(stored[g].backoff).ext)
  }

  ghost function TrieModel(order: nat, stored: map<Gram, Weights>, d: Decoder, n: nat): N.Model {
    N.Model(order, map g | g in stored && g != [n - 1] :: EntryAt(order, stored, d, g))
  }

  lemma {:induction false} EntryInTable(order: nat, stored: map<Gram, Weights>, d: Decoder, n: nat, g: Gram)
    requires g != [n - 1]
    ensures g in stored <==> g in TrieModel(order, stored, d, n).table
    ensures g in stored ==> TrieModel(order, stored, d, n).table[g] == EntryAt(order, stored, d, g)
  {
  }

  /** A trie built from the file holds this. */
  ghost predicate BuiltFrom(order: nat, stored: map<Gram, Weights>, listed: Listing, backoffs: map<Gram, real>,
                            codes: Codes, n: nat) {
    && StoresCovered(stored, listed)
    && forall g {:trigger g in stored} :: g in stored && g != [] && g != [n - 1] ==>
         stored[g] == WeightsInFile(order, listed, backoffs, codes, g)
  }

  ghost predicate StoresCovered(stored: map<Gram, Weights>, listed: Listing) {
    forall g {:trigger g in stored} :: g in stored <==> g != [] && Covered(listed, g)
  }

  /** A blank that is a history, but comes after every listed n-gram of its length. */
  ghost predicate LosesMark(listed: Listing, h: Gram) {
    h != [] && h !in listed && Covered(listed, h) && IsHistory(listed, h) && !BeforeListed(listed, h)
  }

  lemma {:induction false} CoveredPrefix(listed: Listing, g: Gram, k: nat)
    requires Covered(listed, g) && k <= |g|
    ensures Covered(listed, g[..k])
  {
    var l :| l in listed && Prefix(g, l);
    assert Prefix(g[..k], l);
  }

  /** Histories of stored n-grams are stored. */
  lemma {:induction false} CoveredHistory(listed: Listing, g: Gram)
    requires Covered(listed, g) && HistoriesListed(listed) && |g| > 1
    ensures Covered(listed, g[1..]) && IsHistory(listed, g[1..])
  {
    var l :| l in listed && Prefix(g, l);
    assert l[1..] in listed && Prefix(g[1..], l[1..]);
    assert [g[0]] + g[1..] == g;
  }

  lemma {:induction false} CoveredLength(listed: Listing, order: nat, g: Gram)
    requires Covered(listed, g) && forall g {:trigger g in listed} :: g in listed ==> 1 <= |g| <= order
    ensures |g| <= order
  {
    var l :| l in listed && Prefix(g, l);
  }

  lemma {:induction false} WeightsRead(order: nat, w: Weights, d: Decoder, codes: Codes, listed: Listing,
                                       backoffs: map<Gram, real>, g: Gram)
    requires g != [] && |g| <= order && w == WeightsInFile(order, listed, backoffs, codes, g)
    requires DecodesOne(d, codes, FileModel(order, listed, backoffs), g, RightMark(listed, backoffs, g))
    ensures var file := FileModel(order, listed, backoffs);
            && d.prob(w.prob) == N.Score(file, g)
            && (|g| < order ==> d.back(w.backoff) == Flagged(N.BackoffOf(file, g), RightMark(listed, backoffs, g)))
  {
  }

  /** What the table says of one stored n-gram. */
  lemma {:induction false} EntryIs(order: nat, stored: map<Gram, Weights>, d: Decoder, codes: Codes, listed: Listing,
                                   backoffs: map<Gram, real>, n: nat, g: Gram)
    requires BuiltFrom(order, stored, listed, backoffs, codes, n) && Decodes(d, codes, order, listed, backoffs, n)
    requires g != [] && g != [n - 1] && Covered(listed, g) && |g| <= order
    ensures var file := FileModel(order, listed, backoffs);
            && g in TrieModel(order, stored, d, n).table
            && var e := TrieModel(order, stored, d, n).table[g];
               && e.prob == N.Score(file, g) && e.backoff == N.BackoffOf(file, g)
               && e.right == (|g| != order && RightMark(listed, backoffs, g))
               && (e.left <==> exists w: nat {:trigger g + [w]} :: Covered(listed, g + [w]))
  {
    assert g in stored;
    assert TrieModel(order, stored, d, n).table[g] == EntryAt(order, stored, d, g);
    WeightsRead(order, stored[g], d, codes, listed, backoffs, g);
    forall w: nat
      ensures g + [w] in stored <==> Covered(listed, g + [w])
    {
    }
  }

  /** The file behind a trie, and all that is known of it. */
  ghost predicate Trusted(m: N.Model, listed: Listing, backoffs: map<Gram, real>, n: nat) {
    && ListingOk(listed, m.order, n)
    && (forall g {:trigger g in m.table} :: g in m.table <==> g != [] && g != [n - 1] && Covered(listed, g))
    && forall g {:trigger g in m.table} :: g in m.table ==> EntryAsInFile(m, listed, backoffs, g)
  }

  ghost predicate EntryAsInFile(m: N.Model, listed: Listing, backoffs: map<Gram, real>, g: Gram)
    requires g in m.table
  {
    var file := FileModel(m.order, listed, backoffs);
    && g != [] && m.table[g].prob == N.Score(file, g) && m.table[g].backoff == N.BackoffOf(file, g)
    && m.table[g].right == (|g| != m.order && RightMark(listed, backoffs, g))
    && (m.table[g].left <==> exists w: nat {:trigger g + [w]} :: Covered(listed, g + [w]))
  }

  lemma {:induction false} TrieIsTrusted(order: nat, stored: map<Gram, Weights>, d: Decoder, codes: Codes,
                                         listed: Listing, backoffs: map<Gram, real>, n: nat)
    requires ListingOk(listed, order, n)
    requires BuiltFrom(order, stored, listed, backoffs, codes, n) && Decodes(d, codes, order, listed, backoffs, n)
    ensures Trusted(TrieModel(order, stored, d, n), listed, backoffs, n)
  {
    var m := TrieModel(order, stored, d, n);
    forall g {:trigger g in m.table}
      ensures g in m.table <==> g != [] && g != [n - 1] && Covered(listed, g)
      ensures g in m.table ==> EntryAsInFile(m, listed, backoffs, g)
    {
      if g in m.table {
        CoveredLength(listed, order, g);
        EntryIs(order, stored, d, codes, listed, backoffs, n, g);
      }
    }
  }

  /** The neighbours of a stored n-gram are stored. */
  lemma {:induction false} NeighboursStored(m: N.Model, listed: Listing, backoffs: map<Gram, real>, n: nat, g: Gram)
    requires Trusted(m, listed, backoffs, n) && g in m.table
    ensures 1 <= |g| <= m.order
    ensures |g| > 1 ==> g[..|g| - 1] in m.table && g[1..] in m.table && IsHistory(listed, g[1..])
    ensures forall w: nat :: N.Longer(m, g, w) <==> Covered(listed, g + [w])
  {
    CoveredLength(listed, m.order, g);
    if |g| > 1 {
      CoveredPrefix(listed, g, |g| - 1);
      CoveredHistory(listed, g);
      CoveredWords(listed, g, n);
      assert g[1..][0] == g[1] && g[..|g| - 1][0] == g[0];
    }
  }

  /** What the queries assume of an entry holds unless its history has lost its mark. */
  lemma {:induction false} EntryValidIff(m: N.Model, listed: Listing, backoffs: map<Gram, real>, n: nat, g: Gram)
    requires Trusted(m, listed, backoffs, n) && g in m.table
    ensures N.ValidEntry(m, g) <==> !(|g| > 1 && LosesMark(listed, g[1..]))
  {
    NeighboursStored(m, listed, backoffs, n, g);
    assert EntryAsInFile(m, listed, backoffs, g);
    if |g| > 1 {
      assert EntryAsInFile(m, listed, backoffs, g[1..]);
      assert m.table[g[1..]].right <==> !LosesMark(listed, g[1..]);
    }
    assert m.table[g].left <==> exists w :: N.Longer(m, g, w);
    if w :| N.Longer(m, g, w) {
      CoveredLength(listed, m.order, g + [w]);
    }
  }

  /** The trie is a table the queries can walk exactly if no blank loses its mark. */
  lemma {:induction false} TrieIsValidIff(m: N.Model, listed: Listing, backoffs: map<Gram, real>, n: nat)
    requires Trusted(m, listed, backoffs, n)
    ensures N.Valid(m) <==> forall h {:trigger LosesMark(listed, h)} :: !LosesMark(listed, h)
  {
    forall g | g in m.table
      ensures N.ValidEntry(m, g) <==> !(|g| > 1 && LosesMark(listed, g[1..]))
    {
      EntryValidIff(m, listed, backoffs, n, g);
    }
    if h :| LosesMark(listed, h) {
      var v: nat :| Covered(listed, [v] + h);
      assert ([v] + h)[1..] == h && [v] + h in m.table;
      assert !N.ValidEntry(m, [v] + h);
    }
  }

  /** Words of the vocabulary. */
  ghost predicate KnownWords(g: Gram, n: nat) {
    forall i {:trigger g[i]} :: 0 <= i < |g| ==> g[i] + 1 < n
  }

  /** Blanks change no score. */
  lemma {:induction false} TrieScores(m: N.Model, listed: Listing, backoffs: map<Gram, real>, n: nat, g: Gram, k: nat)
    requires Trusted(m, listed, backoffs, n) && 1 <= k <= |g| && KnownWords(g, n)
    ensures N.Katz(m, g, k) == N.Katz(FileModel(m.order, listed, backoffs), g, k)
  {
    var file := FileModel(m.order, listed, backoffs);
    var p := g[..k];
    if p in m.table {
      assert EntryAsInFile(m, listed, backoffs, p);
      assert p[..k] == p;
      N.KatzDependsOnPrefix(file, p, g, k);
    } else {
      NotCovered(m, listed, backoffs, n, p);
      if k > 1 {
        TrieScores(m, listed, backoffs, n, g, k - 1);
        SameBackoff(m, listed, backoffs, n, g[1..k]);
      }
    }
  }

  lemma {:induction false} NotCovered(m: N.Model, listed: Listing, backoffs: map<Gram, real>, n: nat, p: Gram)
    requires Trusted(m, listed, backoffs, n) && p != [] && p !in m.table && p[0] + 1 < n
    ensures p !in listed && |p| > 1
  {
    var u := [p[0]];
    assert u in listed && Prefix(u, u) && Prefix(p, p);
    assert |p| == 1 ==> p == u;
  }

  lemma {:induction false} SameBackoff(m: N.Model, listed: Listing, backoffs: map<Gram, real>, n: nat, c: Gram)
    requires Trusted(m, listed, backoffs, n) && c != [] && c[0] + 1 < n
    ensures N.BackoffOf(m, c) == N.BackoffOf(FileModel(m.order, listed, backoffs), c)
  {
    if c in m.table {
      assert EntryAsInFile(m, listed, backoffs, c);
    } else {
      NotCovered(m, listed, backoffs, n, c);
    }
  }

  // ---------------------------------------------------------------- what a lost mark costs

  /** No listed part of the history beyond its first `k` words is to be marked. */
  ghost predicate Idle(order: nat, listed: Listing, backoffs: map<Gram, real>, q: Gram, k: nat) {
    forall j {:trigger q[..j]} :: k < j <= |q| && j < order && q[..j] in listed ==> !RightMark(listed, backoffs, q[..j])
  }

  /** Nothing listed goes on from an idle part. */
  lemma {:induction false} NothingGoesOn(order: nat, listed: Listing, backoffs: map<Gram, real>, n: nat, x: nat,
                                         q: Gram, k: nat, j: nat)
    requires ListingOk(listed, order, n) && Idle(order, listed, backoffs, q, k) && k < j <= |q|
    ensures [x] + q[..j] !in listed
  {
    var g := [x] + q[..j];
    assert g[1..] == q[..j];
    if g in listed {
      assert Prefix(g, g) && Covered(listed, [x] + q[..j]);
    }
  }

  /** Forgetting what is idle changes no score. */
  lemma {:induction false} IdleCutKeepsKatz(order: nat, listed: Listing, backoffs: map<Gram, real>, n: nat, x: nat,
                                            q: Gram, k: nat, hi: nat)
    requires ListingOk(listed, order, n) && Idle(order, listed, backoffs, q, k) && k + 1 <= hi <= |q| + 1
    ensures var file := FileModel(order, listed, backoffs);
            N.Katz(file, [x] + q, hi) == N.Score(file, [x] + q[..k])
  {
    var file, g := FileModel(order, listed, backoffs), [x] + q;
    if hi == k + 1 {
      assert g[..k + 1] == [x] + q[..k];
      assert ([x] + q[..k])[..k + 1] == [x] + q[..k];
      N.KatzDependsOnPrefix(file, g, [x] + q[..k], k + 1);
    } else {
      assert g[..hi] == [x] + q[..hi - 1] && g[1..hi] == q[..hi - 1];
      NothingGoesOn(order, listed, backoffs, n, x, q, k, hi - 1);
      IdleCutKeepsKatz(order, listed, backoffs, n, x, q, k, hi - 1);
      assert N.BackoffOf(file, q[..hi - 1]) == 0.0;
    }
  }

  lemma {:induction false} IdleGoesOn(order: nat, listed: Listing, backoffs: map<Gram, real>, n: nat, x: nat, q: Gram,
                                      k: nat)
    requires ListingOk(listed, order, n) && Idle(order, listed, backoffs, q, k)
    ensures Idle(order, listed, backoffs, [x] + q, k + 1)
  {
    forall j | k + 1 < j <= |q| + 1
      ensures ([x] + q)[..j] !in listed
    {
      assert ([x] + q)[..j] == [x] + q[..j - 1];
      NothingGoesOn(order, listed, backoffs, n, x, q, k, j - 1);
    }
  }

  /** What is not marked in the trie is idle, whether it has lost its mark or never had one. */
  lemma {:induction false} UnmarkedIsIdle(m: N.Model, listed: Listing, backoffs: map<Gram, real>, n: nat, q: Gram)
    requires Trusted(m, listed, backoffs, n) && KnownWords(q, n)
    ensures Idle(m.order, listed, backoffs, q, N.UseLen(m, q))
  {
    forall j | N.UseLen(m, q) < j <= |q| && j < m.order && q[..j] in listed
      ensures !RightMark(listed, backoffs, q[..j])
    {
      assert !N.RightExtends(m, q[..j]) && q[..j][0] == q[0];
      ListedUnmarked(m, listed, backoffs, n, q[..j]);
    }
  }

  lemma {:induction false} ListedUnmarked(m: N.Model, listed: Listing, backoffs: map<Gram, real>, n: nat, h: Gram)
    requires Trusted(m, listed, backoffs, n) && h in listed && h != [] && h[0] + 1 < n && |h| < m.order
    requires !N.RightExtends(m, h)
    ensures !RightMark(listed, backoffs, h)
  {
    assert Prefix(h, h) && Covered(listed, h) && h != [n - 1];
    assert h in m.table;
    assert EntryAsInFile(m, listed, backoffs, h);
  }

  lemma {:induction false} IdleJoined(order: nat, listed: Listing, backoffs: map<Gram, real>, q: Gram, mid: nat, k: nat)
    requires k <= mid <= |q| && Idle(order, listed, backoffs, q[..mid], k) && Idle(order, listed, backoffs, q, mid)
    ensures Idle(order, listed, backoffs, q, k)
  {
    forall j | k < j <= |q| && j < order && q[..j] in listed
      ensures !RightMark(listed, backoffs, q[..j])
    {
      if j <= mid {
        assert q[..mid][..j] == q[..j];
      }
    }
  }

  /** The words a query remembers: after each word, the longest marked part. */
  ghost function Remembered(m: N.Model, text: seq<nat>, i: nat): (r: Gram)
    requires i <= |text|
  {
    if i == 0 then []
    else
      var g := [text[i - 1]] + Remembered(m, text, i - 1);
      g[..N.UseLen(m, g)]
  }

  /** What is remembered is the start of the history, and the rest of it is idle. */
  ghost predicate RestIdle(m: N.Model, listed: Listing, backoffs: map<Gram, real>, n: nat, h: Gram, r: Gram) {
    |r| <= |h| && r == h[..|r|] && Idle(m.order, listed, backoffs, h, |r|) && KnownWords(h, n)
  }

  /** One word more. */
  lemma {:induction false} RestStaysIdle(m: N.Model, listed: Listing, backoffs: map<Gram, real>, n: nat, x: nat,
                                         h: Gram, r: Gram)
    requires Trusted(m, listed, backoffs, n) && RestIdle(m, listed, backoffs, n, h, r) && x + 1 < n
    ensures var g := [x] + r;
            RestIdle(m, listed, backoffs, n, [x] + h, g[..N.UseLen(m, g)])
  {
    var g, all := [x] + r, [x] + h;
    assert g == all[..|r| + 1];
    IdleGoesOn(m.order, listed, backoffs, n, x, h, |r|);
    UnmarkedIsIdle(m, listed, backoffs, n, g);
    IdleJoined(m.order, listed, backoffs, all, |r| + 1, N.UseLen(m, g));
    assert g[..N.UseLen(m, g)] == all[..N.UseLen(m, g)];
  }

  lemma {:induction false} RestIsIdle(m: N.Model, listed: Listing, backoffs: map<Gram, real>, n: nat, text: seq<nat>,
                                      i: nat)
    requires Trusted(m, listed, backoffs, n) && i <= |text| && KnownWords(text, n)
    ensures RestIdle(m, listed, backoffs, n, Q.History(text, [], i), Remembered(m, text, i))
  {
    if i > 0 {
      RestIsIdle(m, listed, backoffs, n, text, i - 1);
      RestStaysIdle(m, listed, backoffs, n, text[i - 1], Q.History(text, [], i - 1), Remembered(m, text, i - 1));
    }
  }

  /** Lost marks cost no score: from what is remembered, every word of every text scores as in the file. */
  lemma {:induction false} LostMarksCostNothing(m: N.Model, listed: Listing, backoffs: map<Gram, real>, n: nat,
                                                text: seq<nat>, i: nat)
    requires Trusted(m, listed, backoffs, n) && i < |text| && KnownWords(text, n)
    ensures N.Score(m, [text[i]] + Remembered(m, text, i)) ==
            N.Score(FileModel(m.order, listed, backoffs), Q.History(text, [], i + 1))
  {
    RestIsIdle(m, listed, backoffs, n, text, i);
    WordFromRest(m, listed, backoffs, n, text[i], Q.History(text, [], i), Remembered(m, text, i));
  }

  lemma {:induction false} WordFromRest(m: N.Model, listed: Listing, backoffs: map<Gram, real>, n: nat, x: nat, h: Gram,
                                        r: Gram)
    requires Trusted(m, listed, backoffs, n) && RestIdle(m, listed, backoffs, n, h, r) && x + 1 < n
    ensures N.Score(m, [x] + r) == N.Score(FileModel(m.order, listed, backoffs), [x] + h)
  {
    IdleCutKeepsKatz(m.order, listed, backoffs, n, x, h, |r|, |h| + 1);
    TrieScores(m, listed, backoffs, n, [x] + r, |r| + 1);
  }

  // ---------------------------------------------------------------- a lost mark

  /** Only [2, 1], which [0, 2, 1] has as its history, comes after all listed bigrams. */
  function LostMarkListing(): Listing {
    map[[0] := -1.0, [1] := -1.0, [2] := -1.0, [3] := -1.0, [1, 0] := -1.0, [2, 1, 0] := -1.0, [0, 2, 1, 0] := -1.0]
  }

  /** A file that can be built loses a mark. */
  lemma {:induction false} MarkIsLost()
    ensures ListingOk(LostMarkListing(), 4, 4) && LossHarmless(LostMarkListing())
    ensures LosesMark(LostMarkListing(), [2, 1])
  {
    LostMarkListingIsOk();
    LongOnesDiffer();
    LastBlank();
  }

  lemma {:induction false} LostMarkListingIsOk()
    ensures ListingOk(LostMarkListing(), 4, 4)
  {
  }

  lemma {:induction false} LastBlank()
    ensures LosesMark(LostMarkListing(), [2, 1])
  {
    assert Prefix([2, 1], [2, 1, 0]) && Prefix([0] + [2, 1], [0, 2, 1, 0]);
    assert Covered(LostMarkListing(), [0] + [2, 1]);
    FirstDifference([2, 1], [1, 0], 0);
  }

  lemma {:induction false} LongOnesDiffer()
    ensures LossHarmless(LostMarkListing())
  {
    var listed := LostMarkListing();
    forall g, to | Adjacent(listed, g, to)
      ensures !Compared(g, to) || |g| <= 1
    {
      assert g != [] ==> g in listed;
    }
  }
}
