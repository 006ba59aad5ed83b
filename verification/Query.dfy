/**
 The left-to-right queries of kenlm/lm/model.cc.  Each loop climbs from the unigram to
 longer n-grams and stops early; each is proved to return the textbook score of the
 whole history and the canonical, minimised state.
 */
module Query {
  import opened NGram

  /** `lm::ngram::State`: the part of the history worth keeping, with its backoffs. */
  datatype State = State(words: Gram, backoff: seq<real>)

  /** `lm::FullScoreReturn`; an extend-left pointer stands for the n-gram it was made from. */
  datatype Return = Return(prob: real, ngramLength: nat, independentLeft: bool, extendLeft: Gram)

  function Backoffs(m: Model, g: Gram, n: nat): (b: seq<real>)
    requires n <= |g|
    ensures |b| == n
  {
    seq(n, i requires 0 <= i < n => BackoffOf(m, g[..i + 1]))
  }

  /** The one state that stands for history `g`. */
  function Canonical(m: Model, g: Gram): State {
    var n := UseLen(m, g);
    State(g[..n], Backoffs(m, g, n))
  }

  /** `s` keeps enough of history `h`; canonical states and the begin-sentence state do. */
  ghost predicate Represents(m: Model, h: Gram, s: State) {
    && UseLen(m, h) <= |s.words| <= |h|
    && |s.words| < m.order
    && s.words == h[..|s.words|]
    && s.backoff == Backoffs(m, h, |s.words|)
  }

  function Sum(b: seq<real>): real {
    if b == [] then 0.0 else Sum(b[..|b| - 1]) + b[|b| - 1]
  }

  lemma {:induction false} SumOfBackoffs(m: Model, h: Gram, lo: nat, hi: nat)
    requires lo <= hi <= |h|
    ensures Sum(Backoffs(m, h, hi)[lo..]) == BackSum(m, h, lo, hi)
  {
    if lo < hi {
      SumOfBackoffs(m, h, lo, hi - 1);
      assert Backoffs(m, h, hi)[lo..][..hi - lo - 1] == Backoffs(m, h, hi - 1)[lo..];
    }
  }

  lemma {:induction false} CanonicalRepresents(m: Model, h: Gram)
    requires Valid(m)
    ensures Represents(m, h, Canonical(m, h))
  {
  }

  /** `std::accumulate` over a slice of backoffs. */
  method Accumulate(b: seq<real>, from: nat, init: real) returns (total: real)
    requires from <= |b|
    ensures total == init + Sum(b[from..])
  {
    total := init;
    for i := from to |b|
      invariant total == init + Sum(b[from..i])
    {
      assert b[from..i + 1][..i - from] == b[from..i];
      total := total + b[i];
    }
    assert b[from..|b|] == b[from..];
  }

  lemma {:induction false} LongerPrefixesMissing(m: Model, g: Gram, k: nat)
    requires Valid(m) && 1 <= k <= |g| && g[..k] !in m.table
    ensures forall j :: k <= j <= |g| ==> g[..j] !in m.table
    ensures MatchLen(m, g, |g|) < k
    ensures UseLen(m, g) < k
    ensures g !in m.table
  {
    forall j | k <= j <= |g|
      ensures g[..j] !in m.table
    {
      assert g[..j][..k] == g[..k];
      if g[..j] in m.table {
        PrefixStored(m, g[..j], k);
      }
    }
    assert g[..|g|] == g;
  }

  /** A clear left flag rules the next lookup out, and the highest order has no next. */
  lemma {:induction false} NoLeftNoLonger(m: Model, g: Gram, w: Word)
    requires Valid(m) && g in m.table && (!m.table[g].left || |g| == m.order)
    ensures g + [w] !in m.table
    ensures |g| == m.order ==> !m.table[g].left
  {
    assert ValidEntry(m, g);
    forall v
      ensures !Longer(m, g, v)
    {
      assert Longer(m, g, v) ==> ValidEntry(m, g + [v]);
    }
    assert !Longer(m, g, w);
  }

  lemma {:induction false} SameLength(m: Model, g: Gram, k: nat)
    requires k <= |g| && MatchLen(m, g, |g|) <= k
    ensures MatchLen(m, g, k) == MatchLen(m, g, |g|)
  {
  }

  lemma {:induction false} SameUse(m: Model, g: Gram, k: nat)
    requires k <= |g| && UseLen(m, g) <= k
    ensures RightLen(m, g, k) == UseLen(m, g)
  {
  }

  method CopyRemainingHistory(word: Word, context: Gram, length: nat, backoff: seq<real>)
    returns (out: State)
    requires length <= |context| + 1 && length <= |backoff|
    ensures out == State(([word] + context)[..length], backoff[..length])
  {
    var words := [word];
    var i := 0;
    while i < length - 1
      invariant 0 <= i <= |context| && (i <= length - 1 || i == 0)
      invariant words == ([word] + context)[..i + 1]
    {
      words := words + [context[i]];
      i := i + 1;
    }
    out := State(words[..length], backoff[..length]);
  }

  /**
   The lookup loop over the middle orders: `ret` describes the longest n-gram reached, and
   `i` counts the words of `context` that it covers.
   */
  method ClimbContext(m: Model, context: Gram, word: Word)
    returns (ret: Return, backoff: seq<real>, length: nat, i: nat, missed: bool)
    requires Valid(m) && [word] in m.table && |context| < m.order
    ensures i <= |context| && i <= m.order - 2
    ensures ([word] + context)[..i + 1] in m.table
    ensures ret == Matched(m, ([word] + context)[..i + 1])
    ensures missed ==> i < |context| && ([word] + context)[..i + 2] !in m.table
    ensures !missed ==> i == |context| || i == m.order - 2
    ensures backoff == Backoffs(m, [word] + context, i + 1)
    ensures length == RightLen(m, [word] + context, i + 1)
  {
    var node := [word];
    var entry := m.table[node];
    ret := Return(entry.prob, 1, !entry.left, node);
    backoff := [entry.backoff];
    length := if entry.right then 1 else 0;
    ghost var g := [word] + context;
    assert g[..1] == node;

    i, missed := 0, false;
    var mid := 0;
    while i < |context| && mid != m.order - 2
      invariant 0 <= i == mid <= |context| && mid <= m.order - 2
      invariant node == g[..i + 1] && node in m.table
      invariant ret == Matched(m, node)
      invariant backoff == Backoffs(m, g, i + 1)
      invariant length == RightLen(m, g, i + 1)
    {
      ghost var next := node + [context[i]];
      assert next == g[..i + 2];
      if ret.independentLeft {
        NoLeftNoLonger(m, node, context[i]);
        missed := true;
        return;
      }
      if node + [context[i]] !in m.table {
        missed := true;
        return;
      }
      node := node + [context[i]];
      entry := m.table[node];
      ret := Return(entry.prob, i + 2, !entry.left, node);
      backoff := backoff + [entry.backoff];
      if entry.right {
        length := i + 2;
      }
      i, mid := i + 1, mid + 1;
    }
  }

  /** What the lookups report of the stored n-gram they have reached. */
  function Matched(m: Model, node: Gram): Return
    requires node in m.table
  {
    Return(m.table[node].prob, |node|, !m.table[node].left, node)
  }

  method ScoreExceptBackoff(m: Model, context: Gram, word: Word) returns (ret: Return, out: State)
    requires Valid(m) && [word] in m.table && |context| < m.order
    ensures ret.ngramLength == MatchLen(m, [word] + context, |context| + 1) >= 1
    ensures ret.prob == m.table[([word] + context)[..ret.ngramLength]].prob
    ensures ret.independentLeft <==> !LeftExtends(m, [word] + context)
    ensures !ret.independentLeft ==> ret.extendLeft == [word] + context
    ensures out == Canonical(m, [word] + context)
  {
    var backoff, length, i, missed;
    ret, backoff, length, i, missed := ClimbContext(m, context, word);
    ghost var g := [word] + context;
    assert g[..|g|] == g;
    if missed {
      LongerPrefixesMissing(m, g, i + 2);
      SameLength(m, g, i + 1);
      ret := ret.(independentLeft := true);
    } else if i < |context| {
      // Every middle lookup succeeded; only the highest order is left.
      assert ret.extendLeft + [context[i]] == g;
      if !ret.independentLeft && ret.extendLeft + [context[i]] in m.table {
        ret := ret.(prob := m.table[ret.extendLeft + [context[i]]].prob, ngramLength := m.order);
      }
      LongestIsLast(m, g, ret.extendLeft);
      ret := ret.(independentLeft := true);
    }
    SameUse(m, g, i + 1);
    out := CopyRemainingHistory(word, context, length, backoff);
  }

  /** An n-gram of the highest order extends no further, and is found by its flag below. */
  lemma {:induction false} LongestIsLast(m: Model, g: Gram, node: Gram)
    requires Valid(m) && |g| == m.order && node == g[..m.order - 1] && node in m.table
    ensures !LeftExtends(m, g)
    ensures !m.table[node].left ==> g !in m.table
    ensures UseLen(m, g) <= m.order - 1
  {
    assert g == node + [g[m.order - 1]] == g[..|g|];
    if g in m.table {
      NoLeftNoLonger(m, g, 0);
    }
    if !m.table[node].left {
      NoLeftNoLonger(m, node, g[m.order - 1]);
    }
  }

  // ---------------------------------------------------------------- the public queries

  /**
   Any state that keeps enough of history `h` yields the textbook score of `word` after
   the whole of `h`, and the canonical state of the history extended by `word`.
   */
  method FullScore(m: Model, inState: State, word: Word, ghost h: Gram)
    returns (ret: Return, out: State)
    requires Valid(m) && [word] in m.table && Represents(m, h, inState)
    ensures ret.prob == Score(m, [word] + h)
    ensures ret.ngramLength == MatchLen(m, [word] + h, |h| + 1)
    ensures out == Canonical(m, [word] + h)
    ensures ret.independentLeft <==> !LeftExtends(m, [word] + inState.words)
    ensures !ret.independentLeft ==> ret.extendLeft == [word] + inState.words
  {
    ret, out := ScoreExceptBackoff(m, inState.words, word);
    ghost var k := |inState.words|;
    if ret.ngramLength - 1 < |inState.words| {
      var prob := Accumulate(inState.backoff, ret.ngramLength - 1, ret.prob);
      ret := ret.(prob := prob);
      SumOfBackoffs(m, h, ret.ngramLength - 1, k);
    }
    MatchedPlusBackoffIsScore(m, word, h, k, ret.ngramLength);
    CutHistory(m, word, h, k);
  }

  /** The score from a cut history, in the form the queries compute it. */
  lemma {:induction false} MatchedPlusBackoffIsScore(m: Model, x: Word, h: Gram, k: nat, n: nat)
    requires Valid(m) && [x] in m.table && UseLen(m, h) <= k <= |h|
    requires n == MatchLen(m, [x] + h[..k], k + 1) >= 1
    ensures Score(m, [x] + h) == m.table[([x] + h[..k])[..n]].prob + BackSum(m, h, n - 1, k)
  {
    var c := [x] + h[..k];
    KatzIsMatchPlusBackoff(m, c, |c|, n);
    assert c[1..] == h[..k];
    BackSumDependsOnPrefix(m, h[..k], h, n - 1, k);
    ScoreOfCutHistory(m, x, h, k);
  }

  /** Match length and canonical state do not see the words cut off either. */
  lemma {:induction false} CutHistory(m: Model, x: Word, h: Gram, k: nat)
    requires Valid(m) && [x] in m.table && UseLen(m, h) <= k <= |h|
    ensures MatchLen(m, [x] + h, |h| + 1) == MatchLen(m, [x] + h[..k], k + 1)
    ensures Canonical(m, [x] + h) == Canonical(m, [x] + h[..k])
  {
    var g, c := [x] + h, [x] + h[..k];
    assert forall j :: 0 <= j <= k + 1 ==> g[..j] == c[..j];
    UseOfCutHistory(m, x, h, k);
    forall j | k + 1 < j <= |g|
      ensures g[..j] !in m.table
    {
      assert g[..j] == [x] + h[..j - 1];
      if g[..j] in m.table {
        HistoryOfStoredIsUsed(m, x, h, j - 1);
      }
    }
    assert Backoffs(m, g, UseLen(m, g)) == Backoffs(m, c, UseLen(m, g));
  }

  /** The backoffs of the histories of length `start` to `n`, up to the first one unlisted. */
  method AddBackoffs(m: Model, context: Gram, start: nat, n: nat, matched: real) returns (prob: real)
    requires Valid(m) && Known(m, context) && 1 <= start <= n <= |context| && n < m.order
    ensures prob == matched + BackSum(m, context, start - 1, n)
  {
    prob := matched;
    var start := start;
    ghost var first := start - 1;
    if start <= 1 {
      assert [context[0]] == context[..1];
      prob := prob + m.table[[context[0]]].backoff;
      start := 2;
    }
    // FastMakeNode folds the words without looking them up.
    var node := context[..start - 1];
    var i := start - 1;
    while i < n
      invariant first <= i <= n
      invariant node == context[..i]
      invariant prob == matched + BackSum(m, context, first, i)
    {
      node := node + [context[i]];
      assert node == context[..i + 1];
      if node !in m.table {
        LongerPrefixesMissing(m, context, i + 1);
        BackSumOfForgotten(m, context, i, n);
        BackSumSplit(m, context, first, i, n);
        return;
      }
      prob := prob + m.table[node].backoff;
      i := i + 1;
    }
  }

  /** Scoring from the raw history agrees with scoring from a kept state. */
  method FullScoreForgotState(m: Model, context: Gram, word: Word) returns (ret: Return, out: State)
    requires Valid(m) && [word] in m.table && Known(m, context)
    ensures ret.prob == Score(m, [word] + context)
    ensures ret.ngramLength == MatchLen(m, [word] + context, |context| + 1)
    ensures out == Canonical(m, [word] + context)
    ensures var c := [word] + context[..if |context| < m.order - 1 then |context| else m.order - 1];
            (ret.independentLeft <==> !LeftExtends(m, c)) && (!ret.independentLeft ==> ret.extendLeft == c)
  {
    var n := if |context| < m.order - 1 then |context| else m.order - 1;
    ret, out := ScoreExceptBackoff(m, context[..n], word);
    CutHistory(m, word, context, n);
    MatchedPlusBackoffIsScore(m, word, context, n, ret.ngramLength);
    if ret.ngramLength <= n {
      var prob := AddBackoffs(m, context, ret.ngramLength, n, ret.prob);
      ret := ret.(prob := prob);
    }
  }

  /** The state of a raw history is the canonical one. */
  method GetState(m: Model, context: Gram) returns (out: State)
    requires Valid(m) && Known(m, context)
    ensures out == Canonical(m, context)
  {
    var n := if |context| < m.order - 1 then |context| else m.order - 1;
    if n == 0 {
      out := State([], []);
      return;
    }
    var node := [context[0]];
    assert context[..1] == node;
    var backoff := [m.table[node].backoff];
    var length := if m.table[node].right then 1 else 0;
    var i := 1;
    while i < n
      invariant 1 <= i <= n
      invariant node == context[..i] && node in m.table
      invariant backoff == Backoffs(m, context, i)
      invariant length == RightLen(m, context, i)
    {
      node := node + [context[i]];
      assert node == context[..i + 1];
      if node !in m.table {
        LongerPrefixesMissing(m, context, i + 1);
        SameUse(m, context, i);
        out := State(context[..length], backoff[..length]);
        return;
      }
      backoff := backoff + [m.table[node].backoff];
      if m.table[node].right {
        length := i + 1;
      }
      i := i + 1;
    }
    SameUse(m, context, n);
    out := State(context[..length], backoff[..length]);
  }

  // ---------------------------------------------------------------- whole sequences

  /** The states the model hands out to start a sentence or a fragment. */
  function BeginSentenceState(m: Model, bos: Word): State
    requires [bos] in m.table
  {
    State([bos], [m.table[[bos]].backoff])
  }

  const NULL_CONTEXT: State := State([], [])

  lemma {:induction false} StartStatesRepresent(m: Model, bos: Word)
    requires Valid(m) && [bos] in m.table
    ensures Represents(m, [bos], BeginSentenceState(m, bos))
    ensures Represents(m, [], NULL_CONTEXT)
  {
    assert [bos][..1] == [bos];
  }

  /** The history before `text[i]`, newest word first, when `text` is read after `h`. */
  function History(text: seq<Word>, h: Gram, i: nat): Gram
    requires i <= |text|
  {
    if i == 0 then h else [text[i - 1]] + History(text, h, i - 1)
  }

  /**
   Chaining FullScore through minimised states along any text gives every word its
   textbook score over its full history.
   */
  method ScoreText(m: Model, start: State, text: seq<Word>, ghost h: Gram)
    returns (probs: seq<real>, out: State)
    requires Valid(m) && Known(m, text) && Represents(m, h, start)
    ensures |probs| == |text|
    ensures forall i :: 0 <= i < |text| ==> probs[i] == Score(m, History(text, h, i + 1))
    ensures Represents(m, History(text, h, |text|), out)
    ensures text != [] ==> out == Canonical(m, History(text, h, |text|))
  {
    probs, out := [], start;
    for i := 0 to |text|
      invariant |probs| == i
      invariant forall j :: 0 <= j < i ==> probs[j] == Score(m, History(text, h, j + 1))
      invariant Represents(m, History(text, h, i), out)
      invariant i > 0 ==> out == Canonical(m, History(text, h, i))
    {
      var ret, next := FullScore(m, out, text[i], History(text, h, i));
      CanonicalRepresents(m, History(text, h, i + 1));
      probs, out := probs + [ret.prob], next;
    }
  }

  /** Equal states score every continuation alike, however different the histories were. */
  lemma {:induction false} EqualStatesEqualFutures(m: Model, h: Gram, h': Gram, g: Gram)
    requires Valid(m) && Known(m, g)
    requires Canonical(m, h).words == Canonical(m, h').words
    ensures Canonical(m, h) == Canonical(m, h')
    ensures Total(m, g, h) == Total(m, g, h')
    ensures Canonical(m, g + h) == Canonical(m, g + h')
  {
    EqualWordsEqualStates(m, h, h');
    if g == [] {
      assert g + h == h && g + h' == h';
    } else {
      var q, q' := g[1..] + h, g[1..] + h';
      EqualStatesEqualFutures(m, h, h', g[1..]);
      assert g + h == [g[0]] + q && g + h' == [g[0]] + q';
      StepFromState(m, g[0], q);
      StepFromState(m, g[0], q');
    }
  }

  lemma {:induction false} EqualWordsEqualStates(m: Model, h: Gram, h': Gram)
    requires Canonical(m, h).words == Canonical(m, h').words
    ensures Canonical(m, h) == Canonical(m, h')
  {
    var n := UseLen(m, h);
    assert n == |h[..n]| == |h'[..UseLen(m, h')]| == UseLen(m, h');
    assert forall j :: 0 <= j <= n ==> h[..j] == h[..n][..j] && h'[..j] == h'[..n][..j];
  }

  /** One word from a state does all that it does from the history. */
  lemma {:induction false} StepFromState(m: Model, x: Word, h: Gram)
    requires Valid(m) && [x] in m.table
    ensures Score(m, [x] + h) == Score(m, [x] + Canonical(m, h).words)
    ensures Canonical(m, [x] + h) == Canonical(m, [x] + Canonical(m, h).words)
  {
    ScoreOfCutHistory(m, x, h, UseLen(m, h));
    CutHistory(m, x, h, UseLen(m, h));
  }

  /** Only the newest Order - 1 words of a history are ever consulted. */
  lemma {:induction false} HistoryCutToOrder(m: Model, x: Word, h: Gram)
    requires Valid(m) && [x] in m.table && |h| >= m.order - 1
    ensures Score(m, [x] + h) == Score(m, [x] + h[..m.order - 1])
  {
    ScoreOfCutHistory(m, x, h, m.order - 1);
  }

  // ---------------------------------------------------------------- extending to the left

  /** How many words of `add` matter to whatever follows the n-gram `pointer` + `add`. */
  function NextUse(m: Model, pointer: Gram, add: Gram): (n: nat)
    ensures n <= |add|
  {
    NextUseAt(m, pointer + add, |pointer|, |pointer| + |add|)
  }

  function NextUseAt(m: Model, g: Gram, p: nat, k: nat): (n: nat)
    requires p <= k <= |g|
    ensures n <= k - p
  {
    var use := RightLen(m, g, k);
    if use > p then use - p else 0
  }

  /** The backoffs of the histories `c[..p+1]`, `c[..p+2]`, up to `c`. */
  function BackoffsFrom(m: Model, c: Gram, p: nat): (b: seq<real>)
    requires p <= |c|
    ensures |b| == |c| - p
  {
    seq(|c| - p, i requires 0 <= i < |c| - p => BackoffOf(m, c[..p + i + 1]))
  }

  /**
   The lookup loop of ExtendLeft over the middle orders: `ret` describes the longest
   n-gram reached and `i` counts the words of `add` that it covers.
   */
  method Climb(m: Model, add: Gram, pointer: Gram)
    returns (ret: Return, backoffOut: seq<real>, nextUse: nat, i: nat, missed: bool)
    requires Valid(m) && LeftExtends(m, pointer)
    ensures i <= |add| && |pointer| + i < m.order
    ensures (pointer + add)[..|pointer| + i] in m.table
    ensures ret.extendLeft == (pointer + add)[..|pointer| + i] && ret.ngramLength == |pointer| + i
    ensures ret.prob == m.table[ret.extendLeft].prob && ret.independentLeft == !m.table[ret.extendLeft].left
    ensures missed ==> i < |add| && (pointer + add)[..|pointer| + i + 1] !in m.table
    ensures !missed ==> i == |add| || |pointer| + i == m.order - 1
    ensures nextUse == NextUseAt(m, pointer + add, |pointer|, |pointer| + i)
    ensures |backoffOut| == i
    ensures forall j :: 0 <= j < i ==> backoffOut[j] == BackoffOf(m, (pointer + add)[..|pointer| + j + 1])
  {
    var node := pointer;
    ret := Return(m.table[pointer].prob, |pointer|, false, pointer);
    nextUse, backoffOut := 0, [];
    ghost var g, p := pointer + add, |pointer|;
    assert g[..p] == pointer;
    LeftExtendsBelowOrder(m, pointer);

    i, missed := 0, false;
    var mid := |pointer| - 1;
    while i < |add| && mid != m.order - 2
      invariant 0 <= i <= |add| && mid == p - 1 + i <= m.order - 2
      invariant node == g[..p + i] && node in m.table
      invariant ret == Return(m.table[node].prob, p + i, !m.table[node].left, node)
      invariant |backoffOut| == i
      invariant forall j :: 0 <= j < i ==> backoffOut[j] == BackoffOf(m, g[..p + j + 1])
      invariant nextUse == NextUseAt(m, g, p, p + i)
    {
      ghost var next := node + [add[i]];
      assert next == g[..p + i + 1];
      if ret.independentLeft {
        NoLeftNoLonger(m, node, add[i]);
        missed := true;
        return;
      }
      if node + [add[i]] !in m.table {
        missed := true;
        return;
      }
      node := node + [add[i]];
      var entry := m.table[node];
      ret := Return(entry.prob, mid + 2, !entry.left, node);
      backoffOut := backoffOut + [entry.backoff];
      if entry.right {
        nextUse := i + 1;
      }
      i, mid := i + 1, mid + 1;
    }
  }

  /**
   Re-scores the newest word of `pointer` when the words `add` are put to the left of it.
   The returned probability is relative to the one already charged for `pointer`.
   */
  method ExtendLeft(m: Model, add: Gram, backoffIn: seq<real>, pointer: Gram)
    returns (ret: Return, backoffOut: seq<real>, nextUse: nat)
    requires Valid(m) && LeftExtends(m, pointer) && |pointer| + |add| <= m.order
    requires pointer != [] && backoffIn == BackoffsFrom(m, (pointer + add)[1..], |pointer| - 1)
    ensures ret.prob == Score(m, pointer + add) - m.table[pointer].prob
    ensures ret.ngramLength == MatchLen(m, pointer + add, |pointer| + |add|)
    ensures ret.independentLeft <==> !LeftExtends(m, pointer + add)
    ensures !ret.independentLeft ==> ret.extendLeft == pointer + add
    ensures nextUse == NextUse(m, pointer, add) <= |backoffOut|
    ensures forall i :: 0 <= i < nextUse ==> backoffOut[i] == BackoffOf(m, (pointer + add)[..|pointer| + i + 1])
  {
    var subtract := m.table[pointer].prob;
    var i, missed;
    ret, backoffOut, nextUse, i, missed := Climb(m, add, pointer);
    ghost var g, p := pointer + add, |pointer|;
    assert g[..|g|] == g;
    if missed {
      LongerPrefixesMissing(m, g, p + i + 1);
      SameUse(m, g, p + i);
      RelativeScore(m, g, p + i, p);
      var prob := Accumulate(backoffIn, ret.ngramLength - |pointer|, ret.prob);
      ret := ret.(independentLeft := true, prob := prob);
    } else if i < |add| {
      // Only the highest order is left.
      assert g[..p + i] + [add[i]] == g;
      assert g[1..][..p + i] == g[1..m.order];
      if !ret.independentLeft && ret.extendLeft + [add[i]] in m.table {
        ret := ret.(prob := m.table[ret.extendLeft + [add[i]]].prob, ngramLength := m.order);
      } else {
        if ret.independentLeft {
          NoLeftNoLonger(m, ret.extendLeft, add[i]);
        }
        ret := ret.(prob := ret.prob + backoffIn[i]);
      }
      HighestOrderScore(m, g);
      if LeftExtends(m, g) {
        LeftExtendsBelowOrder(m, g);
      }
      SameUse(m, g, p + i);
      ret := ret.(independentLeft := true);
    }
    ret := ret.(prob := ret.prob - subtract);
  }

  lemma {:induction false} HighestOrderScore(m: Model, g: Gram)
    requires 2 <= m.order == |g| && g[..m.order - 1] in m.table
    ensures Score(m, g) == if g in m.table then m.table[g].prob
                           else m.table[g[..m.order - 1]].prob + BackoffOf(m, g[1..m.order])
  {
    assert g[..m.order] == g;
    assert Katz(m, g, m.order - 1) == m.table[g[..m.order - 1]].prob;
  }

  lemma {:induction false} LeftExtendsBelowOrder(m: Model, g: Gram)
    requires Valid(m) && LeftExtends(m, g)
    ensures 1 <= |g| < m.order
  {
    assert ValidEntry(m, g);
  }

  /** Backing off from `g` down to its longest stored prefix of length `n`. */
  lemma {:induction false} RelativeScore(m: Model, g: Gram, n: nat, p: nat)
    requires 1 <= p <= n < |g|
    requires g[..n] in m.table
    requires forall j :: n < j <= |g| ==> g[..j] !in m.table
    ensures Score(m, g) == m.table[g[..n]].prob + Sum(BackoffsFrom(m, g[1..], p - 1)[n - p..])
  {
    KatzIsMatchPlusBackoff(m, g, |g|, n);
    SumIsBackSum(m, g[1..], p - 1, n - p);
  }

  lemma {:induction false} SumIsBackSum(m: Model, c: Gram, p: nat, lo: nat)
    requires p + lo <= |c|
    ensures Sum(BackoffsFrom(m, c, p)[lo..]) == BackSum(m, c, p + lo, |c|)
    decreases |c|
  {
    if p + lo < |c| {
      var d := c[..|c| - 1];
      SumIsBackSum(m, d, p, lo);
      assert forall k :: 0 <= k <= |d| ==> d[..k] == c[..k];
      assert BackoffsFrom(m, c, p)[lo..][..|d| - p - lo] == BackoffsFrom(m, d, p)[lo..];
      BackSumDependsOnPrefix(m, c, d, p + lo, |d|);
      assert c[..|c|] == c;
    }
  }
}
