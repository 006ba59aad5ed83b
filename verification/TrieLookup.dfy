/**
 The trie of kenlm/lm/trie.cc and kenlm/lm/search_trie.hh with plain next pointers: the
 unigrams by word number, and one bit-packed array for each longer order, each entry
 pointing at the first of its children in the array of the next order.

 Entries are appended in pre-order; a lookup walks down by interpolation search inside
 the children of the current node.
 */
module TrieLookup {
  import opened Lexicographic
  import opened BitPacking
  import opened PackedArray

  /** The codes of the log-probability and of the backoff. */
  datatype Weights = Weights(prob: nat, backoff: nat)

  datatype Node = Node(word: nat, weights: Weights, next: nat)

  /** `NodeRange`: the children of a node in the array of the next order. */
  datatype Range = Range(begin: nat, end: nat)

  // ---------------------------------------------------------------- interpolation search

  const WORD_LIMIT := 0x1_0000_0000
  const INDEX_LIMIT := 0x1_0000_0000_0000_0000

  /** Unsigned 64-bit arithmetic wraps around. */
  function U64(x: int): (r: int)
    ensures 0 <= r < INDEX_LIMIT
    ensures 0 <= x < INDEX_LIMIT ==> r == x
    ensures -INDEX_LIMIT <= x < 0 ==> r == x + INDEX_LIMIT
  {
    x % INDEX_LIMIT
  }

  /** Pivot32::Calc, which interpolates linearly. */
  function Pivot32(off: int, range: int, width: int): (r: int)
    requires 0 <= off <= range < WORD_LIMIT && 0 < width <= WORD_LIMIT
    ensures 0 <= r < width
  {
    PivotInside(off, range, width);
    U64(off * width) / (range + 1)
  }

  lemma {:induction false} PivotInside(off: int, range: int, width: int)
    requires 0 <= off <= range < WORD_LIMIT && 0 < width <= WORD_LIMIT
    ensures 0 <= off * width < INDEX_LIMIT
    ensures 0 <= (off * width) / (range + 1) < width
  {
    assert off * width <= range * width;
    assert range * width < (range + 1) * width <= WORD_LIMIT * width;
    var q := (off * width) / (range + 1);
    assert q * (range + 1) <= off * width < width * (range + 1);
  }

  predicate Increasing(level: seq<Node>, begin: nat, end: nat)
    requires begin <= end <= |level|
  {
    forall i, j :: begin <= i < j < end ==> level[i].word < level[j].word
  }

  /** Words below the vocabulary size cannot fill a longer sorted range. */
  lemma {:induction false} SortedRangeIsShort(level: seq<Node>, begin: nat, end: nat, maxVocab: nat)
    requires begin <= end <= |level| && Increasing(level, begin, end)
    requires forall i :: begin <= i < end ==> level[i].word <= maxVocab
    ensures end - begin <= maxVocab + 1
    ensures begin < end ==> end - begin <= level[end - 1].word + 1
    decreases end
  {
    if begin < end {
      SortedRangeIsShort(level, begin, end - 1, maxVocab);
      assert level[end - 1].word <= maxVocab;
    }
  }

  /** Wrapped indices still measure distances and land inside the range. */
  lemma {:induction false} WrapsDistance(before: int, after: int)
    requires -1 <= before < after < INDEX_LIMIT - 1
    ensures U64(after - U64(before)) == after - before
  {
  }

  lemma {:induction false} WrapsBack(before: int, after: int, off: int, range: int)
    requires -1 <= before && before + 1 < after < INDEX_LIMIT - 1 && after - before - 1 <= WORD_LIMIT
    requires 0 <= off <= range < WORD_LIMIT
    ensures U64(after - U64(before)) == after - before
    ensures before < U64(U64(before) + (1 + Pivot32(off, range, after - before - 1))) < after
  {
    WrapsDistance(before, after);
    var p := Pivot32(off, range, after - before - 1);
    if before == -1 {
      assert U64(before) + (1 + p) == INDEX_LIMIT + p;
      assert (INDEX_LIMIT + p) % INDEX_LIMIT == p;
    }
  }

  /** after_it - before_it in unsigned arithmetic. */
  method Distance(beforeIt: int, afterIt: int, ghost before: int) returns (d: int)
    requires -1 <= before < afterIt < INDEX_LIMIT - 1 && beforeIt == U64(before)
    ensures d == afterIt - before
  {
    WrapsDistance(before, afterIt);
    d := U64(afterIt - beforeIt);
  }

  /** The pivot between two wrapped bounds. */
  method ChoosePivot(beforeIt: int, off: int, range: int, width: int, ghost before: int) returns (pivot: nat)
    requires -1 <= before && 0 < width <= WORD_LIMIT && before + width + 1 < INDEX_LIMIT - 1
    requires 0 <= off <= range < WORD_LIMIT && beforeIt == U64(before)
    ensures before < pivot <= before + width && U64(pivot) == pivot
  {
    WrapsBack(before, before + width + 1, off, range);
    pivot := U64(beforeIt + (1 + Pivot32(off, range, width)));
  }

  /** The words of a packed array are those of these entries. */
  ghost predicate WordsAre(mem: Bits, l: Layout, level: seq<Node>) {
    forall i: nat {:trigger level[i]} :: i < |level| ==> FieldIs(mem, Place(l, i), l.wordBits, level[i].word)
  }

  /** KeyAccessor. */
  method ReadWord(mem: Bits, l: Layout, i: nat, ghost level: seq<Node>) returns (word: nat)
    requires WordsAre(mem, l, level) && i < |level|
    ensures word == level[i].word
  {
    PlaceIs(l, i);
    assert FieldIs(mem, Place(l, i), l.wordBits, level[i].word);
    word := ReadInt57(mem, i * Total(l), l.wordBits);
  }

  /**
   BoundedSortedUniformFind as FindBitPacked calls it: the lower bound starts at
   begin - 1, which wraps around when the range starts at index zero.
   */
  method FindWord(mem: Bits, l: Layout, range: Range, maxVocab: nat, key: nat, ghost level: seq<Node>)
    returns (found: bool, at: nat)
    requires range.begin <= range.end <= |level| < INDEX_LIMIT - 1 && Increasing(level, range.begin, range.end)
    requires WordsAre(mem, l, level)
    requires key <= maxVocab < WORD_LIMIT - 1
    requires forall i :: range.begin <= i < range.end ==> level[i].word <= maxVocab
    ensures found ==> range.begin <= at < range.end && level[at].word == key
    ensures !found ==> forall i :: range.begin <= i < range.end ==> level[i].word != key
  {
    ghost var before := range.begin - 1;
    var beforeIt, beforeV := U64(range.begin - 1), 0;
    var afterIt, afterV := range.end, maxVocab;
    SortedRangeIsShort(level, range.begin, range.end, maxVocab);
    var distance := Distance(beforeIt, afterIt, before);
    while distance > 1
      invariant range.begin - 1 <= before < afterIt <= range.end && distance == afterIt - before
      invariant beforeIt == U64(before) && 0 <= beforeV <= key <= afterV <= maxVocab
      invariant forall i :: range.begin <= i <= before ==> level[i].word < key
      invariant forall i :: afterIt <= i < range.end ==> level[i].word > key
      decreases distance
    {
      var pivot := ChoosePivot(beforeIt, key - beforeV, afterV - beforeV, distance - 1, before);
      var mid := ReadWord(mem, l, pivot, level);
      if mid < key {
        before := pivot;
        beforeIt, beforeV := pivot, mid;
      } else if mid > key {
        afterIt, afterV := pivot, mid;
      } else {
        return true, pivot;
      }
      distance := Distance(beforeIt, afterIt, before);
    }
    return false, 0;
  }

  // ---------------------------------------------------------------- the arrays

  /** The n-grams behind the entries of one array, in order. */
  ghost predicate LevelOk(level: seq<Node>, keys: seq<Gram>, length: nat, stored: map<Gram, Weights>) {
    && |level| == |keys|
    && (forall i :: 0 <= i < |keys| ==> EntryOk(level[i], keys[i], length, stored))
    && (forall i, j :: 0 <= i < j < |keys| ==> Less(keys[i], keys[j]))
  }

  ghost predicate EntryOk(node: Node, g: Gram, length: nat, stored: map<Gram, Weights>) {
    |g| == length > 0 && node.word == g[length - 1] && g in stored && stored[g] == node.weights
  }

  /** Pointers split the next array at the place where the n-gram itself would sort. */
  ghost predicate Linked(level: seq<Node>, keys: seq<Gram>, below: seq<Gram>) {
    |level| == |keys| && forall i :: 0 <= i < |keys| ==> Splits(level[i].next, keys[i], below)
  }

  ghost predicate Splits(next: nat, g: Gram, below: seq<Gram>) {
    && next <= |below|
    && (forall j :: 0 <= j < next ==> Less(below[j], g))
    && (forall j :: next <= j < |below| ==> Less(g, below[j]))
  }

  ghost predicate Parented(keys: seq<Gram>, below: seq<Gram>) {
    forall j :: 0 <= j < |below| ==> below[j] != [] && below[j][..|below[j]| - 1] in keys
  }

  ghost predicate TrieOk(order: nat, levels: seq<seq<Node>>, keys: seq<seq<Gram>>, stored: map<Gram, Weights>) {
    && order >= 2 && |levels| == |keys| == order
    && (forall o {:trigger levels[o]} :: 0 <= o < order ==> LevelOk(levels[o], keys[o], o + 1, stored))
    && (forall o {:trigger LinkOk(levels, keys, o)} :: 0 <= o < order - 1 ==> LinkOk(levels, keys, o))
    && (forall g {:trigger HasPlace(order, keys, g)} :: g in stored ==> HasPlace(order, keys, g))
  }

  ghost predicate LinkOk(levels: seq<seq<Node>>, keys: seq<seq<Gram>>, o: nat)
    requires o + 1 < |levels| && o + 1 < |keys|
  {
    Linked(levels[o], keys[o], keys[o + 1]) && Parented(keys[o], keys[o + 1])
  }

  ghost predicate HasPlace(order: nat, keys: seq<seq<Gram>>, g: Gram) {
    1 <= |g| <= order && |g| <= |keys| && g in keys[|g| - 1]
  }

  ghost predicate AllBefore(keys: seq<Gram>, g: Gram) {
    forall j :: 0 <= j < |keys| ==> Less(keys[j], g)
  }

  /** Appending an n-gram that sorts last to its own array, or leaving an array alone. */
  lemma {:induction false} LevelAppend(level: seq<Node>, keys: seq<Gram>, length: nat, stored: map<Gram, Weights>,
                                       g: Gram, node: Node)
    requires LevelOk(level, keys, length, stored) && g !in stored
    requires forall h :: h in stored ==> Less(h, g)
    requires |g| > 0 && node.word == g[|g| - 1]
    ensures LevelOk(level, keys, length, stored[g := node.weights])
    ensures |g| == length ==> LevelOk(level + [node], keys + [g], length, stored[g := node.weights])
    ensures AllBefore(keys, g)
  {
    var stored' := stored[g := node.weights];
    forall i | 0 <= i < |keys|
      ensures EntryOk(level[i], keys[i], length, stored') && Less(keys[i], g)
    {
      assert EntryOk(level[i], keys[i], length, stored);
    }
  }

  lemma {:induction false} LinkAppend(level: seq<Node>, keys: seq<Gram>, below: seq<Gram>, g: Gram, node: Node)
    requires Linked(level, keys, below) && Parented(keys, below)
    requires AllBefore(keys, g) && AllBefore(below, g)
    ensures node.next == |below| ==> Linked(level + [node], keys + [g], below) && Parented(keys + [g], below)
    ensures g != [] && g[..|g| - 1] in keys ==> Linked(level, keys, below + [g]) && Parented(keys, below + [g])
  {
    forall i | 0 <= i < |keys|
      ensures Splits(level[i].next, keys[i], below + [g]) && Splits(level[i].next, keys[i], below)
    {
      assert Splits(level[i].next, keys[i], below);
    }
  }

  lemma {:induction false} InsertOk(order: nat, levels: seq<seq<Node>>, keys: seq<seq<Gram>>,
                                    stored: map<Gram, Weights>, g: Gram, node: Node)
    requires TrieOk(order, levels, keys, stored) && 1 <= |g| <= order
    requires forall h :: h in stored ==> Less(h, g)
    requires |g| > 1 ==> g[..|g| - 1] in stored
    requires node.word == g[|g| - 1] && (|g| < order ==> node.next == |levels[|g|]|)
    ensures var o := |g| - 1;
            TrieOk(order, levels[o := levels[o] + [node]], keys[o := keys[o] + [g]], stored[g := node.weights])
  {
    var p := |g| - 1;
    var levels', keys', stored' := levels[p := levels[p] + [node]], keys[p := keys[p] + [g]], stored[g := node.weights];
    LessIrreflexive(g);
    forall o | 0 <= o < order
      ensures LevelOk(levels'[o], keys'[o], o + 1, stored')
      ensures AllBefore(keys[o], g)
    {
      LevelAppend(levels[o], keys[o], o + 1, stored, g, node);
    }
    forall o | 0 <= o < order - 1
      ensures LinkOk(levels', keys', o)
    {
      assert LevelOk(levels[o + 1], keys[o + 1], o + 2, stored);
      if |g| > 1 {
        assert HasPlace(order, keys, g[..p]);
      }
      InsertLink(order, levels, keys, stored, g, node, o);
    }
    forall h | h in stored'
      ensures HasPlace(order, keys', h)
    {
      assert h in stored ==> HasPlace(order, keys, h);
    }
  }

  lemma {:induction false} InsertLink(order: nat, levels: seq<seq<Node>>, keys: seq<seq<Gram>>,
                                      stored: map<Gram, Weights>, g: Gram, node: Node, o: nat)
    requires |levels| == |keys| == order && o + 1 < order && 1 <= |g| <= order
    requires LinkOk(levels, keys, o) && AllBefore(keys[o], g) && AllBefore(keys[o + 1], g)
    requires |levels[o + 1]| == |keys[o + 1]|
    requires |g| == o + 2 ==> g[..|g| - 1] in keys[o]
    requires |g| == o + 1 ==> node.next == |keys[o + 1]|
    ensures LinkOk(levels[|g| - 1 := levels[|g| - 1] + [node]], keys[|g| - 1 := keys[|g| - 1] + [g]], o)
  {
    LinkAppend(levels[o], keys[o], keys[o + 1], g, node);
  }

  // ---------------------------------------------------------------- the arrays as bits

  function RowFor(node: Node): Row {
    Row(node.word, node.weights.prob, node.weights.backoff, node.next)
  }

  function RowsFor(level: seq<Node>): seq<Row> {
    seq(|level|, i requires 0 <= i < |level| => RowFor(level[i]))
  }

  /** The memory holds these entries and, once the array is closed, the pointer behind them. */
  ghost predicate Packs(mem: Bits, l: Layout, entries: nat, level: seq<Node>, closing: seq<Row>) {
    && LayoutOk(l) && Roomy(|mem|, l, entries) && |level| <= entries && |closing| <= 1
    && (forall i {:trigger level[i]} :: 0 <= i < |level| ==> RowFits(l, RowFor(level[i])))
    && (forall i {:trigger closing[i]} :: 0 <= i < |closing| ==> RowFits(l, closing[i]))
    && Holds(mem, l, RowsFor(level) + closing)
  }

  lemma {:induction false} PacksMore(mem: Bits, l: Layout, entries: nat, level: seq<Node>, node: Node)
    requires Packs(mem, l, entries, level, []) && |level| < entries && RowFits(l, RowFor(node))
    ensures Packs(Appended(mem, l, Place(l, |level|), RowFor(node)), l, entries, level + [node], [])
  {
    assert RowsFor(level) + [] == RowsFor(level);
    OneMoreRow(level, node);
    HoldsAppended(mem, l, entries, RowsFor(level), RowFor(node));
  }

  lemma {:induction false} OneMoreRow(level: seq<Node>, node: Node)
    ensures RowsFor(level + [node]) + [] == RowsFor(level) + [RowFor(node)]
  {
  }

  lemma {:induction false} PacksClosed(mem: Bits, l: Layout, entries: nat, level: seq<Node>, end: nat)
    requires Packs(mem, l, entries, level, []) && !l.longest && end < Pow2(l.nextBits)
    ensures Packs(Closed(mem, l, |level|, end), l, entries, level, [Row(0, 0, 0, end)])
  {
    assert RowsFor(level) + [] == RowsFor(level);
    HoldsClosed(mem, l, entries, RowsFor(level), end);
  }

  lemma {:induction false} NothingPacked(l: Layout, entries: nat, mem: Bits)
    requires LayoutOk(l) && Roomy(|mem|, l, entries) && forall k {:trigger mem[k]} :: 0 <= k < |mem| ==> !mem[k]
    ensures Packs(mem, l, entries, [], [])
  {
    assert RowsFor([]) + [] == [];
  }

  /** Entry `i` of a packed array, and the pointer behind it. */
  lemma {:induction false} EntryRead(mem: Bits, l: Layout, entries: nat, level: seq<Node>, closing: seq<Row>, i: nat)
    requires Packs(mem, l, entries, level, closing) && i < |level|
    ensures IsRow(mem, Place(l, i), l, RowFor(level[i]))
    ensures i + 1 < |level| ==> IsRow(mem, Place(l, i + 1), l, RowFor(level[i + 1]))
    ensures i + 1 == |level| && closing != [] ==> IsRow(mem, Place(l, i + 1), l, closing[0])
  {
    var rows := RowsFor(level) + closing;
    RowOf(mem, l, entries, rows, i);
    if i + 1 < |rows| {
      RowOf(mem, l, entries, rows, i + 1);
    }
  }

  lemma {:induction false} WordsPacked(mem: Bits, l: Layout, entries: nat, level: seq<Node>, closing: seq<Row>)
    requires Packs(mem, l, entries, level, closing)
    ensures WordsAre(mem, l, level)
  {
    forall i: nat | i < |level|
      ensures FieldIs(mem, Place(l, i), l.wordBits, level[i].word)
    {
      EntryRead(mem, l, entries, level, closing, i);
      WordRead(mem, Place(l, i), l, RowFor(level[i]));
    }
  }

  // ---------------------------------------------------------------- sizes

  /** More entries of one order than this cannot be addressed. */
  const MAX_ENTRIES: nat := Pow2(57)

  /** The layout is just wide enough for the words, and for the pointers into the next array. */
  predicate LayoutFor(counts: seq<nat>, l: Layout, o: nat)
    requires 1 <= o < |counts|
  {
    && LayoutOk(l) && IsRequired(l.wordBits, counts[0]) && (l.longest <==> o + 1 == |counts|)
    && (o + 1 < |counts| ==> IsRequired(l.nextBits, counts[o + 1]))
  }

  ghost predicate LayoutsFor(counts: seq<nat>, layouts: seq<Layout>) {
    |layouts| == |counts| && forall o {:trigger layouts[o]} :: 1 <= o < |counts| ==> LayoutFor(counts, layouts[o], o)
  }

  ghost predicate WidthsAre(layouts: seq<Layout>, probBits: nat, backoffBits: nat) {
    forall o {:trigger layouts[o]} :: 1 <= o < |layouts| ==>
        layouts[o].probBits == probBits && layouts[o].backoffBits == backoffBits
  }

  /** What the constructors of the arrays of the middle orders check. */
  predicate MiddleFits(counts: seq<nat>, o: int) {
    1 <= o < |counts| - 1 ==> counts[o] + 1 < MAX_ENTRIES && counts[o + 1] < MAX_ENTRIES
  }

  ghost predicate CountsFit(counts: seq<nat>)
    requires counts != []
  {
    counts[0] < MAX_ENTRIES && forall o {:trigger MiddleFits(counts, o)} :: MiddleFits(counts, o)
  }

  lemma {:induction false} Pow2Grows(a: nat, b: nat)
    requires a <= b
    ensures Pow2(a) <= Pow2(b)
    decreases b
  {
    if a < b {
      Pow2Grows(a, b - 1);
    }
  }

  /** A width of at most 57 bits is enough just for values below 2^57. */
  lemma {:induction false} WidthFits(bits: nat, max: nat)
    requires IsRequired(bits, max)
    ensures bits <= 57 <==> max < MAX_ENTRIES
  {
    if bits <= 57 {
      Pow2Grows(bits, 57);
    } else {
      Pow2Grows(57, bits - 1);
    }
  }

  /** The widths for these counts; false stands for the exceptions about too many entries. */
  method ChooseLayouts(counts: seq<nat>, probBits: nat, backoffBits: nat) returns (ok: bool, layouts: seq<Layout>)
    requires |counts| >= 2 && probBits <= 57 && backoffBits <= 57
    ensures ok <==> CountsFit(counts)
    ensures ok ==> LayoutsFor(counts, layouts) && WidthsAre(layouts, probBits, backoffBits)
  {
    var wordBits := RequiredBits(counts[0]);
    WidthFits(wordBits, counts[0]);
    ok, layouts := wordBits <= 57, [Layout(0, 0, 0, 0, false)];
    for o := 1 to |counts|
      invariant |layouts| == o
      invariant ok <==> counts[0] < MAX_ENTRIES && forall x {:trigger MiddleFits(counts, x)} :: x < o ==>
                  MiddleFits(counts, x)
      invariant ok ==> forall x {:trigger layouts[x]} :: 1 <= x < o ==> LayoutFor(counts, layouts[x], x)
      invariant WidthsAre(layouts, probBits, backoffBits)
    {
      assert ok ==> (MiddleFits(counts, o) <==>
          (o + 1 < |counts| ==> counts[o] + 1 < MAX_ENTRIES && counts[o + 1] < MAX_ENTRIES));
      if o + 1 == |counts| {
        layouts := layouts + [Layout(wordBits, probBits, backoffBits, 0, true)];
      } else {
        ok := ok && counts[o] + 1 < MAX_ENTRIES && counts[o + 1] < MAX_ENTRIES;
        var nextBits := RequiredBits(counts[o + 1]);
        WidthFits(nextBits, counts[o + 1]);
        layouts := layouts + [Layout(wordBits, probBits, backoffBits, nextBits, false)];
      }
    }
  }

  // ---------------------------------------------------------------- the trie

  ghost predicate WordsInside(level: seq<Node>, maxVocab: nat) {
    forall i {:trigger level[i]} :: 0 <= i < |level| ==> level[i].word <= maxVocab
  }

  /** A closed array of a middle order ends with a pointer to the end of the next array. */
  ghost function Closing(closed: bool, levels: seq<seq<Node>>, o: nat): seq<Row> {
    if closed && o + 1 < |levels| then [Row(0, 0, 0, |levels[o + 1]|)] else []
  }

  predicate CodesFit(l: Layout, w: Weights) {
    w.prob < Pow2(l.probBits) && (!l.longest ==> w.backoff < Pow2(l.backoffBits))
  }

  /** N-grams of the highest order have no backoff. */
  function Kept(order: nat, g: Gram, w: Weights): Weights {
    if |g| == order then w.(backoff := 0) else w
  }

  /** Array `o` holds its level in bits. */
  ghost predicate ArrayOk(counts: seq<nat>, l: Layout, mem: Bits, inserted: nat, levels: seq<seq<Node>>, closed: bool,
                          o: nat)
    requires 1 <= o < |levels| == |counts|
  {
    && inserted == |levels[o]| && WordsInside(levels[o], counts[0])
    && Packs(mem, l, counts[o], levels[o], Closing(closed, levels, o))
  }

  ghost predicate ArraysOk(counts: seq<nat>, layouts: seq<Layout>, mems: seq<Bits>, inserted: seq<nat>,
                           levels: seq<seq<Node>>, closed: bool) {
    && |counts| == |mems| == |inserted| == |levels| && LayoutsFor(counts, layouts)
    && forall o {:trigger mems[o]} :: 1 <= o < |mems| ==>
         ArrayOk(counts, layouts[o], mems[o], inserted[o], levels, closed, o)
  }

  lemma {:induction false} EmptyArray(counts: seq<nat>, layouts: seq<Layout>, o: nat, mem: Bits)
    requires LayoutsFor(counts, layouts) && 1 <= o < |counts|
    requires Roomy(|mem|, layouts[o], counts[o]) && forall k {:trigger mem[k]} :: 0 <= k < |mem| ==> !mem[k]
    ensures ArrayOk(counts, layouts[o], mem, 0, seq(|counts|, _ => []), false, o)
  {
    assert LayoutFor(counts, layouts[o], o);
    NothingPacked(layouts[o], counts[o], mem);
  }

  /** One more entry fits its array. */
  lemma {:induction false} ArrayMore(counts: seq<nat>, l: Layout, mem: Bits, levels: seq<seq<Node>>, o: nat, node: Node)
    requires 1 <= o < |levels| == |counts| && ArrayOk(counts, l, mem, |levels[o]|, levels, false, o)
             && LayoutFor(counts, l, o)
    requires |levels[o]| < counts[o] && node.word <= counts[0] && CodesFit(l, node.weights)
    requires node.next == if o + 1 < |levels| then |levels[o + 1]| else 0
    requires o + 1 < |levels| ==> |levels[o + 1]| <= counts[o + 1]
    ensures ArrayOk(counts, l, Appended(mem, l, Place(l, |levels[o]|), RowFor(node)), |levels[o]| + 1,
                    levels[o := levels[o] + [node]], false, o)
  {
    PacksMore(mem, l, counts[o], levels[o], node);
  }

  lemma {:induction false} ArrayClosed(counts: seq<nat>, l: Layout, mem: Bits, levels: seq<seq<Node>>, o: nat)
    requires 1 <= o < |levels| - 1 && |levels| == |counts| && ArrayOk(counts, l, mem, |levels[o]|, levels, false, o)
    requires LayoutFor(counts, l, o) && |levels[o + 1]| <= counts[o + 1]
    ensures ArrayOk(counts, l, Closed(mem, l, |levels[o]|, |levels[o + 1]|), |levels[o]|, levels, true, o)
  {
    PacksClosed(mem, l, counts[o], levels[o], |levels[o + 1]|);
  }

  /** Appending to one array, or to the unigrams, leaves the others as they are. */
  lemma {:induction false} ArraysMore(counts: seq<nat>, layouts: seq<Layout>, mems: seq<Bits>, inserted: seq<nat>,
                                      levels: seq<seq<Node>>, o: nat, node: Node)
    requires ArraysOk(counts, layouts, mems, inserted, levels, false) && o < |levels|
    requires o > 0 ==> |levels[o]| < counts[o] && node.word <= counts[0] && CodesFit(layouts[o], node.weights)
    requires node.next == if o + 1 < |levels| then |levels[o + 1]| else 0
    ensures var levels' := levels[o := levels[o] + [node]];
            if o == 0 then ArraysOk(counts, layouts, mems, inserted, levels', false)
            else ArraysOk(counts, layouts,
              mems[o := Appended(mems[o], layouts[o], Place(layouts[o], inserted[o]), RowFor(node))],
                          inserted[o := inserted[o] + 1], levels', false)
  {
    var levels' := levels[o := levels[o] + [node]];
    forall x | 1 <= x < |levels| && x != o
      ensures ArrayOk(counts, layouts[x], mems[x], inserted[x], levels', false, x)
    {
      assert ArrayOk(counts, layouts[x], mems[x], inserted[x], levels, false, x);
    }
    if o > 0 {
      assert ArrayOk(counts, layouts[o], mems[o], inserted[o], levels, false, o) && LayoutFor(counts, layouts[o], o);
      assert o + 1 < |levels| ==> ArrayOk(counts, layouts[o + 1], mems[o + 1], inserted[o + 1], levels, false, o + 1);
      ArrayMore(counts, layouts[o], mems[o], levels, o, node);
    }
  }

  class Trie {
    const order: nat
    const counts: seq<nat>
    const layouts: seq<Layout>

    /** By word number, the last one past the vocabulary. */
    var unigrams: seq<Node>

    /** For each longer order the packed memory, and how many entries it holds. */
    var mems: seq<Bits>
    var inserted: seq<nat>

    /** The entries and the n-grams behind them, array by array, and the map the trie stands for. */
    ghost var levels: seq<seq<Node>>
    ghost var keys: seq<seq<Gram>>
    ghost var stored: map<Gram, Weights>
    ghost var closed: bool

    ghost predicate Valid()
      reads this
    {
      && TrieOk(order, levels, keys, stored) && unigrams == levels[0]
      && |counts| == order && ArraysOk(counts, layouts, mems, inserted, levels, closed)
    }

    /** Zeroed memory for these counts. */
    constructor (counts: seq<nat>, layouts: seq<Layout>)
      requires |counts| >= 2 && LayoutsFor(counts, layouts)
      ensures Valid() && order == |counts| && this.counts == counts && this.layouts == layouts
      ensures stored == map[] && !closed && levels == seq(order, _ => [])
    {
      order := |counts|;
      this.counts, this.layouts := counts, layouts;
      unigrams := [];
      mems := seq(|counts|, o requires 0 <= o < |counts| => ZeroMemory(counts[o], layouts[o]));
      inserted := seq(|counts|, _ => 0);
      levels := seq(|counts|, _ => []);
      keys := seq(|counts|, _ => []);
      stored := map[];
      closed := false;
      new;
      forall o | 1 <= o < order
        ensures ArrayOk(counts, layouts[o], mems[o], inserted[o], levels, closed, o)
      {
        EmptyArray(counts, layouts, o, mems[o]);
      }
    }

    /** Appends one n-gram; the caller proceeds in pre-order, and there is room for it. */
    method Insert(g: Gram, weights: Weights)
      requires Valid() && !closed && 1 <= |g| <= order
      requires forall h :: h in stored ==> Less(h, g)
      requires |g| > 1 ==> g[..|g| - 1] in stored
      requires |g| > 1 ==>
                 |levels[|g| - 1]| < counts[|g| - 1] && g[|g| - 1] <= counts[0] && CodesFit(layouts[|g| - 1], weights)
      modifies this
      ensures Valid() && !closed && stored == old(stored)[g := Kept(order, g, weights)]
      ensures forall o {:trigger levels[o]} :: 0 <= o < order ==>
                |levels[o]| == old(|levels[o]|) + if o + 1 == |g| then 1 else 0
    {
      var next := if |g| < order then inserted[|g|] else 0;
      assert |g| < order ==> ArrayOk(counts, layouts[|g|], mems[|g|], inserted[|g|], levels, closed, |g|);
      Append(g, Node(g[|g| - 1], Kept(order, g, weights), next));
    }

    method Append(g: Gram, node: Node)
      requires Valid() && !closed && 1 <= |g| <= order && node.word == g[|g| - 1]
      requires forall h :: h in stored ==> Less(h, g)
      requires |g| > 1 ==> g[..|g| - 1] in stored
      requires |g| > 1 ==>
                 |levels[|g| - 1]| < counts[|g| - 1] && node.word <= counts[0]
                   && CodesFit(layouts[|g| - 1], node.weights)
      requires node.next == if |g| < order then |levels[|g|]| else 0
      modifies this
      ensures Valid() && !closed && stored == old(stored)[g := node.weights]
      ensures levels == old(levels)[|g| - 1 := old(levels)[|g| - 1] + [node]]
    {
      var o := |g| - 1;
      InsertOk(order, levels, keys, stored, g, node);
      ArraysMore(counts, layouts, mems, inserted, levels, o, node);
      if o == 0 {
        unigrams := unigrams + [node];
      } else {
        mems := mems[o := Appended(mems[o], layouts[o], Place(layouts[o], inserted[o]), RowFor(node))];
        inserted := inserted[o := inserted[o] + 1];
      }
      levels := levels[o := levels[o] + [node]];
      keys := keys[o := keys[o] + [g]];
      stored := stored[g := node.weights];
    }

    /** Sets the ending pointers of the middle orders. */
    method FinishedLoading()
      requires Valid() && !closed
      modifies this
      ensures Valid() && closed && stored == old(stored) && keys == old(keys) && levels == old(levels)
    {
      var after := mems;
      for o := 1 to order - 1
        invariant |after| == order
        invariant forall x {:trigger after[x]} :: 0 <= x < order ==>
                    after[x] == if 1 <= x < o then Closed(mems[x], layouts[x], inserted[x], inserted[x + 1])
                      else mems[x]
      {
        after := after[o := Closed(mems[o], layouts[o], inserted[o], inserted[o + 1])];
      }
      forall o | 1 <= o < order
        ensures ArrayOk(counts, layouts[o], after[o], inserted[o], levels, true, o)
      {
        assert ArrayOk(counts, layouts[o], mems[o], inserted[o], levels, closed, o);
        if o < order - 1 {
          assert ArrayOk(counts, layouts[o + 1], mems[o + 1], inserted[o + 1], levels, closed, o + 1);
          assert LayoutFor(counts, layouts[o], o);
          ArrayClosed(counts, layouts[o], mems[o], levels, o);
        }
      }
      mems, closed := after, true;
    }

    /** ReadNext: the children of an entry; behind the last one stands the closing pointer. */
    method ReadNext(o: nat, i: nat) returns (range: Range)
      requires Valid() && closed && o < order - 1 && i < |levels[o]| && (o == 0 ==> i + 1 < |unigrams|)
      ensures range.begin <= range.end <= |keys[o + 1]| == |levels[o + 1]|
      ensures |levels[o]| == |keys[o]| && ChildrenAt(keys[o + 1], keys[o][i], range)
      ensures Increasing(levels[o + 1], range.begin, range.end)
    {
      RangeOf(order, levels, keys, stored, o, i);
      if o == 0 {
        range := Range(unigrams[i].next, unigrams[i + 1].next);
      } else {
        assert ArrayOk(counts, layouts[o], mems[o], inserted[o], levels, closed, o);
        assert LayoutFor(counts, layouts[o], o);
        range := ReadRange(mems[o], layouts[o], i, counts[o], levels[o], Closing(closed, levels, o));
      }
    }

    /** Words and sizes the search is made for; unigrams stand at their word numbers. */
    ghost predicate Sized(g: Gram)
      reads this
      requires Valid()
    {
      && 1 <= |g| <= order && counts[0] < WORD_LIMIT - 1 && (forall i :: 0 <= i < |g| ==> g[i] <= counts[0])
      && (forall o {:trigger levels[o]} :: 0 <= o < order ==> |levels[o]| < INDEX_LIMIT - 1)
      && g[0] + 1 < |keys[0]| && (forall w :: 0 <= w < |keys[0]| ==> keys[0][w] == [w])
    }

    /** The steps down from the unigram, each by one search between two pointers. */
    method Descend(g: Gram) returns (found: bool, i: nat)
      requires Valid() && closed && Sized(g)
      ensures found ==> i < |levels[|g| - 1]| == |keys[|g| - 1]| && keys[|g| - 1][i] == g
      ensures |g| == 1 ==> found && i == g[0]
      ensures !found ==> g !in stored
    {
      i := g[0];
      assert LevelOk(levels[0], keys[0], 1, stored);
      assert g[..1] == [g[0]] == keys[0][i];
      for o := 1 to |g|
        invariant i < |levels[o - 1]| == |keys[o - 1]| && keys[o - 1][i] == g[..o]
        invariant o == 1 ==> i == g[0]
      {
        var range := ReadNext(o - 1, i);
        var at;
        assert ArrayOk(counts, layouts[o], mems[o], inserted[o], levels, closed, o);
        WordsPacked(mems[o], layouts[o], counts[o], levels[o], Closing(closed, levels, o));
        found, at := FindWord(mems[o], layouts[o], range, counts[0], g[o], levels[o]);
        if !found {
          NotStored(order, levels, keys, stored, g, o, range);
          return;
        }
        EntryFound(order, levels, keys, stored, g, o, at);
        i := at;
      }
      assert g[..|g|] == g;
      found := true;
    }

    /** The weights of entry `i` of order `o` + 1. */
    method ReadWeights(o: nat, i: nat) returns (weights: Weights)
      requires Valid() && o < order && i < |levels[o]|
      ensures weights.prob == levels[o][i].weights.prob
      ensures weights.backoff == if o + 1 == order then 0 else levels[o][i].weights.backoff
    {
      if o == 0 {
        return unigrams[i].weights;
      }
      assert ArrayOk(counts, layouts[o], mems[o], inserted[o], levels, closed, o);
      assert LayoutFor(counts, layouts[o], o);
      weights := ReadCodes(mems[o], layouts[o], i, counts[o], levels[o], Closing(closed, levels, o));
    }

    /**
     Walks down from the unigram.  The trie finds exactly the stored n-grams, with their
     weights, and reports them independent of the left exactly when they have no child.
     */
    method Lookup(g: Gram) returns (found: bool, weights: Weights, independentLeft: bool)
      requires Valid() && closed && Sized(g)
      ensures found <==> g in stored
      ensures found ==> weights == stored[g].(backoff := if |g| == order then 0 else stored[g].backoff)
      ensures found ==> (independentLeft <==> forall w :: g + [w] !in stored)
    {
      var i;
      found, i := Descend(g);
      if !found {
        return false, Weights(0, 0), true;
      }
      assert LevelOk(levels[|g| - 1], keys[|g| - 1], |g|, stored);
      assert EntryOk(levels[|g| - 1][i], keys[|g| - 1][i], |g|, stored);
      weights := ReadWeights(|g| - 1, i);
      if |g| == order {
        // LookupLongest; there is nothing further to the left.
        independentLeft := true;
        NoLonger(order, levels, keys, stored, g);
      } else {
        var range := ReadNext(|g| - 1, i);
        independentLeft := range.begin == range.end;
        ChildExists(order, levels, keys, stored, g, range);
      }
    }
  }

  /** ReadNext of DontBhiksha: the pointers of entry `i` and of the one behind it. */
  method ReadRange(mem: Bits, l: Layout, i: nat, ghost entries: nat, ghost level: seq<Node>, ghost closing: seq<Row>)
    returns (range: Range)
    requires Packs(mem, l, entries, level, closing) && i < |level| && closing != [] && !l.longest
    ensures range.begin == level[i].next
    ensures range.end == if i + 1 < |level| then level[i + 1].next else closing[0].next
  {
    EntryRead(mem, l, entries, level, closing, i);
    var begin := ReadPointer(mem, l, i, RowFor(level[i]));
    var end := ReadPointer(mem, l, i + 1, if i + 1 < |level| then RowFor(level[i + 1]) else closing[0]);
    range := Range(begin, end);
  }

  method ReadPointer(mem: Bits, l: Layout, i: nat, ghost row: Row) returns (next: nat)
    requires IsRow(mem, Place(l, i), l, row) && !l.longest
    ensures next == row.next
  {
    PlaceIs(l, i);
    NextRead(mem, Place(l, i), l, row);
    next := ReadInt57(mem, i * Total(l) + Pointer(l), l.nextBits);
  }

  /** Read of the quantizer for entry `i`. */
  method ReadCodes(mem: Bits, l: Layout, i: nat, ghost entries: nat, ghost level: seq<Node>, ghost closing: seq<Row>)
    returns (weights: Weights)
    requires Packs(mem, l, entries, level, closing) && i < |level|
    ensures weights.prob == level[i].weights.prob
    ensures weights.backoff == if l.longest then 0 else level[i].weights.backoff
  {
    PlaceIs(l, i);
    EntryRead(mem, l, entries, level, closing, i);
    var at := i * Total(l);
    ProbRead(mem, at, l, RowFor(level[i]));
    var prob := ReadInt57(mem, at + l.wordBits, l.probBits);
    weights := Weights(prob, 0);
    if !l.longest {
      BackoffRead(mem, at, l, RowFor(level[i]));
      var backoff := ReadInt57(mem, at + Weighted(l), l.backoffBits);
      weights := Weights(prob, backoff);
    }
  }

  function ZeroMemory(entries: nat, l: Layout): (mem: Bits)
    ensures Roomy(|mem|, l, entries) && forall k {:trigger mem[k]} :: 0 <= k < |mem| ==> !mem[k]
  {
    seq(8 * BaseSize(entries, l.wordBits, Total(l) - l.wordBits), _ => false)
  }

  /** The entry with the next word among the children of `g[..o]` stands for `g[..o + 1]`. */
  lemma {:induction false} EntryFound(order: nat, levels: seq<seq<Node>>, keys: seq<seq<Gram>>,
                                      stored: map<Gram, Weights>, g: Gram, o: nat, at: nat)
    requires TrieOk(order, levels, keys, stored) && o < |g| && o < order
    requires at < |levels[o]| && levels[o][at].word == g[o] && (at < |keys[o]| ==> Prefix(g[..o], keys[o][at]))
    ensures |levels[o]| == |keys[o]| && keys[o][at] == g[..o + 1]
  {
    assert LevelOk(levels[o], keys[o], o + 1, stored);
    assert EntryOk(levels[o][at], keys[o][at], o + 1, stored);
  }

  lemma {:induction false} RangeOf(order: nat, levels: seq<seq<Node>>, keys: seq<seq<Gram>>, stored: map<Gram, Weights>,
                                   o: nat, i: nat)
    requires TrieOk(order, levels, keys, stored) && o + 1 < order && i < |levels[o]|
    ensures var range := Range(levels[o][i].next, if i + 1 < |levels[o]| then levels[o][i + 1].next
            else |levels[o + 1]|);
            && |levels[o]| == |keys[o]| && |levels[o + 1]| == |keys[o + 1]|
            && ChildrenAt(keys[o + 1], keys[o][i], range) && Increasing(levels[o + 1], range.begin, range.end)
  {
    assert LevelOk(levels[o], keys[o], o + 1, stored) && LevelOk(levels[o + 1], keys[o + 1], o + 2, stored);
    assert LinkOk(levels, keys, o);
    RangeBetween(levels[o], keys[o], levels[o + 1], keys[o + 1], stored, o + 1, i,
                 if i + 1 < |levels[o]| then levels[o][i + 1].next else |levels[o + 1]|);
  }

  /** The same for two neighbouring levels of which the upper holds n-grams of `length` words. */
  lemma {:induction false} RangeBetween(level: seq<Node>, up: seq<Gram>, level': seq<Node>, down: seq<Gram>,
                                        stored: map<Gram, Weights>, length: nat, i: nat, end: nat)
    requires LevelOk(level, up, length, stored) && LevelOk(level', down, length + 1, stored)
    requires Linked(level, up, down) && Parented(up, down) && i < |level|
    requires end == if i + 1 < |level| then level[i + 1].next else |level'|
    ensures ChildrenAt(down, up[i], Range(level[i].next, end)) && Increasing(level', level[i].next, end)
  {
    LevelLengths(level, up, length, stored);
    LevelLengths(level', down, length + 1, stored);
    ChildrenOrdered(level, up, down, i, end);
    forall j | 0 <= j < |down|
      ensures level[i].next <= j < end <==> Prefix(up[i], down[j])
    {
      ChildOf(level, up, down, i, end, length, j);
    }
    ChildrenIncreasing(level', down, up[i], Range(level[i].next, end), stored);
  }

  lemma {:induction false} LevelLengths(level: seq<Node>, keys: seq<Gram>, length: nat, stored: map<Gram, Weights>)
    requires LevelOk(level, keys, length, stored)
    ensures forall x :: 0 <= x < |keys| ==> |keys[x]| == length
  {
    forall x | 0 <= x < |keys|
      ensures |keys[x]| == length
    {
      assert EntryOk(level[x], keys[x], length, stored);
    }
  }

  lemma {:induction false} ChildrenOrdered(level: seq<Node>, keys: seq<Gram>, below: seq<Gram>, i: nat, end: nat)
    requires Linked(level, keys, below) && i < |keys|
    requires forall x, y :: 0 <= x < y < |keys| ==> Less(keys[x], keys[y])
    requires end == if i + 1 < |keys| then level[i + 1].next else |below|
    ensures level[i].next <= end <= |below|
  {
    assert Splits(level[i].next, keys[i], below);
    if i + 1 < |keys| {
      assert Splits(level[i + 1].next, keys[i + 1], below);
      if end < level[i].next {
        LessTransitive(keys[i + 1], below[end], keys[i]);
        LessAsymmetric(keys[i], keys[i + 1]);
      }
    }
  }

  /** Entry `j` of the next array lies between the pointers of `i` exactly when it extends `i`. */
  lemma {:induction false} ChildOf(level: seq<Node>, keys: seq<Gram>, below: seq<Gram>, i: nat, end: nat, length: nat,
                                   j: nat)
    requires Linked(level, keys, below) && Parented(keys, below) && i < |keys| && j < |below|
    requires forall x, y :: 0 <= x < y < |keys| ==> Less(keys[x], keys[y])
    requires forall x :: 0 <= x < |keys| ==> |keys[x]| == length
    requires |below[j]| == length + 1
    requires end == if i + 1 < |keys| then level[i + 1].next else |below|
    ensures level[i].next <= j < end <==> Prefix(keys[i], below[j])
  {
    assert Splits(level[i].next, keys[i], below);
    assert i + 1 < |keys| ==> Splits(level[i + 1].next, keys[i + 1], below);
    var b := below[j];
    var p := b[..length];
    var x :| 0 <= x < |keys| && keys[x] == p;
    PrefixLess(p, b);
    if x == i {
      LessAsymmetric(p, b);
      if i + 1 < |keys| {
        ExtensionsOrdered(p, keys[i + 1], b);
        LessAsymmetric(b, keys[i + 1]);
      }
    } else {
      if x < i {
        ExtensionsOrdered(p, keys[i], b);
        LessAsymmetric(b, keys[i]);
      } else {
        if x != i + 1 {
          LessTransitive(keys[i + 1], p, b);
        }
        LessAsymmetric(keys[i + 1], b);
      }
      LessIrreflexive(p);
      var k := keys[i];
      assert Prefix(k, b) ==> k == p;
    }
  }

  lemma {:induction false} ChildrenIncreasing(level: seq<Node>, keys: seq<Gram>, p: Gram, range: Range,
                                              stored: map<Gram, Weights>)
    requires range.begin <= range.end <= |keys| && LevelOk(level, keys, |p| + 1, stored)
    requires forall j :: range.begin <= j < range.end ==> Prefix(p, keys[j])
    ensures Increasing(level, range.begin, range.end)
  {
    forall i, j | range.begin <= i < j < range.end
      ensures level[i].word < level[j].word
    {
      assert EntryOk(level[i], keys[i], |p| + 1, stored) && EntryOk(level[j], keys[j], |p| + 1, stored);
      var c := Lcp(keys[i], keys[j]);
      LcpAgrees(keys[i], keys[j]);
      SharedPrefix(p, keys[i], keys[j]);
      assert Less(keys[i], keys[j]);
    }
  }

  lemma {:induction false} StoredPrefix(order: nat, levels: seq<seq<Node>>, keys: seq<seq<Gram>>,
                                        stored: map<Gram, Weights>, g: Gram, k: nat)
    requires TrieOk(order, levels, keys, stored) && g in stored && 1 <= k <= |g|
    ensures g[..k] in stored
    decreases |g|
  {
    assert HasPlace(order, keys, g);
    if k == |g| {
      assert g[..k] == g;
    } else {
      var o := |g| - 2;
      assert LinkOk(levels, keys, o) && LevelOk(levels[o], keys[o], o + 1, stored);
      var p := g[..|g| - 1];
      var x :| 0 <= x < |keys[o]| && keys[o][x] == p;
      assert EntryOk(levels[o][x], keys[o][x], o + 1, stored);
      StoredPrefix(order, levels, keys, stored, p, k);
      assert p[..k] == g[..k];
    }
  }

  /** `range` holds exactly the children of `p` in the array below. */
  ghost predicate ChildrenAt(keys: seq<Gram>, p: Gram, range: Range) {
    range.begin <= range.end <= |keys| &&
    forall j :: 0 <= j < |keys| ==> (range.begin <= j < range.end <==> Prefix(p, keys[j]))
  }

  lemma {:induction false} NotStored(order: nat, levels: seq<seq<Node>>, keys: seq<seq<Gram>>,
                                     stored: map<Gram, Weights>, g: Gram, o: nat, range: Range)
    requires TrieOk(order, levels, keys, stored) && 1 <= o < |g| <= order && ChildrenAt(keys[o], g[..o], range)
    requires |levels[o]| == |keys[o]| && forall j :: range.begin <= j < range.end ==> levels[o][j].word != g[o]
    ensures g !in stored
  {
    if g in stored {
      StoredPrefix(order, levels, keys, stored, g, o + 1);
      assert g[..o + 1] == g[..o] + [g[o]];
      ChildFound(order, levels, keys, stored, g[..o], g[o], range);
    }
  }

  lemma {:induction false} ChildFound(order: nat, levels: seq<seq<Node>>, keys: seq<seq<Gram>>,
                                      stored: map<Gram, Weights>, p: Gram, w: nat, range: Range)
    requires TrieOk(order, levels, keys, stored) && 1 <= |p| < order && ChildrenAt(keys[|p|], p, range)
    requires p + [w] in stored
    ensures |levels[|p|]| == |keys[|p|]| && exists j :: range.begin <= j < range.end && levels[|p|][j].word == w
  {
    var o, h := |p|, p + [w];
    assert HasPlace(order, keys, h);
    assert LevelOk(levels[o], keys[o], o + 1, stored);
    var j :| 0 <= j < |keys[o]| && keys[o][j] == h;
    assert EntryOk(levels[o][j], keys[o][j], o + 1, stored);
    assert Prefix(p, keys[o][j]);
  }

  lemma {:induction false} NoLonger(order: nat, levels: seq<seq<Node>>, keys: seq<seq<Gram>>,
                                    stored: map<Gram, Weights>, g: Gram)
    requires TrieOk(order, levels, keys, stored) && |g| == order
    ensures forall w :: g + [w] !in stored
  {
    forall w: nat
      ensures g + [w] !in stored
    {
      assert g + [w] in stored ==> HasPlace(order, keys, g + [w]);
    }
  }

  lemma {:induction false} ChildExists(order: nat, levels: seq<seq<Node>>, keys: seq<seq<Gram>>,
                                       stored: map<Gram, Weights>, g: Gram, range: Range)
    requires TrieOk(order, levels, keys, stored) && 1 <= |g| < order && ChildrenAt(keys[|g|], g, range)
    ensures range.begin == range.end <==> forall w :: g + [w] !in stored
  {
    var o := |g|;
    assert LevelOk(levels[o], keys[o], o + 1, stored);
    if range.begin < range.end {
      var h := keys[o][range.begin];
      assert EntryOk(levels[o][range.begin], h, o + 1, stored) && Prefix(g, h);
      assert h == g + [h[o]];
    } else {
      forall w: nat
        ensures g + [w] !in stored
      {
        if g + [w] in stored {
          ChildFound(order, levels, keys, stored, g, w, range);
        }
      }
    }
  }
}
