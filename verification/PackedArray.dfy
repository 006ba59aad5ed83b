/**
 The bit-packed arrays of kenlm/lm/trie.cc with plain next pointers (DontBhiksha): rows of
 fixed width, appended to zeroed memory.  The two floats are written as codes of given
 widths; DontQuantize takes 31 and 32 bits, the encodings themselves.
 */
module PackedArray {
  import opened BitPacking

  /** Field widths; an array of the highest order has neither backoff nor pointer. */
  datatype Layout = Layout(wordBits: nat, probBits: nat, backoffBits: nat, nextBits: nat, longest: bool)

  datatype Row = Row(word: nat, prob: nat, backoff: nat, next: nat)

  /** Where the backoff field starts. */
  function Weighted(l: Layout): nat {
    l.wordBits + l.probBits
  }

  /** Where the pointer field starts. */
  function Pointer(l: Layout): nat {
    Weighted(l) + l.backoffBits
  }

  function Total(l: Layout): nat {
    if l.longest then Weighted(l) else Pointer(l) + l.nextBits
  }

  predicate LayoutOk(l: Layout) {
    l.wordBits <= 57 && l.probBits <= 57 && l.backoffBits <= 57 && l.nextBits <= 57
  }

  predicate RowFits(l: Layout, row: Row) {
    && row.word < Pow2(l.wordBits) && row.prob < Pow2(l.probBits)
    && (!l.longest ==> row.backoff < Pow2(l.backoffBits) && row.next < Pow2(l.nextBits))
  }

  /** Bit `k` of a row. */
  function RowBit(l: Layout, row: Row, k: nat): bool
    requires k < Total(l)
  {
    if k < l.wordBits then FieldBit(row.word, l.wordBits, 0, k)
    else if k < Weighted(l) then FieldBit(row.prob, l.probBits, l.wordBits, k)
    else if k < Pointer(l) then FieldBit(row.backoff, l.backoffBits, Weighted(l), k)
    else FieldBit(row.next, l.nextBits, Pointer(l), k)
  }

  /** Bit `k` of a field of this length that starts at bit `at`. */
  predicate FieldBit(value: nat, length: nat, at: nat, k: nat) {
    at <= k < at + length && ToBits(value, length)[k - at]
  }

  /** The bit at which row `i` starts. */
  function Place(l: Layout, i: nat): nat {
    if i == 0 then 0 else Place(l, i - 1) + Total(l)
  }

  lemma {:induction false} PlaceIs(l: Layout, i: nat)
    ensures Place(l, i) == i * Total(l)
  {
    if i > 0 {
      PlaceIs(l, i - 1);
      assert i * Total(l) == (i - 1) * Total(l) + Total(l);
    }
  }

  lemma {:induction false} PlaceMonotone(l: Layout, i: nat, n: nat)
    requires i < n
    ensures Place(l, i) + Total(l) <= Place(l, n)
    decreases n
  {
    if i < n - 1 {
      PlaceMonotone(l, i, n - 1);
    }
  }

  /** Memory for `entries` rows and the pointer behind the last. */
  predicate Roomy(size: nat, l: Layout, entries: nat) {
    size == 8 * BaseSize(entries, l.wordBits, Total(l) - l.wordBits)
  }

  ghost predicate RowAt(mem: Bits, from: nat, l: Layout, row: Row) {
    from + Total(l) <= |mem| &&
    forall k: nat {:trigger RowBit(l, row, k)} :: k < Total(l) ==> mem[from + k] == RowBit(l, row, k)
  }

  ghost predicate ZeroFrom(mem: Bits, from: nat) {
    forall k {:trigger mem[k]} :: from <= k < |mem| ==> !mem[k]
  }

  /** The memory holds exactly these rows. */
  ghost predicate Holds(mem: Bits, l: Layout, rows: seq<Row>) {
    && (forall i: nat {:trigger rows[i]} :: i < |rows| ==> RowAt(mem, Place(l, i), l, rows[i]))
    && ZeroFrom(mem, Place(l, |rows|))
  }

  lemma {:induction false} Inside(size: nat, l: Layout, entries: nat, i: nat, at: nat)
    requires Roomy(size, l, entries) && i <= entries && at <= Total(l)
    ensures (Place(l, i) + at) / 8 * 8 + 64 <= size
    ensures Place(l, i) + Total(l) == Place(l, i + 1) <= size
  {
    PlaceIs(l, i);
    AccessInside(entries, l.wordBits, Total(l) - l.wordBits, i, at);
    AccessInside(entries, l.wordBits, Total(l) - l.wordBits, i, Total(l));
  }

  // ---------------------------------------------------------------- writing

  /** The memory after a row has been or-ed in, field by field. */
  function Appended(mem: Bits, l: Layout, off: nat, row: Row): (r: Bits)
    ensures |r| == |mem|
  {
    var front := Front(mem, l, off, row);
    if l.longest then front else Rest(front, l, off + Weighted(l), row)
  }

  function Front(mem: Bits, l: Layout, off: nat, row: Row): (r: Bits)
    ensures |r| == |mem|
  {
    Written(Written(mem, off, l.wordBits, row.word), off + l.wordBits, l.probBits, row.prob)
  }

  /** The same for the fields behind the log-probability. */
  function Rest(mem: Bits, l: Layout, off: nat, row: Row): (r: Bits)
    ensures |r| == |mem|
  {
    Written(Written(mem, off, l.backoffBits, row.backoff), off + l.backoffBits, l.nextBits, row.next)
  }

  /** Insert of BitPackedMiddle and BitPackedLongest. */
  method Insert(mem: array<bool>, l: Layout, entries: nat, index: nat, row: Row)
    requires LayoutOk(l) && RowFits(l, row) && Roomy(mem.Length, l, entries) && index < entries
    modifies mem
    ensures mem[..] == Appended(old(mem[..]), l, Place(l, index), row)
  {
    var at := index * Total(l);
    PlaceIs(l, index);
    Inside(mem.Length, l, entries, index, 0);
    Inside(mem.Length, l, entries, index, l.wordBits);
    if !l.longest {
      Inside(mem.Length, l, entries, index, Weighted(l));
      Inside(mem.Length, l, entries, index, Pointer(l));
    }
    InsertAt(mem, l, at, row);
  }

  method InsertAt(mem: array<bool>, l: Layout, at: nat, row: Row)
    requires LayoutOk(l) && RowFits(l, row)
    requires at / 8 * 8 + 64 <= mem.Length && (at + l.wordBits) / 8 * 8 + 64 <= mem.Length
    requires !l.longest ==>
               (at + Weighted(l)) / 8 * 8 + 64 <= mem.Length && (at + Pointer(l)) / 8 * 8 + 64 <= mem.Length
    modifies mem
    ensures mem[..] == Appended(old(mem[..]), l, at, row)
  {
    InsertFront(mem, l, at, row);
    if !l.longest {
      InsertRest(mem, l, at + Weighted(l), row);
    }
  }

  method InsertFront(mem: array<bool>, l: Layout, at: nat, row: Row)
    requires LayoutOk(l) && row.word < Pow2(l.wordBits) && row.prob < Pow2(l.probBits)
    requires at / 8 * 8 + 64 <= mem.Length && (at + l.wordBits) / 8 * 8 + 64 <= mem.Length
    modifies mem
    ensures mem[..] == Front(old(mem[..]), l, at, row)
  {
    WriteInt57(mem, at, l.wordBits, row.word);
    WriteInt57(mem, at + l.wordBits, l.probBits, row.prob);
  }

  method InsertRest(mem: array<bool>, l: Layout, at: nat, row: Row)
    requires LayoutOk(l) && row.backoff < Pow2(l.backoffBits) && row.next < Pow2(l.nextBits)
    requires at / 8 * 8 + 64 <= mem.Length && (at + l.backoffBits) / 8 * 8 + 64 <= mem.Length
    modifies mem
    ensures mem[..] == Rest(old(mem[..]), l, at, row)
  {
    WriteInt57(mem, at, l.backoffBits, row.backoff);
    WriteInt57(mem, at + l.backoffBits, l.nextBits, row.next);
  }

  /** Each bit of the row is or-ed in at its place, and no other bit changes. */
  lemma {:induction false} AppendedAt(mem: Bits, l: Layout, off: nat, row: Row, k: nat)
    requires k < |mem|
    ensures Appended(mem, l, off, row)[k] == (mem[k] || (off <= k < off + Total(l) && RowBit(l, row, k - off)))
  {
    FrontAt(mem, l, off, row, k);
    RestAt(Front(mem, l, off, row), l, off + Weighted(l), row, k);
  }

  lemma {:induction false} FrontAt(mem: Bits, l: Layout, off: nat, row: Row, k: nat)
    requires k < |mem|
    ensures Front(mem, l, off, row)[k] ==
            (mem[k] || (off <= k < off + Weighted(l) && RowBit(l.(longest := false), row, k - off)))
  {
  }

  lemma {:induction false} RestAt(mem: Bits, l: Layout, off: nat, row: Row, k: nat)
    requires k < |mem|
    ensures Rest(mem, l, off, row)[k] ==
            (mem[k] || (off <= k < off + l.backoffBits + l.nextBits
                        && RowBit(l.(longest := false), row, Weighted(l) + (k - off))))
  {
  }

  /** What was there stays, the row follows, and behind it all is zero. */
  lemma {:induction false} HoldsAppended(mem: Bits, l: Layout, entries: nat, rows: seq<Row>, row: Row)
    requires Roomy(|mem|, l, entries) && |rows| <= entries && Holds(mem, l, rows)
    ensures Holds(Appended(mem, l, Place(l, |rows|), row), l, rows + [row])
  {
    var off := Place(l, |rows|);
    Inside(|mem|, l, entries, |rows|, 0);
    forall k: nat | k < |mem|
      ensures OredIn(mem, Appended(mem, l, off, row), l, off, row, k)
    {
      AppendedAt(mem, l, off, row, k);
    }
    HoldsMore(mem, Appended(mem, l, off, row), l, rows, row, off);
  }

  ghost predicate OredIn(mem: Bits, r: Bits, l: Layout, off: nat, row: Row, k: nat) {
    k < |mem| == |r| && r[k] == (mem[k] || (off <= k < off + Total(l) && RowBit(l, row, k - off)))
  }

  lemma {:induction false} HoldsMore(mem: Bits, r: Bits, l: Layout, rows: seq<Row>, row: Row, off: nat)
    requires Holds(mem, l, rows) && |r| == |mem| && off == Place(l, |rows|)
    requires off + Total(l) == Place(l, |rows| + 1) <= |mem|
    requires forall k: nat {:trigger OredIn(mem, r, l, off, row, k)} :: k < |mem| ==> OredIn(mem, r, l, off, row, k)
    ensures Holds(r, l, rows + [row])
  {
    var more := rows + [row];
    RowNew(mem, r, l, off, row);
    forall i: nat | i < |more|
      ensures RowAt(r, Place(l, i), l, more[i])
    {
      if i < |rows| {
        assert more[i] == rows[i];
        PlaceMonotone(l, i, |rows|);
        RowKept(mem, r, l, off, row, Place(l, i), rows[i]);
      }
    }
    assert ZeroFrom(r, Place(l, |more|)) by {
      forall k | off + Total(l) <= k < |r|
        ensures !r[k]
      {
        assert OredIn(mem, r, l, off, row, k);
      }
    }
  }

  lemma {:induction false} RowKept(mem: Bits, r: Bits, l: Layout, off: nat, row: Row, from: nat, before: Row)
    requires |r| == |mem| && RowAt(mem, from, l, before) && from + Total(l) <= off
    requires forall k: nat {:trigger OredIn(mem, r, l, off, row, k)} :: k < |mem| ==> OredIn(mem, r, l, off, row, k)
    ensures RowAt(r, from, l, before)
  {
    forall k: nat | k < Total(l)
      ensures r[from + k] == RowBit(l, before, k)
    {
      assert OredIn(mem, r, l, off, row, from + k);
    }
  }

  lemma {:induction false} RowNew(mem: Bits, r: Bits, l: Layout, off: nat, row: Row)
    requires |r| == |mem| && ZeroFrom(mem, off) && off + Total(l) <= |mem|
    requires forall k: nat {:trigger OredIn(mem, r, l, off, row, k)} :: k < |mem| ==> OredIn(mem, r, l, off, row, k)
    ensures RowAt(r, off, l, row)
  {
    forall k: nat | k < Total(l)
      ensures r[off + k] == RowBit(l, row, k)
    {
      assert OredIn(mem, r, l, off, row, off + k);
    }
  }

  // ---------------------------------------------------------------- the closing pointer

  /** The pointer behind the last row. */
  function Closed(mem: Bits, l: Layout, index: nat, end: nat): (r: Bits)
    ensures |r| == |mem|
  {
    Written(mem, Place(l, index) + Pointer(l), l.nextBits, end)
  }

  /** FinishedLoading of BitPackedMiddle. */
  method FinishedLoading(mem: array<bool>, l: Layout, entries: nat, index: nat, end: nat)
    requires LayoutOk(l) && !l.longest && Roomy(mem.Length, l, entries) && index <= entries && end < Pow2(l.nextBits)
    modifies mem
    ensures mem[..] == Closed(old(mem[..]), l, index, end)
  {
    PlaceIs(l, index + 1);
    Inside(mem.Length, l, entries, index, Pointer(l));
    var lastNextWrite := (index + 1) * Total(l) - l.nextBits;
    WriteInt57(mem, lastNextWrite, l.nextBits, end);
  }

  /** It stands where the pointer of one more row would. */
  lemma {:induction false} HoldsClosed(mem: Bits, l: Layout, entries: nat, rows: seq<Row>, end: nat)
    requires Roomy(|mem|, l, entries) && |rows| <= entries && Holds(mem, l, rows) && !l.longest
    ensures Holds(Closed(mem, l, |rows|, end), l, rows + [Row(0, 0, 0, end)])
  {
    var off, r := Place(l, |rows|), Closed(mem, l, |rows|, end);
    Inside(|mem|, l, entries, |rows|, 0);
    forall k: nat | k < |mem|
      ensures OredIn(mem, r, l, off, Row(0, 0, 0, end), k)
    {
      ClosedAt(mem, l, off, end, k);
    }
    HoldsMore(mem, r, l, rows, Row(0, 0, 0, end), off);
  }

  lemma {:induction false} ClosedAt(mem: Bits, l: Layout, off: nat, end: nat, k: nat)
    requires !l.longest && k < |mem|
    ensures OredIn(mem, Written(mem, off + Pointer(l), l.nextBits, end), l, off, Row(0, 0, 0, end), k)
  {
    if off <= k < off + Pointer(l) {
      ZeroField(l.wordBits, 0, k - off);
      ZeroField(l.probBits, l.wordBits, k - off);
      ZeroField(l.backoffBits, Weighted(l), k - off);
    }
  }

  lemma {:induction false} ZeroField(length: nat, at: nat, k: nat)
    ensures !FieldBit(0, length, at, k)
  {
    if at <= k < at + length {
      HighBitsZero(0, 0, length, k - at);
    }
  }

  // ---------------------------------------------------------------- reading

  /** This value is read at bit `off`. */
  predicate FieldIs(mem: Bits, off: nat, length: nat, value: nat) {
    length <= 57 && off / 8 * 8 + 64 <= |mem| && ReadInt57(mem, off, length) == value
  }

  lemma {:induction false} FieldRead(mem: Bits, off: nat, length: nat, value: nat)
    requires off / 8 * 8 + 64 <= |mem| && length <= 57 && value < Pow2(length)
    requires forall k: nat {:trigger FieldBit(value, length, 0, k)} ::
               k < length ==> off + k < |mem| && mem[off + k] == FieldBit(value, length, 0, k)
    ensures FieldIs(mem, off, length, value)
    ensures Load(mem, off, 64)[..length] == ToBits(value, length)
  {
    LoadIsSlice(mem, off, 64, length);
    forall k: nat | k < length
      ensures mem[off..off + length][k] == ToBits(value, length)[k]
    {
      assert mem[off + k] == FieldBit(value, length, 0, k);
    }
    assert mem[off..off + length] == ToBits(value, length);
    ValOfBits(value, length);
  }

  /** This row stands at bit `from`, and each of its fields can be loaded. */
  ghost predicate IsRow(mem: Bits, from: nat, l: Layout, row: Row) {
    && LayoutOk(l) && RowAt(mem, from, l, row) && RowFits(l, row)
    && forall at: nat {:trigger Loads(mem, from, at)} :: at <= Total(l) ==> Loads(mem, from, at)
  }

  predicate Loads(mem: Bits, from: nat, at: nat) {
    (from + at) / 8 * 8 + 64 <= |mem|
  }

  lemma {:induction false} RowOf(mem: Bits, l: Layout, entries: nat, rows: seq<Row>, i: nat)
    requires LayoutOk(l) && Roomy(|mem|, l, entries) && Holds(mem, l, rows)
    requires i <= entries && i < |rows| && RowFits(l, rows[i])
    ensures IsRow(mem, Place(l, i), l, rows[i])
  {
    forall at: nat | at <= Total(l)
      ensures Loads(mem, Place(l, i), at)
    {
      Inside(|mem|, l, entries, i, at);
    }
  }

  lemma {:induction false} FieldOf(mem: Bits, from: nat, l: Layout, row: Row, at: nat, length: nat, value: nat)
    requires IsRow(mem, from, l, row) && at + length <= Total(l) && length <= 57 && value < Pow2(length)
    requires forall k: nat {:trigger FieldBit(value, length, 0, k)} :: k < length ==>
               RowBit(l, row, at + k) == FieldBit(value, length, 0, k)
    ensures FieldIs(mem, from + at, length, value)
    ensures Load(mem, from + at, 64)[..length] == ToBits(value, length)
  {
    assert Loads(mem, from, at);
    forall k: nat | k < length
      ensures from + at + k < |mem| && mem[from + at + k] == FieldBit(value, length, 0, k)
    {
      assert mem[from + (at + k)] == RowBit(l, row, at + k);
    }
    FieldRead(mem, from + at, length, value);
  }

  /** Every field of a row reads back. */
  lemma {:induction false} RowRead(mem: Bits, from: nat, l: Layout, row: Row)
    requires IsRow(mem, from, l, row)
    ensures FieldIs(mem, from, l.wordBits, row.word)
    ensures FieldIs(mem, from + l.wordBits, l.probBits, row.prob)
    ensures !l.longest ==> FieldIs(mem, from + Weighted(l), l.backoffBits, row.backoff)
    ensures !l.longest ==> FieldIs(mem, from + Pointer(l), l.nextBits, row.next)
  {
    WordRead(mem, from, l, row);
    ProbRead(mem, from, l, row);
    if !l.longest {
      BackoffRead(mem, from, l, row);
      NextRead(mem, from, l, row);
    }
  }

  lemma {:induction false} WordRead(mem: Bits, from: nat, l: Layout, row: Row)
    requires IsRow(mem, from, l, row)
    ensures FieldIs(mem, from, l.wordBits, row.word)
  {
    FieldOf(mem, from, l, row, 0, l.wordBits, row.word);
  }

  lemma {:induction false} ProbRead(mem: Bits, from: nat, l: Layout, row: Row)
    requires IsRow(mem, from, l, row)
    ensures FieldIs(mem, from + l.wordBits, l.probBits, row.prob)
    ensures Load(mem, from + l.wordBits, 64)[..l.probBits] == ToBits(row.prob, l.probBits)
  {
    FieldOf(mem, from, l, row, l.wordBits, l.probBits, row.prob);
  }

  lemma {:induction false} BackoffRead(mem: Bits, from: nat, l: Layout, row: Row)
    requires IsRow(mem, from, l, row) && !l.longest
    ensures FieldIs(mem, from + Weighted(l), l.backoffBits, row.backoff)
    ensures Load(mem, from + Weighted(l), 64)[..l.backoffBits] == ToBits(row.backoff, l.backoffBits)
  {
    FieldOf(mem, from, l, row, Weighted(l), l.backoffBits, row.backoff);
  }

  lemma {:induction false} NextRead(mem: Bits, from: nat, l: Layout, row: Row)
    requires IsRow(mem, from, l, row) && !l.longest
    ensures FieldIs(mem, from + Pointer(l), l.nextBits, row.next)
  {
    FieldOf(mem, from, l, row, Pointer(l), l.nextBits, row.next);
  }

  /** As DontQuantize reads a log-probability: the sign bit is set, whatever follows. */
  lemma {:induction false} NonPositiveRead(mem: Bits, from: nat, l: Layout, row: Row)
    requires IsRow(mem, from, l, row) && l.probBits == 31
    ensures Loads(mem, from, l.wordBits)
    ensures ReadNonPositiveFloat31(mem, from + l.wordBits) == ToBits(row.prob, l.probBits) + [true]
  {
    ProbRead(mem, from, l, row);
    SignSet(mem, from + l.wordBits, ToBits(row.prob, l.probBits));
  }

  /** And a backoff: all of it. */
  lemma {:induction false} FloatRead(mem: Bits, from: nat, l: Layout, row: Row)
    requires IsRow(mem, from, l, row) && l.backoffBits == 32 && !l.longest
    ensures Loads(mem, from, Weighted(l))
    ensures ReadFloat32(mem, from + Weighted(l)) == ToBits(row.backoff, l.backoffBits)
  {
    BackoffRead(mem, from, l, row);
  }

  lemma {:induction false} SignSet(mem: Bits, off: nat, b: Bits)
    requires off / 8 * 8 + 64 <= |mem| && |b| == 31 && Load(mem, off, 64)[..31] == b
    ensures ReadNonPositiveFloat31(mem, off) == b + [true]
  {
    var encoding := b + [true];
    LoadIsSlice(mem, off, 64, 31);
    assert encoding[..31] == b && encoding[31 := true] == encoding;
    FloatIgnoresNeighbour(mem, off, encoding);
  }
}
