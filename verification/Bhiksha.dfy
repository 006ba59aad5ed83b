/**
 The compressed pointer array of kenlm/lm/bhiksha.hh and bhiksha.cc.  Each entry stores the
 low bits of its pointer inline; the array tells, for each value of the high bits, the index
 of the first entry that reaches it.  The uncompressed form stores the pointers as they are.
 */
module Bhiksha {
  import opened BitPacking
  import opened Division

  const INT64_MAX := 0x7fff_ffff_ffff_ffff

  function High(v: nat, bits: nat): nat {
    var p := Pow2(bits);
    var q := v / p;
    assert v == q * p + v % p;
    AtLeast(-q, p);
    q
  }

  function Low(v: nat, bits: nat): nat {
    v % Pow2(bits)
  }

  lemma {:induction false} HighMonotone(a: nat, b: nat, bits: nat)
    requires a <= b
    ensures High(a, bits) <= High(b, bits)
  {
    var p, x, y := Pow2(bits), High(a, bits), High(b, bits);
    assert a == x * p + a % p && b == y * p + b % p;
    assert x * p - y * p == (x - y) * p;
    AtLeast(x - y, p);
  }

  lemma {:induction false} SmallHigh(v: nat, bits: nat)
    requires v < Pow2(bits)
    ensures High(v, bits) == 0
  {
    var p, x := Pow2(bits), High(v, bits);
    assert v == x * p + v % p;
    AtLeast(x, p);
  }

  lemma {:induction false} Rejoined(v: nat, bits: nat)
    ensures High(v, bits) * Pow2(bits) + Low(v, bits) == v
  {
  }

  // ---------------------------------------------------------------- how many bits to chop

  /** What chopping costs in the array less what it saves inline, in bits. */
  function Change(maxOffset: nat, maxNext: nat, required: nat, chop: nat): int
    requires chop <= required
  {
    High(maxNext, required - chop) * 64 - maxOffset * chop
  }

  /** The cheapest number of bits to chop, and the smallest of these. */
  ghost predicate Cheapest(maxOffset: nat, maxNext: nat, configured: nat, required: nat, best: nat) {
    && IsRequired(required, maxNext) && best <= required && best <= configured
    && forall c: nat {:trigger Change(maxOffset, maxNext, required, c)} :: c <= required && c <= configured ==>
         && Change(maxOffset, maxNext, required, best) <= Change(maxOffset, maxNext, required, c)
         && (c < best ==> Change(maxOffset, maxNext, required, best) < Change(maxOffset, maxNext, required, c))
  }

  /** The bits left inline once the cheapest number has been chopped. */
  ghost predicate Inline(maxOffset: nat, maxNext: nat, configured: nat, bits: nat) {
    exists required: nat, chop: nat :: Cheapest(maxOffset, maxNext, configured, required, chop)
      && bits == required - chop
  }

  method ChopBits(maxOffset: nat, maxNext: nat, configured: nat) returns (required: nat, best: nat)
    ensures Cheapest(maxOffset, maxNext, configured, required, best)
  {
    required := RequiredBits(maxNext);
    best := 0;
    var lowest: int := INT64_MAX;
    var chop: nat := 0;
    NothingChopped(maxOffset, maxNext, required);
    while chop <= (if required <= configured then required else configured)
      invariant chop <= required + 1 && chop <= configured + 1 && best <= required && best <= configured
      invariant chop == 0 ==> best == 0 && lowest == INT64_MAX
      invariant chop > 0 ==> best < chop && lowest == Change(maxOffset, maxNext, required, best)
      invariant forall c: nat {:trigger Change(maxOffset, maxNext, required, c)} :: c < chop ==>
                  && lowest <= Change(maxOffset, maxNext, required, c)
                  && (c < best ==> lowest < Change(maxOffset, maxNext, required, c))
    {
      var change := Change(maxOffset, maxNext, required, chop);
      if change < lowest {
        lowest, best := change, chop;
      }
      chop := chop + 1;
    }
  }

  lemma {:induction false} NothingChopped(maxOffset: nat, maxNext: nat, required: nat)
    requires maxNext < Pow2(required)
    ensures Change(maxOffset, maxNext, required, 0) == 0
  {
    SmallHigh(maxNext, required);
  }

  function ArrayCount(maxNext: nat, bits: nat): nat {
    High(maxNext, bits) + 1
  }

  // ---------------------------------------------------------------- what the array says

  ghost predicate NonDecreasing(s: seq<nat>) {
    forall i, j {:trigger s[i], s[j]} :: 0 <= i <= j < |s| ==> s[i] <= s[j]
  }

  /** The index an entry is written with: the closing pointer's is one too many. */
  function IndexOf(n: nat, closed: bool, j: nat): nat
    requires j < n
  {
    if closed && j == n - 1 then j + 1 else j
  }

  /** Entry `j` is the first to reach `p`. */
  predicate Reaches(values: seq<nat>, bits: nat, p: nat, j: nat) {
    j < |values| && High(values[j], bits) >= p && (j > 0 ==> High(values[j - 1], bits) < p)
  }

  ghost predicate Marked(values: seq<nat>, bits: nat, closed: bool, p: nat, offset: nat) {
    exists j: nat {:trigger Reaches(values, bits, p, j)} :: Reaches(values, bits, p, j)
      && offset == IndexOf(|values|, closed, j)
  }

  ghost predicate OffsetsOk(offsets: seq<nat>, values: seq<nat>, bits: nat, closed: bool) {
    forall p: nat {:trigger offsets[p]} :: 1 <= p < |offsets| ==> Marked(values, bits, closed, p, offsets[p])
  }

  /** An offset is at most `i` just for the high parts that entry `i` has reached. */
  lemma {:induction false} OffsetIs(offsets: seq<nat>, values: seq<nat>, bits: nat, closed: bool, p: nat, i: nat)
    requires OffsetsOk(offsets, values, bits, closed) && NonDecreasing(values) && 1 <= p < |offsets|
    requires i < |values| && (closed ==> i < |values| - 1)
    ensures offsets[p] <= i <==> High(values[i], bits) >= p
    ensures closed && i == |values| - 2 ==> (offsets[p] <= i + 1 <==> High(values[i], bits) >= p)
  {
    assert Marked(values, bits, closed, p, offsets[p]);
    var j: nat :| Reaches(values, bits, p, j) && offsets[p] == IndexOf(|values|, closed, j);
    if j <= i {
      HighMonotone(values[j], values[i], bits);
    } else {
      HighMonotone(values[i], values[j - 1], bits);
    }
  }

  lemma {:induction false} OffsetsSorted(offsets: seq<nat>, values: seq<nat>, bits: nat, closed: bool, p: nat, q: nat)
    requires OffsetsOk(offsets, values, bits, closed) && NonDecreasing(values) && 1 <= p <= q < |offsets|
    ensures offsets[p] <= offsets[q]
  {
    assert Marked(values, bits, closed, p, offsets[p]) && Marked(values, bits, closed, q, offsets[q]);
    var j: nat :| Reaches(values, bits, p, j) && offsets[p] == IndexOf(|values|, closed, j);
    var k: nat :| Reaches(values, bits, q, k) && offsets[q] == IndexOf(|values|, closed, k);
    if k < j {
      HighMonotone(values[k], values[j - 1], bits);
    }
  }

  /** One more value, no smaller, and the offsets of the high parts it is first to reach. */
  lemma {:induction false} OffsetsExtend(before: seq<nat>, offsets: seq<nat>, values: seq<nat>, bits: nat, value: nat,
                                         closing: bool)
    requires OffsetsOk(before, values, bits, false) && before <= offsets && |before| >= 1
    requires |before| == (if values == [] then 1 else High(values[|values| - 1], bits) + 1)
    requires |offsets| == High(value, bits) + 1
    requires forall p {:trigger offsets[p]} :: |before| <= p < |offsets| ==>
               offsets[p] == |values| + if closing then 1 else 0
    ensures OffsetsOk(offsets, values + [value], bits, closing)
  {
    var longer := values + [value];
    forall p: nat | 1 <= p < |offsets|
      ensures Marked(longer, bits, closing, p, offsets[p])
    {
      if p < |before| {
        assert offsets[p] == before[p] && Marked(values, bits, false, p, before[p]);
        var j: nat :| Reaches(values, bits, p, j) && before[p] == IndexOf(|values|, false, j);
        assert Reaches(longer, bits, p, j);
      } else {
        assert Reaches(longer, bits, p, |values|);
      }
    }
  }

  // ---------------------------------------------------------------- the array

  class ArrayBhiksha {
    const bits: nat
    const offsets: array<nat>
    const inline: array<nat>       // the low bits, at the pointer field of each entry
    var writeTo: nat
    ghost var values: seq<nat>     // the pointers written
    ghost var closed: bool

    ghost predicate Valid()
      reads this, offsets, inline
    {
      && offsets != inline && 1 <= writeTo <= offsets.Length && |values| <= inline.Length && NonDecreasing(values)
      && (forall j {:trigger inline[j]} :: 0 <= j < |values| ==> inline[j] == Low(values[j], bits))
      && writeTo == (if values == [] then 1 else High(values[|values| - 1], bits) + 1)
      && OffsetsOk(offsets[..writeTo], values, bits, closed)
    }

    constructor (entries: nat, maxNext: nat, bits: nat)
      ensures Valid() && values == [] && !closed && fresh(offsets) && fresh(inline) && this.bits == bits
      ensures offsets.Length == ArrayCount(maxNext, bits) && inline.Length == entries + 1
    {
      this.bits := bits;
      offsets := new nat[ArrayCount(maxNext, bits)];
      inline := new nat[entries + 1];
      writeTo, values, closed := 1, [], false;
    }

    /** WriteNext; the closing call gives an index that is one beyond its entry. */
    method WriteNext(entry: nat, index: nat, value: nat)
      requires Valid() && !closed && entry == |values| < inline.Length && index in {entry, entry + 1}
      requires values != [] ==> values[|values| - 1] <= value
      requires High(value, bits) < offsets.Length
      modifies this`writeTo, this`values, this`closed, offsets, inline
      ensures Valid() && values == old(values) + [value] && closed == (index == entry + 1)
    {
      ghost var before := offsets[..writeTo];
      var encode := High(value, bits);
      if values != [] {
        HighMonotone(values[|values| - 1], value, bits);
      }
      while writeTo <= encode
        invariant |before| <= writeTo <= encode + 1 && before == offsets[..|before|]
        invariant forall p {:trigger offsets[p]} :: |before| <= p < writeTo ==> offsets[p] == index
        invariant inline[..] == old(inline[..]) && values == old(values) && closed == old(closed)
      {
        offsets[writeTo] := index;
        writeTo := writeTo + 1;
      }
      assert offsets[..writeTo][..|before|] == before;
      assert writeTo == encode + 1;
      OffsetsExtend(before, offsets[..writeTo], values, bits, value, index == entry + 1);
      inline[entry] := Low(value, bits);
      values := values + [value];
      closed := index == entry + 1;
    }

    /** Throws, as `!ok`, unless the last pointer has reached the last place of the array. */
    method FinishedLoading() returns (ok: bool)
      requires Valid()
      modifies offsets
      ensures Valid() && offsets[0] == 0
      ensures ok == (writeTo == offsets.Length)
    {
      offsets[0] := 0;
      assert offsets[1..writeTo] == old(offsets[1..writeTo]);
      assert forall p {:trigger offsets[..writeTo][p]} :: 1 <= p < writeTo ==>
          offsets[..writeTo][p] == old(offsets[..writeTo])[p];
      ok := writeTo == offsets.Length;
    }

    ghost predicate Finished()
      reads this, offsets, inline
    {
      Valid() && closed && writeTo == offsets.Length && offsets[0] == 0
    }

    /** The last place whose offset is at most `key`. */
    method BinaryBelow(key: nat) returns (r: int)
      requires Finished()
      ensures -1 <= r < offsets.Length
      ensures forall p {:trigger offsets[p]} :: 0 <= p < offsets.Length ==> (offsets[p] <= key <==> p <= r)
    {
      forall p, q | 0 <= p <= q < offsets.Length
        ensures offsets[p] <= offsets[q]
      {
        if p > 0 {
          OffsetsSorted(offsets[..], values, bits, closed, p, q);
        }
      }
      var begin, end := 0, offsets.Length;
      while end > begin
        invariant 0 <= begin <= end <= offsets.Length
        invariant forall p {:trigger offsets[p]} :: 0 <= p < begin ==> offsets[p] <= key
        invariant forall p {:trigger offsets[p]} :: end <= p < offsets.Length ==> offsets[p] > key
        decreases end - begin
      {
        var pivot := begin + (end - begin) / 2;
        var mid := offsets[pivot];
        if mid < key {
          begin := pivot + 1;
        } else if mid > key {
          end := pivot;
        } else {
          pivot := pivot + 1;
          while pivot < end && offsets[pivot] == mid
            invariant 0 < pivot <= end && forall p {:trigger offsets[p]} :: 0 <= p < pivot ==> offsets[p] <= key
          {
            pivot := pivot + 1;
          }
          return pivot - 1;
        }
      }
      return begin - 1;
    }

    /**
     ReadNext: the range of an entry.  Its begin is always the pointer written.  Its end is
     the next pointer for every entry before the last, and for the last just when the end
     pointer has the same high bits.
     */
    method ReadNext(entry: nat) returns (begin: nat, end: nat)
      requires Finished() && entry + 1 < |values|
      ensures begin == values[entry]
      ensures end == values[entry + 1] <==>
              entry + 2 < |values| || High(values[entry], bits) == High(values[entry + 1], bits)
      ensures entry + 2 == |values| ==> end == High(values[entry], bits) * Pow2(bits) + Low(values[entry + 1], bits)
    {
      var beginIt := BinaryBelow(entry);
      BelowIsHigh(entry, beginIt);
      var endIt := EndFrom(entry, beginIt);
      begin := beginIt * Pow2(bits) + inline[entry];
      end := endIt * Pow2(bits) + inline[entry + 1];
      Rejoined(values[entry], bits);
      Rejoined(values[entry + 1], bits);
      SameHigh(endIt, High(values[entry + 1], bits), Low(values[entry + 1], bits), bits);
    }

    method EndFrom(entry: nat, beginIt: nat) returns (endIt: nat)
      requires Finished() && entry + 1 < |values| && beginIt == High(values[entry], bits) < offsets.Length
      requires forall p {:trigger offsets[p]} :: 0 <= p <= beginIt ==> offsets[p] <= entry
      ensures endIt == High(values[if entry + 2 < |values| then entry + 1 else entry], bits)
    {
      var it := beginIt;
      while it < offsets.Length && offsets[it] <= entry + 1
        invariant beginIt <= it <= offsets.Length && (it == beginIt ==> offsets[it] <= entry)
        invariant forall p {:trigger offsets[p]} :: 1 <= p < it ==> offsets[p] <= entry + 1
      {
        it := it + 1;
      }
      endIt := it - 1;
      EndIsHigh(entry, endIt);
    }

    lemma {:induction false} BelowIsHigh(entry: nat, r: int)
      requires Finished() && entry + 1 < |values| && -1 <= r < offsets.Length
      requires forall p {:trigger offsets[p]} :: 0 <= p < offsets.Length ==> (offsets[p] <= entry <==> p <= r)
      ensures r == High(values[entry], bits)
    {
      var h := High(values[entry], bits);
      HighMonotone(values[entry], values[|values| - 1], bits);
      if h > 0 {
        OffsetIs(offsets[..], values, bits, closed, h, entry);
      }
      if h + 1 < offsets.Length {
        OffsetIs(offsets[..], values, bits, closed, h + 1, entry);
      }
      assert offsets[0] <= entry;
    }

    lemma {:induction false} EndIsHigh(entry: nat, r: int)
      requires Finished() && entry + 1 < |values| && High(values[entry], bits) <= r < offsets.Length
      requires forall p {:trigger offsets[p]} :: 1 <= p <= r ==> offsets[p] <= entry + 1
      requires r + 1 < offsets.Length ==> offsets[r + 1] > entry + 1
      ensures r == High(values[if entry + 2 < |values| then entry + 1 else entry], bits)
    {
      var last := entry + 2 == |values|;
      var at := if last then entry else entry + 1;
      var h := High(values[at], bits);
      HighMonotone(values[at], values[|values| - 1], bits);
      if r > 0 {
        OffsetIs(offsets[..], values, bits, closed, r, at);
      }
      if r + 1 < offsets.Length {
        OffsetIs(offsets[..], values, bits, closed, r + 1, at);
      }
    }
  }

  lemma {:induction false} SameHigh(a: nat, b: nat, low: nat, bits: nat)
    ensures a * Pow2(bits) + low == b * Pow2(bits) + low <==> a == b
  {
    var p := Pow2(bits);
    if a < b {
      assert b * p == a * p + (b - a) * p;
    } else if b < a {
      assert a * p == b * p + (a - b) * p;
    }
  }

  /**
   Writing all pointers and the closing one fills the bhiksha exactly if the last pointer is the
   largest allowed for.
   */
  method WriteAll(pointers: seq<nat>, nextEnd: nat, maxNext: nat, configured: nat)
    returns (bhiksha: ArrayBhiksha, ok: bool)
    requires NonDecreasing(pointers + [nextEnd]) && nextEnd <= maxNext
    ensures ok <==> High(nextEnd, bhiksha.bits) == High(maxNext, bhiksha.bits)
    ensures ok ==> bhiksha.Finished() && bhiksha.values == pointers + [nextEnd]
    ensures Inline(|pointers| + 1, maxNext, configured, bhiksha.bits)
  {
    var required, chop := ChopBits(|pointers| + 1, maxNext, configured);
    bhiksha := new ArrayBhiksha(|pointers|, maxNext, required - chop);
    var i := 0;
    while i < |pointers|
      invariant 0 <= i <= |pointers| && bhiksha.Valid() && !bhiksha.closed && bhiksha.values == pointers[..i]
      invariant fresh(bhiksha) && fresh(bhiksha.offsets) && fresh(bhiksha.inline) && bhiksha.bits == required - chop
      invariant bhiksha.offsets.Length == ArrayCount(maxNext, bhiksha.bits) && bhiksha.inline.Length == |pointers| + 1
    {
      assert (pointers + [nextEnd])[i] == pointers[i] && (pointers + [nextEnd])[|pointers|] == nextEnd;
      assert i > 0 ==> (pointers + [nextEnd])[i - 1] == pointers[i - 1];
      HighMonotone(pointers[i], maxNext, bhiksha.bits);
      bhiksha.WriteNext(i, i, pointers[i]);
      i := i + 1;
    }
    assert |pointers| > 0 ==> (pointers + [nextEnd])[|pointers| - 1] == pointers[|pointers| - 1];
    assert (pointers + [nextEnd])[|pointers|] == nextEnd;
    HighMonotone(nextEnd, maxNext, bhiksha.bits);
    bhiksha.WriteNext(|pointers|, |pointers| + 1, nextEnd);
    ok := bhiksha.FinishedLoading();
  }

  /**
   The last entry of 64 that point to 0, with 1 as the end, is read as the empty range 0..0
   although 0..1 was written: chopping the only bit saves 65 bits and costs 64.
   */
  method LastRangeLost(configured: nat) returns (begin: nat, end: nat)
    requires configured >= 1
    ensures begin == 0 && end == 0
  {
    var pointers := seq(64, _ => 0);
    var bhiksha, ok := WriteAll(pointers, 1, 1, configured);
    OnlyBitChopped(configured, bhiksha.bits);
    assert bhiksha.values[63] == 0 && bhiksha.values[64] == 1;
    begin, end := bhiksha.ReadNext(63);
  }

  lemma {:induction false} OnlyBitChopped(configured: nat, bits: nat)
    requires configured >= 1
    requires Inline(65, 1, configured, bits)
    ensures bits == 0 && Pow2(bits) == 1 && High(0, bits) == 0
  {
    var required: nat, chop: nat :| Cheapest(65, 1, configured, required, chop) && bits == required - chop;
    assert Pow2(0) == 1 && Pow2(1) == 2;
    OneBit(required);
    NothingChopped(65, 1, 1);
    assert Change(65, 1, 1, 1) == -1 && Change(65, 1, 1, 0) == 0;
  }

  lemma {:induction false} OneBit(required: nat)
    requires IsRequired(required, 1)
    ensures required == 1
  {
    assert Pow2(0) == 1;
  }
}
