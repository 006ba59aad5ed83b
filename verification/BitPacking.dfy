/**
 The bit fields of kenlm/util/bit_packing.hh and bit_packing.cc, little-endian.  Memory is an
 array of bits, the bits of a byte from the lowest up, so an unaligned load of 64 bits from a
 byte is a slice, a shift to the right drops bits and a mask keeps the first ones.
 */
module BitPacking {

  function Pow2(n: nat): (p: nat)
    ensures p > 0
  {
    if n == 0 then 1 else 2 * Pow2(n - 1)
  }

  type Bits = seq<bool>

  function Val(b: Bits): nat {
    if b == [] then 0 else (if b[0] then 1 else 0) + 2 * Val(b[1..])
  }

  /** The lowest `n` bits of a value. */
  function ToBits(v: nat, n: nat): (b: Bits)
    ensures |b| == n
  {
    if n == 0 then [] else [v % 2 == 1] + ToBits(v / 2, n - 1)
  }

  lemma {:induction false} ValOfBits(v: nat, n: nat)
    requires v < Pow2(n)
    ensures Val(ToBits(v, n)) == v
    decreases n
  {
    if n > 0 {
      ValOfBits(v / 2, n - 1);
      assert ToBits(v, n)[1..] == ToBits(v / 2, n - 1);
    }
  }

  /** A value that fits in `n` bits has zeros above them. */
  lemma {:induction false} HighBitsZero(v: nat, n: nat, m: nat, k: nat)
    requires v < Pow2(n) && n <= m && k < m
    ensures ToBits(v, m)[k] == (k < n && ToBits(v, n)[k])
    decreases m
  {
    if n == 0 {
      if k > 0 {
        HighBitsZero(0, 0, m - 1, k - 1);
      }
    } else if k > 0 {
      HighBitsZero(v / 2, n - 1, m - 1, k - 1);
    }
  }

  /** The least number of bits that values up to `max` need. */
  predicate IsRequired(bits: nat, max: nat) {
    max < Pow2(bits) && (max > 0 ==> bits > 0 && Pow2(bits - 1) <= max) && (max == 0 ==> bits == 0)
  }

  method RequiredBits(max: nat) returns (ret: nat)
    ensures IsRequired(ret, max)
  {
    if max == 0 {
      return 0;
    }
    ret := 1;
    var v := max / 2;
    while v > 0
      invariant ret >= 1 && v * Pow2(ret) <= max < (v + 1) * Pow2(ret) && Pow2(ret - 1) <= max
      decreases v
    {
      assert Pow2(ret + 1) == 2 * Pow2(ret);
      Halve(v, Pow2(ret), max);
      ret := ret + 1;
      v := v / 2;
    }
  }

  lemma {:induction false} Halve(v: nat, p: nat, max: nat)
    requires v > 0 && v * p <= max < (v + 1) * p
    ensures (v / 2) * (2 * p) <= max < (v / 2 + 1) * (2 * p) && p <= max
  {
    var h := v / 2;
    assert h * (2 * p) == (2 * h) * p && (h + 1) * (2 * p) == (2 * h + 2) * p;
    assert v * p == (2 * h) * p + (v - 2 * h) * p;
    assert (v + 1) * p == v * p + p;
    assert v * p == p + (v - 1) * p;
  }

  // ---------------------------------------------------------------- reading

  /** A load of `n` bits from the byte that holds bit `off`, shifted right to that bit. */
  function Load(mem: Bits, off: nat, n: nat): Bits
    requires off / 8 * 8 + n <= |mem| && off % 8 <= n
  {
    mem[off / 8 * 8..off / 8 * 8 + n][off % 8..]
  }

  function ReadInt57(mem: Bits, off: nat, length: nat): nat
    requires length <= 57 && off / 8 * 8 + 64 <= |mem|
  {
    Val(Load(mem, off, 64)[..length])
  }

  function ReadInt25(mem: Bits, off: nat, length: nat): nat
    requires length <= 25 && off / 8 * 8 + 32 <= |mem|
  {
    Val(Load(mem, off, 32)[..length])
  }

  /** The encoding of the float: 31 bits of memory, and the sign bit set whatever the next bit is. */
  function ReadNonPositiveFloat31(mem: Bits, off: nat): Bits
    requires off / 8 * 8 + 64 <= |mem|
  {
    Load(mem, off, 64)[..32][31 := true]
  }

  function ReadFloat32(mem: Bits, off: nat): Bits
    requires off / 8 * 8 + 64 <= |mem|
  {
    Load(mem, off, 64)[..32]
  }

  lemma {:induction false} LoadIsSlice(mem: Bits, off: nat, n: nat, length: nat)
    requires off / 8 * 8 + n <= |mem| && off % 8 + length <= n
    ensures off + length <= |mem| && Load(mem, off, n)[..length] == mem[off..off + length]
  {
    assert off == off / 8 * 8 + off % 8;
  }

  /** The 25-bit and the 57-bit reads agree where both apply. */
  lemma {:induction false} ReadsAgree(mem: Bits, off: nat, length: nat)
    requires length <= 25 && off / 8 * 8 + 64 <= |mem|
    ensures ReadInt25(mem, off, length) == ReadInt57(mem, off, length) == Val(mem[off..off + length])
  {
    LoadIsSlice(mem, off, 64, length);
    LoadIsSlice(mem, off, 32, length);
  }

  // ---------------------------------------------------------------- writing

  /** Bit `i` of the word that is or-ed in: the value shifted left to bit `off`. */
  function Shifted(off: nat, value: nat, i: nat): bool
    requires i < 64
  {
    i >= off % 8 && ToBits(value, 64)[i - off % 8]
  }

  /** WriteInt57: a 64-bit load, or, and store at the byte that holds bit `off`. */
  method WriteInt57(mem: array<bool>, off: nat, length: nat, value: nat)
    requires length <= 57 && value < Pow2(length) && off / 8 * 8 + 64 <= mem.Length
    modifies mem
    ensures mem[..] == Written(old(mem[..]), off, length, value)
  {
    var base := off / 8 * 8;
    ghost var before := mem[..];
    forall i | 0 <= i < 64 {
      mem[base + i] := mem[base + i] || Shifted(off, value, i);
    }
    forall k: nat | k < mem.Length
      ensures mem[k] == Written(before, off, length, value)[k]
    {
      if base <= k < base + 64 {
        WordBit(off, length, value, k - base);
      }
    }
  }

  lemma {:induction false} WordBit(off: nat, length: nat, value: nat, i: nat)
    requires length <= 57 && value < Pow2(length) && i < 64
    ensures var k := off / 8 * 8 + i;
            Shifted(off, value, i) == (off <= k < off + length && ToBits(value, length)[k - off])
  {
    if i >= off % 8 {
      HighBitsZero(value, length, 64, i - off % 8);
    }
  }

  /** The field gains the bits of the value, and nothing else changes. */
  function Written(mem: Bits, off: nat, length: nat, value: nat): (r: Bits)
    ensures |r| == |mem|
  {
    seq(|mem|, k requires 0 <= k < |mem| => mem[k] || (off <= k < off + length && ToBits(value, length)[k - off]))
  }

  datatype Field = Field(off: nat, length: nat, value: nat)

  predicate FieldOk(f: Field, size: nat) {
    f.length <= 57 && f.value < Pow2(f.length) && f.off / 8 * 8 + 64 <= size
  }

  predicate Apart(f: Field, g: Field) {
    f.off + f.length <= g.off || g.off + g.length <= f.off
  }

  ghost predicate AllApart(fields: seq<Field>) {
    forall i, j {:trigger Apart(fields[i], fields[j])} :: 0 <= i < j < |fields| ==> Apart(fields[i], fields[j])
  }

  predicate Reads(mem: Bits, f: Field)
    requires FieldOk(f, |mem|)
  {
    ReadInt57(mem, f.off, f.length) == f.value
  }

  ghost predicate Zero(mem: Bits, f: Field) {
    forall k {:trigger mem[k]} :: f.off <= k < f.off + f.length && k < |mem| ==> !mem[k]
  }

  /** Zeroed bits take the value. */
  lemma {:induction false} WriteReads(mem: Bits, f: Field)
    requires FieldOk(f, |mem|) && Zero(mem, f)
    ensures Reads(Written(mem, f.off, f.length, f.value), f)
  {
    var after := Written(mem, f.off, f.length, f.value);
    LoadIsSlice(after, f.off, 64, f.length);
    assert after[f.off..f.off + f.length] == ToBits(f.value, f.length);
    ValOfBits(f.value, f.length);
  }

  lemma {:induction false} WriteKeeps(mem: Bits, f: Field, g: Field)
    requires FieldOk(f, |mem|) && FieldOk(g, |mem|) && Apart(f, g)
    ensures Reads(mem, g) ==> Reads(Written(mem, f.off, f.length, f.value), g)
    ensures Zero(mem, g) ==> Zero(Written(mem, f.off, f.length, f.value), g)
  {
    var after := Written(mem, f.off, f.length, f.value);
    LoadIsSlice(mem, g.off, 64, g.length);
    LoadIsSlice(after, g.off, 64, g.length);
    assert after[g.off..g.off + g.length] == mem[g.off..g.off + g.length];
  }

  /** In zeroed memory disjoint fields can be written in any order, and all read back. */
  method WriteAll(mem: array<bool>, fields: seq<Field>)
    requires forall i {:trigger fields[i]} :: 0 <= i < |fields| ==> FieldOk(fields[i], mem.Length)
    requires AllApart(fields) && forall k {:trigger mem[k]} :: 0 <= k < mem.Length ==> !mem[k]
    modifies mem
    ensures forall i {:trigger fields[i]} :: 0 <= i < |fields| ==> Reads(mem[..], fields[i])
  {
    var n := 0;
    while n < |fields|
      invariant 0 <= n <= |fields|
      invariant forall i {:trigger fields[i]} :: 0 <= i < n ==> Reads(mem[..], fields[i])
      invariant forall i {:trigger fields[i]} :: n <= i < |fields| ==> Zero(mem[..], fields[i])
    {
      var f := fields[n];
      ghost var before := mem[..];
      WriteReads(before, f);
      forall i {:trigger fields[i]} | 0 <= i < |fields| && i != n
        ensures Reads(before, fields[i]) ==> Reads(Written(before, f.off, f.length, f.value), fields[i])
        ensures Zero(before, fields[i]) ==> Zero(Written(before, f.off, f.length, f.value), fields[i])
      {
        assert if i < n then Apart(fields[i], fields[n]) else Apart(fields[n], fields[i]);
        WriteKeeps(before, f, fields[i]);
      }
      WriteInt57(mem, f.off, f.length, f.value);
      n := n + 1;
    }
  }

  /** A float written without its sign reads back negative, whatever has been written next to it. */
  lemma {:induction false} FloatIgnoresNeighbour(mem: Bits, off: nat, encoding: Bits)
    requires |encoding| == 32 && off / 8 * 8 + 64 <= |mem| && mem[off..off + 31] == encoding[..31]
    ensures ReadNonPositiveFloat31(mem, off) == encoding[31 := true]
  {
    LoadIsSlice(mem, off, 64, 32);
    LoadIsSlice(mem, off, 64, 31);
    assert Load(mem, off, 64)[..32][..31] == Load(mem, off, 64)[..31];
    forall k | 0 <= k < 31
      ensures ReadNonPositiveFloat31(mem, off)[k] == encoding[k]
    {
      assert encoding[..31][k] == encoding[k] && mem[off..off + 31][k] == mem[off + k];
    }
  }

  // ---------------------------------------------------------------- sizes

  /** BitPacked::BaseSize, in bytes. */
  function BaseSize(entries: nat, wordBits: nat, remainingBits: nat): nat {
    ((1 + entries) * (wordBits + remainingBits) + 7) / 8 + 8
  }

  /** No field of the entries, nor the pointer field of the extra one, is loaded from beyond the end. */
  lemma {:induction false} AccessInside(entries: nat, wordBits: nat, remainingBits: nat, index: nat, at: nat)
    requires index <= entries && at <= wordBits + remainingBits
    ensures var off := index * (wordBits + remainingBits) + at;
            off / 8 * 8 + 64 <= 8 * BaseSize(entries, wordBits, remainingBits)
  {
    var total := wordBits + remainingBits;
    assert (1 + entries) * total == index * total + total + (entries - index) * total;
  }
}
