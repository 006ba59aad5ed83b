/** The linear-probing hash table of kenlm/util/probing_hash_table.hh. */
module Probing {

  type Key = nat

  datatype Entry<V> = Entry(key: Key, value: V)

  /** How far bucket `b` is from bucket `h`, going up and around. */
  function Distance(h: nat, b: nat, n: nat): nat
    requires h < n && b < n
  {
    if b >= h then b - h else b - h + n
  }

  function Occupied<V>(buckets: seq<Entry<V>>, invalid: Key): nat {
    if buckets == [] then 0
    else Occupied(buckets[..|buckets| - 1], invalid) + if buckets[|buckets| - 1].key == invalid then 0 else 1
  }

  lemma {:induction false} OccupiedUpdate<V>(buckets: seq<Entry<V>>, invalid: Key, i: nat, e: Entry<V>)
    requires i < |buckets| && buckets[i].key == invalid && e.key != invalid
    ensures Occupied(buckets[i := e], invalid) == Occupied(buckets, invalid) + 1
    decreases |buckets|
  {
    var k := |buckets| - 1;
    if i < k {
      OccupiedUpdate(buckets[..k], invalid, i, e);
      assert buckets[i := e][..k] == buckets[..k][i := e];
    } else {
      assert buckets[i := e][..k] == buckets[..k];
    }
  }

  lemma {:induction false} SomeEmpty<V>(buckets: seq<Entry<V>>, invalid: Key) returns (e: nat)
    requires Occupied(buckets, invalid) < |buckets|
    ensures e < |buckets| && buckets[e].key == invalid
    decreases |buckets|
  {
    var k := |buckets| - 1;
    if buckets[k].key == invalid {
      e := k;
    } else {
      e := SomeEmpty(buckets[..k], invalid);
    }
  }

  lemma {:induction false} NoneOccupied<V>(buckets: seq<Entry<V>>, invalid: Key)
    requires forall i {:trigger buckets[i]} :: 0 <= i < |buckets| ==> buckets[i].key == invalid
    ensures Occupied(buckets, invalid) == 0
    decreases |buckets|
  {
    if buckets != [] {
      NoneOccupied(buckets[..|buckets| - 1], invalid);
    }
  }

  type Hash = Key -> nat

  function Start(hash: Hash, key: Key, n: nat): (h: nat)
    requires n > 0
    ensures h < n
  {
    hash(key) % n
  }

  /** No bucket on the way from the start of `key` to `b` holds the key `other`. */
  ghost predicate NoneBefore<V>(buckets: seq<Entry<V>>, hash: Hash, key: Key, b: nat, other: Key)
    requires b < |buckets|
  {
    var n := |buckets|;
    var h := Start(hash, key, n);
    forall c: nat {:trigger buckets[c]} :: c < n && Distance(h, c, n) < Distance(h, b, n) ==> buckets[c].key != other
  }

  /** No bucket on the way from the key's start to `b` is empty. */
  ghost predicate Reached<V>(buckets: seq<Entry<V>>, invalid: Key, hash: Hash, b: nat)
    requires b < |buckets|
  {
    NoneBefore(buckets, hash, buckets[b].key, b, invalid)
  }

  /** `b` is the first bucket with the key, on the way from its start. */
  ghost predicate IsFirst<V>(buckets: seq<Entry<V>>, hash: Hash, key: Key, b: nat)
    requires b < |buckets|
  {
    buckets[b].key == key && NoneBefore(buckets, hash, key, b, key)
  }

  ghost predicate Holds<V>(buckets: seq<Entry<V>>, hash: Hash, key: Key, value: V) {
    exists b: nat {:trigger IsFirst(buckets, hash, key, b)} :: b < |buckets| && IsFirst(buckets, hash, key, b)
      && buckets[b].value == value
  }

  ghost predicate TableOk<V>(buckets: seq<Entry<V>>, invalid: Key, hash: Hash, contents: map<Key, V>) {
    && (forall b: nat {:trigger Reached(buckets, invalid, hash, b)} ::
          b < |buckets| && buckets[b].key != invalid ==> Reached(buckets, invalid, hash, b))
    && (forall b: nat {:trigger buckets[b]} :: b < |buckets| && buckets[b].key != invalid ==>
         buckets[b].key in contents)
    && (forall key {:trigger key in contents} :: key in contents ==>
         key != invalid && Holds(buckets, hash, key, contents[key]))
  }

  /** The map that keeps the first value of each key. */
  function AddFirst<V>(contents: map<Key, V>, t: Entry<V>): map<Key, V> {
    if t.key in contents then contents else contents[t.key := t.value]
  }

  /** Filling the first empty bucket on the way keeps everything reachable, and older entries first. */
  lemma {:induction false} InsertOk<V>(buckets: seq<Entry<V>>, invalid: Key, hash: Hash, contents: map<Key, V>,
                                       t: Entry<V>, i: nat)
    requires TableOk(buckets, invalid, hash, contents) && t.key != invalid && i < |buckets| && buckets[i].key == invalid
    requires NoneBefore(buckets, hash, t.key, i, invalid)
    ensures TableOk(buckets[i := t], invalid, hash, AddFirst(contents, t))
  {
    var after := buckets[i := t];
    forall b: nat | b < |after| && after[b].key != invalid
      ensures Reached(after, invalid, hash, b)
    {
      StaysReached(buckets, invalid, hash, contents, t, i, b);
    }
    forall key | key in AddFirst(contents, t)
      ensures Holds(after, hash, key, AddFirst(contents, t)[key])
    {
      if key in contents {
        OldStaysFirst(buckets, invalid, hash, contents, t, i, key);
      } else {
        NewIsFirst(buckets, invalid, hash, contents, t, i);
      }
    }
  }

  lemma {:induction false} StaysReached<V>(buckets: seq<Entry<V>>, invalid: Key, hash: Hash, contents: map<Key, V>,
                                           t: Entry<V>, i: nat, b: nat)
    requires TableOk(buckets, invalid, hash, contents) && t.key != invalid && i < |buckets| && buckets[i].key == invalid
    requires NoneBefore(buckets, hash, t.key, i, invalid) && b < |buckets| && buckets[i := t][b].key != invalid
    ensures Reached(buckets[i := t], invalid, hash, b)
  {
    assert b != i ==> Reached(buckets, invalid, hash, b);
  }

  lemma {:induction false} NewIsFirst<V>(buckets: seq<Entry<V>>, invalid: Key, hash: Hash, contents: map<Key, V>,
                                         t: Entry<V>, i: nat)
    requires TableOk(buckets, invalid, hash, contents) && t.key != invalid && i < |buckets| && buckets[i].key == invalid
    requires NoneBefore(buckets, hash, t.key, i, invalid) && t.key !in contents
    ensures Holds(buckets[i := t], hash, t.key, t.value)
  {
    assert IsFirst(buckets[i := t], hash, t.key, i);
  }

  lemma {:induction false} OldStaysFirst<V>(buckets: seq<Entry<V>>, invalid: Key, hash: Hash, contents: map<Key, V>,
                                            t: Entry<V>, i: nat, key: Key)
    requires TableOk(buckets, invalid, hash, contents) && key in contents && i < |buckets| && buckets[i].key == invalid
    ensures Holds(buckets[i := t], hash, key, contents[key])
  {
    var b: nat :| b < |buckets| && IsFirst(buckets, hash, key, b) && buckets[b].value == contents[key];
    assert Reached(buckets, invalid, hash, b);
    assert IsFirst(buckets[i := t], hash, key, b);
  }

  /** Where a search stops tells whether the key is there. */
  lemma {:induction false} FoundIs<V>(buckets: seq<Entry<V>>, invalid: Key, hash: Hash, contents: map<Key, V>, key: Key,
                                      i: nat)
    requires TableOk(buckets, invalid, hash, contents) && key != invalid && i < |buckets|
    requires buckets[i].key == key || buckets[i].key == invalid
    requires NoneBefore(buckets, hash, key, i, key)
    ensures buckets[i].key == key <==> key in contents
    ensures key in contents ==> buckets[i].value == contents[key] && IsFirst(buckets, hash, key, i)
  {
    if key in contents {
      var b: nat :| b < |buckets| && IsFirst(buckets, hash, key, b) && buckets[b].value == contents[key];
      assert Reached(buckets, invalid, hash, b);
    }
  }

  class ProbingHashTable<V> {
    const hash: Hash
    const invalid: Key
    const buckets: array<Entry<V>>
    var entries: nat
    ghost var contents: map<Key, V>

    ghost predicate Valid()
      reads this, buckets
    {
      && buckets.Length > 0 && Occupied(buckets[..], invalid) <= entries
         && Occupied(buckets[..], invalid) < buckets.Length
      && TableOk(buckets[..], invalid, hash, contents)
    }

    /** All buckets hold the invalid key. */
    constructor (size: nat, hash: Hash, invalid: Key, value: V)
      requires size > 0
      ensures Valid() && fresh(buckets) && buckets.Length == size && entries == 0 && contents == map[]
      ensures this.hash == hash && this.invalid == invalid
    {
      this.hash, this.invalid, entries, contents := hash, invalid, 0, map[];
      buckets := new Entry<V>[size](_ => Entry(invalid, value));
      new;
      NoneOccupied(buckets[..], invalid);
    }

    /** Throws, as `!ok`, when no bucket would stay empty; a key that is there already keeps its value. */
    method Insert(t: Entry<V>) returns (ok: bool)
      requires Valid() && t.key != invalid
      modifies this, buckets
      ensures Valid() && entries == old(entries) + 1 && ok == (old(entries) + 1 < buckets.Length)
      ensures contents == if ok then AddFirst(old(contents), t) else old(contents)
    {
      entries := entries + 1;
      if entries >= buckets.Length {
        return false;
      }
      var i := FindEmpty(t.key);
      InsertOk(buckets[..], invalid, hash, contents, t, i);
      OccupiedUpdate(buckets[..], invalid, i, t);
      buckets[i] := t;
      contents := AddFirst(contents, t);
      ok := true;
    }

    method FindEmpty(key: Key) returns (i: nat)
      requires buckets.Length > 0 && Occupied(buckets[..], invalid) < buckets.Length
      ensures i < buckets.Length && buckets[i].key == invalid
      ensures NoneBefore(buckets[..], hash, key, i, invalid)
    {
      ghost var n := buckets.Length;
      ghost var e := SomeEmpty(buckets[..], invalid);
      var start := Start(hash, key, buckets.Length);
      i := start;
      while buckets[i].key != invalid
        invariant i < n && Distance(start, i, n) + Distance(i, e, n) == Distance(start, e, n)
        invariant NoneBefore(buckets[..], hash, key, i, invalid)
        decreases Distance(i, e, n)
      {
        i := i + 1;
        if i == buckets.Length {
          i := 0;
        }
      }
    }

    /** Find: the bucket of the first value inserted for the key, or not found. */
    method Find(key: Key) returns (found: bool, out: nat)
      requires Valid() && key != invalid
      ensures found <==> key in contents
      ensures found ==>
                out < buckets.Length && buckets[out] == Entry(key, contents[key])
                  && IsFirst(buckets[..], hash, key, out)
    {
      out := Scan(key);
      FoundIs(buckets[..], invalid, hash, contents, key, out);
      found := buckets[out].key == key;
    }

    /** The first bucket with the key, or before that the first empty one; there is one. */
    method Scan(key: Key) returns (i: nat)
      requires buckets.Length > 0 && Occupied(buckets[..], invalid) < buckets.Length
      ensures i < buckets.Length && (buckets[i].key == key || buckets[i].key == invalid)
      ensures NoneBefore(buckets[..], hash, key, i, key)
    {
      ghost var n := buckets.Length;
      ghost var e := SomeEmpty(buckets[..], invalid);
      var start := Start(hash, key, buckets.Length);
      i := start;
      while buckets[i].key != key && buckets[i].key != invalid
        invariant i < n && Distance(start, i, n) + Distance(i, e, n) == Distance(start, e, n)
        invariant NoneBefore(buckets[..], hash, key, i, key)
        decreases Distance(i, e, n)
      {
        i := i + 1;
        if i == buckets.Length {
          i := 0;
        }
      }
    }

    /**
     A table takes a list of entries exactly if one bucket more is there; it ends up with the
     first value of each key.
     */
    method InsertAll(ts: seq<Entry<V>>) returns (ok: bool)
      requires Valid() && forall k {:trigger ts[k]} :: 0 <= k < |ts| ==> ts[k].key != invalid
      modifies this, buckets
      ensures Valid() && (ok <==> ts == [] || old(entries) + |ts| < buckets.Length)
      ensures ok ==> contents == AddAll(old(contents), ts) && entries == old(entries) + |ts|
    {
      ok := true;
      var k := 0;
      while k < |ts|
        invariant 0 <= k <= |ts| && Valid() && entries == old(entries) + k && contents == AddAll(old(contents), ts[..k])
        invariant k > 0 ==> entries < buckets.Length
      {
        ok := Insert(ts[k]);
        if !ok {
          return;
        }
        assert ts[..k + 1][..k] == ts[..k];
        k := k + 1;
      }
      assert ts[..k] == ts;
    }
  }

  function AddAll<V>(contents: map<Key, V>, ts: seq<Entry<V>>): map<Key, V> {
    if ts == [] then contents else AddFirst(AddAll(contents, ts[..|ts| - 1]), ts[|ts| - 1])
  }

  /** The map holds exactly the keys inserted, each with its earliest value. */
  lemma {:induction false} AddAllIsFirst<V>(ts: seq<Entry<V>>, key: Key)
    ensures key in AddAll(map[], ts) <==> exists k {:trigger ts[k]} :: 0 <= k < |ts| && ts[k].key == key
    ensures forall k {:trigger ts[k]} ::
              (0 <= k < |ts| && ts[k].key == key
               && forall j {:trigger ts[j]} :: 0 <= j < k ==> ts[j].key != key) ==>
              AddAll(map[], ts)[key] == ts[k].value
    decreases |ts|
  {
    if ts != [] {
      var before := ts[..|ts| - 1];
      AddAllIsFirst(before, key);
      assert forall j {:trigger ts[j]} :: 0 <= j < |before| ==> ts[j] == before[j];
    }
  }

  /** ProbingHashTable::Size, in buckets. */
  function Buckets(entries: nat, multiplier: real): (n: nat)
    requires multiplier >= 0.0
    ensures n > entries
  {
    var scaled := (multiplier * entries as real).Floor;
    if scaled > entries then scaled else entries + 1
  }
}
