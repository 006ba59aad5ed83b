/**
 Building the hashed search structure from listed n-grams (kenlm/lm/search_hashed.cc).

 The listed n-grams need not be closed under dropping the oldest word; the loader fills
 the holes with "blanks" and keeps two flags in sign bits as it goes.  A stored
 log-probability is therefore a sign bit and a magnitude: queries read minus the
 magnitude and take a clear sign bit to mean "extends left".  A backoff is a value and
 the flag that tells the two zeros apart (kenlm/lm/blank.hh).

 `listed` holds what the file says.  Hash keys are collision-free, so a table is a map
 from n-grams, newest word first.
 */
module HashedLoad {
  import opened GramSets
  import opened NGram
  import Probing

  datatype Weights = Weights(negative: bool, mag: real, backoff: real, ext: bool)

  type Table = map<Gram, Weights>

  /** One line of the file after ReadNGram: log-probability and backoff. */
  datatype Line = Line(gram: Gram, prob: real, backoff: real)

  // ---------------------------------------------------------------- floats with a sign bit

  function SetExtension(w: Weights): Weights {
    w.(ext := true)
  }

  /** Clears the sign bit: the n-gram extends left. */
  function UnsetSign(w: Weights): Weights {
    w.(negative := false)
  }

  /** The float with the given value; its sign bit is clear for zero. */
  function Blank(value: real): Weights {
    Weights(value < 0.0, if value < 0.0 then -value else value, 0.0, false)
  }

  /** ReadBackoff turns every zero into the zero that means "no extension". */
  function FromLine(line: Line): Weights {
    Weights(true, -line.prob, line.backoff, line.backoff != 0.0)
  }

  /** What the queries read back. */
  function AsModel(order: nat, t: Table): Model {
    Model(order, map g | g in t :: Entry(-t[g].mag, t[g].backoff, !t[g].negative, t[g].ext))
  }

  // ---------------------------------------------------------------- what loading keeps

  /** The file as a table of its own: the reference for every score. */
  ghost predicate ListedOk(listed: Model) {
    && listed.order >= 2
    && forall g {:trigger LineOk(listed, g)} :: g in listed.table ==> LineOk(listed, g)
  }

  ghost predicate LineOk(listed: Model, g: Gram) {
    && g in listed.table
    && 1 <= |g| <= listed.order
    && Known(listed, g)
    && listed.table[g].prob <= 0.0
    && (|g| == listed.order ==> listed.table[g].backoff == 0.0)
  }

  /** No hole would be filled by a positive log-probability. */
  ghost predicate BlanksNonPositive(listed: Model) {
    forall g, k {:trigger Katz(listed, g, k)} ::
      g in listed.table && 1 <= k <= |g| ==> Katz(listed, g, k) <= 0.0
  }

  /** Entry `g` while order-`n` n-grams are being read. */
  ghost predicate Good(listed: Model, t: Table, n: nat, g: Gram) {
    && g in t
    && 1 <= |g| <= n
    && Known(listed, g)
    && t[g].mag >= 0.0
    && (|g| > 1 ==> g[..|g| - 1] in t)
    && (|g| > 1 ==> g[1..] in t && t[g[1..]].ext)
    && (t[g].backoff != 0.0 ==> t[g].ext)
    && (|g| < listed.order ==> t[g].backoff == BackoffOf(listed, g))
    && (g in listed.table ==> t[g].mag == -listed.table[g].prob)
    && (g !in listed.table ==> |g| < n)
    && PartOfListed(listed, g)
  }

  /** Only listed n-grams and their holes are ever stored. */
  ghost predicate PartOfListed(listed: Model, g: Gram) {
    exists v :: v in listed.table && Starts(v, g)
  }

  predicate Starts(v: Gram, g: Gram) {
    |g| <= |v| && v[..|g|] == g
  }

  /** The parts of an entry that a positive blank would spoil. */
  ghost predicate Exact(listed: Model, t: Table, g: Gram) {
    && g in t
    && g != []
    && t[g].mag == -Score(listed, g)
    && (!t[g].negative <==> (exists w :: Grows(t, g, w)) || ZeroUnigram(listed, g))
  }

  ghost predicate Grows(t: Table, g: Gram, w: Word) {
    g + [w] in t
  }

  /** Read1Gram does not set the sign bit of a zero log-probability. */
  ghost predicate ZeroUnigram(listed: Model, g: Gram) {
    |g| == 1 && g in listed.table && listed.table[g].prob == 0.0
  }

  /** Every order below `n` is complete; of order `n`, `read` has been read. */
  ghost predicate Loaded(listed: Model, t: Table, n: nat, read: set<Gram>) {
    && (forall g {:trigger Good(listed, t, n, g)} :: g in t ==> Good(listed, t, n, g))
    && (forall g {:trigger Present(listed, t, n, g)} :: Present(listed, t, n, g))
    && (forall g {:trigger OfOrder(t, n, read, g)} :: OfOrder(t, n, read, g))
  }

  ghost predicate Present(listed: Model, t: Table, n: nat, g: Gram) {
    g in listed.table && |g| < n ==> g in t
  }

  ghost predicate OfOrder(t: Table, n: nat, read: set<Gram>, g: Gram) {
    g in t && |g| == n <==> g in read
  }

  ghost predicate AllExact(listed: Model, t: Table) {
    forall g {:trigger Exact(listed, t, g)} :: g in t ==> Exact(listed, t, g)
  }

  /** Only what has a backoff, or is the history of something stored, is flagged as extending right. */
  ghost predicate OnlyExtended(t: Table) {
    forall g {:trigger g in t} :: g in t && t[g].ext ==> t[g].backoff != 0.0 || ExtendedIn(t, g)
  }

  ghost predicate ExtendedIn(t: Table, g: Gram) {
    exists x: Word {:trigger [x] + g} :: [x] + g in t
  }

  lemma {:induction false} StillExtended(t: Table, t': Table)
    requires OnlyExtended(t) && t.Keys <= t'.Keys
    requires forall g {:trigger g in t'} :: g in t' && t'[g].ext ==>
               || (g in t && t[g].ext && t'[g].backoff == t[g].backoff) || t'[g].backoff != 0.0 || ExtendedIn(t', g)
    ensures OnlyExtended(t')
  {
    forall g {:trigger g in t'} | g in t' && t'[g].ext
      ensures t'[g].backoff != 0.0 || ExtendedIn(t', g)
    {
      if g in t && t[g].ext && t[g].backoff == 0.0 && t'[g].backoff == 0.0 {
        if ExtendedIn(t, g) {
          var x: Word :| [x] + g in t;
          assert [x] + g in t';
        }
      }
    }
  }

  /** A new entry is flagged only for its backoff, and an old one stays as it is. */
  lemma {:induction false} ExtendedWith(t: Table, g: Gram, w: Weights)
    requires OnlyExtended(t)
    requires if g in t then w.ext == t[g].ext && w.backoff == t[g].backoff else w.ext ==> w.backoff != 0.0
    ensures OnlyExtended(t[g := w])
  {
    StillExtended(t, t[g := w]);
  }

  // ---------------------------------------------------------------- reading one n-gram

  /** The table after n-gram `v` was stored on top of `t0` and blanks up to length `j` filled in. */
  ghost predicate Filling(listed: Model, t0: Table, t: Table, v: Gram, k: nat, j: nat, exact: bool) {
    && 1 <= k <= j < |v| && v[..k] in t0
    && (forall g {:trigger Kept(t0, t, v, k, g)} :: g in t0 ==> Kept(t0, t, v, k, g))
    && v in t && v in listed.table && t[v] == FromLine(Line(v, listed.table[v].prob, listed.table[v].backoff))
    && (forall g {:trigger Origin(t0, t, v, k, j, g)} :: g in t ==> Origin(t0, t, v, k, j, g))
    && (forall i {:trigger Filled(listed, t0, t, v, i, exact)} :: k < i <= j ==> Filled(listed, t0, t, v, i, exact))
  }

  ghost predicate Origin(t0: Table, t: Table, v: Gram, k: nat, j: nat, g: Gram)
    requires j < |v|
  {
    g in t && (g in t0 || g == v || (k < |g| <= j && g == v[..|g|]))
  }

  ghost predicate Kept(t0: Table, t: Table, v: Gram, k: nat, g: Gram)
    requires k <= |v|
  {
    && g in t0 && g in t
    && t[g].mag == t0[g].mag && t[g].backoff == t0[g].backoff
    && (t0[g].ext ==> t[g].ext)
    && t[g].negative == (t0[g].negative && g != v[..k])
  }

  ghost predicate Filled(listed: Model, t0: Table, t: Table, v: Gram, i: nat, exact: bool) {
    && 1 < i < |v| && v[..i] in t && v[..i] !in t0
    && t[v[..i]].mag >= 0.0 && t[v[..i]].backoff == 0.0
    && (exact ==>
          !t[v[..i]].negative && t[v[..i]].mag == -Katz(listed, v, i))
    && (ContextFound(t0, v) ==> v[1..i] in t && t[v[1..i]].ext)
  }

  /** The history of `v` is stored, or filling the holes of `v` stores it. */
  ghost predicate ContextFound(t0: Table, v: Gram)
    requires |v| >= 1
  {
    v[1..] in t0 || v[1..] == v[..|v| - 1]
  }

  class HashedSearch {
    /** What unigrams and probing tables hold together. */
    var table: Table

    /** For each order from two on the buckets of its probing table, and the insertions into it. */
    const buckets: seq<nat>
    var entries: seq<nat>

    ghost predicate Valid()
      reads this
    {
      && |entries| == |buckets| && Fits(table.Keys, buckets)
      && forall n: nat {:trigger OfLength(table.Keys, n)} :: 2 <= n < |buckets| + 2 ==>
           entries[n - 2] == |OfLength(table.Keys, n)|
    }

    /** SetupMemory: the tables are sized for the n-grams counted in the file alone. */
    constructor (counts: seq<nat>, multiplier: real)
      requires |counts| >= 2 && multiplier >= 0.0
      ensures Valid() && table == map[] && buckets == SizesFor(counts, multiplier)
    {
      table := map[];
      buckets := SizesFor(counts, multiplier);
      entries := seq(|counts| - 1, _ => 0);
      new;
      forall n: nat
        ensures OfLength(table.Keys, n) == {}
      {
      }
    }

    /** Insert of the probing table for this order; false stands for the ProbingSizeException. */
    method Insert(g: Gram, w: Weights) returns (ok: bool)
      requires Valid() && g !in table && 2 <= |g| < |buckets| + 2
      modifies this
      ensures ok <==> Fits(old(table).Keys + {g}, buckets)
      ensures ok ==> Valid() && table == old(table)[g := w]
    {
      var n := |g| - 2;
      OneMoreFits(table.Keys, g, buckets);
      forall length: nat
        ensures |OfLength(table.Keys + {g}, length)| == |OfLength(table.Keys, length)| + if |g| == length then 1 else 0
      {
        OneMoreOfLength(table.Keys, g, length);
      }
      entries := entries[n := entries[n] + 1];
      if entries[n] >= buckets[n] {
        return false;
      }
      assert table[g := w].Keys == table.Keys + {g};
      table := table[g := w];
      ok := true;
    }

    /** A value found by UnsafeMutableFind is changed in place. */
    method Change(g: Gram, w: Weights)
      requires Valid() && g in table
      modifies this
      ensures Valid() && table == old(table)[g := w] && table.Keys == old(table).Keys
    {
      assert table[g := w].Keys == table.Keys;
      table := table[g := w];
    }

    /**
     Inserts blanks from order `found + 1` up to one below `v` (found is the longest stored).
     It throws only if all prefixes of `v` are too many for some table.
     */
    method FixSRI(found: nat, negativeLowerProb: real, v: Gram, ghost listed: Model, ghost t0: Table,
                  ghost read: set<Gram>, ghost exact: bool) returns (ok: bool)
      requires ListedOk(listed) && Loaded(listed, t0, |v|, read) && v in listed.table
      requires Valid() && 3 <= |v| < |buckets| + 2 && 1 <= found <= |v| - 2
      requires Filling(listed, t0, table, v, found, found, exact)
      requires forall i :: found < i < |v| ==> v[..i] !in t0
      requires exact ==> BlanksNonPositive(listed) && negativeLowerProb == -Katz(listed, v, found)
      requires OnlyExtended(table)
      modifies this
      ensures ok ==> Valid() && Filling(listed, t0, table, v, found, |v| - 1, exact) && OnlyExtended(table)
      ensures !ok ==> !Fits(t0.Keys + Prefixes(v), buckets)
    {
      var value := negativeLowerProb;
      var length := found + 1;
      if length == 2 {
        // Insert a missing bigram.
        BlankStep(listed, t0, table, v, found, length - 1, value, read, exact);
        BlankIsNew(listed, t0, table, v, found, length - 1, exact, buckets);
        BlankExtends(table, v, length, value);
        ghost var next := AddBlank(table, v, length, value);
        value := value - table[v[1..2]].backoff;
        Change(v[1..2], SetExtension(table[v[1..2]]));
        ok := Insert(v[..2], Blank(value));
        if !ok {
          return;
        }
        assert (table, value) == next;
        length := 3;
      }
      ok := true;
      while length <= |v| - 1
        invariant found + 1 <= length <= |v| && ok && Valid() && OnlyExtended(table)
        invariant Filling(listed, t0, table, v, found, length - 1, exact)
        invariant exact ==> value == -Katz(listed, v, length - 1)
      {
        ok, value := InsertBlank(found, length, value, v, listed, t0, read, exact);
        if !ok {
          return;
        }
        length := length + 1;
      }
    }

    /** One round of the loop of FixSRI. */
    method InsertBlank(ghost found: nat, length: nat, before: real, v: Gram, ghost listed: Model, ghost t0: Table,
                       ghost read: set<Gram>, ghost exact: bool) returns (ok: bool, value: real)
      requires ListedOk(listed) && Loaded(listed, t0, |v|, read) && v in listed.table
      requires Valid() && 1 <= found < length < |v| < |buckets| + 2 && v[..length] !in t0
      requires Filling(listed, t0, table, v, found, length - 1, exact)
      requires exact ==> BlanksNonPositive(listed) && before == -Katz(listed, v, length - 1)
      requires OnlyExtended(table)
      modifies this
      ensures ok ==> Valid() && Filling(listed, t0, table, v, found, length, exact) && OnlyExtended(table)
      ensures exact ==> value == -Katz(listed, v, length)
      ensures !ok ==> !Fits(t0.Keys + Prefixes(v), buckets)
    {
      BlankStep(listed, t0, table, v, found, length - 1, before, read, exact);
      BlankIsNew(listed, t0, table, v, found, length - 1, exact, buckets);
      BlankExtends(table, v, length, before);
      ghost var next := AddBlank(table, v, length, before);
      value := before;
      var context := v[1..length];
      if context in table {
        value := value - table[context].backoff;
        Change(context, SetExtension(table[context]));
      }
      ok := Insert(v[..length], Blank(value));
      assert ok ==> (table, value) == next;
    }

    /**
     The body of ReadNGrams: stores one n-gram.  False stands for the FormatLoadException
     about its history or the ProbingSizeException.
     */
    method ReadNGram(line: Line, ghost listed: Model, ghost read: set<Gram>) returns (ok: bool)
      requires ListedOk(listed) && Loaded(listed, table, |line.gram|, read)
               && FillersStart(listed, table, |line.gram|, read)
      requires IsLine(listed, line) && line.gram !in read
      requires Valid() && 2 <= |line.gram| < |buckets| + 2 && OnlyExtended(table)
      modifies this
      ensures ok <==> ContextFound(old(table), line.gram) && Fits(old(table).Keys + Prefixes(line.gram), buckets)
      ensures ok ==> Valid() && table.Keys == old(table).Keys + Prefixes(line.gram) && OnlyExtended(table)
      ensures ok ==> Loaded(listed, table, |line.gram|, read + {line.gram})
      ensures ok ==> FillersStart(listed, table, |line.gram|, read + {line.gram})
      ensures ok && BlanksNonPositive(listed) && old(AllExact(listed, table)) ==> AllExact(listed, table)
    {
      var v := line.gram;
      ghost var t0, exact := table, AllExact(listed, table) && BlanksNonPositive(listed);
      assert OfOrder(t0, |v|, read, v) && LineOk(listed, v);
      ExtendedWith(table, v, FromLine(line));
      ok := Insert(v, FromLine(line));
      if !ok {
        LineDoesNotFit(t0, v, buckets);
        return;
      }
      // Find the longest right-aligned entry and tell it that it extends left.
      var lower := |v| - 1;
      while lower > 1 && v[..lower] !in table
        invariant 1 <= lower < |v|
        invariant forall i :: lower < i < |v| ==> v[..i] !in t0
      {
        lower := lower - 1;
      }
      UnigramPresent(listed, t0, v, read);
      ExtendedWith(table, v[..lower], UnsetSign(table[v[..lower]]));
      Change(v[..lower], UnsetSign(table[v[..lower]]));
      FillStart(listed, t0, table, v, lower, line, exact);
      if lower != |v| - 1 {
        LowerValue(listed, t0, v, lower, exact);
        ok := FixSRI(lower, table[v[..lower]].mag, v, listed, t0, read, exact);
        if !ok {
          return;
        }
      }
      ContextIsFound(listed, t0, table, v, lower, exact);
      FilledKeys(listed, t0, table, v, lower, read, exact);
      // Activate the history.
      if v[1..] !in table {
        return false;
      }
      Activated(listed, t0, table, v, lower, read, exact);
      FillersStep(listed, t0, table, v, lower, read, exact);
      HistoryExtends(table, v);
      Change(v[1..], SetExtension(table[v[1..]]));
    }

    /** Read1Grams; the sign bit is that of the number read. */
    method Read1Grams(lines: seq<Line>, ghost listed: Model)
      requires ListedOk(listed) && ListsOrder(listed, 1, lines) && Valid() && table == map[]
      modifies this
      ensures Valid() && Loaded(listed, table, 1, Grams(lines)) && AllExact(listed, table) && OnlyExtended(table)
    {
      NothingLoaded(listed);
      assert Grams(lines[..0]) == {};
      for i := 0 to |lines|
        invariant Valid() && Loaded(listed, table, 1, Grams(lines[..i])) && AllExact(listed, table)
                  && OnlyExtended(table)
      {
        assert Grams(lines[..i + 1]) == Grams(lines[..i]) + {lines[i].gram} by {
          assert forall j :: 0 <= j < i ==> lines[..i + 1][j] == lines[..i][j];
          assert lines[..i + 1][i] == lines[i];
        }
        var line := lines[i];
        UnigramStored(listed, table, line, Grams(lines[..i]));
        UnigramTakesNoBucket(table, line.gram, FromUnigram(line));
        assert OfOrder(table, 1, Grams(lines[..i]), line.gram);
        ExtendedWith(table, line.gram, FromUnigram(line));
        table := table[line.gram := FromUnigram(line)];
      }
      assert lines[..|lines|] == lines;
    }

    /**
     Loads a whole file.  That succeeds exactly if the history of every n-gram is listed or has
     been filled in by then, and the tables below the highest order have room for the blanks.
     It leaves every listed n-gram stored and the table closed; if moreover no blank would be
     positive, every magnitude and left flag is exact.
     */
    method InitializeFromARPA(lists: seq<seq<Line>>, multiplier: real, ghost listed: Model) returns (ok: bool)
      requires ListedOk(listed) && Lists(listed, lists) && multiplier >= 0.0
      requires Valid() && table == map[] && buckets == SizesFor(CountsOf(lists), multiplier)
      modifies this
      ensures ok <==> ContextsReady(listed, lists, |lists|) && RoomForBlanks(listed, lists, multiplier)
      ensures ok ==> Valid() && FullyLoaded(listed, table) && OnlyExtended(table)
      ensures ok && BlanksNonPositive(listed) ==> AllExact(listed, table)
    {
      Read1Grams(lists[0], listed);
      RoomIsFit(listed, lists, multiplier);
      ok := true;
      for n := 2 to |lists| + 1
        invariant ok && Valid() && Loaded(listed, table, n - 1, Grams(lists[n - 2])) && OnlyExtended(table)
        invariant ContextsReady(listed, lists, n - 1)
        invariant BlanksNonPositive(listed) ==> AllExact(listed, table)
      {
        NextOrder(listed, lists, table, n - 1);
        NoFillers(listed, lists, table, n - 1);
        assert ListsOrder(listed, n, lists[n - 1]);
        AllFromListed(listed, table, n, lists[n - 1], buckets);
        ok := ReadNGrams(n, lists[n - 1], listed);
        if !ok {
          return;
        }
      }
      NextOrder(listed, lists, table, |lists|);
      LoadedKeys(listed, table);
    }

    /** Reads every n-gram of one order above the unigrams. */
    method ReadNGrams(n: nat, lines: seq<Line>, ghost listed: Model) returns (ok: bool)
      requires ListedOk(listed) && Loaded(listed, table, n, {}) && FillersStart(listed, table, n, {})
      requires ListsOrder(listed, n, lines) && Valid() && 2 <= n < |buckets| + 2 && OnlyExtended(table)
      modifies this
      ensures ok <==> LinesReady(listed, lines, |lines|) && Fits(old(table).Keys + LinePrefixes(lines), buckets)
      ensures ok ==> Valid() && Loaded(listed, table, n, Grams(lines)) && OnlyExtended(table)
      ensures ok && BlanksNonPositive(listed) && old(AllExact(listed, table)) ==> AllExact(listed, table)
    {
      ghost var exact, t0 := AllExact(listed, table) && BlanksNonPositive(listed), table;
      assert Grams(lines[..0]) == {} && LinePrefixes(lines[..0]) == {};
      for i := 0 to |lines|
        invariant Underway(listed, n, lines, t0, i, exact)
      {
        ok := ReadLine(n, lines, i, listed, t0, exact);
        if !ok {
          return;
        }
      }
      assert lines[..|lines|] == lines;
      ok := true;
    }

    /** The first `i` lines of an order have been read into `t0`. */
    ghost predicate Underway(listed: Model, n: nat, lines: seq<Line>, t0: Table, i: nat, exact: bool)
      requires i <= |lines|
      reads this
    {
      && Valid() && table.Keys == t0.Keys + LinePrefixes(lines[..i]) && OnlyExtended(table)
      && Loaded(listed, table, n, Grams(lines[..i])) && FillersStart(listed, table, n, Grams(lines[..i]))
      && LinesReady(listed, lines, i) && (exact ==> AllExact(listed, table))
    }

    method ReadLine(n: nat, lines: seq<Line>, i: nat, ghost listed: Model, ghost t0: Table, ghost exact: bool)
      returns (ok: bool)
      requires ListedOk(listed) && ListsOrder(listed, n, lines) && i < |lines| && 2 <= n < |buckets| + 2
      requires Underway(listed, n, lines, t0, i, exact) && (exact ==> BlanksNonPositive(listed))
      modifies this
      ensures ok ==> Underway(listed, n, lines, t0, i + 1, exact)
      ensures !ok ==> !(LinesReady(listed, lines, |lines|) && Fits(t0.Keys + LinePrefixes(lines), buckets))
    {
      LineByLine(listed, t0, table, n, lines, i, buckets);
      ok := ReadNGram(lines[i], listed, Grams(lines[..i]));
    }
  }

  // ---------------------------------------------------------------- room in the probing tables

  function SizesFor(counts: seq<nat>, multiplier: real): (sizes: seq<nat>)
    requires |counts| >= 2 && multiplier >= 0.0
    ensures |sizes| == |counts| - 1 && forall i {:trigger sizes[i]} :: 0 <= i < |sizes| ==> sizes[i] > counts[i + 1]
  {
    seq(|counts| - 1, i requires 0 <= i < |counts| - 1 => Probing.Buckets(counts[i + 1], multiplier))
  }

  function CountsOf(lists: seq<seq<Line>>): (counts: seq<nat>)
    ensures |counts| == |lists|
  {
    seq(|lists|, i requires 0 <= i < |lists| => |lists[i]|)
  }

  /** The parts of this length that listed n-grams start with: listed, or filled in as blanks. */
  ghost function StartsOfLength(listed: Model, n: nat): set<Gram> {
    set v | v in listed.table && n <= |v| :: v[..n]
  }

  /** The tables of the middle orders have room for listed n-grams and blanks; one bucket stays empty. */
  ghost predicate RoomForBlanks(listed: Model, lists: seq<seq<Line>>, multiplier: real)
    requires multiplier >= 0.0
  {
    forall n: nat {:trigger StartsOfLength(listed, n)} :: 2 <= n < |lists| ==>
      |StartsOfLength(listed, n)| < Probing.Buckets(|lists[n - 1]|, multiplier)
  }

  ghost function AllStarts(listed: Model): set<Gram> {
    set v, k | v in listed.table && 1 <= k <= |v| :: v[..k]
  }

  /** What reading these lines leaves stored. */
  ghost function LinePrefixes(lines: seq<Line>): set<Gram> {
    set i, k | 0 <= i < |lines| && 1 <= k <= |lines[i].gram| :: lines[i].gram[..k]
  }

  lemma {:induction false} MoreDoNotFit(a: set<Gram>, b: set<Gram>, sizes: seq<nat>)
    requires a <= b && !Fits(a, sizes)
    ensures !Fits(b, sizes)
  {
    if Fits(b, sizes) {
      FewerFit(a, b, sizes);
    }
  }

  lemma {:induction false} UnigramTakesNoBucket(t: Table, g: Gram, w: Weights)
    requires |g| == 1
    ensures forall n: nat {:trigger OfLength(t[g := w].Keys, n)} :: n >= 2 ==>
              OfLength(t[g := w].Keys, n) == OfLength(t.Keys, n)
  {
  }

  lemma {:induction false} OneMoreLine(lines: seq<Line>, i: nat)
    requires i < |lines|
    ensures Grams(lines[..i + 1]) == Grams(lines[..i]) + {lines[i].gram}
    ensures LinePrefixes(lines[..i + 1]) == LinePrefixes(lines[..i]) + Prefixes(lines[i].gram)
    ensures LinePrefixes(lines[..i + 1]) <= LinePrefixes(lines)
  {
    assert forall j :: 0 <= j < i ==> lines[..i + 1][j] == lines[..i][j];
    assert lines[..i + 1][i] == lines[i];
  }

  /** What reading the i-th line needs, seen from the whole list. */
  lemma {:induction false} LineByLine(listed: Model, t0: Table, t: Table, n: nat, lines: seq<Line>, i: nat,
                                      sizes: seq<nat>)
    requires ListedOk(listed) && n >= 2 && ListsOrder(listed, n, lines) && i < |lines|
    requires Loaded(listed, t, n, Grams(lines[..i])) && FillersStart(listed, t, n, Grams(lines[..i]))
    requires t.Keys == t0.Keys + LinePrefixes(lines[..i])
    ensures Grams(lines[..i + 1]) == Grams(lines[..i]) + {lines[i].gram}
    ensures t.Keys + Prefixes(lines[i].gram) == t0.Keys + LinePrefixes(lines[..i + 1])
    ensures ContextFound(t, lines[i].gram) <==> ContextReady(listed, lines, i)
    ensures !Fits(t.Keys + Prefixes(lines[i].gram), sizes) ==> !Fits(t0.Keys + LinePrefixes(lines), sizes)
  {
    OneMoreLine(lines, i);
    ContextIsReady(listed, t, n, lines, i);
    var keys := t.Keys + Prefixes(lines[i].gram);
    if !Fits(keys, sizes) {
      MoreDoNotFit(keys, t0.Keys + LinePrefixes(lines), sizes);
    }
  }

  /** If there is no room for the n-gram alone, there is none for it and its blanks. */
  lemma {:induction false} LineDoesNotFit(t0: Table, v: Gram, sizes: seq<nat>)
    requires |v| >= 1 && !Fits(t0.Keys + {v}, sizes)
    ensures !Fits(t0.Keys + Prefixes(v), sizes)
  {
    assert v[..|v|] == v && v in Prefixes(v);
    MoreDoNotFit(t0.Keys + {v}, t0.Keys + Prefixes(v), sizes);
  }

  /** A blank is new to its table; and if it does not fit, all prefixes do not. */
  lemma {:induction false} BlankIsNew(listed: Model, t0: Table, t: Table, v: Gram, k: nat, j: nat, exact: bool,
                                      sizes: seq<nat>)
    requires Filling(listed, t0, t, v, k, j, exact) && j + 1 < |v| && v[..j + 1] !in t0
    ensures v[..j + 1] !in t
    ensures !Fits(t.Keys + {v[..j + 1]}, sizes) ==> !Fits(t0.Keys + Prefixes(v), sizes)
  {
    assert v[..j + 1] in t ==> Origin(t0, t, v, k, j, v[..j + 1]);
    forall g | g in t.Keys + {v[..j + 1]}
      ensures g in t0.Keys + Prefixes(v)
    {
      assert v[..|v|] == v;
      assert g in t ==> Origin(t0, t, v, k, j, g);
      assert 1 <= |g| <= |v| && g == v[..|g|] ==> g in Prefixes(v);
    }
    if !Fits(t.Keys + {v[..j + 1]}, sizes) {
      MoreDoNotFit(t.Keys + {v[..j + 1]}, t0.Keys + Prefixes(v), sizes);
    }
  }

  /** With all holes filled, the table has gained the prefixes of `v` and nothing else. */
  lemma {:induction false} FilledKeys(listed: Model, t0: Table, t: Table, v: Gram, k: nat, read: set<Gram>, exact: bool)
    requires |v| >= 2 && ListedOk(listed) && Loaded(listed, t0, |v|, read)
    requires Filling(listed, t0, t, v, k, |v| - 1, exact)
    ensures t.Keys == t0.Keys + Prefixes(v)
  {
    assert v[..|v|] == v;
    forall g
      ensures g in t <==> g in t0 || g in Prefixes(v)
    {
      if g in t {
        assert Origin(t0, t, v, k, |v| - 1, g);
        assert 1 <= |g| <= |v| && g == v[..|g|] ==> g in Prefixes(v);
      }
      if g in t0 {
        assert Kept(t0, t, v, k, g);
      } else if g in Prefixes(v) {
        PrefixIsFilled(listed, t0, t, v, k, |g|, exact);
      }
    }
  }

  lemma {:induction false} PrefixIsFilled(listed: Model, t0: Table, t: Table, v: Gram, k: nat, i: nat, exact: bool)
    requires (forall g {:trigger Good(listed, t0, |v|, g)} :: g in t0 ==> Good(listed, t0, |v|, g))
    requires 1 <= i <= |v| && Filling(listed, t0, t, v, k, |v| - 1, exact)
    ensures v[..i] in t
  {
    if i <= k {
      StoredPrefix(listed, t0, |v|, v[..k], i);
      assert v[..k][..i] == v[..i];
      assert Kept(t0, t, v, k, v[..i]);
    } else if i < |v| {
      assert Filled(listed, t0, t, v, i, exact);
    } else {
      assert v[..i] == v;
    }
  }

  /** All that is stored while order `n` is read starts a listed n-gram. */
  lemma {:induction false} AllFromListed(listed: Model, t: Table, n: nat, lines: seq<Line>, sizes: seq<nat>)
    requires Loaded(listed, t, n, {}) && ListsOrder(listed, n, lines)
    ensures Fits(AllStarts(listed), sizes) ==> Fits(t.Keys + LinePrefixes(lines), sizes)
  {
    forall g | g in t.Keys + LinePrefixes(lines)
      ensures g in AllStarts(listed)
    {
      if g in t {
        assert Good(listed, t, n, g);
        var v :| v in listed.table && Starts(v, g);
        assert g == v[..|g|];
      }
    }
    if Fits(AllStarts(listed), sizes) {
      FewerFit(t.Keys + LinePrefixes(lines), AllStarts(listed), sizes);
    }
  }

  lemma {:induction false} LoadedKeys(listed: Model, t: Table)
    requires ListedOk(listed) && FullyLoaded(listed, t)
    ensures t.Keys == AllStarts(listed)
  {
    forall g
      ensures g in t <==> g in AllStarts(listed)
    {
      if g in t {
        assert Good(listed, t, listed.order, g);
        var v :| v in listed.table && Starts(v, g);
        assert g == v[..|g|];
      }
      if g in AllStarts(listed) {
        var v, k :| v in listed.table && 1 <= k <= |v| && g == v[..k];
        StoredPrefix(listed, t, listed.order, v, k);
      }
    }
  }

  /** The parts that fill the tables are counted length by length; the highest order has room in any case. */
  lemma {:induction false} RoomIsFit(listed: Model, lists: seq<seq<Line>>, multiplier: real)
    requires ListedOk(listed) && Lists(listed, lists) && multiplier >= 0.0
    ensures RoomForBlanks(listed, lists, multiplier) <==> Fits(AllStarts(listed), SizesFor(CountsOf(lists), multiplier))
  {
    var sizes := SizesFor(CountsOf(lists), multiplier);
    forall n: nat | 2 <= n <= |lists|
      ensures OfLength(AllStarts(listed), n) == StartsOfLength(listed, n)
      ensures n == |lists| ==> |StartsOfLength(listed, n)| < sizes[n - 2]
      ensures sizes[n - 2] == Probing.Buckets(|lists[n - 1]|, multiplier)
    {
      assert forall g :: g in AllStarts(listed) && |g| == n <==> g in StartsOfLength(listed, n);
      if n == |lists| {
        LongestHaveRoom(listed, lists[n - 1]);
      }
    }
  }

  lemma {:induction false} LongestHaveRoom(listed: Model, lines: seq<Line>)
    requires ListedOk(listed) && ListsOrder(listed, listed.order, lines)
    ensures |StartsOfLength(listed, listed.order)| <= |lines|
  {
    forall g | g in StartsOfLength(listed, listed.order)
      ensures g in Grams(lines)
    {
      var v :| v in listed.table && listed.order <= |v| && g == v[..listed.order];
      assert LineOk(listed, v) && v[..listed.order] == v;
      assert ListedOnce(listed, listed.order, lines, v);
    }
    SubsetSize(StartsOfLength(listed, listed.order), Grams(lines));
    GramsCounted(lines);
  }

  lemma {:induction false} GramsCounted(lines: seq<Line>)
    ensures |Grams(lines)| <= |lines|
  {
    if lines == [] {
      assert Grams(lines) == {};
    } else {
      var k := |lines| - 1;
      GramsCounted(lines[..k]);
      OneMoreLine(lines, k);
      assert lines[..k + 1] == lines;
    }
  }

  // ---------------------------------------------------------------- when loading succeeds

  /** A blank of order `n` - 1 was filled in for an n-gram that has been read. */
  ghost predicate FillersStart(listed: Model, t: Table, n: nat, read: set<Gram>) {
    forall g {:trigger Filler(listed, t, n, g)} :: Filler(listed, t, n, g) ==> StartsOne(read, g)
  }

  ghost predicate Filler(listed: Model, t: Table, n: nat, g: Gram) {
    g in t && |g| + 1 == n && g !in listed.table
  }

  ghost predicate StartsOne(read: set<Gram>, g: Gram) {
    exists v :: v in read && Starts(v, g)
  }

  /** The history of the i-th line is listed, or starts a line of the same order read by then. */
  ghost predicate ContextReady(listed: Model, lines: seq<Line>, i: int) {
    && 0 <= i < |lines| && lines[i].gram != []
    && var c := lines[i].gram[1..];
       c in listed.table || exists j :: 0 <= j <= i && Starts(lines[j].gram, c)
  }

  /** The same for the first `n` lines. */
  ghost predicate LinesReady(listed: Model, lines: seq<Line>, n: nat) {
    forall i {:trigger ContextReady(listed, lines, i)} :: 0 <= i < n ==> ContextReady(listed, lines, i)
  }

  /** The same for every line of the orders 2 to `n`. */
  ghost predicate ContextsReady(listed: Model, lists: seq<seq<Line>>, n: nat) {
    forall o {:trigger lists[o]} :: 1 <= o < n && o < |lists| ==> LinesReady(listed, lists[o], |lists[o]|)
  }

  /** Between two orders there is nothing filled in at the order just read. */
  lemma {:induction false} NoFillers(listed: Model, lists: seq<seq<Line>>, t: Table, n: nat)
    requires Lists(listed, lists) && 1 <= n <= |lists| && Loaded(listed, t, n, Grams(lists[n - 1]))
    ensures FillersStart(listed, t, n + 1, {})
  {
    assert ListsOrder(listed, n, lists[n - 1]);
    forall g {:trigger Filler(listed, t, n + 1, g)}
      ensures !Filler(listed, t, n + 1, g)
    {
      assert OfOrder(t, n, Grams(lists[n - 1]), g);
    }
  }

  /** Filling the holes of `v` brings its history only if that starts `v` as well. */
  lemma {:induction false} ContextIsFound(listed: Model, t0: Table, t: Table, v: Gram, k: nat, exact: bool)
    requires |v| >= 2 && Filling(listed, t0, t, v, k, |v| - 1, exact)
    ensures v[1..] in t <==> ContextFound(t0, v)
  {
    if v[1..] in t {
      assert Origin(t0, t, v, k, |v| - 1, v[1..]);
    }
    if v[1..] in t0 {
      assert Kept(t0, t, v, k, v[1..]);
    }
    assert Kept(t0, t, v, k, v[..k]);
    assert k < |v| - 1 ==> Filled(listed, t0, t, v, |v| - 1, exact);
  }

  lemma {:induction false} FillersStep(listed: Model, t0: Table, t: Table, v: Gram, k: nat, read: set<Gram>,
                                       exact: bool)
    requires |v| >= 2 && v[1..] in t && Filling(listed, t0, t, v, k, |v| - 1, exact)
    requires FillersStart(listed, t0, |v|, read)
    ensures FillersStart(listed, Activate(t, v), |v|, read + {v})
  {
    forall g | Filler(listed, Activate(t, v), |v|, g)
      ensures StartsOne(read + {v}, g)
    {
      assert Origin(t0, t, v, k, |v| - 1, g);
      if g in t0 {
        assert Filler(listed, t0, |v|, g);
        var u :| u in read && Starts(u, g);
        assert u in read + {v};
      } else {
        assert Starts(v, g) && v in read + {v};
      }
    }
  }

  /** What the table holds when the i-th line is read is what the file shows by then. */
  lemma {:induction false} ContextIsReady(listed: Model, t: Table, n: nat, lines: seq<Line>, i: nat)
    requires ListedOk(listed) && n >= 2 && ListsOrder(listed, n, lines) && i < |lines|
    requires Loaded(listed, t, n, Grams(lines[..i])) && FillersStart(listed, t, n, Grams(lines[..i]))
    ensures ContextFound(t, lines[i].gram) <==> ContextReady(listed, lines, i)
  {
    var v := lines[i].gram;
    var c := v[1..];
    if ContextFound(t, v) {
      if c !in t {
        assert Starts(v, c);
      } else if c !in listed.table {
        assert Filler(listed, t, n, c);
        var u :| u in Grams(lines[..i]) && Starts(u, c);
        var j :| 0 <= j < i && lines[..i][j].gram == u;
        assert Starts(lines[j].gram, c);
      }
    }
    if ContextReady(listed, lines, i) {
      assert Present(listed, t, n, c);
      if c !in listed.table {
        var j :| 0 <= j <= i && Starts(lines[j].gram, c);
        StartIsStored(listed, t, n, lines, i, j, c);
      }
    }
  }

  lemma {:induction false} StartIsStored(listed: Model, t: Table, n: nat, lines: seq<Line>, i: nat, j: nat, c: Gram)
    requires n >= 2 && ListsOrder(listed, n, lines) && j <= i < |lines| && Loaded(listed, t, n, Grams(lines[..i]))
    requires Starts(lines[j].gram, c) && |c| + 1 == n
    ensures j < i ==> c in t
    ensures j == i ==> c == lines[i].gram[..n - 1]
  {
    if j < i {
      var u := lines[j].gram;
      assert lines[..i][j].gram in Grams(lines[..i]);
      assert OfOrder(t, n, Grams(lines[..i]), u);
      StoredPrefix(listed, t, n, u, n - 1);
    }
  }

  /** Every n-gram of the file is stored, and the table is closed as the queries need it. */
  ghost predicate FullyLoaded(listed: Model, t: Table) {
    && (forall g {:trigger Good(listed, t, listed.order, g)} :: g in t ==> Good(listed, t, listed.order, g))
    && (forall g :: g in listed.table ==> g in t)
  }

  lemma {:induction false} NothingLoaded(listed: Model)
    requires ListedOk(listed)
    ensures Loaded(listed, map[], 1, {}) && AllExact(listed, map[])
  {
    forall g
      ensures Present(listed, map[], 1, g) && OfOrder(map[], 1, {}, g)
    {
      assert g in listed.table ==> LineOk(listed, g);
    }
  }

  lemma {:induction false} NextOrder(listed: Model, lists: seq<seq<Line>>, t: Table, n: nat)
    requires ListedOk(listed) && Lists(listed, lists) && 1 <= n <= |lists|
    requires Loaded(listed, t, n, Grams(lists[n - 1]))
    ensures n < |lists| ==> Loaded(listed, t, n + 1, {})
    ensures n == |lists| ==> FullyLoaded(listed, t)
  {
    assert ListsOrder(listed, n, lists[n - 1]);
    forall g
      ensures Present(listed, t, n + 1, g) && OfOrder(t, n + 1, {}, g)
      ensures g in t ==> Good(listed, t, n + 1, g)
      ensures n == |lists| && g in listed.table ==> g in t
    {
      assert g in t ==> Good(listed, t, n, g);
      assert g in listed.table ==> LineOk(listed, g);
      assert Present(listed, t, n, g) && OfOrder(t, n, Grams(lists[n - 1]), g);
      assert ListedOnce(listed, n, lists[n - 1], g);
    }
  }

  /** The file lists exactly the n-grams of `listed`, order by order and each once. */
  ghost predicate Lists(listed: Model, lists: seq<seq<Line>>) {
    && |lists| == listed.order
    && forall i :: 0 <= i < |lists| ==> ListsOrder(listed, i + 1, lists[i])
  }

  ghost predicate ListsOrder(listed: Model, n: nat, lines: seq<Line>) {
    && (forall i :: 0 <= i < |lines| ==> IsLine(listed, lines[i]) && |lines[i].gram| == n)
    && (forall i, j :: 0 <= i < j < |lines| ==> lines[i].gram != lines[j].gram)
    && (forall g {:trigger ListedOnce(listed, n, lines, g)} :: ListedOnce(listed, n, lines, g))
  }

  ghost predicate ListedOnce(listed: Model, n: nat, lines: seq<Line>, g: Gram) {
    g in listed.table && |g| == n ==> g in Grams(lines)
  }

  ghost function Grams(lines: seq<Line>): set<Gram> {
    set i | 0 <= i < |lines| :: lines[i].gram
  }

  ghost predicate IsLine(listed: Model, line: Line) {
    line.gram in listed.table && line == Line(line.gram, listed.table[line.gram].prob, listed.table[line.gram].backoff)
  }

  lemma {:induction false} UnigramPresent(listed: Model, t0: Table, v: Gram, read: set<Gram>)
    requires ListedOk(listed) && Loaded(listed, t0, |v|, read) && v in listed.table && |v| >= 2
    ensures v[..1] in t0
  {
    assert LineOk(listed, v) && v[..1] == [v[0]];
    assert Present(listed, t0, |v|, v[..1]);
  }

  lemma {:induction false} FillStart(listed: Model, t0: Table, t: Table, v: Gram, k: nat, line: Line, exact: bool)
    requires 1 <= k < |v| && v[..k] in t0 && v !in t0 && IsLine(listed, line) && line.gram == v
    requires t == t0[v := FromLine(line)][v[..k] := UnsetSign(t0[v[..k]])]
    ensures Filling(listed, t0, t, v, k, k, exact)
  {
    forall g | g in t0
      ensures Kept(t0, t, v, k, g)
    {
    }
    forall g | g in t
      ensures Origin(t0, t, v, k, k, g)
    {
    }
  }

  /** The magnitude found at the longest stored part is its textbook score. */
  lemma {:induction false} LowerValue(listed: Model, t0: Table, v: Gram, k: nat, exact: bool)
    requires 1 <= k < |v| && v[..k] in t0 && (exact ==> AllExact(listed, t0))
    ensures exact ==> t0[v[..k]].mag == -Katz(listed, v, k)
  {
    if exact {
      assert Exact(listed, t0, v[..k]);
      assert v[..k][..k] == v[..k];
      KatzDependsOnPrefix(listed, v[..k], v, k);
    }
  }

  /** A unigram keeps the sign it was read with; a zero is taken to be written without one. */
  function FromUnigram(line: Line): Weights {
    Weights(line.prob < 0.0, -line.prob, line.backoff, line.backoff != 0.0)
  }

  lemma {:induction false} UnigramStored(listed: Model, t: Table, line: Line, read: set<Gram>)
    requires ListedOk(listed) && Loaded(listed, t, 1, read) && AllExact(listed, t)
    requires IsLine(listed, line) && |line.gram| == 1
    ensures var t' := t[line.gram := FromUnigram(line)];
            Loaded(listed, t', 1, read + {line.gram}) && AllExact(listed, t')
  {
    var v, t' := line.gram, t[line.gram := FromUnigram(line)];
    assert LineOk(listed, v);
    forall g
      ensures Present(listed, t', 1, g) && OfOrder(t', 1, read + {v}, g)
      ensures g in t' ==> Good(listed, t', 1, g) && Exact(listed, t', g)
    {
      assert OfOrder(t, 1, read, g) && Starts(v, v);
      assert g in listed.table ==> LineOk(listed, g);
      assert v[..1] == v;
      if g in t {
        assert Good(listed, t, 1, g) && Exact(listed, t, g);
      }
      forall w
        ensures g != [] ==> !Grows(t', g, w) && !Grows(t, g, w)
      {
        assert g + [w] in t ==> Good(listed, t, 1, g + [w]);
      }
    }
  }

  function Activate(t: Table, v: Gram): Table
    requires v != [] && v[1..] in t
  {
    t[v[1..] := SetExtension(t[v[1..]])]
  }

  /** The state in which ReadNGram activates the history of `v`. */
  ghost predicate Complete(listed: Model, t0: Table, t: Table, v: Gram, k: nat, exact: bool) {
    && (forall g {:trigger Good(listed, t0, |v|, g)} :: g in t0 ==> Good(listed, t0, |v|, g))
    && |v| >= 2 && v !in t0 && v[1..] in t
    && Filling(listed, t0, t, v, k, |v| - 1, exact) && ContextFound(t0, v)
  }

  lemma {:induction false} KeptGood(listed: Model, t0: Table, t: Table, v: Gram, k: nat, g: Gram, exact: bool)
    requires Complete(listed, t0, t, v, k, exact) && g in t0
    ensures Good(listed, Activate(t, v), |v|, g)
  {
    assert Good(listed, t0, |v|, g) && Kept(t0, t, v, k, g);
    if |g| > 1 {
      assert Kept(t0, t, v, k, g[1..]) && Kept(t0, t, v, k, g[..|g| - 1]);
    }
  }

  lemma {:induction false} NewGood(listed: Model, t0: Table, t: Table, v: Gram, k: nat, g: Gram, exact: bool,
                                   read: set<Gram>)
    requires ListedOk(listed) && Loaded(listed, t0, |v|, read)
    requires Complete(listed, t0, t, v, k, exact) && g in t && g !in t0
    ensures Good(listed, Activate(t, v), |v|, g)
  {
    assert Origin(t0, t, v, k, |v| - 1, g);
    assert LineOk(listed, v) && Present(listed, t0, |v|, g);
    var i := |g|;
    assert g == v[..i];
    assert Kept(t0, t, v, k, v[..k]);
    if i < |v| {
      assert Filled(listed, t0, t, v, i, exact);
    }
    if i - 1 > k {
      assert Filled(listed, t0, t, v, i - 1, exact);
    }
    assert g[..i - 1] == v[..i - 1] && g[1..] == v[1..i];
    assert Starts(v, g);
  }

  lemma {:induction false} KeptExact(listed: Model, t0: Table, t: Table, v: Gram, k: nat, g: Gram)
    requires Complete(listed, t0, t, v, k, true) && g in t0 && Exact(listed, t0, g)
    ensures Exact(listed, Activate(t, v), g)
  {
    var t' := Activate(t, v);
    assert Kept(t0, t, v, k, g) && Kept(t0, t, v, k, v[..k]);
    forall w
      ensures Grows(t', g, w) ==> Grows(t0, g, w) || g == v[..k]
      ensures Grows(t0, g, w) ==> Grows(t', g, w)
    {
      var h := g + [w];
      assert h[..|g|] == g;
      if h in t0 {
        assert Kept(t0, t, v, k, h);
      } else if h in t {
        assert Origin(t0, t, v, k, |v| - 1, h);
        assert h == v[..|h|] && g == v[..|g|];
        assert k < |g| < |v| ==> Filled(listed, t0, t, v, |g|, true);
      }
    }
    if g == v[..k] {
      LongerStored(listed, t0, t, v, k, k, true);
      assert Grows(t', g, v[k]);
    }
  }

  lemma {:induction false} LongerStored(listed: Model, t0: Table, t: Table, v: Gram, k: nat, i: nat, exact: bool)
    requires 0 < |v| && Filling(listed, t0, t, v, k, |v| - 1, exact) && k <= i < |v|
    ensures v[..i] + [v[i]] in t
  {
    assert v[..i] + [v[i]] == v[..i + 1];
    if i + 1 < |v| {
      assert Filled(listed, t0, t, v, i + 1, exact);
    } else {
      assert v[..i + 1] == v;
    }
  }

  lemma {:induction false} NewExact(listed: Model, t0: Table, t: Table, v: Gram, k: nat, g: Gram)
    requires Complete(listed, t0, t, v, k, true) && g in t && g !in t0
    ensures Exact(listed, Activate(t, v), g)
  {
    var t' := Activate(t, v);
    assert Origin(t0, t, v, k, |v| - 1, g);
    var i := |g|;
    assert g == v[..i];
    if i < |v| {
      assert Filled(listed, t0, t, v, i, true);
      KatzDependsOnPrefix(listed, g, v, i);
      LongerStored(listed, t0, t, v, k, i, true);
      assert Grows(t', g, v[i]);
    } else {
      assert g[..i] == g;
      forall w
        ensures !Grows(t', g, w)
      {
        var h := g + [w];
        assert h in t ==> Origin(t0, t, v, k, |v| - 1, h);
        assert h in t0 ==> Good(listed, t0, |v|, h);
      }
    }
  }

  /** Once the history of `v` is activated, the table is as good as before `v` was read. */
  lemma {:induction false} Activated(listed: Model, t0: Table, t: Table, v: Gram, k: nat, read: set<Gram>, exact: bool)
    requires ListedOk(listed) && Loaded(listed, t0, |v|, read) && v !in t0 && |v| >= 2
    requires Filling(listed, t0, t, v, k, |v| - 1, exact) && v[1..] in t
    requires exact ==> AllExact(listed, t0)
    ensures Loaded(listed, Activate(t, v), |v|, read + {v})
    ensures exact ==> AllExact(listed, Activate(t, v))
  {
    var n, t' := |v|, Activate(t, v);
    assert Origin(t0, t, v, k, n - 1, v[1..]);
    assert Complete(listed, t0, t, v, k, exact);
    forall g | g in t'
      ensures Good(listed, t', n, g)
    {
      if g in t0 {
        KeptGood(listed, t0, t, v, k, g, exact);
      } else {
        NewGood(listed, t0, t, v, k, g, exact, read);
      }
    }
    if exact {
      forall g | g in t'
        ensures Exact(listed, t', g)
      {
        if g in t0 {
          assert Exact(listed, t0, g);
          KeptExact(listed, t0, t, v, k, g);
        } else {
          NewExact(listed, t0, t, v, k, g);
        }
      }
    }
    forall g
      ensures Present(listed, t', n, g) && OfOrder(t', n, read + {v}, g)
    {
      assert Present(listed, t0, n, g) && OfOrder(t0, n, read, g);
      if g in t0 { assert Kept(t0, t, v, k, g); }
      if g in t { assert Origin(t0, t, v, k, n - 1, g); }
    }
  }

  /** Table and running value after the blank of length `j`; its history is told that it extends. */
  function AddBlank(t: Table, v: Gram, j: nat, value: real): (Table, real)
    requires 1 <= j <= |v|
  {
    var c := v[1..j];
    var value' := value - (if c in t then t[c].backoff else 0.0);
    ((if c in t then t[c := SetExtension(t[c])] else t)[v[..j] := Blank(value')], value')
  }

  /** A blank is a reason for its history to be flagged. */
  lemma {:induction false} BlankExtends(t: Table, v: Gram, j: nat, value: real)
    requires OnlyExtended(t) && 1 < j <= |v| && v[..j] !in t
    ensures OnlyExtended(AddBlank(t, v, j, value).0)
  {
    var t' := AddBlank(t, v, j, value).0;
    assert [v[0]] + v[1..j] == v[..j] && v[..j] in t';
    StillExtended(t, t');
  }

  lemma {:induction false} HistoryExtends(t: Table, v: Gram)
    requires OnlyExtended(t) && v != [] && v in t && v[1..] in t
    ensures OnlyExtended(Activate(t, v))
  {
    assert [v[0]] + v[1..] == v && v in Activate(t, v);
    StillExtended(t, Activate(t, v));
  }

  /** What filling in one more blank does to the table and to the running value. */
  lemma {:induction false} BlankStep(listed: Model, t0: Table, t: Table, v: Gram, k: nat, j: nat, value: real,
                                     read: set<Gram>, exact: bool)
    requires ListedOk(listed) && Loaded(listed, t0, |v|, read) && Filling(listed, t0, t, v, k, j, exact)
    requires j + 1 < |v| && v[..j + 1] !in t0
    requires exact ==> BlanksNonPositive(listed) && value == -Katz(listed, v, j)
    ensures j == 1 ==> v[1..2] in t
    ensures Filling(listed, t0, AddBlank(t, v, j + 1, value).0, v, k, j + 1, exact)
    ensures exact ==>
              AddBlank(t, v, j + 1, value).1 == -Katz(listed, v, j + 1)
  {
    var c := v[1..j + 1];
    ContextWeight(listed, t0, t, v, k, j, read, exact);
    var (t', value') := AddBlank(t, v, j + 1, value);
    assert Present(listed, t0, |v|, v[..j + 1]);
    FillStep(listed, t0, t, t', v, k, j, value', exact);
    if j == 1 {
      assert Kept(t0, t, v, k, c);
    }
  }

  /** The backoff found in the table is the listed one, and nothing is charged when none is found. */
  lemma {:induction false} ContextWeight(listed: Model, t0: Table, t: Table, v: Gram, k: nat, j: nat, read: set<Gram>,
                                         exact: bool)
    requires ListedOk(listed) && Loaded(listed, t0, |v|, read) && Filling(listed, t0, t, v, k, j, exact)
    requires j + 1 < |v|
    ensures BackoffOf(listed, v[1..j + 1]) == if v[1..j + 1] in t then t[v[1..j + 1]].backoff else 0.0
    ensures j == 1 ==> v[1..2] in t0
    ensures ContextFound(t0, v) ==> v[1..j + 1] in t
  {
    var c := v[1..j + 1];
    assert LineOk(listed, v) && Present(listed, t0, |v|, c);
    if c in t0 {
      assert Kept(t0, t, v, k, c) && Good(listed, t0, |v|, c);
    } else if c in t {
      assert Origin(t0, t, v, k, j, c);
      assert c == v[..|c|] && Filled(listed, t0, t, v, |c|, exact);
    }
    if j == 1 {
      assert c == [v[1]];
    }
    if ContextFound(t0, v) {
      if v[1..] in t0 {
        StoredPrefix(listed, t0, |v|, v[1..], j);
        assert v[1..][..j] == c;
        assert Kept(t0, t, v, k, c);
      } else {
        assert c == v[1..][..j] && v[..j] == v[..|v| - 1][..j];
        if j <= k {
          StoredPrefix(listed, t0, |v|, v[..k], j);
          assert v[..k][..j] == c;
          assert Kept(t0, t, v, k, c);
        } else {
          assert Filled(listed, t0, t, v, j, exact);
        }
      }
    }
  }

  lemma {:induction false} StoredPrefix(listed: Model, t: Table, n: nat, g: Gram, k: nat)
    requires forall g {:trigger Good(listed, t, n, g)} :: g in t ==> Good(listed, t, n, g)
    requires g in t && 1 <= k <= |g|
    ensures g[..k] in t
    decreases |g|
  {
    assert Good(listed, t, n, g);
    if k == |g| {
      assert g[..k] == g;
    } else {
      StoredPrefix(listed, t, n, g[..|g| - 1], k);
      assert g[..|g| - 1][..k] == g[..k];
    }
  }

  /** One more blank. */
  lemma {:induction false} FillStep(listed: Model, t0: Table, before: Table, t: Table, v: Gram, k: nat, j: nat,
                                    value: real, exact: bool)
    requires exact ==> BlanksNonPositive(listed)
    requires v in listed.table && Filling(listed, t0, before, v, k, j, exact) && j + 1 < |v| && v[..j + 1] !in t0
    requires exact ==> value == -Katz(listed, v, j + 1)
    requires ContextFound(t0, v) ==> v[1..j + 1] in before
    requires var c := v[1..j + 1];
             t == (if c in before then before[c := SetExtension(before[c])] else before)[v[..j + 1] := Blank(value)]
    ensures Filling(listed, t0, t, v, k, j + 1, exact)
  {
    var c, b := v[1..j + 1], v[..j + 1];
    assert |c| == j && |b| == j + 1;
    assert b in before ==> Origin(t0, before, v, k, j, b);
    forall g | g in t0
      ensures Kept(t0, t, v, k, g)
    {
      assert Kept(t0, before, v, k, g);
    }
    forall g | g in t
      ensures Origin(t0, t, v, k, j + 1, g)
    {
      assert g != b ==> Origin(t0, before, v, k, j, g);
    }
    forall i | k < i <= j + 1
      ensures Filled(listed, t0, t, v, i, exact)
    {
      if i <= j {
        assert Filled(listed, t0, before, v, i, exact);
        assert |v[1..i]| == i - 1;
      }
    }
  }

  // ---------------------------------------------------------------- what the queries see

  /** A unigram of log-probability zero that begins no longer listed n-gram. */
  ghost predicate LonelyZero(listed: Model, g: Gram) {
    ZeroUnigram(listed, g) && forall v :: v in listed.table && Starts(v, g) ==> v == g
  }

  lemma {:induction false} GrowsIffListed(listed: Model, t: Table, g: Gram)
    requires FullyLoaded(listed, t) && g != []
    ensures (exists w :: Grows(t, g, w)) <==> (exists v :: v in listed.table && Starts(v, g) && v != g)
  {
    if w :| Grows(t, g, w) {
      assert Good(listed, t, listed.order, g + [w]);
      var v :| v in listed.table && Starts(v, g + [w]);
      assert v[..|g|] == (g + [w])[..|g|] == g;
      assert Starts(v, g) && v != g;
    }
    if v :| v in listed.table && Starts(v, g) && v != g {
      assert v[..|v|] == v;
      StoredPrefix(listed, t, listed.order, v, |g| + 1);
      assert v[..|g| + 1] == g + [v[|g|]];
      assert Grows(t, g, v[|g|]);
    }
  }

  /** The loaded table is what the queries need. */
  lemma {:induction false} LoadedTableIsValid(listed: Model, t: Table)
    requires ListedOk(listed) && FullyLoaded(listed, t) && AllExact(listed, t)
    ensures Valid(AsModel(listed.order, t))
  {
    var m := AsModel(listed.order, t);
    forall g | g in m.table
      ensures ValidEntry(m, g)
    {
      assert Good(listed, t, listed.order, g) && Exact(listed, t, g);
      GrowsIffLonger(listed.order, t, g);
      if w :| Grows(t, g, w) {
        assert Good(listed, t, listed.order, g + [w]);
      }
    }
  }

  lemma {:induction false} GrowsIffLonger(order: nat, t: Table, g: Gram)
    ensures forall w :: Longer(AsModel(order, t), g, w) <==> Grows(t, g, w)
  {
  }

  /** A left flag says that something longer is stored, for every entry, exactly when no zero unigram is lonely. */
  lemma {:induction false} LeftFlagsExactIff(listed: Model, t: Table)
    requires ListedOk(listed) && FullyLoaded(listed, t) && AllExact(listed, t)
    ensures (forall g | g in t :: LeftFlagExact(AsModel(listed.order, t), g)) <==> forall g :: !LonelyZero(listed, g)
  {
    var m := AsModel(listed.order, t);
    forall g
      ensures g in t ==> (LeftFlagExact(m, g) <==> !LonelyZero(listed, g))
      ensures LonelyZero(listed, g) ==> g in t
    {
      GrowsIffLonger(listed.order, t, g);
      if g in t {
        assert Exact(listed, t, g);
        GrowsIffListed(listed, t, g);
      }
    }
  }

  /** A right flag says that there is a backoff to charge, or that something stored has the entry as its history. */
  lemma {:induction false} RightFlagsExact(listed: Model, t: Table)
    requires ListedOk(listed) && FullyLoaded(listed, t) && OnlyExtended(t)
    ensures forall g {:trigger g in t} :: g in t ==>
              (t[g].ext <==> t[g].backoff != 0.0 || exists x: Word {:trigger [x] + g} :: [x] + g in t)
  {
    forall g {:trigger g in t} | g in t
      ensures t[g].backoff != 0.0 || ExtendedIn(t, g) ==> t[g].ext
    {
      assert Good(listed, t, listed.order, g);
      if x: Word :| [x] + g in t {
        assert Good(listed, t, listed.order, [x] + g);
        assert ([x] + g)[1..] == g;
      }
    }
  }

  ghost predicate LeftFlagExact(m: Model, g: Gram) {
    LeftExtends(m, g) <==> exists w :: Longer(m, g, w)
  }

  /** Blanks change no score: the table gives every word sequence the score of the file. */
  lemma {:induction false} ScoresAreListed(listed: Model, t: Table, g: Gram, k: nat)
    requires ListedOk(listed) && FullyLoaded(listed, t) && AllExact(listed, t)
    requires 1 <= k <= |g| && g[..1] in listed.table
    ensures Katz(AsModel(listed.order, t), g, k) == Katz(listed, g, k)
  {
    var m := AsModel(listed.order, t);
    var p := g[..k];
    if p in t {
      assert Exact(listed, t, p);
      assert p[..k] == p;
      KatzDependsOnPrefix(listed, p, g, k);
    } else {
      assert p !in listed.table;
      ScoresAreListed(listed, t, g, k - 1);
      var c := g[1..k];
      if c in t {
        assert Good(listed, t, listed.order, c);
      }
    }
  }

  /** A positive blank makes some score wrong, since no stored score can be positive. */
  lemma {:induction false} PositiveBlankIsWrong(listed: Model, t: Table)
    requires ListedOk(listed) && FullyLoaded(listed, t) && !BlanksNonPositive(listed)
    ensures exists g :: g != [] && g in t && Score(AsModel(listed.order, t), g) != Score(listed, g)
  {
    var g, k :| g in listed.table && 1 <= k <= |g| && Katz(listed, g, k) > 0.0;
    StoredPrefix(listed, t, listed.order, g, k);
    var p := g[..k];
    assert Good(listed, t, listed.order, p);
    assert p[..k] == p;
    KatzDependsOnPrefix(listed, p, g, k);
    assert Score(AsModel(listed.order, t), p) <= 0.0;
  }

  /** Over a successful load, all scores are those of the file exactly when no blank is positive. */
  lemma {:induction false} LoadKeepsScoresIff(listed: Model, t: Table)
    requires ListedOk(listed) && FullyLoaded(listed, t)
    requires BlanksNonPositive(listed) ==> AllExact(listed, t)
    ensures BlanksNonPositive(listed) <==>
              forall g | g != [] && g[..1] in listed.table :: Score(AsModel(listed.order, t), g) == Score(listed, g)
  {
    if BlanksNonPositive(listed) {
      forall g | g != [] && g[..1] in listed.table
        ensures Score(AsModel(listed.order, t), g) == Score(listed, g)
      {
        ScoresAreListed(listed, t, g, |g|);
      }
    } else {
      PositiveBlankIsWrong(listed, t);
      var g :| g != [] && g in t && Score(AsModel(listed.order, t), g) != Score(listed, g);
      assert Good(listed, t, listed.order, g) && g[..1] == [g[0]];
    }
  }
}
