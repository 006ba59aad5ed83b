/**
 The beam edit-distance table of mert/TERsrc/tercalc.cpp, MinEditDist, with its
 traceback.  All costs are the defaults: match 0, every other edit 1.

 Rows follow the reference and columns the hypothesis.  One matrix holds what the
 original keeps in S (cost, -1 if unset) and P (the edit that led there).
 */
module EditDistance {

  type Word = string

  datatype Edit = Match | Substitute | Insert | Delete

  datatype Cell = Unset | Cell(cost: nat, edit: Edit)

  const BEAM_WIDTH := 20
  const INF := 999999
  const TABLE_SIZE := 1000

  // ---------------------------------------------------------------- edit scripts

  function Weight(e: Edit): nat {
    if e == Match then 0 else 1
  }

  function Edits(path: seq<Edit>): nat {
    if path == [] then 0 else Edits(path[..|path| - 1]) + Weight(path[|path| - 1])
  }

  /** `path` turns ref[..i] into hyp[..j]. */
  predicate Script(path: seq<Edit>, ref: seq<Word>, i: nat, hyp: seq<Word>, j: nat)
    requires i <= |ref| && j <= |hyp|
  {
    if path == [] then i == 0 && j == 0
    else
      var before := path[..|path| - 1];
      match path[|path| - 1]
      case Match => i > 0 && j > 0 && ref[i - 1] == hyp[j - 1] && Script(before, ref, i - 1, hyp, j - 1)
      case Substitute => i > 0 && j > 0 && ref[i - 1] != hyp[j - 1] && Script(before, ref, i - 1, hyp, j - 1)
      case Delete => i > 0 && Script(before, ref, i - 1, hyp, j)
      case Insert => j > 0 && Script(before, ref, i, hyp, j - 1)
  }

  function Min(a: nat, b: nat): nat {
    if a <= b then a else b
  }

  /** The Levenshtein distance between ref[..i] and hyp[..j]. */
  function Distance(ref: seq<Word>, i: nat, hyp: seq<Word>, j: nat): nat
    requires i <= |ref| && j <= |hyp|
    decreases i + j
  {
    if i == 0 then j
    else if j == 0 then i
    else Min(Diagonal(ref, i, hyp, j), Min(Distance(ref, i, hyp, j - 1) + 1, Distance(ref, i - 1, hyp, j) + 1))
  }

  function Diagonal(ref: seq<Word>, i: nat, hyp: seq<Word>, j: nat): nat
    requires 0 < i <= |ref| && 0 < j <= |hyp|
    decreases i + j, 0
  {
    Distance(ref, i - 1, hyp, j - 1) + if ref[i - 1] == hyp[j - 1] then 0 else 1
  }

  lemma {:induction false} DistanceBound(ref: seq<Word>, i: nat, hyp: seq<Word>, j: nat)
    requires i <= |ref| && j <= |hyp|
    ensures Distance(ref, i, hyp, j) <= i + j
    decreases i + j
  {
    if i > 0 && j > 0 {
      DistanceBound(ref, i - 1, hyp, j);
    }
  }

  /** No script is shorter than the distance. */
  lemma {:induction false} ScriptAtLeastDistance(path: seq<Edit>, ref: seq<Word>, i: nat, hyp: seq<Word>, j: nat)
    requires i <= |ref| && j <= |hyp| && Script(path, ref, i, hyp, j)
    ensures Distance(ref, i, hyp, j) <= Edits(path)
    decreases |path|
  {
    if path != [] {
      var before := path[..|path| - 1];
      match path[|path| - 1]
      case Match => ScriptAtLeastDistance(before, ref, i - 1, hyp, j - 1);
      case Substitute => ScriptAtLeastDistance(before, ref, i - 1, hyp, j - 1);
      case Delete => ScriptAtLeastDistance(before, ref, i - 1, hyp, j);
      case Insert => ScriptAtLeastDistance(before, ref, i, hyp, j - 1);
      assert i == 0 || j == 0 || Distance(ref, i, hyp, j) <= Edits(path);
    }
  }

  /** A shortest script that wherever it can ends with a diagonal edit, or else with an insertion. */
  ghost predicate Preferred(path: seq<Edit>, ref: seq<Word>, i: nat, hyp: seq<Word>, j: nat)
    requires i <= |ref| && j <= |hyp|
  {
    if path == [] then i == 0 && j == 0
    else
      var before, d := path[..|path| - 1], Distance(ref, i, hyp, j);
      match path[|path| - 1]
      case Match => i > 0 && j > 0 && ref[i - 1] == hyp[j - 1] && d == Distance(ref, i - 1, hyp, j - 1)
        && Preferred(before, ref, i - 1, hyp, j - 1)
      case Substitute => i > 0 && j > 0 && ref[i - 1] != hyp[j - 1] && d == Distance(ref, i - 1, hyp, j - 1) + 1
        && Preferred(before, ref, i - 1, hyp, j - 1)
      case Insert => j > 0 && d == Distance(ref, i, hyp, j - 1) + 1 && (i > 0 ==> d < Diagonal(ref, i, hyp, j))
        && Preferred(before, ref, i, hyp, j - 1)
      case Delete =>
        && i > 0 && d == Distance(ref, i - 1, hyp, j) + 1 && (j > 0 ==> d < Diagonal(ref, i, hyp, j))
        && (j > 0 ==> d < Distance(ref, i, hyp, j - 1) + 1)
        && Preferred(before, ref, i - 1, hyp, j)
  }

  /** There is only one such script. */
  lemma {:induction false} PreferredIsOne(a: seq<Edit>, b: seq<Edit>, ref: seq<Word>, i: nat, hyp: seq<Word>, j: nat)
    requires i <= |ref| && j <= |hyp| && Preferred(a, ref, i, hyp, j) && Preferred(b, ref, i, hyp, j)
    ensures a == b
    decreases i + j
  {
    if i > 0 || j > 0 {
      var e := a[|a| - 1];
      assert b[|b| - 1] == e;
      PreferredIsOne(a[..|a| - 1], b[..|b| - 1], ref, if e == Insert then i else i - 1, hyp, if e == Delete then j
        else j - 1);
      assert a == a[..|a| - 1] + [e] && b == b[..|b| - 1] + [e];
    }
  }

  // ---------------------------------------------------------------- the table

  /** Cells are processed column by column, each from the top; (i, j) is next. */
  predicate Done(r: nat, c: nat, i: nat, j: nat) {
    c < j || (c == j && r < i)
  }

  type Grid = seq<seq<Cell>>

  ghost predicate Fits(m: Grid, ref: seq<Word>, hyp: seq<Word>) {
    |m| == |ref| + 1 && forall r :: 0 <= r < |m| ==> |m[r]| == |hyp| + 1
  }

  /** The edit recorded in a cell leads to it from a processed cell, at its exact cost. */
  ghost predicate From(m: Grid, ref: seq<Word>, hyp: seq<Word>, r: nat, c: nat, i: nat, j: nat)
    requires Fits(m, ref, hyp) && r <= |ref| && c <= |hyp| && m[r][c].Cell?
  {
    match m[r][c].edit
    case Match => r > 0 && c > 0 && ref[r - 1] == hyp[c - 1] && Done(r - 1, c - 1, i, j)
      && Costs(m[r - 1][c - 1], m[r][c], 0)
    case Substitute => r > 0 && c > 0 && ref[r - 1] != hyp[c - 1] && Done(r - 1, c - 1, i, j)
      && Costs(m[r - 1][c - 1], m[r][c], 1)
    case Delete => r > 0 && Done(r - 1, c, i, j) && Costs(m[r - 1][c], m[r][c], 1)
    case Insert => c > 0 && Done(r, c - 1, i, j) && Costs(m[r][c - 1], m[r][c], 1)
  }

  predicate Costs(before: Cell, after: Cell, weight: nat) {
    before.Cell? && after.Cell? && after.cost == before.cost + weight
  }

  ghost predicate CellOk(m: Grid, ref: seq<Word>, hyp: seq<Word>, r: nat, c: nat, i: nat, j: nat)
    requires Fits(m, ref, hyp) && r <= |ref| && c <= |hyp|
  {
    m[r][c].Cell? ==>
      && Distance(ref, r, hyp, c) <= m[r][c].cost <= r + c
      && ((r == 0 && c == 0) || From(m, ref, hyp, r, c, i, j))
  }

  ghost predicate TableOk(m: Grid, ref: seq<Word>, hyp: seq<Word>, i: nat, j: nat)
  {
    Fits(m, ref, hyp) && forall r: nat, c: nat {:trigger CellOk(m, ref, hyp, r, c, i, j)} ::
      r <= |ref| && c <= |hyp| ==> CellOk(m, ref, hyp, r, c, i, j)
  }

  lemma {:induction false} TableOkLater(m: Grid, ref: seq<Word>, hyp: seq<Word>, i: nat, j: nat, i': nat, j': nat)
    requires TableOk(m, ref, hyp, i, j) && (j < j' || (j == j' && i <= i'))
    ensures TableOk(m, ref, hyp, i', j')
  {
    forall r: nat, c: nat | r <= |ref| && c <= |hyp|
      ensures CellOk(m, ref, hyp, r, c, i', j')
    {
      assert CellOk(m, ref, hyp, r, c, i, j);
    }
  }

  /** Is (r, c) reached from (i, j) by edit `e`? */
  predicate Reaches(ref: seq<Word>, hyp: seq<Word>, i: nat, j: nat, r: nat, c: nat, e: Edit) {
    && i <= r <= |ref| && j <= c <= |hyp|
    && match e
       case Match => r == i + 1 && c == j + 1 && ref[i] == hyp[j]
       case Substitute => r == i + 1 && c == j + 1 && ref[i] != hyp[j]
       case Delete => r == i + 1 && c == j
       case Insert => r == i && c == j + 1
  }

  lemma {:induction false} DistanceStep(ref: seq<Word>, hyp: seq<Word>, i: nat, j: nat, r: nat, c: nat, e: Edit)
    requires i <= |ref| && j <= |hyp| && Reaches(ref, hyp, i, j, r, c, e)
    ensures Distance(ref, r, hyp, c) <= Distance(ref, i, hyp, j) + Weight(e)
  {
  }

  function Put(m: Grid, r: nat, c: nat, cell: Cell): Grid
    requires r < |m| && c < |m[r]|
  {
    m[r := m[r][c := cell]]
  }

  /** Improves one cell from (i, j), unless it already is as good. */
  function Relax(m: Grid, i: nat, j: nat, r: nat, c: nat, e: Edit): Grid
    requires i < |m| && j < |m[i]| && m[i][j].Cell? && r < |m| && c < |m[r]|
  {
    var cost := m[i][j].cost + Weight(e);
    if m[r][c].Unset? || m[r][c].cost > cost then Put(m, r, c, Cell(cost, e)) else m
  }

  /** A cell that is not yet processed is no one's predecessor, so it may change. */
  lemma {:induction false} PutKeeps(m: Grid, ref: seq<Word>, hyp: seq<Word>, r: nat, c: nat, cell: Cell, x: nat, y: nat,
                                    i: nat, j: nat)
    requires Fits(m, ref, hyp) && r <= |ref| && c <= |hyp| && x <= |ref| && y <= |hyp|
    requires !Done(r, c, i, j) && (x != r || y != c) && CellOk(m, ref, hyp, x, y, i, j)
    ensures CellOk(Put(m, r, c, cell), ref, hyp, x, y, i, j)
  {
    var m' := Put(m, r, c, cell);
    assert m'[x][y] == m[x][y];
    if m[x][y].Cell? && !(x == 0 && y == 0) {
      assert From(m, ref, hyp, x, y, i, j);
      match m[x][y].edit
      case Match => assert m'[x - 1][y - 1] == m[x - 1][y - 1];
      case Substitute => assert m'[x - 1][y - 1] == m[x - 1][y - 1];
      case Delete => assert m'[x - 1][y] == m[x - 1][y];
      case Insert => assert m'[x][y - 1] == m[x][y - 1];
    }
  }

  lemma {:induction false} RelaxedCell(m: Grid, ref: seq<Word>, hyp: seq<Word>, i: nat, j: nat,
                                       r: nat, c: nat, e: Edit, next: nat)
    requires next == i + 1 && TableOk(m, ref, hyp, next, j) && i <= |ref| && j <= |hyp| && m[i][j].Cell?
    requires Reaches(ref, hyp, i, j, r, c, e)
    ensures CellOk(Put(m, r, c, Cell(m[i][j].cost + Weight(e), e)), ref, hyp, r, c, next, j)
  {
    var m' := Put(m, r, c, Cell(m[i][j].cost + Weight(e), e));
    assert CellOk(m, ref, hyp, i, j, next, j);
    DistanceStep(ref, hyp, i, j, r, c, e);
    assert m'[i][j] == m[i][j] && Costs(m'[i][j], m'[r][c], Weight(e));
    assert From(m', ref, hyp, r, c, next, j);
  }

  lemma {:induction false} RelaxOk(m: Grid, ref: seq<Word>, hyp: seq<Word>, i: nat, j: nat,
                                   r: nat, c: nat, e: Edit, next: nat)
    requires next == i + 1 && TableOk(m, ref, hyp, next, j) && i <= |ref| && j <= |hyp| && m[i][j].Cell?
    requires Reaches(ref, hyp, i, j, r, c, e)
    ensures TableOk(Relax(m, i, j, r, c, e), ref, hyp, next, j)
  {
    var cell := Cell(m[i][j].cost + Weight(e), e);
    var m' := Put(m, r, c, cell);
    RelaxedCell(m, ref, hyp, i, j, r, c, e, next);
    forall x: nat, y: nat | x <= |ref| && y <= |hyp|
      ensures CellOk(m', ref, hyp, x, y, next, j)
    {
      if x != r || y != c {
        assert CellOk(m, ref, hyp, x, y, next, j);
        PutKeeps(m, ref, hyp, r, c, cell, x, y, next, j);
      }
    }
  }

  // ---------------------------------------------------------------- one cell

  function DiagonalEdit(ref: seq<Word>, hyp: seq<Word>, i: nat, j: nat): Edit
    requires i < |ref| && j < |hyp|
  {
    if ref[i] == hyp[j] then Match else Substitute
  }

  /** The table after the cell (i, j) has passed its cost on, in the order of the original. */
  function Step(m: Grid, ref: seq<Word>, hyp: seq<Word>, i: nat, j: nat): (m': Grid)
    requires Fits(m, ref, hyp) && i <= |ref| && j <= |hyp| && m[i][j].Cell?
    ensures Fits(m', ref, hyp)
  {
    var m1 := if i < |ref| && j < |hyp| then Relax(m, i, j, i + 1, j + 1, DiagonalEdit(ref, hyp, i, j)) else m;
    var m2 := if j < |hyp| then Relax(m1, i, j, i, j + 1, Insert) else m1;
    if i < |ref| then Relax(m2, i, j, i + 1, j, Delete) else m2
  }

  lemma {:induction false} StepOk(m: Grid, ref: seq<Word>, hyp: seq<Word>, i: nat, j: nat, next: nat)
    requires next == i + 1 && TableOk(m, ref, hyp, i, j) && i <= |ref| && j <= |hyp| && m[i][j].Cell?
    ensures TableOk(Step(m, ref, hyp, i, j), ref, hyp, next, j)
  {
    TableOkLater(m, ref, hyp, i, j, next, j);
    var m1 := m;
    if i < |ref| && j < |hyp| {
      RelaxOk(m1, ref, hyp, i, j, i + 1, j + 1, DiagonalEdit(ref, hyp, i, j), next);
      m1 := Relax(m1, i, j, i + 1, j + 1, DiagonalEdit(ref, hyp, i, j));
    }
    if j < |hyp| {
      RelaxOk(m1, ref, hyp, i, j, i, j + 1, Insert, next);
      m1 := Relax(m1, i, j, i, j + 1, Insert);
    }
    if i < |ref| {
      RelaxOk(m1, ref, hyp, i, j, i + 1, j, Delete, next);
    }
  }

  function CostOf(cell: Cell): int {
    if cell.Unset? then -1 else cell.cost
  }

  /** The smaller cost, where -1 means none. */
  function Better(a: int, b: int): int {
    if a < 0 then b else if b < 0 then a else if a <= b then a else b
  }

  /** The edit that leads from (i, j) to one of the three cells it passes its cost to. */
  function EditTo(ref: seq<Word>, hyp: seq<Word>, i: nat, j: nat, r: nat, c: nat): Edit {
    if i < |ref| && j < |hyp| && r == i + 1 && c == j + 1 then DiagonalEdit(ref, hyp, i, j)
    else if r == i then Insert
    else Delete
  }

  /** What each cell looks like afterwards. */
  lemma {:induction false} StepAt(m: Grid, ref: seq<Word>, hyp: seq<Word>, i: nat, j: nat, r: nat, c: nat)
    requires Fits(m, ref, hyp) && i <= |ref| && j <= |hyp| && m[i][j].Cell? && r <= |ref| && c <= |hyp|
    ensures var m', cost := Step(m, ref, hyp, i, j), m[i][j].cost;
            CostOf(m'[r][c]) == Better(CostOf(m[r][c]),
              if r == i + 1 && c == j + 1 then cost + Weight(DiagonalEdit(ref, hyp, i, j))
              else if (r == i && c == j + 1) || (r == i + 1 && c == j) then cost + 1
              else -1)
    ensures !(r == i + 1 && c == j + 1) && !(r == i && c == j + 1) && !(r == i + 1 && c == j) ==>
              Step(m, ref, hyp, i, j)[r][c] == m[r][c]
    ensures var m', cost := Step(m, ref, hyp, i, j), m[i][j].cost;
            && (CostOf(m'[r][c]) == CostOf(m[r][c]) ==> m'[r][c] == m[r][c])
            && (CostOf(m'[r][c]) != CostOf(m[r][c]) ==> m'[r][c].Cell? && m'[r][c].edit == EditTo(ref, hyp, i, j, r, c))
  {
  }

  // ---------------------------------------------------------------- exactness without the beam

  /** The best cost that processed cells can have passed on to (r, c). */
  function Expect(ref: seq<Word>, hyp: seq<Word>, r: nat, c: nat, i: nat, j: nat): int
    requires r <= |ref| && c <= |hyp|
  {
    Better(if r == 0 && c == 0 then 0 else -1,
    Better(if r > 0 && c > 0 && Done(r - 1, c - 1, i, j) then Diagonal(ref, r, hyp, c) else -1,
    Better(if c > 0 && Done(r, c - 1, i, j) then Distance(ref, r, hyp, c - 1) + 1 else -1,
           if r > 0 && Done(r - 1, c, i, j) then Distance(ref, r - 1, hyp, c) + 1 else -1)))
  }

  /** The edit by which the first of the best costs was passed on: the diagonal comes first, then the insertion. */
  function ExpectEdit(ref: seq<Word>, hyp: seq<Word>, r: nat, c: nat, i: nat, j: nat): Edit
    requires r <= |ref| && c <= |hyp|
  {
    var best := Expect(ref, hyp, r, c, i, j);
    if r > 0 && c > 0 && Done(r - 1, c - 1, i, j)
      && best == Diagonal(ref, r, hyp, c) then DiagonalEdit(ref, hyp, r - 1, c - 1)
    else if c > 0 && Done(r, c - 1, i, j) && best == Distance(ref, r, hyp, c - 1) + 1 then Insert
    else Delete
  }

  lemma {:induction false} ExpectIsDistance(ref: seq<Word>, hyp: seq<Word>, r: nat, c: nat, i: nat, j: nat)
    requires r <= |ref| && c <= |hyp| && (Done(r, c, i, j) || (r == i && c == j)) && i <= |ref| + 1
    ensures Expect(ref, hyp, r, c, i, j) == Distance(ref, r, hyp, c)
  {
  }

  ghost predicate Exact(m: Grid, ref: seq<Word>, hyp: seq<Word>, i: nat, j: nat) {
    Fits(m, ref, hyp) && forall r: nat, c: nat {:trigger ExactAt(m, ref, hyp, r, c, i, j)} ::
      r <= |ref| && c <= |hyp| ==> ExactAt(m, ref, hyp, r, c, i, j)
  }

  ghost predicate ExactAt(m: Grid, ref: seq<Word>, hyp: seq<Word>, r: nat, c: nat, i: nat, j: nat)
    requires Fits(m, ref, hyp) && r <= |ref| && c <= |hyp|
  {
    && CostOf(m[r][c]) == Expect(ref, hyp, r, c, i, j)
    && (m[r][c].Cell? && (r > 0 || c > 0) ==> m[r][c].edit == ExpectEdit(ref, hyp, r, c, i, j))
  }

  lemma {:induction false} StepExact(m: Grid, ref: seq<Word>, hyp: seq<Word>, i: nat, j: nat, next: nat)
    requires next == i + 1 && Exact(m, ref, hyp, i, j) && i <= |ref| && j <= |hyp| && m[i][j].Cell?
    ensures Exact(Step(m, ref, hyp, i, j), ref, hyp, next, j)
  {
    assert ExactAt(m, ref, hyp, i, j, i, j);
    ExpectIsDistance(ref, hyp, i, j, i, j);
    var m' := Step(m, ref, hyp, i, j);
    forall r: nat, c: nat | r <= |ref| && c <= |hyp|
      ensures ExactAt(m', ref, hyp, r, c, next, j)
    {
      assert ExactAt(m, ref, hyp, r, c, i, j);
      StepAt(m, ref, hyp, i, j, r, c);
      ExpectStep(ref, hyp, r, c, i, j, next);
    }
  }

  lemma {:induction false} ExpectStep(ref: seq<Word>, hyp: seq<Word>, r: nat, c: nat, i: nat, j: nat, next: nat)
    requires next == i + 1 && r <= |ref| && c <= |hyp| && i <= |ref| && j <= |hyp|
    ensures Expect(ref, hyp, r, c, next, j) == Better(Expect(ref, hyp, r, c, i, j),
              if r == i + 1 && c == j + 1 then Distance(ref, i, hyp, j) + Weight(DiagonalEdit(ref, hyp, i, j))
              else if (r == i && c == j + 1) || (r == i + 1 && c == j) then Distance(ref, i, hyp, j) + 1
              else -1)
  {
  }

  /** The end of one column is the start of the next. */
  lemma {:induction false} ExactNextColumn(m: Grid, ref: seq<Word>, hyp: seq<Word>, i: nat, j: nat, next: nat)
    requires i == |ref| + 1 && next == j + 1 && Exact(m, ref, hyp, i, j)
    ensures Exact(m, ref, hyp, 0, next)
  {
    forall r: nat, c: nat | r <= |ref| && c <= |hyp|
      ensures ExactAt(m, ref, hyp, r, c, 0, next)
    {
      assert ExactAt(m, ref, hyp, r, c, i, j);
    }
  }

  // ---------------------------------------------------------------- where the beam cuts

  /** The best cost handed diagonally to the first `n` rows below the top of column `j`. */
  function BestDiagonal(ref: seq<Word>, hyp: seq<Word>, j: nat, n: nat): nat
    requires 0 < j <= |hyp| && n <= |ref|
  {
    if n == 0 then INF else Min(BestDiagonal(ref, hyp, j, n - 1), Diagonal(ref, n, hyp, j))
  }

  /** The best cost that the beam of column `j` is measured by. */
  function BestOf(ref: seq<Word>, hyp: seq<Word>, j: nat): nat
    requires j <= |hyp|
  {
    if j == 0 then INF else BestDiagonal(ref, hyp, j, |ref|)
  }

  /** The distance in (i, j) lies outside the beam. */
  predicate CutAt(ref: seq<Word>, hyp: seq<Word>, i: nat, j: nat) {
    0 < j < |hyp| && i <= |ref| && Distance(ref, i, hyp, j) > BestDiagonal(ref, hyp, j, |ref|) + 20
  }

  ghost predicate CutAbove(ref: seq<Word>, hyp: seq<Word>, j: nat, n: nat) {
    exists i: nat {:trigger CutAt(ref, hyp, i, j)} :: i < n && CutAt(ref, hyp, i, j)
  }

  ghost predicate CutBefore(ref: seq<Word>, hyp: seq<Word>, n: nat) {
    exists j: nat {:trigger CutAbove(ref, hyp, j, |ref| + 1)} :: j < n && CutAbove(ref, hyp, j, |ref| + 1)
  }

  /** Some distance lies outside the beam of its column. */
  ghost predicate Cut(ref: seq<Word>, hyp: seq<Word>) {
    exists i: nat, j: nat :: CutAt(ref, hyp, i, j)
  }

  lemma {:induction false} CutIsCutBefore(ref: seq<Word>, hyp: seq<Word>)
    ensures Cut(ref, hyp) <==> CutBefore(ref, hyp, |hyp|)
    ensures !CutAbove(ref, hyp, |hyp|, |ref| + 1)
  {
    if Cut(ref, hyp) {
      var i: nat, j: nat :| CutAt(ref, hyp, i, j);
      assert CutAbove(ref, hyp, j, |ref| + 1);
    }
  }

  /** Sentences that are together no longer than the beam is wide are never cut. */
  lemma {:induction false} ShortIsNotCut(ref: seq<Word>, hyp: seq<Word>)
    requires |ref| + |hyp| <= 20
    ensures !Cut(ref, hyp)
  {
    forall i: nat, j: nat
      ensures !CutAt(ref, hyp, i, j)
    {
      if i <= |ref| && j <= |hyp| {
        DistanceBound(ref, i, hyp, j);
      }
    }
  }

  // ---------------------------------------------------------------- one column

  /** The variables that pass from column to column. */
  datatype Beam = Beam(best: nat, first: int, last: int, fired: bool)

  /** Nothing lies below row `last` of column `c`, and nothing at all further right. */
  ghost predicate Clear(m: Grid, ref: seq<Word>, hyp: seq<Word>, c: nat, last: int)
    requires Fits(m, ref, hyp)
  {
    forall x: nat, y: nat {:trigger m[x][y]} ::
      x <= |ref| && y <= |hyp| && (y > c || (y == c && x > last)) ==> m[x][y].Unset?
  }

  /** The state in which a column is started; `good` is a row the beam lets through. */
  ghost predicate ColumnReady(m: Grid, ref: seq<Word>, hyp: seq<Word>, j: nat, b: Beam, good: nat) {
    && j <= |hyp| && |ref| < TABLE_SIZE && |hyp| < TABLE_SIZE
    && TableOk(m, ref, hyp, 0, j) && Clear(m, ref, hyp, j, b.last)
    && 0 <= b.first <= good <= b.last && good <= |ref|
    && m[good][j].Cell? && m[good][j].cost <= b.best + BEAM_WIDTH
    && (!b.fired ==>
          && Exact(m, ref, hyp, 0, j) && b.best == BestOf(ref, hyp, j)
          && b.first == 0 && (b.last == |ref| + 1 || (j == 0 && b.last == 0)))
  }

  /** The same while column `j` is being processed, row `i` next. */
  ghost predicate InColumn(m: Grid, ref: seq<Word>, hyp: seq<Word>, j: nat, b: Beam, good: nat, last: int, i: nat,
                           n: Beam, good': nat) {
    && j <= |hyp| && good <= |ref| && good <= b.last && i <= |ref| + 1 && 0 <= b.first <= i && b.last <= last
    && (if n.first == -1 then n.last == -1 && n.best == INF else b.first <= n.first < n.last <= i)
    && Shape(m, ref, hyp, j, last, i, n)
    && Flow(m, ref, hyp, j, b, good, last, i, n, good')
    && Precise(m, ref, hyp, j, b, last, i, n)
  }

  ghost predicate Shape(m: Grid, ref: seq<Word>, hyp: seq<Word>, j: nat, last: int, i: nat, n: Beam)
    requires j <= |hyp|
  {
    TableOk(m, ref, hyp, i, j) && Clear(m, ref, hyp, j + 1, n.last) && Below(m, ref, hyp, j, last)
  }

  /** Some row gets through: `good` in this column, `good'` in the next, the rest of the column in the last. */
  ghost predicate Flow(m: Grid, ref: seq<Word>, hyp: seq<Word>, j: nat, b: Beam, good: nat, last: int, i: nat, n: Beam,
                       good': nat)
    requires j <= |hyp| && good <= |ref| && i <= |ref| + 1 && Fits(m, ref, hyp) && (n.first != -1 ==> i > 0)
  {
    && (good >= i ==> m[good][j].Cell? && m[good][j].cost <= b.best + BEAM_WIDTH)
    && (good < i ==> n.first != -1)
    && (n.first != -1 && j < |hyp| ==> NextGood(m, ref, j + 1, n, good'))
    && (n.first != -1 && j == |hyp| ==> m[i - 1][j].Cell? && (i <= |ref| ==> m[i][j].Cell? && i <= last))
  }

  ghost predicate Precise(m: Grid, ref: seq<Word>, hyp: seq<Word>, j: nat, b: Beam, last: int, i: nat, n: Beam)
    requires j <= |hyp|
  {
    !n.fired ==>
      && !b.fired && b.best == BestOf(ref, hyp, j)
      && n.best == (if j < |hyp| then BestDiagonal(ref, hyp, j + 1, Min(i, |ref|)) else INF)
      && Exact(m, ref, hyp, i, j) && (i <= last || i == |ref| + 1)
      && (i > 0 ==> n.first == 0 && n.last == i)
  }

  /** The beam part of this. */
  ghost predicate Measured(ref: seq<Word>, hyp: seq<Word>, j: nat, last: int, i: nat, n: Beam)
    requires j <= |hyp|
  {
    && n.best == (if j < |hyp| then BestDiagonal(ref, hyp, j + 1, Min(i, |ref|)) else INF)
    && (i <= last || i == |ref| + 1) && (i > 0 ==> n.first == 0 && n.last == i)
  }

  lemma {:induction false} RowMeasured(m0: Grid, ref: seq<Word>, hyp: seq<Word>, j: nat, last0: int, i: nat, n0: Beam,
                                       good0: nat, n: Beam, good': nat, last: int)
    requires i <= |ref| && i <= last0 && j <= |hyp| && Measured(ref, hyp, j, last0, i, n0)
    requires Fits(m0, ref, hyp) && m0[i][j].Cell? && Passed(m0, ref, hyp, j, last0, i, n0, good0, n, good', last)
    requires m0[i][j].cost == Distance(ref, i, hyp, j)
    requires if n0.first == -1 then n0.last == -1 && n0.best == INF else 0 <= n0.first < n0.last <= i
    ensures Measured(ref, hyp, j, last, i + 1, n)
  {
  }

  /** Nothing lies below row `last` of column `j`. */
  ghost predicate Below(m: Grid, ref: seq<Word>, hyp: seq<Word>, j: nat, last: int)
    requires Fits(m, ref, hyp) && j <= |hyp|
  {
    forall x: nat {:trigger m[x]} :: x <= |ref| && x > last ==> m[x][j].Unset?
  }

  ghost predicate NextGood(m: Grid, ref: seq<Word>, c: nat, n: Beam, good: nat) {
    n.first <= good <= n.last && good <= |ref| && good < |m| && c < |m[good]| &&
    m[good][c].Cell? && m[good][c].cost <= n.best + BEAM_WIDTH
  }

  /** One row of one column: skip it, cut it off, or pass its cost on. */
  method ProcessRow(m0: Grid, ref: seq<Word>, hyp: seq<Word>, j: nat, b: Beam, ghost good: nat, last0: int, i: nat,
                    n0: Beam, ghost good0: nat)
    returns (m: Grid, n: Beam, last: int, ghost good': nat)
    requires |ref| < TABLE_SIZE && |hyp| < TABLE_SIZE && j <= |hyp| && i <= |ref| && i <= last0 && good <= |ref|
             && good <= b.last
    requires InColumn(m0, ref, hyp, j, b, good, last0, i, n0, good0)
    ensures InColumn(m, ref, hyp, j, b, good, last, i + 1, n, good')
    ensures n0.fired ==> n.fired
    ensures !n0.fired ==> (n.fired <==> CutAt(ref, hyp, i, j))
  {
    m, n, last, good' := m0, n0, last0, good0;
    assert CellOk(m, ref, hyp, i, j, i, j);
    if !n.fired {
      assert ExactAt(m, ref, hyp, i, j, i, j);
      ExpectIsDistance(ref, hyp, i, j, i, j);
    }
    if m[i][j].Unset? {
      RowSkipped(m0, ref, hyp, j, b, good, last0, i, n0, good0, n);
      return;
    }
    var score := m[i][j].cost;
    if j < |hyp| && score > b.best + BEAM_WIDTH {
      n := n.(fired := true);
      RowSkipped(m0, ref, hyp, j, b, good, last0, i, n0, good0, n);
      return;
    }
    if n.first == -1 {
      n := n.(first := i);
      good' := i;
    }
    var best, diagonal;
    m, best, diagonal, last := PassOn(m0, ref, hyp, i, j, n.best, last0);
    n := n.(last := i + 1, best := best);
    if diagonal {
      good' := i + 1;
    }
    RowPassed(m0, ref, hyp, j, b, good, last0, i, n0, good0, n, good', last);
  }

  /** The three relaxations of one cell; `diagonal` tells that the best cost of the column was improved. */
  method PassOn(m0: Grid, ref: seq<Word>, hyp: seq<Word>, i: nat, j: nat, best0: nat, last0: int)
    returns (m: Grid, best: nat, diagonal: bool, last: int)
    requires Fits(m0, ref, hyp) && i <= |ref| && j <= |hyp| && m0[i][j].Cell? && i <= last0
    requires Below(m0, ref, hyp, j, last0) && (i < |ref| && j < |hyp| ==> m0[i + 1][j + 1].Unset?)
    ensures m == Step(m0, ref, hyp, i, j)
    ensures if i < |ref| && j < |hyp|
            then var cost := m0[i][j].cost + Weight(DiagonalEdit(ref, hyp, i, j));
                 best == Min(best0, cost) && (diagonal <==> cost < best0)
            else best == best0 && !diagonal
    ensures last == if i < |ref| && i == last0 then i + 1 else last0
  {
    m, best, diagonal, last := m0, best0, false, last0;
    var score := m[i][j].cost;
    if i < |ref| && j < |hyp| {
      var e := DiagonalEdit(ref, hyp, i, j);
      var cost, there := score + Weight(e), CostOf(m[i + 1][j + 1]);
      m := Relax(m, i, j, i + 1, j + 1, e);
      // A match always counts for the beam, a substitution only where it is an improvement.
      if (e == Match || there < 0 || there > cost) && cost < best {
        best, diagonal := cost, true;
      }
    }
    if j < |hyp| {
      m := Relax(m, i, j, i, j + 1, Insert);
    }
    if i < |ref| {
      var there := CostOf(m[i + 1][j]);
      assert m[i + 1][j] == m0[i + 1][j];
      m := Relax(m, i, j, i + 1, j, Delete);
      if (there < 0 || there > score + 1) && i >= last {
        last := i + 1;
      }
    }
  }

  /** A row that is unset, or cut off by the beam, changes nothing. */
  lemma {:induction false} RowSkipped(m: Grid, ref: seq<Word>, hyp: seq<Word>, j: nat, b: Beam, good: nat, last: int,
                                      i: nat, n0: Beam, good': nat, n: Beam)
    requires i <= |ref| && i <= last && InColumn(m, ref, hyp, j, b, good, last, i, n0, good')
    requires || (m[i][j].Unset? && n == n0)
             || (j < |hyp| && m[i][j].Cell? && m[i][j].cost > b.best + BEAM_WIDTH && n == n0.(fired := true))
    ensures InColumn(m, ref, hyp, j, b, good, last, i + 1, n, good')
  {
    TableOkLater(m, ref, hyp, i, j, i + 1, j);
    if !n.fired {
      assert ExactAt(m, ref, hyp, i, j, i, j);
      ExpectIsDistance(ref, hyp, i, j, i, j);
    }
  }

  /** The bookkeeping of a row that passes its cost on. */
  ghost predicate Passed(m0: Grid, ref: seq<Word>, hyp: seq<Word>, j: nat, last0: int, i: nat,
                         n0: Beam, good0: nat, n: Beam, good': nat, last: int)
    requires Fits(m0, ref, hyp) && i <= |ref| && j <= |hyp| && m0[i][j].Cell?
  {
    var (n1, good1) := if n0.first == -1 then (n0.(first := i), i) else (n0, good0);
    && last == (if i < |ref| && i == last0 then i + 1 else last0)
    && (|| (n == n1.(last := i + 1) && good' == good1)
        || (i < |ref| && j < |hyp| && good' == i + 1
            && n == n1.(last := i + 1, best := m0[i][j].cost + Weight(DiagonalEdit(ref, hyp, i, j)))))
    && (i < |ref| && j < |hyp| ==> n.best == Min(n0.best, m0[i][j].cost + Weight(DiagonalEdit(ref, hyp, i, j))))
  }

  /** What is true of the table once row `i` has passed its cost on. */
  lemma {:induction false} RowPassed(m0: Grid, ref: seq<Word>, hyp: seq<Word>, j: nat, b: Beam, good: nat, last0: int,
                                     i: nat, n0: Beam, good0: nat, n: Beam, good': nat, last: int)
    requires |ref| < TABLE_SIZE && |hyp| < TABLE_SIZE && i <= |ref| && i <= last0
    requires InColumn(m0, ref, hyp, j, b, good, last0, i, n0, good0) && m0[i][j].Cell?
    requires Passed(m0, ref, hyp, j, last0, i, n0, good0, n, good', last)
    ensures InColumn(Step(m0, ref, hyp, i, j), ref, hyp, j, b, good, last, i + 1, n, good')
  {
    StepOk(m0, ref, hyp, i, j, i + 1);
    StepClear(m0, ref, hyp, i, j, last0, n0.last);
    RowPrecise(m0, ref, hyp, j, b, last0, i, n0, good0, n, good', last);
    RowFlow(m0, ref, hyp, j, b, good, last0, i, n0, good0, n, good', last);
  }

  lemma {:induction false} RowPrecise(m0: Grid, ref: seq<Word>, hyp: seq<Word>, j: nat, b: Beam, last0: int, i: nat,
                                      n0: Beam, good0: nat, n: Beam, good': nat, last: int)
    requires i <= |ref| && i <= last0 && j <= |hyp| && Precise(m0, ref, hyp, j, b, last0, i, n0)
    requires Fits(m0, ref, hyp) && m0[i][j].Cell? && Passed(m0, ref, hyp, j, last0, i, n0, good0, n, good', last)
    requires if n0.first == -1 then n0.last == -1 && n0.best == INF else 0 <= n0.first < n0.last <= i
    ensures Precise(Step(m0, ref, hyp, i, j), ref, hyp, j, b, last, i + 1, n)
  {
    if !n.fired {
      StepExact(m0, ref, hyp, i, j, i + 1);
      assert ExactAt(m0, ref, hyp, i, j, i, j);
      ExpectIsDistance(ref, hyp, i, j, i, j);
      RowMeasured(m0, ref, hyp, j, last0, i, n0, good0, n, good', last);
    }
  }

  lemma {:induction false} RowFlow(m0: Grid, ref: seq<Word>, hyp: seq<Word>, j: nat, b: Beam, good: nat, last0: int,
                                   i: nat, n0: Beam, good0: nat, n: Beam, good': nat, last: int)
    requires |ref| < TABLE_SIZE && |hyp| < TABLE_SIZE && i <= |ref| && i <= last0
    requires j <= |hyp| && good <= |ref| && 0 <= b.first <= i && (n0.first != -1 ==> i > 0)
    requires (if n0.first == -1 then n0.last == -1 && n0.best == INF else b.first <= n0.first < n0.last <= i)
    requires Fits(m0, ref, hyp) && m0[i][j].Cell? && Flow(m0, ref, hyp, j, b, good, last0, i, n0, good0)
    requires Passed(m0, ref, hyp, j, last0, i, n0, good0, n, good', last)
    requires TableOk(Step(m0, ref, hyp, i, j), ref, hyp, i + 1, j)
    ensures Flow(Step(m0, ref, hyp, i, j), ref, hyp, j, b, good, last, i + 1, n, good')
  {
    var m := Step(m0, ref, hyp, i, j);
    StepAt(m0, ref, hyp, i, j, i, j);
    if i < |ref| {
      StepAt(m0, ref, hyp, i, j, i + 1, j);
    }
    if good > i {
      StepAt(m0, ref, hyp, i, j, good, j);
    }
    if j < |hyp| {
      RowNextGood(m0, ref, hyp, j, b, last0, i, n0, good0, n, good', last);
    }
  }

  lemma {:induction false} RowNextGood(m0: Grid, ref: seq<Word>, hyp: seq<Word>, j: nat, b: Beam, last0: int, i: nat,
                                       n0: Beam, good0: nat, n: Beam, good': nat, last: int)
    requires |ref| < TABLE_SIZE && |hyp| < TABLE_SIZE && i <= |ref| && j < |hyp| && 0 <= b.first <= i
    requires (if n0.first == -1 then n0.last == -1 && n0.best == INF else b.first <= n0.first < n0.last <= i)
    requires Fits(m0, ref, hyp) && m0[i][j].Cell? && (n0.first != -1 ==> NextGood(m0, ref, j + 1, n0, good0))
    requires Passed(m0, ref, hyp, j, last0, i, n0, good0, n, good', last)
    requires TableOk(Step(m0, ref, hyp, i, j), ref, hyp, i + 1, j)
    ensures NextGood(Step(m0, ref, hyp, i, j), ref, j + 1, n, good')
  {
    StepAt(m0, ref, hyp, i, j, good', j + 1);
    assert CellOk(Step(m0, ref, hyp, i, j), ref, hyp, good', j + 1, i + 1, j);
  }

  lemma {:induction false} StepClear(m0: Grid, ref: seq<Word>, hyp: seq<Word>, i: nat, j: nat, last: int, lastNext: int)
    requires Fits(m0, ref, hyp) && i <= |ref| && j <= |hyp| && m0[i][j].Cell? && i <= last && lastNext <= i
    requires Clear(m0, ref, hyp, j + 1, lastNext) && Below(m0, ref, hyp, j, last)
    ensures Clear(Step(m0, ref, hyp, i, j), ref, hyp, j + 1, i + 1)
    ensures Below(Step(m0, ref, hyp, i, j), ref, hyp, j, if i < |ref| && i == last then i + 1 else last)
  {
    var m: Grid := Step(m0, ref, hyp, i, j);
    forall x: nat, y: nat | x <= |ref| && y <= |hyp| && (y > j + 1 || (y == j + 1 && x > i + 1))
      ensures m[x][y].Unset?
    {
      StepAt(m0, ref, hyp, i, j, x, y);
    }
    forall x: nat | x <= |ref| && x > (if i < |ref| && i == last then i + 1 else last)
      ensures m[x][j].Unset?
    {
      StepAt(m0, ref, hyp, i, j, x, j);
      assert m0[x][j].Unset?;
    }
  }

  method Column(m0: Grid, ref: seq<Word>, hyp: seq<Word>, j: nat, b: Beam, ghost good: nat)
    returns (m: Grid, n: Beam, ghost good': nat)
    requires ColumnReady(m0, ref, hyp, j, b, good)
    ensures j < |hyp| ==> ColumnReady(m, ref, hyp, j + 1, n, good')
    ensures j == |hyp| ==> TableOk(m, ref, hyp, |ref| + 1, j) && m[|ref|][j].Cell?
    ensures j == |hyp| && !n.fired ==> Exact(m, ref, hyp, |ref| + 1, j)
    ensures b.fired ==> n.fired
    ensures !b.fired ==> (n.fired <==> CutAbove(ref, hyp, j, |ref| + 1))
  {
    m := m0;
    n := Beam(INF, -1, -1, b.fired);
    good' := 0;
    var i, last := b.first, b.last;
    TableOkLater(m, ref, hyp, 0, j, i, j);
    while i <= |ref|
      invariant 0 <= i && InColumn(m, ref, hyp, j, b, good, last, i, n, good')
      invariant b.fired ==> n.fired
      invariant !b.fired ==> (n.fired <==> CutAbove(ref, hyp, j, i))
      decreases |ref| + 1 - i
    {
      if i > last {
        break;
      }
      m, n, last, good' := ProcessRow(m, ref, hyp, j, b, good, last, i, n, good');
      i := i + 1;
    }
    ColumnEnd(m, ref, hyp, j, b, good, last, i, n, good');
  }

  lemma {:induction false} ColumnEnd(m: Grid, ref: seq<Word>, hyp: seq<Word>, j: nat, b: Beam, good: nat, last: int,
                                     i: nat, n: Beam, good': nat)
    requires |ref| < TABLE_SIZE && |hyp| < TABLE_SIZE && j <= |hyp| && good <= |ref| && good <= b.last
    requires InColumn(m, ref, hyp, j, b, good, last, i, n, good') && (i > |ref| || i > last)
    ensures j < |hyp| ==> ColumnReady(m, ref, hyp, j + 1, n, good')
    ensures j == |hyp| ==> TableOk(m, ref, hyp, |ref| + 1, j) && m[|ref|][j].Cell?
    ensures j == |hyp| && !n.fired ==> Exact(m, ref, hyp, |ref| + 1, j)
  {
    TableOkLater(m, ref, hyp, i, j, |ref| + 1, j);
    TableOkLater(m, ref, hyp, i, j, 0, j + 1);
    if !n.fired {
      ExactNextColumn(m, ref, hyp, i, j, j + 1);
    }
  }

  // ---------------------------------------------------------------- the whole table

  datatype Alignment = Alignment(path: seq<Edit>, numEdits: nat)

  /** Follows the recorded edits back to the origin. */
  method Traceback(m: Grid, ref: seq<Word>, hyp: seq<Word>) returns (path: seq<Edit>)
    requires TableOk(m, ref, hyp, |ref| + 1, |hyp|) && m[|ref|][|hyp|].Cell?
    ensures Script(path, ref, |ref|, hyp, |hyp|) && Edits(path) == m[|ref|][|hyp|].cost
    ensures Exact(m, ref, hyp, |ref| + 1, |hyp|) ==> Preferred(path, ref, |ref|, hyp, |hyp|)
  {
    var i, j := |ref|, |hyp|;
    ghost var full: nat := m[i][j].cost;
    path := [];
    ghost var exact := Exact(m, ref, hyp, |ref| + 1, |hyp|);
    JoinsNothing(m, ref, hyp);
    assert forall p: seq<Edit> :: p + [] == p;
    while i > 0 || j > 0
      invariant 0 <= i <= |ref| && 0 <= j <= |hyp| && m[i][j].Cell?
      invariant Joins(m, ref, hyp, path, i, j, full) && (exact ==> JoinsPreferred(ref, hyp, path, i, j))
      decreases i + j
    {
      var e := m[i][j].edit;
      assert CellOk(m, ref, hyp, i, j, |ref| + 1, |hyp|);
      assert From(m, ref, hyp, i, j, |ref| + 1, |hyp|);
      JoinsStep(m, ref, hyp, path, i, j, full);
      if exact {
        PreferredStep(m, ref, hyp, path, i, j);
      }
      path := [e] + path;
      match e {
        case Match => i, j := i - 1, j - 1;
        case Substitute => i, j := i - 1, j - 1;
        case Delete => i := i - 1;
        case Insert => j := j - 1;
      }
    }
    assert CellOk(m, ref, hyp, 0, 0, |ref| + 1, |hyp|);
    assert [] + path == path;
    assert Script([], ref, 0, hyp, 0) && Edits([]) == 0;
    assert Preferred([], ref, 0, hyp, 0);
  }

  /** Whatever script leads to (i, j) at the cost of its cell, `path` completes it. */
  ghost predicate Joins(m: Grid, ref: seq<Word>, hyp: seq<Word>, path: seq<Edit>, i: nat, j: nat, full: nat)
    requires Fits(m, ref, hyp) && i <= |ref| && j <= |hyp|
  {
    m[i][j].Cell? &&
    forall p {:trigger Script(p, ref, i, hyp, j)} :: Script(p, ref, i, hyp, j) && Edits(p) == m[i][j].cost ==>
      Script(p + path, ref, |ref|, hyp, |hyp|) && Edits(p + path) == full
  }

  /** Whatever preferred script leads to (i, j), `path` completes it. */
  ghost predicate JoinsPreferred(ref: seq<Word>, hyp: seq<Word>, path: seq<Edit>, i: nat, j: nat)
    requires i <= |ref| && j <= |hyp|
  {
    forall p {:trigger Preferred(p, ref, i, hyp, j)} :: Preferred(p, ref, i, hyp, j) ==>
      Preferred(p + path, ref, |ref|, hyp, |hyp|)
  }

  lemma {:induction false} PreferredStep(m: Grid, ref: seq<Word>, hyp: seq<Word>, path: seq<Edit>, i: nat, j: nat)
    requires Exact(m, ref, hyp, |ref| + 1, |hyp|) && i <= |ref| && j <= |hyp| && (i > 0 || j > 0) && m[i][j].Cell?
    requires JoinsPreferred(ref, hyp, path, i, j) && From(m, ref, hyp, i, j, |ref| + 1, |hyp|)
    ensures var e := m[i][j].edit;
            var i' := if e == Insert then i else i - 1;
            var j' := if e == Delete then j else j - 1;
            i' >= 0 && j' >= 0 && JoinsPreferred(ref, hyp, [e] + path, i', j')
  {
    var e := m[i][j].edit;
    var i' := if e == Insert then i else i - 1;
    var j' := if e == Delete then j else j - 1;
    assert ExactAt(m, ref, hyp, i, j, |ref| + 1, |hyp|);
    ExpectIsDistance(ref, hyp, i, j, |ref| + 1, |hyp|);
    forall p | Preferred(p, ref, i', hyp, j')
      ensures Preferred(p + ([e] + path), ref, |ref|, hyp, |hyp|)
    {
      var q := p + [e];
      assert q[..|q| - 1] == p;
      assert Preferred(q, ref, i, hyp, j);
      assert q + path == p + ([e] + path);
    }
  }

  lemma {:induction false} JoinsNothing(m: Grid, ref: seq<Word>, hyp: seq<Word>)
    requires Fits(m, ref, hyp) && m[|ref|][|hyp|].Cell?
    ensures Joins(m, ref, hyp, [], |ref|, |hyp|, m[|ref|][|hyp|].cost)
  {
    forall p | Script(p, ref, |ref|, hyp, |hyp|)
      ensures p + [] == p
    {
    }
  }

  lemma {:induction false} JoinsStep(m: Grid, ref: seq<Word>, hyp: seq<Word>, path: seq<Edit>, i: nat, j: nat,
                                     full: nat)
    requires Fits(m, ref, hyp) && i <= |ref| && j <= |hyp| && (i > 0 || j > 0)
    requires Joins(m, ref, hyp, path, i, j, full) && From(m, ref, hyp, i, j, |ref| + 1, |hyp|)
    ensures var e := m[i][j].edit;
            var i' := if e == Insert then i else i - 1;
            var j' := if e == Delete then j else j - 1;
            i' >= 0 && j' >= 0 && Joins(m, ref, hyp, [e] + path, i', j', full)
  {
    var e := m[i][j].edit;
    var i' := if e == Insert then i else i - 1;
    var j' := if e == Delete then j else j - 1;
    forall p | Script(p, ref, i', hyp, j') && Edits(p) == m[i'][j'].cost
      ensures Script(p + ([e] + path), ref, |ref|, hyp, |hyp|) && Edits(p + ([e] + path)) == full
    {
      var q := p + [e];
      assert q[..|q| - 1] == p;
      assert Script(q, ref, i, hyp, j);
      assert q + path == p + ([e] + path);
    }
  }

  /**
   MinEditDist.  The path is a script of exactly the reported number of edits, never fewer
   than the Levenshtein distance, and exactly that many unless the beam cut something off,
   which it cannot for short sentences.  Of the shortest scripts it is then the one that prefers
   diagonal edits to insertions and these to deletions, from the end on.
   */
  method MinEditDist(hyp: seq<Word>, ref: seq<Word>) returns (a: Alignment, fired: bool)
    requires |ref| < TABLE_SIZE && |hyp| < TABLE_SIZE
    ensures Script(a.path, ref, |ref|, hyp, |hyp|) && Edits(a.path) == a.numEdits
    ensures Distance(ref, |ref|, hyp, |hyp|) <= a.numEdits <= |ref| + |hyp|
    ensures !fired ==> a.numEdits == Distance(ref, |ref|, hyp, |hyp|)
    ensures fired <==> Cut(ref, hyp)
    ensures !fired ==> Preferred(a.path, ref, |ref|, hyp, |hyp|)
  {
    var m: Grid := seq(|ref| + 1, r => seq(|hyp| + 1, c => if r == 0 && c == 0 then Cell(0, Match) else Unset));
    var b := Beam(INF, 0, 0, false);
    ghost var good := 0;
    StartReady(m, ref, hyp, b);
    var j := 0;
    while j < |hyp|
      invariant 0 <= j <= |hyp| && ColumnReady(m, ref, hyp, j, b, good)
      invariant b.fired <==> CutBefore(ref, hyp, j)
    {
      m, b, good := Column(m, ref, hyp, j, b, good);
      j := j + 1;
    }
    CutIsCutBefore(ref, hyp);
    m, b, good := Column(m, ref, hyp, j, b, good);
    assert CellOk(m, ref, hyp, |ref|, |hyp|, |ref| + 1, |hyp|);
    if !b.fired {
      assert ExactAt(m, ref, hyp, |ref|, |hyp|, |ref| + 1, |hyp|);
      ExpectIsDistance(ref, hyp, |ref|, |hyp|, |ref| + 1, |hyp|);
    }
    var path := Traceback(m, ref, hyp);
    a, fired := Alignment(path, m[|ref|][|hyp|].cost), b.fired;
  }

  lemma {:induction false} StartReady(m: Grid, ref: seq<Word>, hyp: seq<Word>, b: Beam)
    requires |ref| < TABLE_SIZE && |hyp| < TABLE_SIZE && Fits(m, ref, hyp) && b == Beam(INF, 0, 0, false)
    requires forall r, c :: 0 <= r <= |ref| && 0 <= c <= |hyp| ==>
               m[r][c] == if r == 0 && c == 0 then Cell(0, Match) else Unset
    ensures ColumnReady(m, ref, hyp, 0, b, 0)
  {
    forall r: nat, c: nat | r <= |ref| && c <= |hyp|
      ensures CellOk(m, ref, hyp, r, c, 0, 0) && ExactAt(m, ref, hyp, r, c, 0, 0)
    {
    }
  }
}
