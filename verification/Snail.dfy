/** The snail matrix: a closed formula for every cell, against a walker that goes straight
    ahead and turns right only when it has to. */
module Snail {

  datatype Cell = Cell(i: int, j: int)
  datatype Heading = East | South | West | North

  // ---------- the formula, with 1-based row i and column j as in the program ----------

  function MyAbs(x: int): int {
    if x < 0 then -x else x
  }

  /** Distance of a row or column number from the middle, corrected for even sizes. */
  function FromMiddle(n: int, i: int): int
    requires n >= 2
  {
    MyAbs(i - n / 2 - 1) + (i - 1) / (n / 2) * ((n - 1) % 2)
  }

  function Formula(n: int, i: int, j: int): int
    requires n >= 2
  {
    var switcher := (j - i + n) / n;
    var ic := FromMiddle(n, i);
    var jc := FromMiddle(n, j);
    var ring := n / 2 - (MyAbs(ic - jc) + ic + jc) / 2;
    var xs := i - ring + j - ring - 1;
    var coef := 4 * ring * (n - ring);
    coef + switcher * xs + MyAbs(switcher - 1) * (4 * (n - 2 * ring) - 2 - xs)
  }

  predicate Inside(n: int, c: Cell) {
    1 <= c.i <= n && 1 <= c.j <= n
  }

  // ---------- the walk ----------

  function Ahead(c: Cell, h: Heading): Cell {
    match h
    case East => Cell(c.i, c.j + 1)
    case South => Cell(c.i + 1, c.j)
    case West => Cell(c.i, c.j - 1)
    case North => Cell(c.i - 1, c.j)
  }

  function RightOf(h: Heading): Heading {
    match h
    case East => South
    case South => West
    case West => North
    case North => East
  }

  datatype Walk = Walk(path: seq<Cell>, heading: Heading)

  /** The walk after `k` steps: start at the top left heading east; go on if the cell ahead
      is inside the matrix and not yet visited, otherwise turn right first. */
  function WalkFor(n: int, k: nat): (w: Walk)
    ensures |w.path| == k + 1
  {
    if k == 0 then Walk([Cell(1, 1)], East)
    else
      var w := WalkFor(n, k - 1);
      var here := w.path[k - 1];
      var straight := Ahead(here, w.heading);
      if Inside(n, straight) && straight !in w.path then Walk(w.path + [straight], w.heading)
      else Walk(w.path + [Ahead(here, RightOf(w.heading))], RightOf(w.heading))
  }

  // ---------- rings ----------

  function Min(a: int, b: int): int {
    if a <= b then a else b
  }

  /** How far a cell is from the border. */
  function RingOf(n: int, c: Cell): int {
    Min(Min(c.i - 1, n - c.i), Min(c.j - 1, n - c.j))
  }

  /** The number of cells in rings outside ring r. */
  function Outside(n: int, r: int): int {
    4 * r * (n - r)
  }

  /** The place of a cell along its ring, from 1 at the ring's top left. */
  function Along(n: int, c: Cell): int {
    var r := RingOf(n, c);
    if c.j >= c.i then c.i + c.j - 2 * r - 1 else 4 * (n - 2 * r) - 1 - (c.i + c.j - 2 * r)
  }

  function BySide(n: int, c: Cell): int {
    Outside(n, RingOf(n, c)) + Along(n, c)
  }

  lemma FromMiddleIs(n: int, i: int)
    requires n >= 2 && 1 <= i <= n
    ensures FromMiddle(n, i) == n / 2 - Min(i - 1, n - i)
  {
    var h := n / 2;
    if n % 2 == 0 {
      assert n == 2 * h;
      SameOrNext(i - 1, h);
    } else {
      assert (n - 1) % 2 == 0;
      assert (i - 1) / h * 0 == 0;
    }
  }

  lemma SameOrNext(a: int, b: int)
    requires 0 <= a < 2 * b
    ensures a / b == if a < b then 0 else 1
  {
    var k := a / b;
    assert a == k * b + a % b;
    assert k >= 2 ==> (k - 2) * b >= 0;
    assert k == 1 ==> k * b == b;
  }

  lemma MaxByAbs(a: int, b: int)
    ensures (MyAbs(a - b) + a + b) / 2 == if a >= b then a else b
  {
  }

  lemma PickSide(switcher: int, x: int, y: int)
    requires switcher == 0 || switcher == 1
    ensures switcher * x + MyAbs(switcher - 1) * y == if switcher == 1 then x else y
  {
  }

  lemma FormulaIsBySide(n: int, c: Cell)
    requires n >= 2 && Inside(n, c)
    ensures Formula(n, c.i, c.j) == BySide(n, c)
  {
    FromMiddleIs(n, c.i);
    FromMiddleIs(n, c.j);
    SameOrNext(c.j - c.i + n, n);
    var ic, jc := FromMiddle(n, c.i), FromMiddle(n, c.j);
    MaxByAbs(ic, jc);
    var r := n / 2 - (MyAbs(ic - jc) + ic + jc) / 2;
    assert r == RingOf(n, c);
    var xs := c.i - r + c.j - r - 1;
    PickSide((c.j - c.i + n) / n, xs, 4 * (n - 2 * r) - 2 - xs);
  }

  lemma OutsideStep(n: int, r: int)
    ensures Outside(n, r + 1) == Outside(n, r) + 4 * (n - 2 * r) - 4
  {
  }

  lemma {:induction false} OutsideMonotone(n: int, r: int, s: int)
    requires 0 <= r <= s && 2 * s <= n
    ensures Outside(n, r) <= Outside(n, s)
    decreases s - r
  {
    if r < s {
      OutsideStep(n, s - 1);
      OutsideMonotone(n, r, s - 1);
    }
  }

  /** Each ring has its own block of consecutive values. */
  lemma RingBlock(n: int, c: Cell)
    requires n >= 2 && Inside(n, c)
    ensures var r := RingOf(n, c); var m := n - 2 * r;
            && 0 <= r && m >= 1
            && Outside(n, r) < BySide(n, c) <= Outside(n, r) + (if m == 1 then 1 else 4 * m - 4)
  {
  }

  lemma OuterRingIsSmaller(n: int, c: Cell, d: Cell)
    requires n >= 2 && Inside(n, c) && Inside(n, d) && RingOf(n, c) < RingOf(n, d)
    ensures BySide(n, c) < BySide(n, d)
  {
    var r := RingOf(n, c);
    RingBlock(n, c);
    RingBlock(n, d);
    OutsideStep(n, r);
    OutsideMonotone(n, r + 1, RingOf(n, d));
  }

  lemma BySideInjective(n: int, c: Cell, d: Cell)
    requires n >= 2 && Inside(n, c) && Inside(n, d) && BySide(n, c) == BySide(n, d)
    ensures c == d
  {
    if RingOf(n, c) < RingOf(n, d) {
      OuterRingIsSmaller(n, c, d);
    } else if RingOf(n, d) < RingOf(n, c) {
      OuterRingIsSmaller(n, d, c);
    }
  }

  lemma BySideRange(n: int, c: Cell)
    requires n >= 2 && Inside(n, c)
    ensures 1 <= BySide(n, c) <= n * n
  {
    var r := RingOf(n, c);
    RingBlock(n, c);
    OutsideMonotone(n, 0, r);
    InsideIsSquare(n, r);
    SquareHoldsRing(n - 2 * r);
  }

  /** What is not outside ring r is a square. */
  lemma InsideIsSquare(n: int, r: int)
    ensures Outside(n, r) + (n - 2 * r) * (n - 2 * r) == n * n
  {
  }

  lemma SquareHoldsRing(m: int)
    ensures m * m >= 4 * m - 4
    ensures m == 1 ==> m * m == 1
  {
    assert (m - 2) * (m - 2) >= 0;
    assert (m - 2) * (m - 2) == m * m - 4 * m + 4;
  }

  // ---------- one step of the walk ----------

  /** The heading in which a cell is entered. */
  function Entered(n: int, c: Cell): Heading {
    var r := RingOf(n, c);
    if c.i == r + 1 then East
    else if c.j == n - r then South
    else if c.i == n - r then West
    else North
  }

  ghost predicate GoesOn(n: int, c: Cell, d: Cell, h: Heading) {
    Inside(n, d) && BySide(n, d) == BySide(n, c) + 1 && Entered(n, d) == h
  }

  ghost predicate Blocked(n: int, c: Cell, d: Cell) {
    Inside(n, d) ==> BySide(n, d) < BySide(n, c)
  }

  lemma BlockedByOuterRing(n: int, c: Cell, d: Cell)
    requires n >= 2 && Inside(n, c) && (Inside(n, d) ==> RingOf(n, d) < RingOf(n, c))
    ensures Blocked(n, c, d)
  {
    if Inside(n, d) {
      OuterRingIsSmaller(n, d, c);
    }
  }

  lemma OnSameRing(n: int, c: Cell, d: Cell)
    requires RingOf(n, c) == RingOf(n, d)
    ensures BySide(n, d) - BySide(n, c) == Along(n, d) - Along(n, c)
  {
  }

  /** The cell at which the walk ends: the centre, or the lower left of a 2 by 2 centre. */
  predicate IsCentre(n: int, c: Cell) {
    var r := RingOf(n, c);
    n - 2 * r == 1 || (n - 2 * r == 2 && c.i == r + 2 && c.j == r + 1)
  }

  lemma CentreIsLast(n: int, c: Cell)
    requires n >= 2 && Inside(n, c) && IsCentre(n, c)
    ensures BySide(n, c) == n * n
  {
    InsideIsSquare(n, RingOf(n, c));
  }

  /** Along the sides of a ring, corners included, short of the last cell of the ring. */
  lemma NextOnRing(n: int, c: Cell)
    requires n >= 2 && Inside(n, c) && n - 2 * RingOf(n, c) >= 2
    requires !(c.j == RingOf(n, c) + 1 && c.i == RingOf(n, c) + 2)
    ensures var h := Entered(n, c);
            || GoesOn(n, c, Ahead(c, h), h)
            || (Blocked(n, c, Ahead(c, h)) && GoesOn(n, c, Ahead(c, RightOf(h)), RightOf(h)))
  {
    var r := RingOf(n, c);
    var h := Entered(n, c);
    var m := n - 2 * r;
    var a, b := c.i - r, c.j - r;
    if (a == 1 && b == m) || (a == m && b == m) || (a == m && b == 1) {
      BlockedByOuterRing(n, c, Ahead(c, h));
      OnSameRing(n, c, Ahead(c, RightOf(h)));
    } else {
      OnSameRing(n, c, Ahead(c, h));
    }
  }

  /** From the last cell of a ring the walk turns into the next one. */
  lemma NextRing(n: int, c: Cell)
    requires n >= 2 && Inside(n, c) && n - 2 * RingOf(n, c) >= 3
    requires c.j == RingOf(n, c) + 1 && c.i == RingOf(n, c) + 2
    ensures Entered(n, c) == North
    ensures Blocked(n, c, Ahead(c, North)) && GoesOn(n, c, Ahead(c, East), East)
  {
    OnSameRing(n, c, Ahead(c, North));
    OutsideStep(n, RingOf(n, c));
    assert RingOf(n, Ahead(c, East)) == RingOf(n, c) + 1;
  }

  /** In the direction of travel the next cell has the next value; where it does not, it is
      off the matrix or has a smaller value, and the cell to the right has the next value. */
  lemma NextCell(n: int, c: Cell)
    requires n >= 2 && Inside(n, c) && BySide(n, c) < n * n
    ensures var h := Entered(n, c);
            || GoesOn(n, c, Ahead(c, h), h)
            || (Blocked(n, c, Ahead(c, h)) && GoesOn(n, c, Ahead(c, RightOf(h)), RightOf(h)))
  {
    if IsCentre(n, c) {
      CentreIsLast(n, c);
    } else if c.j == RingOf(n, c) + 1 && c.i == RingOf(n, c) + 2 {
      NextRing(n, c);
    } else {
      NextOnRing(n, c);
    }
  }

  // ---------- the main theorem ----------

  /** The walk never gets stuck, and the cell reached after k steps has value k + 1. */
  lemma {:induction false} WalkFollowsFormula(n: int, k: nat)
    requires n >= 2 && k < n * n
    ensures var w := WalkFor(n, k);
            && (forall t :: 0 <= t <= k ==> Inside(n, w.path[t]) && BySide(n, w.path[t]) == t + 1)
            && w.heading == Entered(n, w.path[k])
  {
    if k > 0 {
      WalkFollowsFormula(n, k - 1);
      var w := WalkFor(n, k - 1);
      var here := w.path[k - 1];
      NextCell(n, here);
      var straight := Ahead(here, w.heading);
      if Inside(n, straight) {
        VisitedIsSmaller(n, w.path, straight);
      }
    }
  }

  lemma VisitedIsSmaller(n: int, path: seq<Cell>, c: Cell)
    requires n >= 2 && Inside(n, c)
    requires forall t :: 0 <= t < |path| ==> Inside(n, path[t]) && BySide(n, path[t]) == t + 1
    ensures c in path <==> BySide(n, c) <= |path|
  {
    BySideRange(n, c);
    var v := BySide(n, c);
    if v <= |path| {
      BySideInjective(n, c, path[v - 1]);
    }
  }

  /** The cell that carries value v. */
  function CellWith(n: int, v: int): Cell
    requires 1 <= v
  {
    WalkFor(n, v - 1).path[v - 1]
  }

  /** The formula numbers the N by N cells 1 to N*N, each once, along the walk. */
  lemma FormulaIsTheWalk(n: int, v: int)
    requires n >= 2 && 1 <= v <= n * n
    ensures Inside(n, CellWith(n, v))
    ensures forall c :: Inside(n, c) ==> (Formula(n, c.i, c.j) == v <==> c == CellWith(n, v))
  {
    WalkFollowsFormula(n, v - 1);
    forall c | Inside(n, c) ensures Formula(n, c.i, c.j) == v <==> c == CellWith(n, v) {
      FormulaIsBySide(n, c);
      FormulaIsBySide(n, CellWith(n, v));
      if Formula(n, c.i, c.j) == v {
        BySideInjective(n, c, CellWith(n, v));
      }
    }
  }

  lemma FormulaInRange(n: int, c: Cell)
    requires n >= 2 && Inside(n, c)
    ensures 1 <= Formula(n, c.i, c.j) <= n * n
    ensures c == CellWith(n, Formula(n, c.i, c.j))
  {
    FormulaIsBySide(n, c);
    BySideRange(n, c);
    FormulaIsTheWalk(n, Formula(n, c.i, c.j));
  }

  predicate Adjacent(c: Cell, d: Cell) {
    MyAbs(c.i - d.i) + MyAbs(c.j - d.j) == 1
  }

  /** A later walk extends an earlier one. */
  lemma {:induction false} WalkPrefix(n: int, k: nat, l: nat)
    requires k <= l
    ensures WalkFor(n, k).path == WalkFor(n, l).path[..k + 1]
    decreases l
  {
    if k < l {
      WalkPrefix(n, k, l - 1);
    }
  }

  /** Consecutive cells of the walk are neighbours. */
  lemma WalkIsConnected(n: int, v: int)
    requires n >= 2 && 1 <= v < n * n
    ensures Adjacent(CellWith(n, v), CellWith(n, v + 1))
  {
    WalkPrefix(n, v - 1, v);
  }

  lemma OneIsTopLeft(n: int)
    requires n >= 2
    ensures Formula(n, 1, 1) == 1
  {
    FormulaIsTheWalk(n, 1);
    assert Inside(n, Cell(1, 1)) && CellWith(n, 1) == Cell(1, 1);
  }

  lemma CellOfValue(n: int, c: Cell, v: int)
    requires n >= 2 && Inside(n, c) && Formula(n, c.i, c.j) == v
    ensures 1 <= v <= n * n && c == CellWith(n, v)
  {
    FormulaInRange(n, c);
  }

  /** Cells with consecutive values are neighbours, across rings too. */
  lemma NeighboursFollow(n: int, c: Cell, d: Cell, v: int)
    requires n >= 2 && Inside(n, c) && Inside(n, d)
    requires Formula(n, c.i, c.j) == v && Formula(n, d.i, d.j) == v + 1
    ensures Adjacent(c, d)
  {
    CellOfValue(n, c, v);
    CellOfValue(n, d, v + 1);
    WalkIsConnected(n, v);
  }

  // ---------- the program ----------

  /** The body of the inner loop. */
  method CellValue(n: int, ik: int, jk: int) returns (v: int)
    requires n >= 2
    ensures v == Formula(n, ik + 1, jk + 1)
  {
    var i := ik + 1;
    var j := jk + 1;
    var switcher := (j - i + n) / n;
    var ic := MyAbs(i - n / 2 - 1) + (i - 1) / (n / 2) * ((n - 1) % 2);
    var jc := MyAbs(j - n / 2 - 1) + (j - 1) / (n / 2) * ((n - 1) % 2);
    var ring := n / 2 - (MyAbs(ic - jc) + ic + jc) / 2;
    var xs := i - ring + j - ring - 1;
    var coef := 4 * ring * (n - ring);
    v := coef + switcher * xs + MyAbs(switcher - 1) * (4 * (n - 2 * ring) - 2 - xs);
  }

  /** Fills a matrix by the formula.  Indices are 0-based here, as in the program. */
  method SnailMatrix(n: int) returns (matrix: array2<int>)
    requires n >= 2
    ensures matrix.Length0 == n && matrix.Length1 == n
    ensures forall i, j :: 0 <= i < n && 0 <= j < n ==>
              1 <= matrix[i, j] <= n * n && CellWith(n, matrix[i, j]) == Cell(i + 1, j + 1)
    ensures forall v {:trigger CellWith(n, v)} :: 1 <= v <= n * n ==>
              var c := CellWith(n, v);
              Inside(n, c) && matrix[c.i - 1, c.j - 1] == v
  {
    matrix := new int[n, n];
    for i := 0 to n {
      for j := 0 to n {
        matrix[i, j] := 0;
      }
    }
    for ik := 0 to n
      invariant forall i, j :: 0 <= i < ik && 0 <= j < n ==> matrix[i, j] == Formula(n, i + 1, j + 1)
    {
      for jk := 0 to n
        invariant forall i, j :: 0 <= i < ik && 0 <= j < n ==> matrix[i, j] == Formula(n, i + 1, j + 1)
        invariant forall j :: 0 <= j < jk ==> matrix[ik, j] == Formula(n, ik + 1, j + 1)
      {
        matrix[ik, jk] := CellValue(n, ik, jk);
      }
    }
    forall i, j | 0 <= i < n && 0 <= j < n
      ensures 1 <= matrix[i, j] <= n * n && CellWith(n, matrix[i, j]) == Cell(i + 1, j + 1)
    {
      FormulaInRange(n, Cell(i + 1, j + 1));
    }
    forall v | 1 <= v <= n * n
      ensures Inside(n, CellWith(n, v))
      ensures matrix[CellWith(n, v).i - 1, CellWith(n, v).j - 1] == v
    {
      FormulaIsTheWalk(n, v);
      var c := CellWith(n, v);
      assert Formula(n, c.i, c.j) == v;
    }
  }
}
