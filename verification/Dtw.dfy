/** Dynamic time warping: the table-filling program and its traceback, against the least cost over all
    warping paths. The library power function is a parameter. */
module DynamicTimeWarping {
  import opened Geometry
  import opened Wrappers

  type Vec = seq<real>
  type Power = (real, real) -> real
  type Cost = (nat, nat) -> real

  // ----- point distance

  function PowerSum(a: Vec, b: Vec, p: real, pow: Power, n: nat): real
    requires n <= |a| && n <= |b|
  {
    if n == 0 then 0.0 else PowerSum(a, b, p, pow, n - 1) + pow(Abs(a[n - 1] - b[n - 1]), p)
  }

  /** The norm is taken over as many coordinates as the first point has. */
  function PNorm(a: Vec, b: Vec, p: real, pow: Power): real
    requires |a| <= |b| && p != 0.0
  {
    pow(PowerSum(a, b, p, pow, |a|), 1.0 / p)
  }

  method ComputePNorm(a: Vec, b: Vec, p: real, pow: Power) returns (d: real)
    requires |a| <= |b| && p != 0.0
    ensures d == PNorm(a, b, p, pow)
  {
    d := 0.0;
    for i := 0 to |a|
      invariant d == PowerSum(a, b, p, pow, i)
    {
      d := d + pow(Abs(a[i] - b[i]), p);
    }
    d := pow(d, 1.0 / p);
  }

  // ----- what the norm is

  /** Raising `v` to `p` and then to `q` gives `v` again. */
  ghost predicate Undone(pow: Power, p: real, q: real, v: real) {
    pow(v, p) >= 0.0 && pow(pow(v, p), q) == v
  }

  ghost predicate AllUndone(pow: Power, p: real, q: real) {
    forall v: real :: v >= 0.0 ==> Undone(pow, p, q, v)
  }

  /** Powers with exponents `p` and 1/p undo each other on the numbers that are not negative. */
  ghost predicate Inverts(pow: Power, p: real)
    requires p != 0.0
  {
    AllUndone(pow, p, 1.0 / p) && AllUndone(pow, 1.0 / p, p)
  }

  /** The second power is the square. */
  ghost predicate Squares(pow: Power) {
    Inverts(pow, 2.0) && forall v: real :: v >= 0.0 ==> pow(v, 2.0) == Sq(v)
  }

  /** The first power is the number itself. */
  ghost predicate Keeps(pow: Power) {
    forall v: real :: v >= 0.0 ==> pow(v, 1.0) == v
  }

  ghost function SquaredDifferences(a: Vec, b: Vec, n: nat): (r: real)
    requires n <= |a| && n <= |b|
    ensures r >= 0.0
  {
    if n == 0 then 0.0 else SquaredDifferences(a, b, n - 1) + Sq(a[n - 1] - b[n - 1])
  }

  ghost function Differences(a: Vec, b: Vec, n: nat): real
    requires n <= |a| && n <= |b|
  {
    if n == 0 then 0.0 else Differences(a, b, n - 1) + Abs(a[n - 1] - b[n - 1])
  }

  lemma {:induction false} PowerSumNonneg(a: Vec, b: Vec, p: real, pow: Power, n: nat)
    requires n <= |a| && n <= |b| && p != 0.0 && Inverts(pow, p)
    ensures PowerSum(a, b, p, pow, n) >= 0.0
  {
    if n > 0 {
      PowerSumNonneg(a, b, p, pow, n - 1);
      assert Undone(pow, p, 1.0 / p, Abs(a[n - 1] - b[n - 1]));
    }
  }

  /** The norm is the number whose `p`-th power is the sum of the powers; in one dimension it is the distance,
      whatever `p` is. */
  lemma NormIsRoot(a: Vec, b: Vec, p: real, pow: Power)
    requires |a| <= |b| && p != 0.0 && Inverts(pow, p)
    ensures PNorm(a, b, p, pow) >= 0.0 && pow(PNorm(a, b, p, pow), p) == PowerSum(a, b, p, pow, |a|)
    ensures |a| == 1 ==> PNorm(a, b, p, pow) == Abs(a[0] - b[0])
  {
    PowerSumNonneg(a, b, p, pow, |a|);
    assert Undone(pow, 1.0 / p, p, PowerSum(a, b, p, pow, |a|));
    if |a| == 1 {
      assert PowerSum(a, b, p, pow, 1) == PowerSum(a, b, p, pow, 0) + pow(Abs(a[0] - b[0]), p);
      assert Undone(pow, p, 1.0 / p, Abs(a[0] - b[0]));
    }
  }

  lemma {:induction false} PowersAreSquares(a: Vec, b: Vec, pow: Power, n: nat)
    requires n <= |a| && n <= |b| && Squares(pow)
    ensures PowerSum(a, b, 2.0, pow, n) == SquaredDifferences(a, b, n)
  {
    if n > 0 {
      PowersAreSquares(a, b, pow, n - 1);
      var d := a[n - 1] - b[n - 1];
      assert Sq(Abs(d)) == Sq(d);
    }
  }

  /** For p = 2 the norm is the Euclidean distance: the nonnegative root of the sum of the squared differences. */
  lemma NormIsEuclidean(a: Vec, b: Vec, pow: Power)
    requires |a| <= |b| && Squares(pow)
    ensures var d := PNorm(a, b, 2.0, pow); d >= 0.0 && Sq(d) == SquaredDifferences(a, b, |a|)
    ensures |a| == 2 ==> Sq(PNorm(a, b, 2.0, pow)) == Sq(a[0] - b[0]) + Sq(a[1] - b[1])
  {
    NormIsRoot(a, b, 2.0, pow);
    PowersAreSquares(a, b, pow, |a|);
    hide Sq;
    if |a| == 2 {
      assert SquaredDifferences(a, b, 0) == 0.0;
      assert SquaredDifferences(a, b, 1) == Sq(a[0] - b[0]);
      assert SquaredDifferences(a, b, 2) == Sq(a[0] - b[0]) + Sq(a[1] - b[1]);
    }
  }

  /** For p = 1 it is the sum of the differences. */
  lemma NormIsManhattan(a: Vec, b: Vec, pow: Power)
    requires |a| <= |b| && Keeps(pow)
    ensures PNorm(a, b, 1.0, pow) == Differences(a, b, |a|)
  {
    PowersAreDifferences(a, b, pow, |a|);
  }

  lemma {:induction false} PowersAreDifferences(a: Vec, b: Vec, pow: Power, n: nat)
    requires n <= |a| && n <= |b| && Keeps(pow)
    ensures PowerSum(a, b, 1.0, pow, n) == Differences(a, b, n) >= 0.0
  {
    if n > 0 { PowersAreDifferences(a, b, pow, n - 1); }
  }

  /** Only equal points have distance zero. */
  lemma NormSeparates(a: Vec, b: Vec, pow: Power)
    requires |a| == |b| && Squares(pow)
    ensures PNorm(a, b, 2.0, pow) == 0.0 <==> a == b
  {
    NormIsEuclidean(a, b, pow);
    var d := PNorm(a, b, 2.0, pow);
    hide PNorm;
    DiffPos(d);
    ZeroDifferences(a, b, |a|);
  }

  lemma {:induction false} ZeroDifferences(a: Vec, b: Vec, n: nat)
    requires n <= |a| && n <= |b|
    ensures SquaredDifferences(a, b, n) == 0.0 <==> a[..n] == b[..n]
  {
    if n > 0 {
      var d := a[n - 1] - b[n - 1];
      ZeroDifferences(a, b, n - 1);
      DiffPos(d);
      hide Sq;
      assert a[..n] == a[..n - 1] + [a[n - 1]] && b[..n] == b[..n - 1] + [b[n - 1]];
    }
  }

  /** The detour over a third point is never shorter. */
  lemma NormTriangle(a: Vec, b: Vec, c: Vec, pow: Power)
    requires |a| == |b| == |c| && Squares(pow)
    ensures PNorm(a, c, 2.0, pow) <= PNorm(a, b, 2.0, pow) + PNorm(b, c, 2.0, pow)
  {
    var ab, bc, ac := PNorm(a, b, 2.0, pow), PNorm(b, c, 2.0, pow), PNorm(a, c, 2.0, pow);
    NormIsEuclidean(a, b, pow);
    NormIsEuclidean(b, c, pow);
    NormIsEuclidean(a, c, pow);
    hide PNorm, Sq;
    Minkowski(a, b, c, pow, |a|, ab, bc);
    SquareLe(ac, ab + bc);
  }

  lemma {:induction false} Minkowski(a: Vec, b: Vec, c: Vec, pow: Power, n: nat, ab: real, bc: real)
    requires n <= |a| == |b| == |c| && Squares(pow) && ab >= 0.0 && bc >= 0.0
    requires Sq(ab) == SquaredDifferences(a, b, n) && Sq(bc) == SquaredDifferences(b, c, n)
    ensures SquaredDifferences(a, c, n) <= Sq(ab + bc)
  {
    if n > 0 {
      var s, t := SquaredDifferences(a, b, n - 1), SquaredDifferences(b, c, n - 1);
      var u := RootOf(pow, s);
      var v := RootOf(pow, t);
      Minkowski(a, b, c, pow, n - 1, u, v);
      var x, y := a[n - 1] - b[n - 1], b[n - 1] - c[n - 1];
      hide Sq;
      VectorSum(u, x, v, y, ab, bc);
    }
  }

  lemma RootOf(pow: Power, s: real) returns (d: real)
    requires Squares(pow) && s >= 0.0
    ensures d >= 0.0 && Sq(d) == s
  {
    assert Undone(pow, 1.0 / 2.0, 2.0, s);
    d := pow(s, 1.0 / 2.0);
  }

  // ----- the recurrence

  function Least3(x: real, y: real, z: real): real { Min(Min(x, y), z) }

  /** The table entry at (i, j) when the corner holds `start`. */
  function Best(c: Cost, start: real, i: nat, j: nat): real
    decreases i + j
  {
    if i == 0 && j == 0 then start
    else if j == 0 then Best(c, start, i - 1, 0) + c(i, 0)
    else if i == 0 then Best(c, start, 0, j - 1) + c(0, j)
    else c(i, j) + Least3(Best(c, start, i - 1, j), Best(c, start, i, j - 1), Best(c, start, i - 1, j - 1))
  }

  // ----- warping paths

  datatype Cell = Cell(i: nat, j: nat)

  ghost predicate Step(u: Cell, v: Cell) {
    || (v.i == u.i + 1 && v.j == u.j)
    || (v.i == u.i && v.j == u.j + 1)
    || (v.i == u.i + 1 && v.j == u.j + 1)
  }

  /** A monotone path through neighbouring cells. */
  ghost predicate Warps(path: seq<Cell>, from: Cell, to: Cell) {
    && path != [] && path[0] == from && path[|path| - 1] == to
    && forall k :: 0 < k < |path| ==> Step(path[k - 1], path[k])
  }

  ghost function PathCost(c: Cost, path: seq<Cell>): real {
    if path == [] then 0.0 else c(path[0].i, path[0].j) + PathCost(c, path[1..])
  }

  lemma {:induction false} PathCostLast(c: Cost, path: seq<Cell>, last: Cell)
    ensures PathCost(c, path + [last]) == PathCost(c, path) + c(last.i, last.j)
  {
    if path == [] {
      assert (path + [last])[1..] == [];
    } else {
      PathCostLast(c, path[1..], last);
      assert (path + [last])[1..] == path[1..] + [last];
    }
  }

  /** A path only moves away from its start. */
  lemma {:induction false} WarpsForward(path: seq<Cell>, from: Cell, to: Cell)
    requires Warps(path, from, to)
    ensures from.i <= to.i && from.j <= to.j && (from == to ==> |path| == 1)
  {
    if |path| > 1 {
      WarpsForward(path[..|path| - 1], from, path[|path| - 2]);
      assert Step(path[|path| - 2], path[|path| - 1]);
    }
  }

  /** No warping path is cheaper than the table entry. */
  lemma {:induction false} BestIsLower(c: Cost, start: real, path: seq<Cell>, i: nat, j: nat)
    requires Warps(path, Cell(0, 0), Cell(i, j))
    ensures Best(c, start, i, j) - start + c(0, 0) <= PathCost(c, path)
    decreases |path|
  {
    var n := |path| - 1;
    var rest := path[..n];
    assert path == rest + [path[n]];
    PathCostLast(c, rest, path[n]);
    if n > 0 {
      var u := path[n - 1];
      assert Step(u, path[n]);
      BestIsLower(c, start, rest, u.i, u.j);
      WarpsForward(rest, Cell(0, 0), u);
    }
  }

  // ----- the two programs' cost tables

  /** Rows of points with one number of dimensions. */
  ghost predicate Points(a: seq<Vec>) {
    a != [] && forall i :: 0 <= i < |a| ==> |a[i]| == |a[0]|
  }

  function CellCost(a: seq<Vec>, b: seq<Vec>, p: real, pow: Power, i: nat, j: nat): real
    requires p != 0.0
  {
    if i < |a| && j < |b| && |a[i]| <= |b[j]| then PNorm(a[i], b[j], p, pow) else 0.0
  }

  function CostOf(a: seq<Vec>, b: seq<Vec>, p: real, pow: Power): Cost
    requires p != 0.0
  {
    (i: nat, j: nat) => CellCost(a, b, p, pow, i, j)
  }

  function Distance(a: seq<Vec>, b: seq<Vec>, p: real, pow: Power): real
    requires a != [] && b != [] && p != 0.0
  {
    Best(CostOf(a, b, p, pow), CellCost(a, b, p, pow, 0, 0), |a| - 1, |b| - 1)
  }

  /** Curves of one point each are as far apart as the points. */
  lemma DistanceOfPoints(u: Vec, v: Vec, pow: Power)
    requires |u| == |v| && Squares(pow)
    ensures var d := Distance([u], [v], 2.0, pow);
            d >= 0.0 && Sq(d) == SquaredDifferences(u, v, |u|) && (d == 0.0 <==> u == v)
  {
    NormIsEuclidean(u, v, pow);
    NormSeparates(u, v, pow);
  }

  /** The distance is no more than the cost of any alignment of the two curves. */
  lemma DistanceIsLower(a: seq<Vec>, b: seq<Vec>, p: real, pow: Power, path: seq<Cell>)
    requires a != [] && b != [] && p != 0.0 && Warps(path, Cell(0, 0), Cell(|a| - 1, |b| - 1))
    ensures Distance(a, b, p, pow) <= PathCost(CostOf(a, b, p, pow), path)
  {
    BestIsLower(CostOf(a, b, p, pow), CellCost(a, b, p, pow, 0, 0), path, |a| - 1, |b| - 1);
  }

  lemma {:induction false} PowerSumSymmetric(a: Vec, b: Vec, p: real, pow: Power, n: nat)
    requires n <= |a| && n <= |b|
    ensures PowerSum(a, b, p, pow, n) == PowerSum(b, a, p, pow, n)
  {
    if n > 0 {
      PowerSumSymmetric(a, b, p, pow, n - 1);
      assert Abs(a[n - 1] - b[n - 1]) == Abs(b[n - 1] - a[n - 1]);
    }
  }

  lemma PNormSymmetric(a: Vec, b: Vec, p: real, pow: Power)
    requires |a| == |b| && p != 0.0
    ensures PNorm(a, b, p, pow) == PNorm(b, a, p, pow)
  {
    PowerSumSymmetric(a, b, p, pow, |a|);
  }

  lemma {:induction false} BestSymmetric(c: Cost, c': Cost, start: real, i: nat, j: nat)
    requires forall k: nat, l: nat :: c(k, l) == c'(l, k)
    ensures Best(c, start, i, j) == Best(c', start, j, i)
    decreases i + j
  {
    if i > 0 { BestSymmetric(c, c', start, i - 1, j); }
    if j > 0 { BestSymmetric(c, c', start, i, j - 1); }
    if i > 0 && j > 0 { BestSymmetric(c, c', start, i - 1, j - 1); }
  }

  /** Swapping the curves does not change the distance. */
  lemma DistanceSymmetric(a: seq<Vec>, b: seq<Vec>, p: real, pow: Power)
    requires Points(a) && Points(b) && |a[0]| == |b[0]| && p != 0.0
    ensures Distance(a, b, p, pow) == Distance(b, a, p, pow)
  {
    var c, c' := CostOf(a, b, p, pow), CostOf(b, a, p, pow);
    hide PNorm, Best;
    forall k: nat, l: nat
      ensures c(k, l) == c'(l, k)
    {
      if k < |a| && l < |b| { PNormSymmetric(a[k], b[l], p, pow); }
    }
    assert c(0, 0) == c'(0, 0);
    BestSymmetric(c, c', c(0, 0), |a| - 1, |b| - 1);
  }

  // ----- filling the table

  ghost predicate FirstColumn(d: array2<real>, c: Cost, start: real, n: nat)
    requires n <= d.Length0 && 0 < d.Length1
    reads d
  {
    forall i :: 0 <= i < n ==> d[i, 0] == Best(c, start, i, 0)
  }

  ghost predicate FirstRow(d: array2<real>, c: Cost, start: real, n: nat)
    requires n <= d.Length1 && 0 < d.Length0
    reads d
  {
    forall j :: 0 <= j < n ==> d[0, j] == Best(c, start, 0, j)
  }

  ghost predicate Rows(d: array2<real>, c: Cost, start: real, n: nat)
    requires n <= d.Length0
    reads d
  {
    forall i, j :: 0 <= i < n && 0 <= j < d.Length1 ==> d[i, j] == Best(c, start, i, j)
  }

  lemma BestEdges(c: Cost, start: real, k: nat)
    ensures Best(c, start, 0, 0) == start
    ensures k > 0 ==> Best(c, start, k, 0) == Best(c, start, k - 1, 0) + c(k, 0)
    ensures k > 0 ==> Best(c, start, 0, k) == Best(c, start, 0, k - 1) + c(0, k)
  {
  }

  lemma BestInside(c: Cost, start: real, i: nat, j: nat)
    requires i > 0 && j > 0
    ensures Best(c, start, i, j) == c(i, j) + Least3(Best(c, start, i - 1, j), Best(c, start, i, j - 1),
                                                     Best(c, start, i - 1, j - 1))
  {
  }

  ghost predicate Row(d: array2<real>, c: Cost, start: real, i: nat, n: nat)
    requires i < d.Length0 && n <= d.Length1
    reads d
  {
    forall j :: 0 <= j < n ==> d[i, j] == Best(c, start, i, j)
  }

  /** Fills the table from its corner, from the pairwise distances. */
  method VectorAssemble(d: array2<real>, c: array2<real>, ghost cost: Cost)
    requires d != c && d.Length0 == c.Length0 >= 1 && d.Length1 == c.Length1 >= 1
    requires forall i, j :: 0 <= i < c.Length0 && 0 <= j < c.Length1 ==> c[i, j] == cost(i, j)
    modifies d
    ensures Rows(d, cost, old(d[0, 0]), d.Length0)
  {
    ghost var start := d[0, 0];
    hide Best, Least3;
    BestEdges(cost, start, 0);
    for i := 1 to d.Length0
      invariant FirstColumn(d, cost, start, i)
    {
      BestEdges(cost, start, i);
      d[i, 0] := d[i - 1, 0] + c[i, 0];
    }
    for j := 1 to d.Length1
      invariant FirstColumn(d, cost, start, d.Length0) && FirstRow(d, cost, start, j)
    {
      BestEdges(cost, start, j);
      d[0, j] := d[0, j - 1] + c[0, j];
    }
    assert Rows(d, cost, start, 1);
    hide FirstRow;
    for i := 1 to d.Length0
      invariant FirstColumn(d, cost, start, d.Length0) && Rows(d, cost, start, i)
    {
      AssembleRow(d, c, i, cost, start);
    }
  }

  method AssembleRow(d: array2<real>, c: array2<real>, i: nat, ghost cost: Cost, ghost start: real)
    requires d != c && d.Length0 == c.Length0 && d.Length1 == c.Length1 >= 1 && 1 <= i < d.Length0
    requires forall j :: 0 <= j < c.Length1 ==> c[i, j] == cost(i, j)
    requires FirstColumn(d, cost, start, d.Length0) && Rows(d, cost, start, i)
    modifies d
    ensures FirstColumn(d, cost, start, d.Length0) && Rows(d, cost, start, i + 1)
  {
    hide Best, Least3;
    for j := 1 to d.Length1
      invariant FirstColumn(d, cost, start, d.Length0) && Rows(d, cost, start, i) && Row(d, cost, start, i, j)
    {
      BestInside(cost, start, i, j);
      d[i, j] := c[i, j] + Least3(d[i - 1, j], d[i, j - 1], d[i - 1, j - 1]);
    }
  }

  method CellNorm(a: seq<Vec>, b: seq<Vec>, p: real, pow: Power, i: nat, j: nat, ghost cost: Cost) returns (e: real)
    requires Points(a) && Points(b) && |a[0]| == |b[0]| && p != 0.0 && i < |a| && j < |b|
    requires cost == CostOf(a, b, p, pow)
    ensures e == cost(i, j)
  {
    e := ComputePNorm(a[i], b[j], p, pow);
  }

  /** The distance alone, without keeping the pairwise distances. Refused when the dimensions differ. */
  method DistanceOnly(a: seq<Vec>, b: seq<Vec>, p: real, pow: Power) returns (r: Option<real>)
    requires Points(a) && Points(b) && p != 0.0
    ensures r == if |a[0]| == |b[0]| then Some(Distance(a, b, p, pow)) else None
  {
    if |a[0]| != |b[0]| {
      return None;
    }
    ghost var cost, start := CostOf(a, b, p, pow), CellCost(a, b, p, pow, 0, 0);
    assert start == cost(0, 0);
    hide Best, Least3, PNorm, CostOf;
    var d := new real[|a|, |b|];
    DistanceEdges(d, a, b, p, pow, cost, start);
    for i := 1 to |a|
      invariant FirstColumn(d, cost, start, |a|) && Rows(d, cost, start, i)
    {
      DistanceRow(d, a, b, p, pow, i, cost, start);
    }
    return Some(d[|a| - 1, |b| - 1]);
  }

  /** The first column and the first row. */
  method DistanceEdges(d: array2<real>, a: seq<Vec>, b: seq<Vec>, p: real, pow: Power, ghost cost: Cost,
                       ghost start: real)
    requires Points(a) && Points(b) && |a[0]| == |b[0]| && p != 0.0 && cost == CostOf(a, b, p, pow)
             && start == cost(0, 0)
    requires d.Length0 == |a| && d.Length1 == |b|
    modifies d
    ensures FirstColumn(d, cost, start, |a|) && Rows(d, cost, start, 1)
  {
    hide Best, PNorm, CostOf;
    d[0, 0] := CellNorm(a, b, p, pow, 0, 0, cost);
    BestEdges(cost, start, 0);
    for i := 1 to |a|
      invariant FirstColumn(d, cost, start, i)
    {
      var e := CellNorm(a, b, p, pow, i, 0, cost);
      BestEdges(cost, start, i);
      d[i, 0] := d[i - 1, 0] + e;
    }
    for j := 1 to |b|
      invariant FirstColumn(d, cost, start, |a|) && FirstRow(d, cost, start, j)
    {
      var e := CellNorm(a, b, p, pow, 0, j, cost);
      BestEdges(cost, start, j);
      d[0, j] := d[0, j - 1] + e;
    }
  }

  method DistanceRow(d: array2<real>, a: seq<Vec>, b: seq<Vec>, p: real, pow: Power, i: nat, ghost cost: Cost,
                     ghost start: real)
    requires Points(a) && Points(b) && |a[0]| == |b[0]| && p != 0.0 && cost == CostOf(a, b, p, pow)
    requires d.Length0 == |a| && d.Length1 == |b| && 1 <= i < |a|
    requires FirstColumn(d, cost, start, |a|) && Rows(d, cost, start, i)
    modifies d
    ensures FirstColumn(d, cost, start, |a|) && Rows(d, cost, start, i + 1)
  {
    assert |b| >= 1;
    hide Best, Least3, PNorm, CostOf, Points;
    for j := 1 to |b|
      invariant FirstColumn(d, cost, start, |a|) && Rows(d, cost, start, i) && Row(d, cost, start, i, j)
    {
      DistanceCell(d, a, b, p, pow, i, j, cost, start);
    }
  }

  method DistanceCell(d: array2<real>, a: seq<Vec>, b: seq<Vec>, p: real, pow: Power, i: nat, j: nat,
                      ghost cost: Cost, ghost start: real)
    requires Points(a) && Points(b) && |a[0]| == |b[0]| && p != 0.0 && cost == CostOf(a, b, p, pow)
    requires d.Length0 == |a| && d.Length1 == |b| && 1 <= i < |a| && 1 <= j < |b|
    requires FirstColumn(d, cost, start, |a|) && Rows(d, cost, start, i) && Row(d, cost, start, i, j)
    modifies d
    ensures FirstColumn(d, cost, start, |a|) && Rows(d, cost, start, i) && Row(d, cost, start, i, j + 1)
  {
    hide Best, Least3, PNorm, CostOf;
    var e := CellNorm(a, b, p, pow, i, j, cost);
    BestInside(cost, start, i, j);
    d[i, j] := e + Least3(d[i - 1, j], d[i, j - 1], d[i - 1, j - 1]);
  }

  lemma CostIs(a: seq<Vec>, b: seq<Vec>, p: real, pow: Power)
    requires Points(a) && Points(b) && |a[0]| == |b[0]| && p != 0.0
    ensures forall i, j :: 0 <= i < |a| && 0 <= j < |b| ==> CostOf(a, b, p, pow)(i, j) == PNorm(a[i], b[j], p, pow)
  {
  }

  method PairwiseNorms(a: seq<Vec>, b: seq<Vec>, p: real, pow: Power) returns (c: array2<real>)
    requires Points(a) && Points(b) && |a[0]| == |b[0]| && p != 0.0
    ensures fresh(c) && c.Length0 == |a| && c.Length1 == |b|
    ensures forall k, l :: 0 <= k < |a| && 0 <= l < |b| ==> c[k, l] == PNorm(a[k], b[l], p, pow)
  {
    hide PNorm;
    c := new real[|a|, |b|];
    for i := 0 to |a|
      invariant forall k, l :: 0 <= k < i && 0 <= l < |b| ==> c[k, l] == PNorm(a[k], b[l], p, pow)
    {
      for j := 0 to |b|
        invariant forall k, l :: 0 <= k < i && 0 <= l < |b| ==> c[k, l] == PNorm(a[k], b[l], p, pow)
        invariant forall l :: 0 <= l < j ==> c[i, l] == PNorm(a[i], b[l], p, pow)
      {
        c[i, j] := ComputePNorm(a[i], b[j], p, pow);
      }
    }
  }

  function Reversed(s: seq<Cell>): seq<Cell> {
    if s == [] then [] else [s[|s| - 1]] + Reversed(s[..|s| - 1])
  }

  lemma ReversedGrows(s: seq<Cell>, last: Cell)
    ensures Reversed(s + [last]) == [last] + Reversed(s)
  {
    assert (s + [last])[..|s|] == s;
  }

  /** `u` is where the traceback goes from `v`: to the cheapest neighbour before it, of several the one above, or else
      the left one. */
  ghost predicate Traced(c: Cost, start: real, u: Cell, v: Cell) {
    if v.i == 0 then u.i == 0 && u.j == v.j - 1
    else if v.j == 0 then u.i == v.i - 1 && u.j == 0
    else
      var above, left, diagonal :=
        Best(c, start, v.i - 1, v.j), Best(c, start, v.i, v.j - 1), Best(c, start, v.i - 1, v.j - 1);
      || (u == Cell(v.i - 1, v.j) && above <= left && above <= diagonal)
      || (u == Cell(v.i, v.j - 1) && left < above && left <= diagonal)
      || (u == Cell(v.i - 1, v.j - 1) && diagonal < above && diagonal < left)
  }

  ghost predicate AllTraced(c: Cost, start: real, path: seq<Cell>) {
    forall k :: 0 < k < |path| ==> Traced(c, start, path[k - 1], path[k])
  }

  /** What is left of an optimal alignment, seen from the cell the traceback has come to. */
  ghost predicate Remainder(c: Cost, start: real, path: seq<Cell>, at: Cell, to: Cell) {
    && Warps(path, at, to) && AllTraced(c, start, path)
    && Best(c, start, at.i, at.j) - c(at.i, at.j) + PathCost(c, path) == Best(c, start, to.i, to.j)
  }

  lemma RemainderStart(c: Cost, start: real, to: Cell)
    ensures Remainder(c, start, [to], to, to) && Reversed([to]) == [to]
  {
    assert [to][1..] == [] && [to][..0] == [];
  }

  lemma RemainderGrows(c: Cost, start: real, path: seq<Cell>, at: Cell, before: Cell, to: Cell)
    requires Remainder(c, start, path, at, to) && Step(before, at) && Traced(c, start, before, at)
    requires Best(c, start, at.i, at.j) == Best(c, start, before.i, before.j) + c(at.i, at.j)
    ensures Remainder(c, start, [before] + path, before, to)
  {
    var longer := [before] + path;
    assert longer[1..] == path;
    hide Step, Traced, Best;
    forall k | 0 < k < |longer|
      ensures Step(longer[k - 1], longer[k]) && Traced(c, start, longer[k - 1], longer[k])
    {
      if k > 1 { assert longer[k - 1] == path[k - 2] && longer[k] == path[k - 1]; }
    }
  }

  lemma RemainderWhole(c: Cost, start: real, path: seq<Cell>, to: Cell)
    requires Remainder(c, start, path, Cell(0, 0), to) && start == c(0, 0)
    ensures Warps(path, Cell(0, 0), to) && AllTraced(c, start, path)
    ensures PathCost(c, path) == Best(c, start, to.i, to.j)
  {
  }

  class DTW {
    const a: seq<Vec>
    const b: seq<Vec>
    const p: real
    const pow: Power
    var distance: real
    var table: array2<real>
    var pairwise: array2<real>

    ghost predicate Valid()
      reads this, table, pairwise
    {
      && Points(a) && Points(b) && |a[0]| == |b[0]| && p != 0.0
      && pairwise.Length0 == table.Length0 == |a| && pairwise.Length1 == table.Length1 == |b|
      && (forall i, j :: 0 <= i < |a| && 0 <= j < |b| ==> pairwise[i, j] == PNorm(a[i], b[j], p, pow))
      && Rows(table, CostOf(a, b, p, pow), CellCost(a, b, p, pow, 0, 0), |a|)
      && distance == Distance(a, b, p, pow)
    }

    constructor (a: seq<Vec>, b: seq<Vec>, p: real, pow: Power)
      requires Points(a) && Points(b) && |a[0]| == |b[0]| && p != 0.0
      ensures Valid() && this.a == a && this.b == b && this.p == p && this.pow == pow
    {
      this.a, this.b, this.p, this.pow := a, b, p, pow;
      CostIs(a, b, p, pow);
      hide Best, PNorm, CostOf;
      var c := PairwiseNorms(a, b, p, pow);
      var d := new real[|a|, |b|];
      d[0, 0] := c[0, 0];
      VectorAssemble(d, c, CostOf(a, b, p, pow));
      pairwise, table, distance := c, d, d[|a| - 1, |b| - 1];
    }

    /** The optimal alignment, by walking back from the last cell. */
    method Path() returns (path: seq<Cell>)
      requires Valid()
      ensures Warps(path, Cell(0, 0), Cell(|a| - 1, |b| - 1))
      ensures PathCost(CostOf(a, b, p, pow), path) == distance
      ensures AllTraced(CostOf(a, b, p, pow), CellCost(a, b, p, pow, 0, 0), path)
    {
      PathStart();
      hide Remainder, PNorm, CostOf, Reversed, DTW.Valid, CellCost, Best, Step, Warps, PathCost,
           AllTraced, Traced;
      ghost var c, start, to := CostOf(a, b, p, pow), CellCost(a, b, p, pow, 0, 0), Cell(|a| - 1, |b| - 1);
      var i, j := |a| - 1, |b| - 1;
      var myPath: seq<Cell> := [Cell(i, j)];
      while i > 0 || j > 0
        invariant 0 <= i < |a| && 0 <= j < |b|
        invariant Remainder(c, start, Reversed(myPath), Cell(i, j), to)
        decreases i + j
      {
        ghost var at := Cell(i, j);
        i, j := StepBack(i, j);
        RemainderGrows(c, start, Reversed(myPath), at, Cell(i, j), to);
        ReversedGrows(myPath, Cell(i, j));
        myPath := myPath + [Cell(i, j)];
      }
      RemainderWhole(c, start, Reversed(myPath), to);
      path := Reversed(myPath);
    }

    /** The neighbour the table entry came from: the cell above first, then the left one, then the diagonal. */
    lemma PathStart()
      requires Valid()
      ensures |a| >= 1 && |b| >= 1 && CellCost(a, b, p, pow, 0, 0) == CostOf(a, b, p, pow)(0, 0)
      ensures var to := Cell(|a| - 1, |b| - 1);
        && distance == Best(CostOf(a, b, p, pow), CellCost(a, b, p, pow, 0, 0), to.i, to.j)
        && Remainder(CostOf(a, b, p, pow), CellCost(a, b, p, pow, 0, 0), Reversed([to]), to, to)
    {
      hide Best, PNorm;
      RemainderStart(CostOf(a, b, p, pow), CellCost(a, b, p, pow, 0, 0), Cell(|a| - 1, |b| - 1));
    }

    method StepBack(i: nat, j: nat) returns (i': nat, j': nat)
      requires Valid() && i < |a| && j < |b| && (i > 0 || j > 0)
      ensures Step(Cell(i', j'), Cell(i, j))
      ensures Traced(CostOf(a, b, p, pow), CellCost(a, b, p, pow, 0, 0), Cell(i', j'), Cell(i, j))
      ensures Best(CostOf(a, b, p, pow), CellCost(a, b, p, pow, 0, 0), i, j)
           == Best(CostOf(a, b, p, pow), CellCost(a, b, p, pow, 0, 0), i', j') + CostOf(a, b, p, pow)(i, j)
    {
      hide PNorm, CostOf;
      if i == 0 {
        return i, j - 1;
      } else if j == 0 {
        return i - 1, j;
      } else {
        var tempStep := Least3(table[i - 1, j], table[i, j - 1], table[i - 1, j - 1]);
        if tempStep == table[i - 1, j] {
          return i - 1, j;
        } else if tempStep == table[i, j - 1] {
          return i, j - 1;
        } else {
          return i - 1, j - 1;
        }
      }
    }
  }

  /** The constructor's refusal of curves of different dimensions. */
  method Align(a: seq<Vec>, b: seq<Vec>, p: real, pow: Power) returns (r: DTW?)
    requires Points(a) && Points(b) && p != 0.0
    ensures r == null <==> |a[0]| != |b[0]|
    ensures r != null ==> r.Valid() && r.a == a && r.b == b && r.distance == Distance(a, b, p, pow)
  {
    if |a[0]| != |b[0]| {
      return null;
    }
    r := new DTW(a, b, p, pow);
  }
}
