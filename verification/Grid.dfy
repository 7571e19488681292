/** The n-by-n grid on which the territory game is played: orthogonal adjacency, a path that
    visits every cell once, and the largest number of pairwise non-adjacent cells. */
module Grid {
  import opened Wrappers

  datatype Cell = Cell(x: int, y: int)

  predicate InGrid(n: nat, c: Cell) {
    0 <= c.x < n && 0 <= c.y < n
  }

  /** The four offsets, in the order in which a placement visits them. */
  function Offsets(): seq<(int, int)> {
    [(-1, 0), (1, 0), (0, -1), (0, 1)]
  }

  function Shift(c: Cell, d: (int, int)): Cell {
    Cell(c.x + d.0, c.y + d.1)
  }

  function Abs(i: int): nat {
    if i < 0 then -i else i
  }

  predicate Adjacent(a: Cell, b: Cell) {
    Abs(a.x - b.x) + Abs(a.y - b.y) == 1
  }

  /** A placement at a reaches b: b is a itself or an orthogonal neighbour. */
  predicate Near(a: Cell, b: Cell) {
    a == b || Adjacent(a, b)
  }

  function Cross(c: Cell): set<Cell> {
    {c, Shift(c, (-1, 0)), Shift(c, (1, 0)), Shift(c, (0, -1)), Shift(c, (0, 1))}
  }

  lemma CrossIsNear(c: Cell)
    ensures forall d :: d in Cross(c) <==> Near(c, d)
    ensures |Cross(c)| == 5
  {
    forall d
      ensures d in Cross(c) <==> Near(c, d)
    {
    }
    var four := {Shift(c, (-1, 0)), Shift(c, (1, 0)), Shift(c, (0, -1)), Shift(c, (0, 1))};
    assert Cross(c) == {c} + four && c !in four;
  }

  ghost function Cells(n: nat): (cells: set<Cell>)
    ensures forall c :: c in cells <==> InGrid(n, c)
  {
    var cells := set x, y | 0 <= x < n && 0 <= y < n :: Cell(x, y);
    assert forall c :: InGrid(n, c) ==> c == Cell(c.x, c.y) && Cell(c.x, c.y) in cells;
    cells
  }

  // ---- A path through the grid: left to right on even rows, right to left on odd ones ----

  function Column(n: nat, c: Cell): int {
    if c.y % 2 == 0 then c.x else n - 1 - c.x
  }

  /** The number of cells in the rows above y, defined by addition. */
  function Above(n: nat, y: nat): nat {
    if y == 0 then 0 else Above(n, y - 1) + n
  }

  function PathIndex(n: nat, c: Cell): int
    requires InGrid(n, c)
  {
    Above(n, c.y) + Column(n, c)
  }

  function PathNext(n: nat, c: Cell): Cell {
    if Column(n, c) == n - 1 then Cell(c.x, c.y + 1)
    else if c.y % 2 == 0 then Cell(c.x + 1, c.y)
    else Cell(c.x - 1, c.y)
  }

  function PathCell(n: nat, k: nat): Cell {
    if k == 0 then Cell(0, 0) else PathNext(n, PathCell(n, k - 1))
  }

  lemma {:induction false} AboveIs(n: nat, y: nat)
    ensures Above(n, y) == y * n
  {
    if y > 0 {
      AboveIs(n, y - 1);
      assert y * n == (y - 1) * n + n;
    }
  }

  lemma {:induction false} RowOrder(n: nat, low: nat, high: nat)
    requires low < high
    ensures Above(n, low) + n <= Above(n, high)
  {
    if low + 1 < high {
      RowOrder(n, low, high - 1);
    }
  }

  lemma PathIndexInjective(n: nat, a: Cell, b: Cell)
    requires InGrid(n, a) && InGrid(n, b) && PathIndex(n, a) == PathIndex(n, b)
    ensures a == b
  {
    if a.y < b.y {
      RowOrder(n, a.y, b.y);
    } else if b.y < a.y {
      RowOrder(n, b.y, a.y);
    }
  }

  lemma PathIndexBounds(n: nat, c: Cell)
    requires InGrid(n, c)
    ensures 0 <= PathIndex(n, c) < Above(n, n)
  {
    RowOrder(n, c.y, n);
  }

  lemma PathNextIndex(n: nat, c: Cell)
    requires InGrid(n, c) && PathIndex(n, c) + 1 < Above(n, n)
    ensures InGrid(n, PathNext(n, c)) && PathIndex(n, PathNext(n, c)) == PathIndex(n, c) + 1
    ensures Adjacent(c, PathNext(n, c))
  {
  }

  predicate Even(c: Cell) {
    (c.x + c.y) % 2 == 0
  }

  lemma AdjacentColours(a: Cell, b: Cell)
    requires Adjacent(a, b)
    ensures Even(a) != Even(b)
  {
    assert a.x + a.y == b.x + b.y + 1 || a.x + a.y == b.x + b.y - 1;
  }

  lemma SameColour(a: Cell, b: Cell)
    requires Even(a) == Even(b)
    ensures !Adjacent(a, b)
  {
    if Adjacent(a, b) {
      AdjacentColours(a, b);
    }
  }

  /** The path starts in a corner, moves to an orthogonal neighbour at every step, and its k-th cell
      has index k. */
  lemma {:induction false} PathFacts(n: nat, k: nat)
    requires k < Above(n, n)
    ensures InGrid(n, PathCell(n, k)) && PathIndex(n, PathCell(n, k)) == k
    ensures k > 0 ==> Adjacent(PathCell(n, k - 1), PathCell(n, k))
  {
    if k > 0 {
      PathFacts(n, k - 1);
      PathNextIndex(n, PathCell(n, k - 1));
    } else {
      assert n > 0;
    }
  }

  /** So its cells alternate in colour. */
  lemma {:induction false} PathColour(n: nat, k: nat)
    requires 2 * k < Above(n, n)
    ensures Even(PathCell(n, 2 * k))
  {
    if k > 0 {
      PathColour(n, k - 1);
      TwoSteps(n, 2 * k);
    }
  }

  lemma TwoSteps(n: nat, k: nat)
    requires 2 <= k < Above(n, n)
    ensures Even(PathCell(n, k - 2)) == Even(PathCell(n, k))
  {
    PathFacts(n, k - 1);
    PathFacts(n, k);
    AdjacentColours(PathCell(n, k - 2), PathCell(n, k - 1));
    AdjacentColours(PathCell(n, k - 1), PathCell(n, k));
  }

  ghost function Path(n: nat): seq<Cell> {
    seq(Above(n, n), k requires 0 <= k => PathCell(n, k))
  }

  /** The path is a walk through the grid that meets every cell exactly once. */
  lemma PathCovers(n: nat)
    ensures IsWalk(Path(n))
    ensures Elements(Path(n)) == Cells(n)
    ensures forall i, j :: 0 <= i < j < |Path(n)| ==> Path(n)[i] != Path(n)[j]
  {
    PathIsWalk(n);
    PathElements(n);
    forall i, j | 0 <= i < j < |Path(n)|
      ensures Path(n)[i] != Path(n)[j]
    {
      PathDistinct(n, i, j);
    }
  }

  lemma PathIsWalk(n: nat)
    ensures IsWalk(Path(n))
  {
    forall k | 0 < k < |Path(n)|
      ensures Adjacent(Path(n)[k - 1], Path(n)[k])
    {
      PathFacts(n, k);
    }
  }

  lemma PathDistinct(n: nat, i: nat, j: nat)
    requires i < j < Above(n, n)
    ensures PathCell(n, i) != PathCell(n, j)
  {
    PathFacts(n, i);
    PathFacts(n, j);
  }

  lemma PathElements(n: nat)
    ensures Elements(Path(n)) == Cells(n)
  {
    forall c
      ensures c in Elements(Path(n)) <==> InGrid(n, c)
    {
      if InGrid(n, c) {
        CellOnPath(n, c);
      } else if k :| 0 <= k < |Path(n)| && Path(n)[k] == c {
        PathFacts(n, k);
      }
    }
  }

  lemma CellOnPath(n: nat, c: Cell)
    requires InGrid(n, c)
    ensures c in Path(n)
  {
    PathIndexBounds(n, c);
    var k := PathIndex(n, c);
    PathFacts(n, k);
    PathIndexInjective(n, c, PathCell(n, k));
    assert Path(n)[k] == c;
  }

  lemma {:induction false} DistinctCount(walk: seq<Cell>)
    requires forall i, j :: 0 <= i < j < |walk| ==> walk[i] != walk[j]
    ensures |Elements(walk)| == |walk|
  {
    if |walk| == 0 {
      assert Elements(walk) == {};
    } else {
      var m := |walk| - 1;
      DistinctCount(walk[..m]);
      assert walk == walk[..m] + [walk[m]];
      assert Elements(walk) == Elements(walk[..m]) + {walk[m]};
    }
  }

  lemma CellsCount(n: nat)
    ensures |Cells(n)| == n * n
  {
    PathCovers(n);
    DistinctCount(Path(n));
    AboveIs(n, n);
  }

  // ---- Independent sets ----

  ghost predicate Independent(s: set<Cell>) {
    forall a, b :: a in s && b in s ==> !Adjacent(a, b)
  }

  ghost predicate IsWalk(walk: seq<Cell>) {
    forall k :: 0 < k < |walk| ==> Adjacent(walk[k - 1], walk[k])
  }

  ghost function Elements(walk: seq<Cell>): set<Cell> {
    set c | c in walk
  }

  lemma ElementsSplit(walk: seq<Cell>)
    requires walk != []
    ensures Elements(walk) == Elements(walk[..|walk| - 1]) + {walk[|walk| - 1]}
  {
    assert walk == walk[..|walk| - 1] + [walk[|walk| - 1]];
  }

  /** Of any two consecutive cells of a walk at most one belongs to an independent set. */
  lemma {:induction false} IndependentOnWalk(s: set<Cell>, walk: seq<Cell>)
    requires Independent(s) && IsWalk(walk)
    ensures 2 * |s * Elements(walk)| <= |walk| + 1
  {
    if walk == [] {
      assert s * Elements(walk) == {};
    } else {
      var init, last := walk[..|walk| - 1], walk[|walk| - 1];
      ElementsSplit(walk);
      if last !in s {
        IndependentOnWalk(s, init);
        assert s * Elements(walk) == s * Elements(init);
      } else if init == [] {
        CardinalityMonotone(s * Elements(walk), {last});
      } else {
        var short := init[..|init| - 1];
        ElementsSplit(init);
        IndependentOnWalk(s, short);
        PairInIndependent(s, Elements(short), init[|init| - 1], last);
      }
    }
  }

  lemma PairInIndependent(s: set<Cell>, before: set<Cell>, a: Cell, b: Cell)
    requires Independent(s) && Adjacent(a, b) && b in s
    ensures |s * (before + {a} + {b})| <= |s * before| + 1
  {
    assert a !in s;
    CardinalityMonotone(s * (before + {a} + {b}), s * before + {b});
  }

  /** No independent set of the grid holds more than half of its cells, rounded up. */
  lemma IndependentBound(n: nat, s: set<Cell>)
    requires s <= Cells(n) && Independent(s)
    ensures 2 * |s| <= n * n + 1
  {
    PathCovers(n);
    AboveIs(n, n);
    assert s * Elements(Path(n)) == s;
    IndependentOnWalk(s, Path(n));
  }
}
