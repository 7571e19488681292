/** The board of the territory game, and what it means: every cell belongs to the player of the
    earliest placement that reaches it. */
module Territory {
  import opened Grid
  import opened Wrappers

  /** board[y][x]: 0 for an empty cell, otherwise the number of its owner. */
  type Board = seq<seq<nat>>

  predicate Shaped(n: nat, b: Board) {
    |b| == n && forall y :: 0 <= y < n ==> |b[y]| == n
  }

  function EmptyBoard(n: nat): (b: Board)
    ensures Shaped(n, b) && forall c :: InGrid(n, c) ==> At(n, b, c) == 0
  {
    seq(n, y => seq(n, x => 0))
  }

  function At(n: nat, b: Board, c: Cell): nat
    requires Shaped(n, b) && InGrid(n, c)
  {
    b[c.y][c.x]
  }

  /** The empty cells among those given to player num; the other cells as they were. */
  function Fill(n: nat, b: Board, cells: set<Cell>, num: nat): (r: Board)
    requires Shaped(n, b)
    ensures Shaped(n, r)
    ensures forall c :: InGrid(n, c) ==>
      At(n, r, c) == if c in cells && At(n, b, c) == 0 then num else At(n, b, c)
  {
    seq(n, y requires 0 <= y < n =>
      seq(n, x requires 0 <= x < n => if Cell(x, y) in cells && b[y][x] == 0 then num else b[y][x]))
  }

  lemma SameBoard(n: nat, a: Board, b: Board)
    requires Shaped(n, a) && Shaped(n, b)
    requires forall c :: InGrid(n, c) ==> At(n, a, c) == At(n, b, c)
    ensures a == b
  {
    forall y | 0 <= y < n
      ensures a[y] == b[y]
    {
      forall x | 0 <= x < n
        ensures a[y][x] == b[y][x]
      {
        assert At(n, a, Cell(x, y)) == At(n, b, Cell(x, y));
      }
    }
  }

  /** The empty cells of the grid among those given. */
  function Claimed(n: nat, b: Board, cells: set<Cell>): set<Cell>
    requires Shaped(n, b)
  {
    set c | c in cells && InGrid(n, c) && At(n, b, c) == 0
  }

  ghost function Owned(n: nat, b: Board, num: nat): (s: set<Cell>)
    requires Shaped(n, b)
    ensures forall c :: c in s <==> InGrid(n, c) && At(n, b, c) == num
  {
    set c | c in Cells(n) && At(n, b, c) == num
  }

  ghost predicate Full(n: nat, b: Board)
    requires Shaped(n, b)
  {
    forall c :: InGrid(n, c) ==> At(n, b, c) != 0
  }

  /** What a fill does to the number of cells that each player owns. */
  lemma FillCounts(n: nat, b: Board, cells: set<Cell>, num: nat, k: nat)
    requires Shaped(n, b) && num != 0
    ensures |Owned(n, Fill(n, b, cells, num), k)| == |Owned(n, b, k)| +
      (if k == num then |Claimed(n, b, cells)| else if k == 0 then -|Claimed(n, b, cells)| else 0)
  {
    var before, after, claimed := Owned(n, b, k), Owned(n, Fill(n, b, cells, num), k), Claimed(n, b, cells);
    if k == num {
      assert after == before + claimed && before !! claimed;
    } else if k == 0 {
      assert before == after + claimed && after !! claimed;
    } else {
      assert after == before;
    }
  }

  // ---- Placements ----

  datatype Move = Move(cell: Cell, num: nat)

  predicate Covers(ms: seq<Move>, i: int, c: Cell) {
    0 <= i < |ms| && Near(ms[i].cell, c)
  }

  ghost predicate Uncovered(ms: seq<Move>, c: Cell) {
    forall i :: !Covers(ms, i, c)
  }

  ghost predicate FirstCover(ms: seq<Move>, i: int, c: Cell) {
    Covers(ms, i, c) && forall j :: j < i ==> !Covers(ms, j, c)
  }

  /** The declarative meaning of a board. */
  ghost predicate Explains(n: nat, b: Board, ms: seq<Move>)
    requires Shaped(n, b)
  {
    forall c :: InGrid(n, c) ==>
      && (Uncovered(ms, c) ==> At(n, b, c) == 0)
      && forall i :: FirstCover(ms, i, c) ==> At(n, b, c) == ms[i].num
  }

  /** Placements on the grid, none of which reaches another: an independent set in some order. */
  ghost predicate Spaced(n: nat, ms: seq<Move>) {
    && (forall i :: 0 <= i < |ms| ==> InGrid(n, ms[i].cell) && ms[i].num != 0)
    && forall i, j :: 0 <= i < j < |ms| ==> !Near(ms[i].cell, ms[j].cell)
  }

  lemma {:induction false} FirstCoverExists(ms: seq<Move>, i: int, c: Cell) returns (first: int)
    requires Covers(ms, i, c)
    ensures FirstCover(ms, first, c)
    decreases i
  {
    if j :| j < i && Covers(ms, j, c) {
      first := FirstCoverExists(ms, j, c);
    } else {
      first := i;
    }
  }

  /** A cell is empty exactly when no placement reaches it. */
  lemma EmptyIffUncovered(n: nat, b: Board, ms: seq<Move>, c: Cell)
    requires Shaped(n, b) && Explains(n, b, ms) && Spaced(n, ms) && InGrid(n, c)
    ensures At(n, b, c) == 0 <==> Uncovered(ms, c)
  {
    if i :| Covers(ms, i, c) {
      var first := FirstCoverExists(ms, i, c);
    }
  }

  /** The placements alone determine the board. */
  lemma BoardDetermined(n: nat, a: Board, b: Board, ms: seq<Move>)
    requires Shaped(n, a) && Shaped(n, b) && Explains(n, a, ms) && Explains(n, b, ms)
    ensures a == b
  {
    forall c | InGrid(n, c)
      ensures At(n, a, c) == At(n, b, c)
    {
      if i :| Covers(ms, i, c) {
        var first := FirstCoverExists(ms, i, c);
      }
    }
    SameBoard(n, a, b);
  }

  /** Placing on an empty cell and filling its cross keeps the board's meaning and the spacing. */
  lemma PlaceExplains(n: nat, b: Board, ms: seq<Move>, m: Move)
    requires Shaped(n, b) && Explains(n, b, ms) && Spaced(n, ms)
    requires InGrid(n, m.cell) && At(n, b, m.cell) == 0 && m.num != 0
    ensures Explains(n, Fill(n, b, Cross(m.cell), m.num), ms + [m])
    ensures Spaced(n, ms + [m])
  {
    var all, r := ms + [m], Fill(n, b, Cross(m.cell), m.num);
    CrossIsNear(m.cell);
    EmptyIffUncovered(n, b, ms, m.cell);
    forall i | 0 <= i < |ms|
      ensures !Near(ms[i].cell, m.cell)
    {
      assert !Covers(ms, i, m.cell);
    }
    forall c | InGrid(n, c)
      ensures Uncovered(all, c) ==> At(n, r, c) == 0
      ensures forall i :: FirstCover(all, i, c) ==> At(n, r, c) == all[i].num
    {
      EmptyIffUncovered(n, b, ms, c);
      forall i
        ensures Covers(all, i, c) <==> Covers(ms, i, c) || (i == |ms| && Near(m.cell, c))
      {
      }
      if Uncovered(all, c) {
        assert !Covers(all, |ms|, c);
      }
      forall i | FirstCover(all, i, c)
        ensures At(n, r, c) == all[i].num
      {
        if i < |ms| {
          assert FirstCover(ms, i, c);
        }
      }
    }
  }

  ghost function Placed(ms: seq<Move>): set<Cell> {
    set i | 0 <= i < |ms| :: ms[i].cell
  }

  ghost function CellsOf(ms: seq<Move>): seq<Cell> {
    seq(|ms|, i requires 0 <= i < |ms| => ms[i].cell)
  }

  /** No game is longer than half the number of cells, rounded up: the placed cells are pairwise
      non-adjacent. */
  lemma TurnBound(n: nat, ms: seq<Move>)
    requires Spaced(n, ms)
    ensures |Placed(ms)| == |ms| && Independent(Placed(ms))
    ensures 2 * |ms| <= n * n + 1
  {
    var s := Placed(ms);
    assert Elements(CellsOf(ms)) == s by {
      forall c | c in s
        ensures c in CellsOf(ms)
      {
        var i :| 0 <= i < |ms| && ms[i].cell == c;
        assert CellsOf(ms)[i] == c;
      }
    }
    DistinctCount(CellsOf(ms));
    forall a, b | a in s && b in s
      ensures !Adjacent(a, b)
    {
      var i :| 0 <= i < |ms| && ms[i].cell == a;
      var j :| 0 <= j < |ms| && ms[j].cell == b;
      assert Near(a, b) == Near(b, a);
    }
    IndependentBound(n, s);
  }

  /** The placed cells form a maximal independent set: no cell of the grid can be added. */
  ghost predicate Maximal(n: nat, s: set<Cell>) {
    forall c :: InGrid(n, c) ==> exists p :: p in s && Near(p, c)
  }

  lemma FullIffMaximal(n: nat, b: Board, ms: seq<Move>)
    requires Shaped(n, b) && Explains(n, b, ms) && Spaced(n, ms)
    ensures Full(n, b) <==> Maximal(n, Placed(ms))
  {
    forall c | InGrid(n, c)
      ensures At(n, b, c) != 0 <==> exists p :: p in Placed(ms) && Near(p, c)
    {
      EmptyIffUncovered(n, b, ms, c);
      if i :| Covers(ms, i, c) {
        assert ms[i].cell in Placed(ms);
      } else if p :| p in Placed(ms) && Near(p, c) {
        var i :| 0 <= i < |ms| && ms[i].cell == p;
        assert Covers(ms, i, c);
      }
    }
  }

  /** Each placement fills at most five cells. */
  lemma {:induction false} CoveredBound(ms: seq<Move>, s: set<Cell>)
    requires forall c :: c in s ==> !Uncovered(ms, c)
    ensures |s| <= 5 * |ms|
  {
    if ms == [] {
      if c :| c in s {
        assert Uncovered(ms, c);
      }
    } else {
      var m, cross := |ms| - 1, Cross(ms[|ms| - 1].cell);
      CrossIsNear(ms[m].cell);
      forall c | c in s - cross
        ensures !Uncovered(ms[..m], c)
      {
        var i :| Covers(ms, i, c);
        assert Covers(ms[..m], i, c);
      }
      CoveredBound(ms[..m], s - cross);
      CardinalityMonotone(s, (s - cross) + cross);
    }
  }

  lemma FilledBound(n: nat, b: Board, ms: seq<Move>)
    requires Shaped(n, b) && Explains(n, b, ms) && Spaced(n, ms)
    ensures n * n <= |Owned(n, b, 0)| + 5 * |ms|
  {
    var filled := Cells(n) - Owned(n, b, 0);
    forall c | c in filled
      ensures !Uncovered(ms, c)
    {
      EmptyIffUncovered(n, b, ms, c);
    }
    CoveredBound(ms, filled);
    CellsCount(n);
    assert Cells(n) == filled + Owned(n, b, 0);
  }

  /** Every cell of the board of two players is empty or belongs to one of them. */
  lemma Conservation(n: nat, b: Board)
    requires Shaped(n, b)
    requires forall c :: InGrid(n, c) ==> At(n, b, c) <= 2
    ensures |Owned(n, b, 0)| + |Owned(n, b, 1)| + |Owned(n, b, 2)| == n * n
  {
    CellsCount(n);
    assert Cells(n) == Owned(n, b, 0) + Owned(n, b, 1) + Owned(n, b, 2);
  }
}
