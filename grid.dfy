// Grid topology of the rumour simulator: a fixed ROWS x COLS torus and the
// Moore neighbourhood of a cell, enumerated in the simulator's move-set order.
module Grid {

  const ROWS: int := 100
  const COLS: int := 100

  /** A cell as (row, column). */
  type Pos = (int, int)

  /** The eight offsets of Person.move_set, in their order. */
  const MoveSet: seq<(int, int)> :=
    [(-1, -1), (-1, 0), (-1, 1), (0, -1), (0, 1), (1, -1), (1, 0), (1, 1)]

  predicate InGrid(p: Pos) {
    0 <= p.0 < ROWS && 0 <= p.1 < COLS
  }

  /** The k-th neighbour of p: offset k applied with wrap-around on both axes. */
  function Neighbour(p: Pos, k: nat): Pos
    requires k < |MoveSet|
  {
    ((p.0 + MoveSet[k].0) % ROWS, (p.1 + MoveSet[k].1) % COLS)
  }

  /** Person.get_moves: the eight neighbours of p, in move-set order. */
  function Moves(p: Pos): (r: seq<Pos>)
    ensures |r| == |MoveSet| == 8
    ensures forall k :: 0 <= k < 8 ==> r[k] == Neighbour(p, k) && 0 <= r[k].0 < ROWS && 0 <= r[k].1 < COLS
  {
    seq(8, k requires 0 <= k < 8 => Neighbour(p, k))
  }

  /** b lies at most one step from a on a wrapped axis of length n. */
  predicate CloseOnAxis(a: int, b: int, n: int)
    requires n > 0
  {
    (b - a) % n == 0 || (b - a) % n == 1 || (b - a) % n == n - 1
  }

  /**
   * Reference definition of the neighbourhood, independent of the move list:
   * q is a different cell of the grid that lies at most one step away from p
   * on each axis, counting across the wrapped edges.
   */
  predicate Adjacent(p: Pos, q: Pos) {
    InGrid(q) && CloseOnAxis(p.0, q.0, ROWS) && CloseOnAxis(p.1, q.1, COLS) && p != q
  }

  lemma MoveIsAdjacent(p: Pos, k: nat)
    requires InGrid(p) && k < 8
    ensures Adjacent(p, Neighbour(p, k))
  {
  }

  lemma AdjacentIsMove(p: Pos, q: Pos) returns (k: nat)
    requires InGrid(p) && Adjacent(p, q)
    ensures k < 8 && Neighbour(p, k) == q
  {
    var dr := if (q.0 - p.0) % ROWS == 0 then 0 else if (q.0 - p.0) % ROWS == 1 then 1 else -1;
    var dc := if (q.1 - p.1) % COLS == 0 then 0 else if (q.1 - p.1) % COLS == 1 then 1 else -1;
    assert (p.0 + dr) % ROWS == q.0;
    assert (p.1 + dc) % COLS == q.1;
    k := if dr == -1 then (if dc == -1 then 0 else if dc == 0 then 1 else 2)
         else if dr == 0 then (if dc == -1 then 3 else 4)
         else (if dc == -1 then 5 else if dc == 0 then 6 else 7);
  }

  /** The move list holds exactly the adjacent cells, and never p itself. */
  lemma MovesAreAdjacent(p: Pos, q: Pos)
    requires InGrid(p)
    ensures q in Moves(p) <==> Adjacent(p, q)
    ensures p !in Moves(p)
  {
    if q in Moves(p) {
      var k :| 0 <= k < 8 && Moves(p)[k] == q;
      MoveIsAdjacent(p, k);
    }
    if Adjacent(p, q) {
      var k := AdjacentIsMove(p, q);
      assert Moves(p)[k] == q;
    }
    if p in Moves(p) {
      var k :| 0 <= k < 8 && Moves(p)[k] == p;
      MoveIsAdjacent(p, k);
    }
  }

  /** The toroidal neighbourhood is symmetric, also across the wrapped edges. */
  lemma NeighbourSymmetric(p: Pos, q: Pos)
    requires InGrid(p) && InGrid(q)
    ensures q in Moves(p) <==> p in Moves(q)
  {
    MovesAreAdjacent(p, q);
    MovesAreAdjacent(q, p);
    assert CloseOnAxis(p.0, q.0, ROWS) <==> CloseOnAxis(q.0, p.0, ROWS);
    assert CloseOnAxis(p.1, q.1, COLS) <==> CloseOnAxis(q.1, p.1, COLS);
  }

  /** The eight neighbours are pairwise different cells. */
  lemma MovesDistinct(p: Pos)
    ensures forall a, b :: 0 <= a < b < 8 ==> Moves(p)[a] != Moves(p)[b]
  {
  }
}
