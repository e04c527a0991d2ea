/** Board geometry: which positions exist on a `size × size` board, their
    orthogonal neighbours and diagonals, and the row-major enumeration of all
    positions that the engine's `for x … for y …` loops follow. */
module Geometry {
  import opened GoTypes
  import opened Seqs

  /** `_on_board`: both coordinates lie in `[0, size)`. */
  predicate OnBoard(n: nat, p: Pos) {
    0 <= p.x < n && 0 <= p.y < n
  }

  /** The set of all positions of a board of size `n`. */
  function AllPos(n: nat): (r: set<Pos>)
    ensures forall p :: p in r <==> OnBoard(n, p)
  {
    set x: int, y: int | 0 <= x < n && 0 <= y < n :: Pos(x, y)
  }

  /** Orthogonal adjacency (Manhattan distance 1). */
  predicate Adjacent(p: Pos, q: Pos) {
    (p.x == q.x && (p.y == q.y + 1 || q.y == p.y + 1)) ||
    (p.y == q.y && (p.x == q.x + 1 || q.x == p.x + 1))
  }

  /** Diagonal adjacency (both coordinates differ by one). */
  predicate DiagonallyAdjacent(p: Pos, q: Pos) {
    (p.x == q.x + 1 || q.x == p.x + 1) && (p.y == q.y + 1 || q.y == p.y + 1)
  }

  function OnBoardOnly(n: nat, cs: seq<Pos>): seq<Pos> {
    Filter(cs, (c: Pos) => OnBoard(n, c))
  }

  /** `_neighbors`: the on-board cells among `(x-1,y), (x+1,y), (x,y-1), (x,y+1)`,
      in that order. The engine only looks positions of the board up. */
  function Neighbors(n: nat, p: Pos): (r: seq<Pos>)
    requires OnBoard(n, p)
    ensures forall q :: q in r <==> OnBoard(n, q) && Adjacent(p, q)
    ensures Distinct(r)
    ensures |r| <= 4
  {
    var cands := [Pos(p.x - 1, p.y), Pos(p.x + 1, p.y), Pos(p.x, p.y - 1), Pos(p.x, p.y + 1)];
    FilterDistinct(cands, (c: Pos) => OnBoard(n, c));
    OnBoardOnly(n, cands)
  }

  /** Adjacency between board positions is symmetric neighbourhood. */
  lemma NeighborOf(n: nat, p: Pos, q: Pos)
    requires OnBoard(n, p) && OnBoard(n, q) && (Adjacent(p, q) || Adjacent(q, p))
    ensures q in Neighbors(n, p) && p in Neighbors(n, q)
  {
  }

  /** `_diagonals`: the on-board cells among `(x-1,y-1), (x+1,y+1), (x+1,y-1), (x-1,y+1)`. */
  function Diagonals(n: nat, p: Pos): (r: seq<Pos>)
    ensures forall q :: q in r <==> OnBoard(n, q) && DiagonallyAdjacent(p, q)
    ensures Distinct(r)
    ensures |r| <= 4
  {
    var cands := [Pos(p.x - 1, p.y - 1), Pos(p.x + 1, p.y + 1), Pos(p.x + 1, p.y - 1), Pos(p.x - 1, p.y + 1)];
    FilterDistinct(cands, (c: Pos) => OnBoard(n, c));
    OnBoardOnly(n, cands)
  }

  /** `_create_neighbors_cache`: the table from every position of a size-`n`
      board to its neighbour list, which every later lookup reads. */
  function NeighborsTable(n: nat): (r: map<Pos, seq<Pos>>)
    ensures r.Keys == AllPos(n)
    ensures forall p, q :: p in r ==> (q in r[p] <==> OnBoard(n, q) && Adjacent(p, q))
    ensures forall p :: p in r ==> Distinct(r[p]) && |r[p]| <= 4
  {
    map p | p in AllPos(n) :: Neighbors(n, p)
  }

  /** Interior points have four neighbours; edges three, corners two (on boards
      of size at least two). */
  lemma NeighborCount(n: nat, p: Pos)
    requires OnBoard(n, p)
    ensures |Neighbors(n, p)| == 4 <==> 0 < p.x < n - 1 && 0 < p.y < n - 1
    ensures n >= 2 ==> |Neighbors(n, p)| >= 2
  {
    var cands := [Pos(p.x - 1, p.y), Pos(p.x + 1, p.y), Pos(p.x, p.y - 1), Pos(p.x, p.y + 1)];
    var f := (c: Pos) => OnBoard(n, c);
    FilterLength(cands, f);
    assert |Neighbors(n, p)| == Count(cands, f);
    assert (f(cands[0]) <==> 0 < p.x) && (f(cands[1]) <==> p.x < n - 1);
    assert (f(cands[2]) <==> 0 < p.y) && (f(cands[3]) <==> p.y < n - 1);
    assert Count(cands[3..], f) == if f(cands[3]) then 1 else 0;
    assert Count(cands[2..], f) == (if f(cands[2]) then 1 else 0) + Count(cands[3..], f);
    assert Count(cands[1..], f) == (if f(cands[1]) then 1 else 0) + Count(cands[2..], f);
    assert Count(cands, f) == (if f(cands[0]) then 1 else 0) + Count(cands[1..], f);
    assert |Neighbors(n, p)| == (if 0 < p.x then 1 else 0) + (if p.x < n - 1 then 1 else 0)
                              + (if 0 < p.y then 1 else 0) + (if p.y < n - 1 then 1 else 0);
  }

  /* ---------- row-major enumeration of the board ---------- */

  function Row(n: nat, x: int, y: nat): seq<Pos>
    decreases n - y
  {
    if y >= n then [] else [Pos(x, y)] + Row(n, x, y + 1)
  }

  function Rows(n: nat, x: nat): seq<Pos>
    decreases n - x
  {
    if x >= n then [] else Row(n, x, 0) + Rows(n, x + 1)
  }

  /** Every position, in the order of `for x in range(size): for y in range(size)`. */
  function AllCells(n: nat): seq<Pos> {
    Rows(n, 0)
  }

  lemma {:induction false} RowFacts(n: nat, x: int, y: nat)
    ensures forall q :: q in Row(n, x, y) <==> q.x == x && y <= q.y < n
    ensures Distinct(Row(n, x, y))
    decreases n - y
  {
    if y < n {
      RowFacts(n, x, y + 1);
      DistinctAppend([Pos(x, y)], Row(n, x, y + 1));
    }
  }

  lemma {:induction false} RowsFacts(n: nat, x: nat)
    ensures forall q :: q in Rows(n, x) <==> x <= q.x < n && 0 <= q.y < n
    ensures Distinct(Rows(n, x))
    decreases n - x
  {
    if x < n {
      RowFacts(n, x, 0);
      RowsFacts(n, x + 1);
      DistinctAppend(Row(n, x, 0), Rows(n, x + 1));
    }
  }

  /** The enumeration lists exactly the on-board positions, each once. */
  lemma AllCellsFacts(n: nat)
    ensures forall q :: q in AllCells(n) <==> OnBoard(n, q)
    ensures Distinct(AllCells(n))
  {
    RowsFacts(n, 0);
  }
}
