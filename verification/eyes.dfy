/** Eye detection (`is_eyeish`, `is_eye`): a point surrounded by one player's
    stones, and the recursive true-eye test on its diagonals. */
module Eyes {
  import opened GoTypes
  import opened Geometry
  import opened Seqs

  /** `is_eyeish`: `p` is empty and every orthogonal neighbour holds a stone
      of `owner`. */
  predicate IsEyeish(n: nat, b: Board, p: Pos, owner: Player)
    requires b.Keys == AllPos(n) && OnBoard(n, p)
  {
    b[p] == Empty && forall nb :: nb in Neighbors(n, p) ==> b[nb] == owner
  }

  /** How many bad diagonals a true eye at `p` tolerates: one in the interior
      (four neighbours), none on the edge or in a corner. */
  function Allowance(n: nat, p: Pos): (r: nat)
    requires OnBoard(n, p)
    ensures r <= 1
    ensures r == 1 <==> 0 < p.x < n - 1 && 0 < p.y < n - 1
  {
    NeighborCount(n, p);
    if |Neighbors(n, p)| == 4 then 1 else 0
  }

  /** The requirements shared by the eye recursion: `stack` holds the points
      whose test is in progress, and `p` is not among them. */
  ghost predicate EyeFrame(n: nat, b: Board, p: Pos, stack: set<Pos>) {
    b.Keys == AllPos(n) && OnBoard(n, p) && stack <= AllPos(n) && p !in stack
  }

  /** `is_eye` with its `stack` argument. Only membership in the stack is
      consulted, so it is a set here. */
  predicate EyeFrom(n: nat, b: Board, p: Pos, owner: Player, stack: set<Pos>)
    requires EyeFrame(n, b, p, stack)
    decreases AllPos(n) - stack, 1, 0
  {
    IsEyeish(n, b, p, owner) && DiagonalsOk(n, b, p, owner, stack, Diagonals(n, p), 0, Allowance(n, p))
  }

  /** The diagonal loop of `is_eye` over the diagonals `ds` still to visit,
      with `bad` bad diagonals seen so far: an opponent stone is bad, and so is
      an empty diagonal not on the stack that is not itself an eye (checked
      with `p` pushed on the stack). The loop gives up as soon as the count
      exceeds `allowable`. */
  predicate DiagonalsOk(n: nat, b: Board, p: Pos, owner: Player, stack: set<Pos>, ds: seq<Pos>,
                        bad: nat, allowable: nat)
    requires EyeFrame(n, b, p, stack)
    requires forall d :: d in ds ==> OnBoard(n, d) && DiagonallyAdjacent(p, d)
    decreases AllPos(n) - stack, 0, |ds|
  {
    if ds == [] then true
    else
      var bad' := if IsBadDiagonal(n, b, p, owner, stack, ds[0]) then bad + 1 else bad;
      if bad' > allowable then false
      else DiagonalsOk(n, b, p, owner, stack, ds[1..], bad', allowable)
  }

  /** A diagonal `d` of `p` counts against an eye at `p`. */
  predicate IsBadDiagonal(n: nat, b: Board, p: Pos, owner: Player, stack: set<Pos>, d: Pos)
    requires EyeFrame(n, b, p, stack) && OnBoard(n, d) && DiagonallyAdjacent(p, d)
    decreases AllPos(n) - stack, 0, 0
  {
    if b[d] == Opponent(owner) then true
    else if b[d] == Empty && d !in stack then !EyeFrom(n, b, d, owner, stack + {p})
    else false
  }

  /** `is_eye(position, owner)` as called from outside, with an empty stack. */
  function IsEye(n: nat, b: Board, p: Pos, owner: Player): (r: bool)
    requires b.Keys == AllPos(n) && OnBoard(n, p)
    ensures r ==> b[p] == Empty && forall nb :: nb in Neighbors(n, p) ==> b[nb] == owner
  {
    EyeFrom(n, b, p, owner, {})
  }

  /* ---------- properties ---------- */

  /** The number of bad diagonals among `ds`. */
  function BadCount(n: nat, b: Board, p: Pos, owner: Player, stack: set<Pos>, ds: seq<Pos>): nat
    requires EyeFrame(n, b, p, stack)
    requires forall d :: d in ds ==> OnBoard(n, d) && DiagonallyAdjacent(p, d)
  {
    if ds == [] then 0
    else (if IsBadDiagonal(n, b, p, owner, stack, ds[0]) then 1 else 0) + BadCount(n, b, p, owner, stack, ds[1..])
  }

  /** Stopping early does not change the verdict of the diagonal loop: it
      accepts exactly when the bad diagonals, counted over all of `ds`, stay
      within the allowance. */
  lemma {:induction false} DiagonalsOkCounts(n: nat, b: Board, p: Pos, owner: Player, stack: set<Pos>,
                                             ds: seq<Pos>, bad: nat, allowable: nat)
    requires EyeFrame(n, b, p, stack)
    requires forall d :: d in ds ==> OnBoard(n, d) && DiagonallyAdjacent(p, d)
    requires bad <= allowable
    ensures DiagonalsOk(n, b, p, owner, stack, ds, bad, allowable) <==>
            bad + BadCount(n, b, p, owner, stack, ds) <= allowable
    decreases |ds|
  {
    if ds != [] {
      var bad' := if IsBadDiagonal(n, b, p, owner, stack, ds[0]) then bad + 1 else bad;
      if bad' <= allowable {
        DiagonalsOkCounts(n, b, p, owner, stack, ds[1..], bad', allowable);
      }
    }
  }

  /** A true eye is an eyeish point whose bad diagonals number at most one in
      the interior and none on the edge or in a corner. */
  lemma EyeCharacterization(n: nat, b: Board, p: Pos, owner: Player)
    requires b.Keys == AllPos(n) && OnBoard(n, p)
    ensures IsEye(n, b, p, owner) <==>
            && IsEyeish(n, b, p, owner)
            && BadCount(n, b, p, owner, {}, Diagonals(n, p)) <= (if 0 < p.x < n - 1 && 0 < p.y < n - 1 then 1 else 0)
  {
    if IsEyeish(n, b, p, owner) {
      DiagonalsOkCounts(n, b, p, owner, {}, Diagonals(n, p), 0, Allowance(n, p));
    }
  }

  /** An eyeish point whose diagonals all hold the owner's stones (or lie off
      the board) is a true eye. */
  lemma OwnedDiagonalsMakeEye(n: nat, b: Board, p: Pos, owner: Player)
    requires b.Keys == AllPos(n) && OnBoard(n, p)
    requires IsEyeish(n, b, p, owner)
    requires forall d :: d in Diagonals(n, p) ==> b[d] == owner
    ensures IsEye(n, b, p, owner)
  {
    NoBadDiagonals(n, b, p, owner, {}, Diagonals(n, p));
    DiagonalsOkCounts(n, b, p, owner, {}, Diagonals(n, p), 0, Allowance(n, p));
  }

  lemma {:induction false} NoBadDiagonals(n: nat, b: Board, p: Pos, owner: Player, stack: set<Pos>, ds: seq<Pos>)
    requires EyeFrame(n, b, p, stack)
    requires forall d :: d in ds ==> OnBoard(n, d) && DiagonallyAdjacent(p, d) && b[d] == owner
    ensures BadCount(n, b, p, owner, stack, ds) == 0
    decreases |ds|
  {
    if ds != [] {
      NoBadDiagonals(n, b, p, owner, stack, ds[1..]);
    }
  }

  /** Two opponent stones on the diagonals rule out an eye anywhere; one
      rules it out on the edge and in the corner. */
  lemma OpponentDiagonalsBreakEye(n: nat, b: Board, p: Pos, owner: Player)
    requires b.Keys == AllPos(n) && OnBoard(n, p)
    requires exists d :: d in Diagonals(n, p) && b[d] == Opponent(owner)
    requires (0 < p.x < n - 1 && 0 < p.y < n - 1) ==>
               exists d, e :: d in Diagonals(n, p) && e in Diagonals(n, p) && d != e &&
                              b[d] == Opponent(owner) && b[e] == Opponent(owner)
    ensures !IsEye(n, b, p, owner)
  {
    var ds := Diagonals(n, p);
    EyeCharacterization(n, b, p, owner);
    var d :| d in ds && b[d] == Opponent(owner);
    BadCountAtLeastOne(n, b, p, owner, {}, ds, d);
    if 0 < p.x < n - 1 && 0 < p.y < n - 1 {
      var d1, e1 :| d1 in ds && e1 in ds && d1 != e1 && b[d1] == Opponent(owner) && b[e1] == Opponent(owner);
      BadCountAtLeastTwo(n, b, p, owner, {}, ds, d1, e1);
    }
  }

  lemma {:induction false} BadCountAtLeastOne(n: nat, b: Board, p: Pos, owner: Player, stack: set<Pos>,
                                              ds: seq<Pos>, d: Pos)
    requires EyeFrame(n, b, p, stack)
    requires forall q :: q in ds ==> OnBoard(n, q) && DiagonallyAdjacent(p, q)
    requires d in ds && b[d] == Opponent(owner)
    ensures BadCount(n, b, p, owner, stack, ds) >= 1
    decreases |ds|
  {
    if ds[0] != d {
      BadCountAtLeastOne(n, b, p, owner, stack, ds[1..], d);
    }
  }

  lemma {:induction false} BadCountAtLeastTwo(n: nat, b: Board, p: Pos, owner: Player, stack: set<Pos>,
                                              ds: seq<Pos>, d: Pos, e: Pos)
    requires EyeFrame(n, b, p, stack)
    requires forall q :: q in ds ==> OnBoard(n, q) && DiagonallyAdjacent(p, q)
    requires d in ds && e in ds && d != e && b[d] == Opponent(owner) && b[e] == Opponent(owner)
    ensures BadCount(n, b, p, owner, stack, ds) >= 2
    decreases |ds|
  {
    if ds[0] == d {
      BadCountAtLeastOne(n, b, p, owner, stack, ds[1..], e);
    } else if ds[0] == e {
      BadCountAtLeastOne(n, b, p, owner, stack, ds[1..], d);
    } else {
      BadCountAtLeastTwo(n, b, p, owner, stack, ds[1..], d, e);
    }
  }
}
