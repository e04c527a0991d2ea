/** Area scoring (`get_winner`) and the enumeration of legal moves split into
    sensible moves and eye-filling moves (`get_legal_moves`). */
module Scoring {
  import opened GoTypes
  import opened Geometry
  import opened Seqs
  import opened GameStates
  import opened Eyes
  import opened Rules

  /* ---------- area scoring ---------- */

  /** `np.sum(board == c)` over the cells `cs`. */
  function StonesAmong(b: Board, cs: seq<Pos>, c: Color): nat
    requires forall q :: q in cs ==> q in b
  {
    if cs == [] then 0 else (if b[cs[0]] == c then 1 else 0) + StonesAmong(b, cs[1..], c)
  }

  /** Territory points counted by the empty-point loop of `get_winner`. */
  datatype Territory = Territory(black: nat, white: nat)

  /** The empty-point loop of `get_winner` over `cs`: an empty point all of
      whose neighbours are Black counts for Black; otherwise, if they are all
      White, for White. */
  function TerritoryAmong(n: nat, b: Board, cs: seq<Pos>): Territory
    requires b.Keys == AllPos(n) && forall q :: q in cs ==> OnBoard(n, q)
  {
    if cs == [] then Territory(0, 0)
    else
      var rest := TerritoryAmong(n, b, cs[1..]);
      var p := cs[0];
      if b[p] != Empty then rest
      else if IsEyeish(n, b, p, Black) then Territory(rest.black + 1, rest.white)
      else if IsEyeish(n, b, p, White) then Territory(rest.black, rest.white + 1)
      else rest
  }

  /** `get_winner`: stones plus territory for each side, komi for White, minus
      one point per pass; the higher score wins and equal scores tie
      (`Empty`). The engine's `+1`/`-1`/`0` are `Black`/`White`/`Empty`. */
  function GetWinner(s: GameState): Color
    requires WellFormed(s)
  {
    AllCellsFacts(s.size);
    var cells := AllCells(s.size);
    var t := TerritoryAmong(s.size, s.board, cells);
    var scoreWhite := (StonesAmong(s.board, cells, White) + t.white) as real + s.komi - s.passesWhite as real;
    var scoreBlack := (StonesAmong(s.board, cells, Black) + t.black) as real - s.passesBlack as real;
    if scoreBlack > scoreWhite then Black
    else if scoreWhite > scoreBlack then White
    else Empty
  }

  /** The stones of colour `c` among `cs`. */
  ghost function StoneSet(b: Board, cs: seq<Pos>, c: Color): set<Pos>
    requires forall q :: q in cs ==> q in b
  {
    set q | q in cs && b[q] == c
  }

  /** The points among `cs` that `get_winner` credits to Black: empty and
      enclosed by Black stones. */
  ghost function BlackArea(n: nat, b: Board, cs: seq<Pos>): set<Pos>
    requires b.Keys == AllPos(n) && forall q :: q in cs ==> OnBoard(n, q)
  {
    set q | q in cs && IsEyeish(n, b, q, Black)
  }

  /** The points among `cs` that `get_winner` credits to White: empty,
      enclosed by White stones, and not already credited to Black. */
  ghost function WhiteArea(n: nat, b: Board, cs: seq<Pos>): set<Pos>
    requires b.Keys == AllPos(n) && forall q :: q in cs ==> OnBoard(n, q)
  {
    set q | q in cs && WhitePoint(n, b, q)
  }

  /** An empty point enclosed by White and not by Black. */
  predicate WhitePoint(n: nat, b: Board, q: Pos)
    requires b.Keys == AllPos(n) && OnBoard(n, q)
  {
    IsEyeish(n, b, q, White) && !IsEyeish(n, b, q, Black)
  }

  /** Counting stones along a duplicate-free enumeration gives the number of
      such stones. */
  lemma {:induction false} StonesAmongCount(b: Board, cs: seq<Pos>, c: Color)
    requires Distinct(cs) && forall q :: q in cs ==> q in b
    ensures StonesAmong(b, cs, c) == |StoneSet(b, cs, c)|
  {
    if cs == [] {
      assert StoneSet(b, cs, c) == {};
    } else {
      StonesAmongCount(b, cs[1..], c);
      assert cs[0] !in cs[1..];
      if b[cs[0]] == c {
        assert StoneSet(b, cs, c) == StoneSet(b, cs[1..], c) + {cs[0]};
      } else {
        assert StoneSet(b, cs, c) == StoneSet(b, cs[1..], c);
      }
    }
  }

  /** The territory loop counts exactly the points credited to each side. */
  lemma {:induction false} TerritoryAmongCount(n: nat, b: Board, cs: seq<Pos>)
    requires b.Keys == AllPos(n) && Distinct(cs) && forall q :: q in cs ==> OnBoard(n, q)
    ensures TerritoryAmong(n, b, cs).black == |BlackArea(n, b, cs)|
    ensures TerritoryAmong(n, b, cs).white == |WhiteArea(n, b, cs)|
  {
    if cs == [] {
      assert BlackArea(n, b, cs) == {} && WhiteArea(n, b, cs) == {};
    } else {
      TerritoryAmongCount(n, b, cs[1..]);
      BlackAreaStep(n, b, cs);
      WhiteAreaStep(n, b, cs);
    }
  }

  lemma BlackAreaStep(n: nat, b: Board, cs: seq<Pos>)
    requires b.Keys == AllPos(n) && Distinct(cs) && cs != [] && forall q :: q in cs ==> OnBoard(n, q)
    ensures |BlackArea(n, b, cs)| == |BlackArea(n, b, cs[1..])| + (if IsEyeish(n, b, cs[0], Black) then 1 else 0)
  {
    assert cs[0] !in cs[1..];
    if IsEyeish(n, b, cs[0], Black) {
      assert BlackArea(n, b, cs) == BlackArea(n, b, cs[1..]) + {cs[0]};
    } else {
      assert BlackArea(n, b, cs) == BlackArea(n, b, cs[1..]);
    }
  }

  lemma WhiteAreaStep(n: nat, b: Board, cs: seq<Pos>)
    requires b.Keys == AllPos(n) && Distinct(cs) && cs != [] && forall q :: q in cs ==> OnBoard(n, q)
    ensures |WhiteArea(n, b, cs)| == |WhiteArea(n, b, cs[1..])| + (if WhitePoint(n, b, cs[0]) then 1 else 0)
  {
    assert cs[0] !in cs[1..];
    if WhitePoint(n, b, cs[0]) {
      assert WhiteArea(n, b, cs) == WhiteArea(n, b, cs[1..]) + {cs[0]};
    } else {
      assert WhiteArea(n, b, cs) == WhiteArea(n, b, cs[1..]);
    }
  }

  /** On boards of size at least two every point has a neighbour, so no point
      is enclosed by both colours and White is credited every point it
      encloses; only the single point of a 1×1 board goes to Black alone. */
  lemma NoDoubleEyeish(n: nat, b: Board, p: Pos)
    requires b.Keys == AllPos(n) && OnBoard(n, p) && n >= 2
    ensures !(IsEyeish(n, b, p, Black) && IsEyeish(n, b, p, White))
  {
    NeighborCount(n, p);
    var nb := Neighbors(n, p)[0];
    assert nb in Neighbors(n, p);
  }

  /** The area score of player `c`: its stones plus the empty points credited
      to it, komi for White, minus one point per pass. */
  ghost function AreaScore(s: GameState, c: Player): real
    requires WellFormed(s)
  {
    AllCellsFacts(s.size);
    var cells := AllCells(s.size);
    if c == Black then
      (|StoneSet(s.board, cells, Black)| + |BlackArea(s.size, s.board, cells)|) as real - s.passesBlack as real
    else
      (|StoneSet(s.board, cells, White)| + |WhiteArea(s.size, s.board, cells)|) as real + s.komi - s.passesWhite as real
  }

  /** `get_winner` names the player with the higher area score, and `Empty`
      exactly on a tie. */
  lemma WinnerHasHigherScore(s: GameState)
    requires WellFormed(s)
    ensures GetWinner(s) == Black <==> AreaScore(s, Black) > AreaScore(s, White)
    ensures GetWinner(s) == White <==> AreaScore(s, White) > AreaScore(s, Black)
    ensures GetWinner(s) == Empty <==> AreaScore(s, White) == AreaScore(s, Black)
  {
    AllCellsFacts(s.size);
    var cells := AllCells(s.size);
    StonesAmongCount(s.board, cells, Black);
    StonesAmongCount(s.board, cells, White);
    TerritoryAmongCount(s.size, s.board, cells);
  }

  /* ---------- legal moves ---------- */

  /** The two lists `get_legal_moves` builds. */
  datatype MoveLists = MoveLists(sensible: seq<Pos>, eyes: seq<Pos>)

  /** Whether a stone at `p` fills one of the mover's own true eyes. */
  predicate FillsOwnEye(s: GameState, p: Pos)
    requires WellFormed(s) && OnBoard(s.size, p)
  {
    IsEye(s.size, s.board, p, s.currentPlayer)
  }

  /** The loop of `get_legal_moves` over `cs`: every legal point goes to the
      eye list if it is a true eye of the player to move, else to the
      sensible list, keeping the order of `cs`. */
  function SplitLegal(s: GameState, cs: seq<Pos>): (r: MoveLists)
    requires WellFormed(s) && forall q :: q in cs ==> OnBoard(s.size, q)
    ensures forall p :: p in r.sensible <==> p in cs && IsLegal(s, Play(p)) && !FillsOwnEye(s, p)
    ensures forall p :: p in r.eyes <==> p in cs && IsLegal(s, Play(p)) && FillsOwnEye(s, p)
  {
    if cs == [] then MoveLists([], [])
    else
      var rest := SplitLegal(s, cs[1..]);
      var p := cs[0];
      if !IsLegal(s, Play(p)) then rest
      else if !FillsOwnEye(s, p) then MoveLists([p] + rest.sensible, rest.eyes)
      else MoveLists(rest.sensible, [p] + rest.eyes)
  }

  /** Neither list repeats a point when the enumeration does not. */
  lemma {:induction false} SplitLegalDistinct(s: GameState, cs: seq<Pos>)
    requires WellFormed(s) && forall q :: q in cs ==> OnBoard(s.size, q)
    requires Distinct(cs)
    ensures Distinct(SplitLegal(s, cs).sensible) && Distinct(SplitLegal(s, cs).eyes)
  {
    if cs != [] {
      SplitLegalDistinct(s, cs[1..]);
      var rest := SplitLegal(s, cs[1..]);
      assert cs[0] !in cs[1..];
      DistinctAppend([cs[0]], rest.sensible);
      DistinctAppend([cs[0]], rest.eyes);
    }
  }

  /** `get_legal_moves(include_eyes)`: the legal points in row-major order,
      sensible moves first, followed by the eye-filling ones if asked for. */
  function GetLegalMoves(s: GameState, includeEyes: bool): (r: seq<Pos>)
    requires WellFormed(s)
    ensures forall p :: p in r <==> OnBoard(s.size, p) && IsLegal(s, Play(p)) && (includeEyes || !FillsOwnEye(s, p))
    ensures Distinct(r)
  {
    AllCellsFacts(s.size);
    var lists := SplitLegal(s, AllCells(s.size));
    SplitLegalDistinct(s, AllCells(s.size));
    if includeEyes then
      DistinctAppend(lists.sensible, lists.eyes);
      lists.sensible + lists.eyes
    else lists.sensible
  }
}
