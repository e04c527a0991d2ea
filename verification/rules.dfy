/** The rules of play: suicide, ko and positional superko legality
    (`is_suicide`, `is_positional_superko`, `is_legal`) and the state
    transition `do_move` with its capture loop and end-of-game detection. */
module Rules {
  import opened GoTypes
  import opened Geometry
  import opened Seqs
  import opened Zobrist
  import opened GameStates
  import opened Groups

  /* ---------- suicide ---------- */

  /** Neighbour `nb` rescues a stone of the player to move at `p` that has no
      liberty of its own: a friendly group with a liberty other than `p`, or an
      opponent group whose only liberty is `p` (it would be captured). */
  predicate Saves(s: GameState, p: Pos, nb: Pos)
    requires WellFormed(s) && OnBoard(s.size, nb)
  {
    var hasOther := |s.libertySets[nb] - {p}| > 0;
    || (s.board[nb] == s.currentPlayer && hasOther)
    || (s.board[nb] == Opponent(s.currentPlayer) && !hasOther)
  }

  /** The neighbour loop of `is_suicide`, which stops at the first rescuing
      neighbour. */
  function AnySaves(s: GameState, p: Pos, ns: seq<Pos>): (r: bool)
    requires WellFormed(s) && forall q :: q in ns ==> OnBoard(s.size, q)
    ensures r <==> exists nb :: nb in ns && Saves(s, p, nb)
  {
    if ns == [] then false
    else if Saves(s, p, ns[0]) then true
    else AnySaves(s, p, ns[1..])
  }

  /** `is_suicide`: a stone of the player to move at `p` would have no liberty
      and no neighbour rescues it. */
  predicate IsSuicide(s: GameState, p: Pos)
    requires WellFormed(s) && OnBoard(s.size, p)
  {
    |s.libertySets[p]| == 0 && !AnySaves(s, p, Neighbors(s.size, p))
  }

  /** The suicide rule in full: no liberty of its own, no friendly neighbour
      with a liberty besides `p`, and no opponent neighbour whose last
      liberty is `p`. */
  lemma SuicideRule(s: GameState, p: Pos)
    requires WellFormed(s) && OnBoard(s.size, p)
    ensures IsSuicide(s, p) <==>
              && |s.libertySets[p]| == 0
              && forall nb :: nb in Neighbors(s.size, p) ==>
                   && !(s.board[nb] == s.currentPlayer && |s.libertySets[nb] - {p}| > 0)
                   && !(s.board[nb] == Opponent(s.currentPlayer) && |s.libertySets[nb] - {p}| == 0)
  {
    var ns := Neighbors(s.size, p);
    assert IsSuicide(s, p) <==> |s.libertySets[p]| == 0 && !AnySaves(s, p, ns);
    forall nb | nb in ns
      ensures Saves(s, p, nb) <==>
                || (s.board[nb] == s.currentPlayer && |s.libertySets[nb] - {p}| > 0)
                || (s.board[nb] == Opponent(s.currentPlayer) && |s.libertySets[nb] - {p}| == 0)
    {
    }
  }

  /* ---------- positional superko ---------- */

  /** `h[start::2]`: every second entry of `h`, from index `start` on. */
  function EveryOther<T>(h: seq<T>, start: nat): (r: seq<T>)
    ensures |r| == if start < |h| then (|h| - start + 1) / 2 else 0
    ensures forall i :: 0 <= i < |r| ==> start + 2 * i < |h| && r[i] == h[start + 2 * i]
    decreases |h| - start
  {
    if start >= |h| then [] else [h[start]] + EveryOther(h, start + 2)
  }

  /** The moves of the player to move so far: the even entries of the history
      when that player moved first (Black without handicaps, White after
      handicap stones, which are not part of the history), else the odd ones. */
  function OwnMoves(s: GameState): seq<Action> {
    if (|s.handicaps| == 0 && s.currentPlayer == Black) || (|s.handicaps| > 0 && s.currentPlayer == White)
    then EveryOther(s.history, 0)
    else EveryOther(s.history, 1)
  }

  /** The state in which `is_positional_superko` simulates the move: a copy
      that does not itself enforce superko. */
  function Simulation(s: GameState): (r: GameState)
    requires WellFormed(s)
    ensures WellFormed(r) && !r.enforceSuperko
  {
    Copy(s).(enforceSuperko := false)
  }

  /** `is_positional_superko`: only an action the player has played before (or
      a handicap point) can repeat a position; for such an action the move is
      simulated on a copy and the resulting hash looked up among the hashes
      seen so far. An `IllegalMove` raised by the simulated move propagates as
      a failure. */
  function IsPositionalSuperko(s: GameState, a: Action): (r: Result<bool>)
    requires WellFormed(s)
    ensures a !in s.handicaps && a !in OwnMoves(s) ==> r == Success(false)
    decreases 1, 0
  {
    if a !in s.handicaps && a !in OwnMoves(s) then Success(false)
    else
      match DoMove(Simulation(s), a, Empty)
      case Failure(e) => Failure(e)
      case Success(after) => Success(after.currentHash in s.previousHashes)
  }

  /* ---------- legality ---------- */

  /** `is_legal`: a pass always is; a stone must be on the board, on an empty
      cell, not suicide, not on the ko point and, when superko is enforced, not
      a repetition. A failing superko simulation makes the move illegal, as the
      exception escapes `do_move` as `IllegalMove`. */
  predicate IsLegal(s: GameState, a: Action)
    requires WellFormed(s)
    decreases if s.enforceSuperko then 1 else 0, 1
  {
    match a
    case Pass => true
    case Play(p) =>
      if !OnBoard(s.size, p) then false
      else if s.board[p] != Empty then false
      else if IsSuicide(s, p) then false
      else if s.ko == Some(p) then false
      else if s.enforceSuperko && IsPositionalSuperko(s, a) != Success(false) then false
      else true
  }

  /* ---------- the transition ---------- */

  /** `stone_ages[stone_ages >= 0] += 1`. */
  function Aged(ages: map<Pos, int>): (r: map<Pos, int>)
    ensures r.Keys == ages.Keys
    ensures forall q :: q in r ==> (ages[q] >= 0 ==> r[q] == ages[q] + 1) && (ages[q] < 0 ==> r[q] == ages[q])
  {
    map q | q in ages :: if ages[q] >= 0 then ages[q] + 1 else ages[q]
  }

  /** Whether the last two entries of `h` are passes. */
  predicate TwoPasses(h: seq<Action>) {
    |h| > 1 && h[|h| - 1] == Pass && h[|h| - 2] == Pass
  }

  /** The board and the group, liberty and count indices of a state. */
  function Indices(s: GameState): (Board, map<Pos, set<Pos>>, map<Pos, set<Pos>>, map<Pos, int>) {
    (s.board, s.groupSets, s.libertySets, s.libertyCounts)
  }

  /** Two states hold the same position: size, board, indices, key table
      and hash agree. */
  predicate SamePosition(s: GameState, r: GameState) {
    r.size == s.size && Indices(r) == Indices(s) && r.hashLookup == s.hashLookup && r.currentHash == s.currentHash
  }

  /** Captured stones are added to the prisoners of their colour: the
      opponent's of `c`, who captured them. */
  function AddPrisoners(s: GameState, c: Player, k: nat): (r: GameState)
    ensures WellFormed(s) ==> WellFormed(r)
    ensures SameContext(s, r) && r.board == s.board && r.ko == s.ko
    ensures Indices(r) == Indices(s) && r.currentHash == s.currentHash
    ensures c == Black ==> r.whitePrisoners == s.whitePrisoners + k && r.blackPrisoners == s.blackPrisoners
    ensures c == White ==> r.blackPrisoners == s.blackPrisoners + k && r.whitePrisoners == s.whitePrisoners
  {
    if c == Black then s.(whitePrisoners := s.whitePrisoners + k)
    else s.(blackPrisoners := s.blackPrisoners + k)
  }

  /** The ko rule of the capture loop: after a single stone was captured at
      `nb`, `nb` becomes the ko point when the capturing stone at `p` forms a
      group of one stone with exactly one liberty. */
  function KoCheck(s: GameState, p: Pos, nb: Pos, k: nat): (r: GameState)
    requires WellFormed(s) && OnBoard(s.size, p)
    ensures WellFormed(r) && SameContext(s, r) && r.board == s.board
    ensures Indices(r) == Indices(s) && r.currentHash == s.currentHash
    ensures r.blackPrisoners == s.blackPrisoners && r.whitePrisoners == s.whitePrisoners
    ensures r.ko == (if k == 1 && |s.libertySets[p]| == 1 && |s.groupSets[p]| == 1 then Some(nb) else s.ko)
  {
    if k == 1 && |s.libertySets[p]| == 1 && |s.groupSets[p]| == 1 then s.(ko := Some(nb)) else s
  }

  /** The capture branch for neighbour `nb`: remove its group, count the
      prisoners, check for ko. */
  function Capture(s: GameState, p: Pos, c: Player, nb: Pos): (r: GameState)
    requires WellFormed(s) && OnBoard(s.size, p) && OnBoard(s.size, nb)
    ensures WellFormed(r) && SameContext(s, r)
    ensures Indices(r) == Indices(RemoveGroup(s, s.groupSets[nb]))
    ensures r.currentHash == RemoveGroup(s, s.groupSets[nb]).currentHash
  {
    var captured := s.groupSets[nb];
    KoCheck(AddPrisoners(RemoveGroup(s, captured), c, |captured|), p, nb, |captured|)
  }

  /** One iteration of the capture loop of `do_move` for neighbour `nb` of the
      stone of `c` just placed at `p`: an opponent group left without liberties
      is captured. */
  function CaptureStep(s: GameState, p: Pos, c: Player, nb: Pos): (r: GameState)
    requires WellFormed(s) && OnBoard(s.size, p) && OnBoard(s.size, nb)
    ensures WellFormed(r) && SameContext(s, r)
  {
    if s.board[nb] == Opponent(c) && |s.libertySets[nb]| == 0 then Capture(s, p, c, nb) else s
  }

  /** The capture loop of `do_move`, over the neighbours `ns` in order. */
  function Captures(s: GameState, p: Pos, c: Player, ns: seq<Pos>): (r: GameState)
    requires WellFormed(s) && OnBoard(s.size, p) && forall q :: q in ns ==> OnBoard(s.size, q)
    ensures WellFormed(r) && SameContext(s, r)
    decreases |ns|
  {
    if ns == [] then s else Captures(CaptureStep(s, p, c, ns[0]), p, c, ns[1..])
  }

  /** Put a stone of `c` on `p` and XOR its key into the hash. */
  function Place(s: GameState, p: Pos, c: Player): (r: GameState)
    requires WellFormed(s) && OnBoard(s.size, p)
    ensures WellFormed(r) && SameContext(s, r) && r.board == s.board[p := c]
    ensures r.currentHash == Toggle(s.currentHash, s.hashLookup, c, p)
  {
    var r := s.(board := s.board[p := c], currentHash := Toggle(s.currentHash, s.hashLookup, c, p));
    assert r.board.Keys == AllPos(s.size);
    r
  }

  /** The newly placed stone at `p` gets age 0. */
  function Newborn(s: GameState, p: Pos): (r: GameState)
    requires WellFormed(s) && OnBoard(s.size, p)
    ensures WellFormed(r) && SameContext(s, r) && r.board == s.board && r.stoneAges == s.stoneAges[p := 0]
  {
    var r := s.(stoneAges := s.stoneAges[p := 0]);
    assert r.stoneAges.Keys == AllPos(s.size);
    r
  }

  /** The stone branch of `do_move`: put the stone on the board and into the
      hash, merge it with its neighbours, give it age 0, capture, and remember
      the resulting hash. */
  function PlayStone(s: GameState, p: Pos, c: Player): (r: GameState)
    requires WellFormed(s) && OnBoard(s.size, p)
    ensures WellFormed(r) && SameContext(s, r.(previousHashes := s.previousHashes))
  {
    var captured := Captures(Newborn(UpdateNeighbors(Place(s, p, c), p), p), p, c, Neighbors(s.size, p));
    captured.(previousHashes := captured.previousHashes + {captured.currentHash})
  }

  /** The pass branch of `do_move`: only the passing colour's counter grows. */
  function PlayPass(s: GameState, c: Player): (r: GameState)
    ensures WellFormed(s) ==> WellFormed(r)
    ensures SamePosition(s, r)
  {
    if c == Black then s.(passesBlack := s.passesBlack + 1) else s.(passesWhite := s.passesWhite + 1)
  }

  /** The colour `do_move` plays: the given one, or the player to move when
      none is given (`color or self.current_player`). */
  function MoveColor(s: GameState, color: Color): (c: Player)
    ensures color != Empty ==> c == color
    ensures color == Empty ==> c == s.currentPlayer
  {
    if color == Empty then s.currentPlayer else color
  }

  /** The state in which `do_move` judges and plays its action: `s` with the
      mover as player to move and nothing else changed. */
  function Mover(s: GameState, color: Color): (r: GameState)
    ensures WellFormed(s) ==> WellFormed(r)
    ensures r.currentPlayer == MoveColor(s, color)
    ensures r == s.(currentPlayer := r.currentPlayer)
  {
    s.(currentPlayer := MoveColor(s, color))
  }

  /** The legal branch of `do_move` for mover `c` (already the player to
      move in `s`): clear the ko point, age the stones, shift the board
      snapshots, play the stone or the pass, hand the turn to the opponent,
      append the action to the history, and end the game after two
      consecutive passes that leave White to move. */
  function Transition(s: GameState, a: Action, c: Player): (r: GameState)
    requires WellFormed(s) && (a.Play? ==> OnBoard(s.size, a.at))
    ensures WellFormed(r) && r.size == s.size && r.handicaps == s.handicaps
    ensures r.currentPlayer == Opponent(c) && r.history == s.history + [a]
    ensures |r.boardHistory| == |s.boardHistory|
  {
    match a
    case Pass => Handover(PlayPass(StartMove(s), c), a, c)
    case Play(p) => Handover(PlayStone(StartMove(s), p, c), a, c)
  }

  /** The first steps of a legal move: no ko point, every stone one move
      older, the current board appended to the snapshots and the oldest
      snapshot dropped. */
  function StartMove(s: GameState): (r: GameState)
    requires WellFormed(s)
    ensures WellFormed(r) && r.board == s.board && r.ko == None && SamePosition(s, r)
    ensures r == s.(ko := None, stoneAges := r.stoneAges, boardHistory := r.boardHistory)
    ensures |r.boardHistory| == |s.boardHistory|
  {
    var r := s.(ko := None, stoneAges := Aged(s.stoneAges), boardHistory := (s.boardHistory + [s.board])[1..]);
    assert r.stoneAges.Keys == AllPos(s.size);
    r
  }

  /** The last steps of a legal move: the opponent is to move, the action
      joins the history, and two passes in a row leaving White to move end
      the game for good. */
  function Handover(s: GameState, a: Action, c: Player): (r: GameState)
    ensures WellFormed(s) ==> WellFormed(r)
    ensures SamePosition(s, r)
    ensures r.currentPlayer == Opponent(c) && r.history == s.history + [a]
    ensures r.isEndOfGame <==> s.isEndOfGame || (TwoPasses(s.history + [a]) && Opponent(c) == White)
    ensures r == s.(currentPlayer := r.currentPlayer, history := r.history, isEndOfGame := r.isEndOfGame)
  {
    var next := s.(currentPlayer := Opponent(c), history := s.history + [a]);
    next.(isEndOfGame := next.isEndOfGame || (TwoPasses(next.history) && next.currentPlayer == White))
  }

  /** `do_move`: an illegal action (judged with the mover as player to move)
      fails with `IllegalAction` and changes nothing; a legal one makes the
      transition. The engine's return value is the end-of-game flag of the
      new state. */
  function DoMove(s: GameState, a: Action, color: Color): (r: Result<GameState>)
    requires WellFormed(s)
    ensures r.Success? <==> IsLegal(Mover(s, color), a)
    ensures r.Failure? ==> r.error == IllegalAction(a)
    decreases if s.enforceSuperko then 1 else 0, 2
  {
    var mover := Mover(s, color);
    if !IsLegal(mover, a) then Failure(IllegalAction(a))
    else Success(Transition(mover, a, MoveColor(s, color)))
  }

  /** A successful `do_move` is the transition of the mover's state: the
      action's stone is on the board and the result is `Transition`. */
  lemma DoMoveTransition(s: GameState, a: Action, color: Color)
    requires WellFormed(s)
    ensures DoMove(s, a, color).Success? ==>
              && (a.Play? ==> OnBoard(s.size, a.at))
              && DoMove(s, a, color).value == Transition(Mover(s, color), a, MoveColor(s, color))
  {
  }

  /** The transition of a pass keeps the position, grows only the passing
      colour's counter, clears the ko point and hands the turn over. */
  lemma TransitionPass(s: GameState, c: Player)
    requires WellFormed(s)
    ensures var r := Transition(s, Pass, c);
            && SamePosition(s, r) && r.ko == None
            && r.passesBlack == s.passesBlack + (if c == Black then 1 else 0)
            && r.passesWhite == s.passesWhite + (if c == White then 1 else 0)
  {
  }

  /** A pass always succeeds: the position stays, only the mover's pass
      counter grows, the ko point is cleared and the opponent is to move. */
  lemma DoMovePass(s: GameState, color: Color)
    requires WellFormed(s)
    ensures DoMove(s, Pass, color).Success?
    ensures var r, c := DoMove(s, Pass, color).value, MoveColor(s, color);
            && SamePosition(s, r) && r.ko == None
            && r.passesBlack == s.passesBlack + (if c == Black then 1 else 0)
            && r.passesWhite == s.passesWhite + (if c == White then 1 else 0)
            && r.currentPlayer == Opponent(c) && r.history == s.history + [Pass]
  {
    DoMoveTransition(s, Pass, color);
    TransitionPass(Mover(s, color), MoveColor(s, color));
  }

  /** Which stones `do_move` refuses: off the board, on a stone, on the ko
      point, suicide for the mover, or a repetition when superko is
      enforced; without superko every other stone is played. */
  lemma DoMoveStone(s: GameState, p: Pos, color: Color)
    requires WellFormed(s)
    ensures var r := DoMove(s, Play(p), color);
            && (!OnBoard(s.size, p) ==> r == Failure(IllegalAction(Play(p))))
            && (OnBoard(s.size, p) && s.board[p] != Empty ==> r == Failure(IllegalAction(Play(p))))
            && (s.ko == Some(p) ==> r == Failure(IllegalAction(Play(p))))
            && (OnBoard(s.size, p) && IsSuicide(Mover(s, color), p) ==> r == Failure(IllegalAction(Play(p))))
    ensures OnBoard(s.size, p) && s.enforceSuperko && IsPositionalSuperko(Mover(s, color), Play(p)) != Success(false)
            ==> DoMove(s, Play(p), color) == Failure(IllegalAction(Play(p)))
    ensures OnBoard(s.size, p) && s.board[p] == Empty && s.ko != Some(p) && !s.enforceSuperko && !IsSuicide(Mover(s, color), p)
            ==> DoMove(s, Play(p), color).Success?
  {
  }
}
