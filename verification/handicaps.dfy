/** Handicap placement (`place_handicaps`): Black stones played before the
    first move, after which the history is cleared and the board snapshots
    are reset. */
module Handicaps {
  import opened GoTypes
  import opened Geometry
  import opened GameStates
  import opened Seqs
  import opened Rules
  import opened Invariant
  import opened MoveOutcome

  /** The loop of `place_handicaps`: `do_move(action, BLACK)` for each action
      in turn; the first illegal one stops the loop with its error. */
  function PlayAll(s: GameState, actions: seq<Action>): (r: Result<GameState>)
    requires WellFormed(s)
    ensures r.Failure? ==> exists a :: a in actions && r.error == IllegalAction(a)
    ensures r.Success? ==> WellFormed(r.value) && r.value.size == s.size && r.value.handicaps == s.handicaps
    ensures r.Success? ==> |r.value.boardHistory| == |s.boardHistory|
    ensures r.Success? && actions != [] ==> r.value.currentPlayer == White
    ensures r.Success? && actions == [] ==> r.value == s
    decreases |actions|
  {
    if actions == [] then Success(s)
    else
      match DoMove(s, actions[0], Black)
      case Failure(e) => Failure(e)
      case Success(next) =>
        var rest := PlayAll(next, actions[1..]);
        assert rest.Failure? ==> exists a :: a in actions[1..] && rest.error == IllegalAction(a);
        rest
  }

  /** `place_handicaps` as written: on a game that has started it refuses;
      otherwise it records the handicap actions, plays them, clears the
      history, and then evaluates `history_length - 1` and `size`, names that
      are not defined in that scope, so it always ends in a `NameError` after
      the stones have been played. */
  function PlaceHandicapsAsWritten(s: GameState, actions: seq<Action>): (r: Result<GameState>)
    requires WellFormed(s)
    ensures r.Failure?
  {
    if |s.history| > 0 then Failure(HandicapOnStartedGame)
    else
      match PlayAll(s.(handicaps := s.handicaps + actions), actions)
      case Failure(e) => Failure(e)
      case Success(_) => Failure(UndefinedName("history_length"))
  }

  /** `place_handicaps` as evidently intended: the board snapshots are reset
      to empty boards of the game's own size, as many as the game keeps. */
  function PlaceHandicaps(s: GameState, actions: seq<Action>): (r: Result<GameState>)
    requires WellFormed(s)
    ensures |s.history| > 0 ==> r == Failure(HandicapOnStartedGame)
    ensures r.Failure? && |s.history| == 0 ==> exists a :: a in actions && r.error == IllegalAction(a)
    ensures r.Success? ==> && WellFormed(r.value) && r.value.size == s.size
                           && r.value.history == [] && r.value.handicaps == s.handicaps + actions
                           && |r.value.boardHistory| == |s.boardHistory|
                           && (forall i :: 0 <= i < |r.value.boardHistory| ==> r.value.boardHistory[i] == EmptyBoard(s.size))
                           && (actions != [] ==> r.value.currentPlayer == White)
  {
    if |s.history| > 0 then Failure(HandicapOnStartedGame)
    else
      match PlayAll(s.(handicaps := s.handicaps + actions), actions)
      case Failure(e) => Failure(e)
      case Success(played) =>
        Success(ClearedHistory(played))
  }

  /** The history cleared and every board snapshot reset to an empty board. */
  function ClearedHistory(s: GameState): (r: GameState)
    requires WellFormed(s)
    ensures WellFormed(r) && r.size == s.size && r.history == [] && r.handicaps == s.handicaps
    ensures r.currentPlayer == s.currentPlayer && |r.boardHistory| == |s.boardHistory|
    ensures forall i :: 0 <= i < |r.boardHistory| ==> r.boardHistory[i] == EmptyBoard(s.size)
  {
    var r := s.(history := [], boardHistory := seq(|s.boardHistory|, _ => EmptyBoard(s.size)));
    assert Shaped(r.size, r.board, r.groupSets, r.libertySets, r.libertyCounts, r.stoneAges);
    r
  }

  /** Wherever the intended placement succeeds, the code as written raises
      `NameError` for `history_length` instead. */
  lemma AsWrittenFailsWhereIntendedSucceeds(s: GameState, actions: seq<Action>)
    requires WellFormed(s)
    ensures PlaceHandicaps(s, actions).Success? ==>
              PlaceHandicapsAsWritten(s, actions) == Failure(UndefinedName("history_length"))
    ensures PlaceHandicaps(s, actions).Failure? ==>
              PlaceHandicapsAsWritten(s, actions) == PlaceHandicaps(s, actions)
  {
  }

  /* ---------- the placement loop ---------- */

  /** A failed loop stopped at some action `actions[i]`: every action before
      it was played, `actions[i]` was illegal on the board they left, and its
      `IllegalAction` is the loop's error. */
  lemma {:induction false} PlayAllStops(s: GameState, actions: seq<Action>)
    requires WellFormed(s)
    ensures var r := PlayAll(s, actions);
            r.Failure? ==>
              exists i :: 0 <= i < |actions| && PlayAll(s, actions[..i]).Success?
                          && DoMove(PlayAll(s, actions[..i]).value, actions[i], Black).Failure?
                          && r.error == IllegalAction(actions[i])
    decreases |actions|
  {
    if actions != [] {
      match DoMove(s, actions[0], Black) {
        case Failure(e) =>
          assert actions[..0] == [];
          assert PlayAll(s, actions[..0]) == Success(s);
        case Success(next) =>
          PlayAllStops(next, actions[1..]);
          if PlayAll(next, actions[1..]).Failure? {
            var j :| 0 <= j < |actions[1..]| && PlayAll(next, actions[1..][..j]).Success?
                     && DoMove(PlayAll(next, actions[1..][..j]).value, actions[1..][j], Black).Failure?
                     && PlayAll(next, actions[1..]).error == IllegalAction(actions[1..][j]);
            PlayAllPrefix(s, actions, j + 1);
            assert actions[j + 1] == actions[1..][j];
          }
      }
    }
  }

  /** A nonempty prefix whose first action is legal plays that action and
      then the rest of the prefix. */
  lemma PlayAllPrefix(s: GameState, actions: seq<Action>, i: nat)
    requires WellFormed(s) && 0 < i <= |actions| && DoMove(s, actions[0], Black).Success?
    ensures PlayAll(s, actions[..i]) == PlayAll(DoMove(s, actions[0], Black).value, actions[1..][..i - 1])
  {
    PrefixTail(actions, i);
    PlayAllFirst(s, actions[..i]);
  }

  /** A loop whose first action is legal goes on from that action's result. */
  lemma PlayAllFirst(s: GameState, actions: seq<Action>)
    requires WellFormed(s) && actions != [] && DoMove(s, actions[0], Black).Success?
    ensures PlayAll(s, actions) == PlayAll(DoMove(s, actions[0], Black).value, actions[1..])
  {
  }

  /** A successful loop played every action in turn: each was legal on the
      board its predecessors left. */
  lemma {:induction false} PlayAllPlaysEach(s: GameState, actions: seq<Action>)
    requires WellFormed(s)
    ensures PlayAll(s, actions).Success? ==>
              forall i :: 0 <= i < |actions| ==>
                PlayAll(s, actions[..i]).Success? && DoMove(PlayAll(s, actions[..i]).value, actions[i], Black).Success?
    decreases |actions|
  {
    if actions != [] && PlayAll(s, actions).Success? {
      var next := DoMove(s, actions[0], Black).value;
      PlayAllPlaysEach(next, actions[1..]);
      forall i | 0 <= i < |actions|
        ensures PlayAll(s, actions[..i]).Success? && DoMove(PlayAll(s, actions[..i]).value, actions[i], Black).Success?
      {
        if i == 0 {
          assert actions[..0] == [];
        } else {
          PlayAllPrefix(s, actions, i);
        }
      }
    }
  }

  /** The loop keeps the invariant, keeps every Black stone already on the
      board, and leaves a Black stone on the point of every stone action. */
  lemma {:induction false} PlayAllKeeps(s: GameState, actions: seq<Action>)
    requires Inv(s)
    ensures var r := PlayAll(s, actions);
            r.Success? ==> Inv(r.value) && OwnKeptAll(s.size, s.board, actions, r.value.board)
    decreases |actions|
  {
    if actions != [] {
      match DoMove(s, actions[0], Black) {
        case Failure(_) =>
        case Success(next) =>
          BlackStep(s, actions[0]);
          PlayAllKeeps(next, actions[1..]);
          PlayAllFirst(s, actions);
          if PlayAll(next, actions[1..]).Success? {
            OwnKeptStep(s.size, s.board, actions, next.board, PlayAll(next, actions[1..]).value.board);
          }
      }
    }
  }

  /** One legal Black move keeps the invariant and Black's stones. */
  lemma BlackStep(s: GameState, a: Action)
    requires Inv(s)
    ensures var r := DoMove(s, a, Black);
            r.Success? ==> Inv(r.value) && r.value.size == s.size && OwnKept(s.size, s.board, a, Black, r.value.board)
  {
    DoMoveKeepsInv(s, a, Black);
    DoMoveKeepsOwn(s, a, Black);
  }

  /** Board `rb` keeps every Black stone of `b` and has a Black stone on the
      point of every stone action in `actions`. */
  ghost predicate OwnKeptAll(n: nat, b: Board, actions: seq<Action>, rb: Board) {
    && (forall a :: a in actions && a.Play? ==> a.at in rb && rb[a.at] == Black)
    && forall q :: q in AllPos(n) && q in b && b[q] == Black ==> q in rb && rb[q] == Black
  }

  /** One played action followed by the rest of the loop. */
  lemma OwnKeptStep(n: nat, b: Board, actions: seq<Action>, mid: Board, rb: Board)
    requires actions != [] && mid.Keys == AllPos(n)
    requires OwnKept(n, b, actions[0], Black, mid) && OwnKeptAll(n, mid, actions[1..], rb)
    ensures OwnKeptAll(n, b, actions, rb)
  {
    forall a | a in actions && a.Play?
      ensures a.at in rb && rb[a.at] == Black
    {
      if a != actions[0] {
        assert a in actions[1..];
      }
    }
  }

  /** On a game not yet started, a successful placement keeps the invariant,
      keeps every Black stone already on the board, and leaves a Black stone
      on the point of every handicap stone. */
  lemma PlaceHandicapsKeeps(s: GameState, actions: seq<Action>)
    requires Inv(s)
    ensures var r := PlaceHandicaps(s, actions);
            r.Success? ==> Inv(r.value) && OwnKeptAll(s.size, s.board, actions, r.value.board)
  {
    if |s.history| == 0 {
      var h := s.(handicaps := s.handicaps + actions);
      InvSameIndices(s, h);
      PlayAllKeeps(h, actions);
      if PlayAll(h, actions).Success? {
        var played := PlayAll(h, actions).value;
        InvSameIndices(played, ClearedHistory(played));
      }
    }
  }
}
