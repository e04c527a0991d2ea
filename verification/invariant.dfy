/** Every move `do_move` accepts keeps the invariant `Inv`: the indices stay
    consistent with the board, the incremental hash stays the hash of the
    board, and no stone is left without liberties.

    The last part is where the rules matter. After the stone of `c` goes on
    `p` and merges into the group `m`, a surviving group outside `m` still
    has a liberty other than `p`, or else it was an opponent group that the
    capture loop removed; the group `m` itself has a liberty because the
    move is not suicide. The lemmas below follow that argument on the maps
    `b`, `groups`, `libs` of the board before the stone, `b2`, `groups2`
    after placement and `bF`, `groupsF` after the captures. */
module Invariant {
  import opened GoTypes
  import opened Geometry
  import opened Zobrist
  import opened GameStates
  import opened Groups
  import opened Liberties
  import opened Placement
  import opened Rules
  import opened Capturing

  /* ---------- liberties after placement and capture ---------- */

  /** A group of the mover's colour that had `p` as a liberty was merged into
      the placed stone's group. */
  lemma FriendMerged(n: nat, b: Board, groups: map<Pos, set<Pos>>, c: Player, p: Pos, m: set<Pos>, q: Pos)
    requires b.Keys == groups.Keys == AllPos(n) && OnBoard(n, p)
    requires GroupsShared(b, groups) && StonesGrouped(b, groups) && FriendsIn(n, b, groups, c, p, m)
    requires q in AllPos(n)
    ensures b[q] == c && p in LibertiesOf(n, b, groups[q]) ==> q in m
  {
    if b[q] == c && p in LibertiesOf(n, b, groups[q]) {
      LibertyWitness(n, b, groups[q], p);
      var x :| x in groups[q] && Adjacent(x, p);
      SharedAt(b, groups, q, x);
      NeighborOf(n, p, x);
      assert FriendOf(n, b, groups, c, p, x);
    }
  }

  /** A stone outside the merged group whose group lost its last liberty to
      the placed stone is an opponent stone, and the capture loop removed it. */
  lemma OutsideCaptured(n: nat, b: Board, groups: map<Pos, set<Pos>>, c: Player, p: Pos, m: set<Pos>,
                        b2: Board, groups2: map<Pos, set<Pos>>, bF: Board, groupsF: map<Pos, set<Pos>>, q: Pos)
    requires b.Keys == groups.Keys == AllPos(n) && OnBoard(n, p) && b[p] == Empty
    requires GroupsShared(b, groups) && StonesGrouped(b, groups)
    requires MembersFrom(n, b, groups, c, p, m) && FriendsIn(n, b, groups, c, p, m)
    requires b2 == b[p := c] && groups2 == Assign(groups, m, m)
    requires CapturedFrom(n, b2, groups2, bF, groupsF, c)
    requires forall nb :: nb in Neighbors(n, p) && b2[nb] == Opponent(c) && LibertiesOf(n, b2, groups2[nb]) == {}
               ==> bF[nb] == Empty
    requires q in AllPos(n) && b[q] != Empty && q !in m && LibertiesOf(n, b, groups[q]) != {}
    ensures LibertiesOf(n, b2, groups[q]) == {} ==> bF[q] == Empty
  {
    var h := groups[q];
    if LibertiesOf(n, b2, h) == {} {
      LibertiesPlaced(n, b, p, c, h);
      assert p in LibertiesOf(n, b, h);
      FriendMerged(n, b, groups, c, p, m, q);
      LibertyWitness(n, b, h, p);
      var x :| x in h && Adjacent(x, p);
      SharedAt(b, groups, q, x);
      NeighborOf(n, p, x);
      MergedColour(n, b, groups, c, p, m);
      assert groups2[x] == h;
      assert bF[x] == Empty;
      assert Removed(n, b2, groups2, bF, c, x);
    }
  }

  /** Neighbour `nb` rescues a stone of `c` at `p`: a friendly group with a
      liberty besides `p`, or an opponent group with no liberty besides `p`. */
  ghost predicate Rescues(b: Board, libs: map<Pos, set<Pos>>, c: Player, p: Pos, nb: Pos)
    requires nb in b && nb in libs
  {
    || (b[nb] == c && libs[nb] - {p} != {})
    || (b[nb] == Opponent(c) && libs[nb] - {p} == {})
  }

  /** The placed stone's group has a liberty after the captures when the
      move is not suicide: the stone has an empty neighbour, or a friendly
      neighbour's group has a liberty besides `p`, or an opponent neighbour's
      group had only `p` left and was captured, leaving its cell empty next
      to `p`. */
  lemma MergedAlive(n: nat, b: Board, groups: map<Pos, set<Pos>>, libs: map<Pos, set<Pos>>, c: Player, p: Pos,
                    m: set<Pos>, b2: Board, groups2: map<Pos, set<Pos>>, bF: Board)
    requires b.Keys == groups.Keys == libs.Keys == AllPos(n) && OnBoard(n, p) && b[p] == Empty
    requires libs[p] == LibertiesOf(n, b, {p})
    requires forall nb :: nb in Neighbors(n, p) && b[nb] != Empty ==> libs[nb] == LibertiesOf(n, b, groups[nb])
    requires GroupsShared(b, groups) && p in m
    requires MembersFrom(n, b, groups, c, p, m) && FriendsIn(n, b, groups, c, p, m)
    requires b2 == b[p := c] && groups2 == Assign(groups, m, m)
    requires bF.Keys == AllPos(n) && forall e :: e in AllPos(n) && b2[e] == Empty ==> bF[e] == Empty
    requires forall nb :: nb in Neighbors(n, p) && b2[nb] == Opponent(c) && LibertiesOf(n, b2, groups2[nb]) == {}
               ==> bF[nb] == Empty
    requires libs[p] != {} || exists nb :: nb in Neighbors(n, p) && Rescues(b, libs, c, p, nb)
    ensures LibertiesOf(n, bF, m) != {}
  {
    if libs[p] != {} {
      var e :| e in libs[p];
      LibertyWitness(n, b, {p}, e);
      LibertyWitness(n, bF, m, e);
    } else {
      var nb :| nb in Neighbors(n, p) && Rescues(b, libs, c, p, nb);
      if b[nb] == c && libs[nb] - {p} != {} {
        var e :| e in libs[nb] - {p};
        assert FriendOf(n, b, groups, c, p, nb);
        LibertiesPlaced(n, b, p, c, groups[nb]);
        LibertiesSubset(n, b2, groups[nb], m);
        LibertiesGrow(n, b2, bF, m);
        assert e in LibertiesOf(n, bF, m);
      } else {
        LibertiesPlaced(n, b, p, c, groups[nb]);
        MergedColour(n, b, groups, c, p, m);
        assert groups2[nb] == groups[nb];
        LibertyWitness(n, bF, m, nb);
      }
    }
  }

  /** What the indices of the board before the move say, as the survival
      argument uses it: `m` is the group the placed stone forms. */
  ghost predicate Before(n: nat, b: Board, groups: map<Pos, set<Pos>>, libs: map<Pos, set<Pos>>, c: Player,
                         p: Pos, m: set<Pos>)
  {
    && b.Keys == groups.Keys == libs.Keys == AllPos(n) && OnBoard(n, p) && b[p] == Empty
    && GroupsShared(b, groups) && StonesGrouped(b, groups)
    && libs[p] == LibertiesOf(n, b, {p})
    && (forall nb :: nb in Neighbors(n, p) && b[nb] != Empty ==> libs[nb] == LibertiesOf(n, b, groups[nb]))
    && (forall q :: q in AllPos(n) && b[q] != Empty ==> LibertiesOf(n, b, groups[q]) != {})
    && p in m && MembersFrom(n, b, groups, c, p, m) && FriendsIn(n, b, groups, c, p, m)
  }

  /** How the boards and groups after placement (`b2`, `groups2`) and after
      the captures (`bF`, `groupsF`) come from those before the move. */
  ghost predicate After(n: nat, b: Board, groups: map<Pos, set<Pos>>, c: Player, p: Pos, m: set<Pos>,
                        b2: Board, groups2: map<Pos, set<Pos>>, bF: Board, groupsF: map<Pos, set<Pos>>)
    requires OnBoard(n, p)
  {
    && b2 == b[p := c] && groups2 == Assign(groups, m, m)
    && CapturedFrom(n, b2, groups2, bF, groupsF, c)
    && (forall e :: e in AllPos(n) && b2[e] == Empty ==> bF[e] == Empty)
    && (forall nb :: nb in Neighbors(n, p) && b2[nb] == Opponent(c) && LibertiesOf(n, b2, groups2[nb]) == {}
          ==> bF[nb] == Empty)
  }

  /** A stone left on the board after the move has a liberty. */
  lemma SurvivorAlive(n: nat, b: Board, groups: map<Pos, set<Pos>>, libs: map<Pos, set<Pos>>, c: Player, p: Pos,
                      m: set<Pos>, b2: Board, groups2: map<Pos, set<Pos>>, bF: Board, groupsF: map<Pos, set<Pos>>,
                      q: Pos)
    requires Before(n, b, groups, libs, c, p, m) && After(n, b, groups, c, p, m, b2, groups2, bF, groupsF)
    requires LibertiesOf(n, bF, m) != {}
    requires q in AllPos(n) && bF[q] != Empty
    ensures LibertiesOf(n, bF, groupsF[q]) != {}
  {
    assert bF[q] == b2[q] && groupsF[q] == groups2[q];
    if q !in m {
      OutsideCaptured(n, b, groups, c, p, m, b2, groups2, bF, groupsF, q);
      LibertiesGrow(n, b2, bF, groups[q]);
    }
  }

  /** After placement and captures, every stone on the board has a liberty. */
  lemma NoDeadAfterMove(n: nat, b: Board, groups: map<Pos, set<Pos>>, libs: map<Pos, set<Pos>>, c: Player, p: Pos,
                        m: set<Pos>, b2: Board, groups2: map<Pos, set<Pos>>, bF: Board, groupsF: map<Pos, set<Pos>>)
    requires Before(n, b, groups, libs, c, p, m) && After(n, b, groups, c, p, m, b2, groups2, bF, groupsF)
    requires libs[p] != {} || exists nb :: nb in Neighbors(n, p) && Rescues(b, libs, c, p, nb)
    ensures forall q :: q in AllPos(n) && bF[q] != Empty ==> LibertiesOf(n, bF, groupsF[q]) != {}
  {
    MergedAlive(n, b, groups, libs, c, p, m, b2, groups2, bF);
    forall q | q in AllPos(n) && bF[q] != Empty
      ensures LibertiesOf(n, bF, groupsF[q]) != {}
    {
      SurvivorAlive(n, b, groups, libs, c, p, m, b2, groups2, bF, groupsF, q);
    }
  }

  /* ---------- the stone branch of `do_move` ---------- */

  /** The state after the stone of the player to move is placed on `p`,
      merged with its neighbours and given age 0, before any capture. */
  function Placed(s: GameState, p: Pos): (r: GameState)
    requires WellFormed(s) && OnBoard(s.size, p)
    ensures WellFormed(r) && r.size == s.size && r.board == s.board[p := s.currentPlayer]
  {
    Newborn(UpdateNeighbors(Place(s, p, s.currentPlayer), p), p)
  }

  /** Clearing a cell just filled gives the board back. */
  lemma ClearPlaced(b: Board, p: Pos, c: Player)
    requires p in b && b[p] == Empty
    ensures b[p := c][p := Empty] == b
  {
  }

  /** After placement the indices are consistent with the new board and the
      hash is the new board's. */
  lemma PlacedConsistent(s: GameState, p: Pos)
    requires GroupsConsistent(s) && s.currentHash == HashOf(s.hashLookup, s.size, s.board)
    requires OnBoard(s.size, p) && s.board[p] == Empty
    ensures var s2 := Placed(s, p);
            GroupsConsistent(s2) && s2.currentHash == HashOf(s2.hashLookup, s2.size, s2.board)
  {
    var s1 := Place(s, p, s.currentPlayer);
    ClearPlaced(s.board, p, s.currentPlayer);
    UpdateNeighborsConsistent(s1, p);
    PlaceToggles(s.hashLookup, s.size, s.board, p, s.currentPlayer);
  }

  /** After placement the group index is the old one with the placed stone's
      group `m` written to its members; `m` is `p` with the groups of its
      same-coloured neighbours. */
  lemma PlacedGroups(s: GameState, p: Pos)
    requires GroupsConsistent(s) && OnBoard(s.size, p) && s.board[p] == Empty
    ensures var m := Placed(s, p).groupSets[p];
            && Placed(s, p).groupSets == Assign(s.groupSets, m, m) && p in m
            && MembersFrom(s.size, s.board, s.groupSets, s.currentPlayer, p, m)
            && FriendsIn(s.size, s.board, s.groupSets, s.currentPlayer, p, m)
  {
    var s1 := Place(s, p, s.currentPlayer);
    ClearPlaced(s.board, p, s.currentPlayer);
    UpdateNeighborsGroups(s1, p);
  }

  /** The indices and the invariant before the move give what the survival
      argument needs of them. */
  lemma BeforeHolds(s: GameState, p: Pos, m: set<Pos>)
    requires Inv(s) && OnBoard(s.size, p) && s.board[p] == Empty
    requires p in m && MembersFrom(s.size, s.board, s.groupSets, s.currentPlayer, p, m)
    requires FriendsIn(s.size, s.board, s.groupSets, s.currentPlayer, p, m)
    ensures Before(s.size, s.board, s.groupSets, s.libertySets, s.currentPlayer, p, m)
  {
    var n, b, groups, libs, counts := s.size, s.board, s.groupSets, s.libertySets, s.libertyCounts;
    ConsistentGroupsShared(n, b, groups, libs, counts);
    EmptyAt(n, b, groups, libs, counts, p);
    forall q | q in AllPos(n) && b[q] != Empty
      ensures libs[q] == LibertiesOf(n, b, groups[q]) && LibertiesOf(n, b, groups[q]) != {}
    {
      StoneAt(n, b, groups, libs, counts, q);
    }
  }

  /** A move that is not suicide has a liberty or a rescuing neighbour. */
  lemma NotSuicideRescued(s: GameState, p: Pos)
    requires WellFormed(s) && OnBoard(s.size, p) && !IsSuicide(s, p)
    ensures s.libertySets[p] != {} ||
            exists nb :: nb in Neighbors(s.size, p) && Rescues(s.board, s.libertySets, s.currentPlayer, p, nb)
  {
    if s.libertySets[p] == {} {
      var nb :| nb in Neighbors(s.size, p) && Saves(s, p, nb);
      assert Rescues(s.board, s.libertySets, s.currentPlayer, p, nb);
    }
  }

  /** The capture loop after placement ends in a consistent state with a
      correct hash, reached by captures only, in which no empty cell was
      filled and every neighbouring opponent group left without liberties
      was removed. */
  lemma CapturesOutcome(s2: GameState, p: Pos, c: Player)
    requires GroupsConsistent(s2) && s2.currentHash == HashOf(s2.hashLookup, s2.size, s2.board)
    requires OnBoard(s2.size, p)
    ensures var f := Captures(s2, p, c, Neighbors(s2.size, p));
            && CaptureInv(s2, f, c)
            && (forall e :: e in AllPos(s2.size) && s2.board[e] == Empty ==> f.board[e] == Empty)
            && (forall nb :: nb in Neighbors(s2.size, p) && DeadOpponent(s2, c, nb) ==> f.board[nb] == Empty)
  {
    var ns := Neighbors(s2.size, p);
    assert CaptureInv(s2, s2, c);
    ConsistentGroupsShared(s2.size, s2.board, s2.groupSets, s2.libertySets, s2.libertyCounts);
    ConsistentGroupsClosed(s2.size, s2.board, s2.groupSets, s2.libertySets, s2.libertyCounts);
    CapturesInv(s2, s2, p, c, ns);
    CapturesEmpties(s2, s2, p, c, ns);
    forall nb | nb in ns && DeadOpponent(s2, c, nb)
      ensures Captures(s2, p, c, ns).board[nb] == Empty
    {
      CapturesTake(s2, s2, p, c, ns, nb);
    }
  }

  /** The state after the captures of a stone move. */
  function Captured(s: GameState, p: Pos): (r: GameState)
    requires WellFormed(s) && OnBoard(s.size, p)
    ensures WellFormed(r) && r.size == s.size
  {
    Captures(Placed(s, p), p, s.currentPlayer, Neighbors(s.size, p))
  }

  /** After the captures of a legal stone move, every stone has a liberty. */
  lemma CapturedNoDead(s: GameState, p: Pos)
    requires Inv(s) && OnBoard(s.size, p) && s.board[p] == Empty && !IsSuicide(s, p)
    ensures var f := Captured(s, p);
            forall q :: q in AllPos(f.size) && f.board[q] != Empty ==> LibertiesOf(f.size, f.board, f.groupSets[q]) != {}
  {
    var n, c := s.size, s.currentPlayer;
    var s2 := Placed(s, p);
    var m := s2.groupSets[p];
    PlacedConsistent(s, p);
    PlacedGroups(s, p);
    BeforeHolds(s, p, m);
    NotSuicideRescued(s, p);
    CapturesOutcome(s2, p, c);
    var f := Captured(s, p);
    assert After(n, s.board, s.groupSets, c, p, m, s2.board, s2.groupSets, f.board, f.groupSets);
    NoDeadAfterMove(n, s.board, s.groupSets, s.libertySets, c, p, m, s2.board, s2.groupSets, f.board, f.groupSets);
  }

  /** Consistent indices in which every stone's group has a liberty leave
      no stone with an empty liberty set. */
  lemma LiveGroupsNoDead(f: GameState)
    requires GroupsConsistent(f)
    requires forall q :: q in AllPos(f.size) && f.board[q] != Empty ==> LibertiesOf(f.size, f.board, f.groupSets[q]) != {}
    ensures NoDeadGroups(f)
  {
    forall q | q in AllPos(f.size) && f.board[q] != Empty
      ensures |f.libertySets[q]| > 0
    {
      StoneAt(f.size, f.board, f.groupSets, f.libertySets, f.libertyCounts, q);
    }
  }

  /** The stone branch of `do_move` keeps the invariant for a move that is
      on an empty point and not suicide. */
  lemma PlayStoneKeepsInv(s: GameState, p: Pos)
    requires Inv(s) && OnBoard(s.size, p) && s.board[p] == Empty && !IsSuicide(s, p)
    ensures Inv(PlayStone(s, p, s.currentPlayer))
  {
    var f := Captured(s, p);
    PlacedConsistent(s, p);
    CapturesOutcome(Placed(s, p), p, s.currentPlayer);
    CapturedNoDead(s, p);
    LiveGroupsNoDead(f);
    assert PlayStone(s, p, s.currentPlayer) == f.(previousHashes := f.previousHashes + {f.currentHash});
  }

  /* ---------- `do_move` ---------- */

  /** The invariant only looks at the board, the indices and the hash. */
  lemma InvSameIndices(s: GameState, r: GameState)
    requires Inv(s) && WellFormed(r) && SamePosition(s, r)
    ensures Inv(r)
  {
  }

  /** Suicide depends only on the board, the liberty index and the player to
      move. */
  lemma SuicideSameIndices(s: GameState, r: GameState, p: Pos)
    requires WellFormed(s) && WellFormed(r) && r.size == s.size && OnBoard(s.size, p)
    requires r.board == s.board && r.libertySets == s.libertySets && r.currentPlayer == s.currentPlayer
    ensures IsSuicide(r, p) == IsSuicide(s, p)
  {
    forall nb | nb in Neighbors(s.size, p)
      ensures Saves(r, p, nb) == Saves(s, p, nb)
    {
    }
  }

  /** The first steps of a move keep the invariant. */
  lemma StartKeepsInv(s: GameState)
    requires Inv(s)
    ensures Inv(StartMove(s))
  {
    InvSameIndices(s, StartMove(s));
  }

  /** The last steps of a move keep the invariant. */
  lemma HandoverKeepsInv(s: GameState, a: Action, c: Player)
    requires Inv(s)
    ensures Inv(Handover(s, a, c))
  {
    InvSameIndices(s, Handover(s, a, c));
  }

  /** The transition of a pass keeps the invariant. */
  lemma PassKeepsInv(s: GameState)
    requires Inv(s)
    ensures Inv(Transition(s, Pass, s.currentPlayer))
  {
    var start := StartMove(s);
    StartKeepsInv(s);
    var played := PlayPass(start, s.currentPlayer);
    InvSameIndices(start, played);
    HandoverKeepsInv(played, Pass, s.currentPlayer);
    assert Transition(s, Pass, s.currentPlayer) == Handover(played, Pass, s.currentPlayer);
  }

  /** The stone branch of a move, after its first steps, keeps the invariant. */
  lemma StartThenStone(s: GameState, p: Pos)
    requires Inv(s) && OnBoard(s.size, p) && s.board[p] == Empty && !IsSuicide(s, p)
    ensures Inv(PlayStone(StartMove(s), p, s.currentPlayer))
  {
    var start := StartMove(s);
    StartKeepsInv(s);
    SuicideSameIndices(s, start, p);
    PlayStoneKeepsInv(start, p);
  }

  /** The transition of a stone move, step by step. */
  lemma TransitionPlay(s: GameState, p: Pos, c: Player)
    requires WellFormed(s) && OnBoard(s.size, p)
    ensures Transition(s, Play(p), c) == Handover(PlayStone(StartMove(s), p, c), Play(p), c)
  {
  }

  /** The last steps of a stone move keep the invariant. */
  lemma StoneHandover(s: GameState, p: Pos)
    requires WellFormed(s) && OnBoard(s.size, p)
    requires Inv(PlayStone(StartMove(s), p, s.currentPlayer))
    ensures Inv(Transition(s, Play(p), s.currentPlayer))
  {
    var played := PlayStone(StartMove(s), p, s.currentPlayer);
    TransitionPlay(s, p, s.currentPlayer);
    InvSameIndices(played, Handover(played, Play(p), s.currentPlayer));
  }

  /** The transition of a stone of the player to move on an empty point that
      is not suicide keeps the invariant. */
  lemma StoneKeepsInv(s: GameState, p: Pos)
    requires Inv(s) && OnBoard(s.size, p) && s.board[p] == Empty && !IsSuicide(s, p)
    ensures Inv(Transition(s, Play(p), s.currentPlayer))
  {
    StartThenStone(s, p);
    StoneHandover(s, p);
  }

  /** A legal action of the player to move keeps the invariant. */
  lemma LegalKeepsInv(s: GameState, a: Action, c: Player)
    requires Inv(s) && IsLegal(s, a) && c == s.currentPlayer
    ensures Inv(Transition(s, a, c))
  {
    match a {
      case Pass => PassKeepsInv(s);
      case Play(p) => StoneKeepsInv(s, p);
    }
  }

  /** Making the mover the player to move keeps the invariant. */
  lemma MoverKeepsInv(s: GameState, color: Color)
    requires Inv(s)
    ensures Inv(Mover(s, color))
  {
    InvSameIndices(s, Mover(s, color));
  }

  /** Every successful `do_move` keeps the invariant: the indices stay
      consistent with the board, the hash stays the board's hash, and no
      stone is left without liberties. */
  lemma DoMoveKeepsInv(s: GameState, a: Action, color: Color)
    requires Inv(s)
    ensures DoMove(s, a, color).Success? ==> Inv(DoMove(s, a, color).value)
  {
    DoMoveTransition(s, a, color);
    MoverKeepsInv(s, color);
    if IsLegal(Mover(s, color), a) {
      LegalKeepsInv(Mover(s, color), a, MoveColor(s, color));
    }
  }
}
