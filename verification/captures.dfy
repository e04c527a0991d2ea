/** Captures keep the indices consistent: `_remove_group` applied to a whole
    group without liberties leaves every cell consistent, and the capture loop
    of `do_move` removes exactly the opponent groups the new stone left
    without liberties. */
module Capturing {
  import opened GoTypes
  import opened Geometry
  import opened GameStates
  import opened Groups
  import opened Liberties
  import opened Zobrist
  import opened Rules

  /* ---------- removing one group ---------- */

  /** `g` is the whole group of the stone `x` and has no liberty. */
  ghost predicate DeadGroup(n: nat, b: Board, groups: map<Pos, set<Pos>>, g: set<Pos>, x: Pos) {
    && x in b && x in groups && b[x] != Empty && g == groups[x] && x in g
    && LibertiesOf(n, b, g) == {}
  }

  /** No empty cell touches a group without liberties. */
  lemma DeadHasNoEmptyNeighbor(n: nat, b: Board, g: set<Pos>, y: Pos, r: Pos)
    requires b.Keys == AllPos(n) && LibertiesOf(n, b, g) == {} && y in g && r in b && Adjacent(y, r)
    ensures b[r] != Empty
  {
    LibertyWitness(n, b, g, r);
  }

  /** A removed cell becomes an empty cell whose liberties are its empty
      neighbours. */
  lemma RemovedCellOk(n: nat, b': Board, groups': map<Pos, set<Pos>>, libs': map<Pos, set<Pos>>,
                      counts': map<Pos, int>, q: Pos)
    requires b'.Keys == groups'.Keys == libs'.Keys == counts'.Keys == AllPos(n) && OnBoard(n, q)
    requires b'[q] == Empty && groups'[q] == {} && counts'[q] == -1 && libs'[q] == EmptyNeighbors(n, b', q)
    ensures CellConsistent(n, b', groups', libs', counts', q)
  {
    assert LibertiesOf(n, b', {q}) == EmptyNeighbors(n, b', q);
  }

  /** An empty cell that stays empty keeps its liberties: no removed stone
      was next to it. */
  lemma QuietEmptyOk(n: nat, b: Board, groups: map<Pos, set<Pos>>, libs: map<Pos, set<Pos>>,
                     counts: map<Pos, int>, g: set<Pos>, q: Pos)
    requires b.Keys == groups.Keys == libs.Keys == counts.Keys == AllPos(n) && g <= AllPos(n)
    requires forall c :: c in groups ==> groups[c] <= AllPos(n)
    requires LibertiesOf(n, b, g) == {} && q in AllPos(n) && q !in g && b[q] == Empty
    requires EmptyCellOk(n, b, groups, libs, counts, q)
    ensures var b' := Assign(b, g, Empty);
            && Gained(n, b', groups, g, q) == {}
            && EmptyCellOk(n, b', Assign(groups, g, {}), libs, counts, q)
  {
    var b' := Assign(b, g, Empty);
    forall r | r in AllPos(n) && Adjacent(q, r)
      ensures b'[r] == b[r]
    {
      if r in g {
        DeadHasNoEmptyNeighbor(n, b, g, r, q);
      }
    }
    assert LibertiesOf(n, b', {q}) == LibertiesOf(n, b, {q});
  }

  /** A stone's group that meets a removed group is that group. */
  lemma SurvivorMeets(n: nat, b: Board, groups: map<Pos, set<Pos>>, g: set<Pos>, x: Pos, q: Pos)
    requires GroupsShared(b, groups) && StonesGrouped(b, groups) && DeadGroup(n, b, groups, g, x)
    requires q in b && q in groups && b[q] != Empty
    ensures forall y :: y in groups[q] && y in g ==> q in g
  {
    forall y | y in groups[q] && y in g
      ensures q in g
    {
      SharedAt(b, groups, q, y);
      SharedAt(b, groups, x, y);
    }
  }

  /** A surviving stone's group gains as liberties exactly the removed cells
      next to it. */
  lemma SurvivorLibs(n: nat, b: Board, groups: map<Pos, set<Pos>>, libs: map<Pos, set<Pos>>, g: set<Pos>, q: Pos)
    requires b.Keys == groups.Keys == libs.Keys == AllPos(n) && g <= AllPos(n)
    requires forall c :: c in groups ==> groups[c] <= AllPos(n)
    requires GroupsShared(b, groups) && StonesGrouped(b, groups)
    requires forall y :: y in g ==> b[y] != Empty
    requires q in AllPos(n) && b[q] != Empty && libs[q] == LibertiesOf(n, b, groups[q])
    requires forall y :: y in groups[q] ==> y !in g
    ensures var b' := Assign(b, g, Empty);
            libs[q] + Gained(n, b', groups, g, q) == LibertiesOf(n, b', groups[q])
  {
    var b' := Assign(b, g, Empty);
    var h := groups[q];
    assert Sharers(groups, q) == h;
    forall r | r in LibertiesOf(n, b', h)
      ensures r in libs[q] + Gained(n, b', groups, g, q)
    {
      var m :| m in h && Adjacent(m, r);
      SharedAt(b, groups, q, m);
    }
  }

  /** A surviving stone keeps a shared and closed group. */
  lemma SurvivorShape(n: nat, b: Board, groups: map<Pos, set<Pos>>, g: set<Pos>, q: Pos)
    requires b.Keys == groups.Keys == AllPos(n)
    requires GroupsShared(b, groups) && GroupsClosed(b, groups)
    requires q in AllPos(n) && b[q] != Empty && q !in g
    requires forall y :: y in groups[q] ==> y !in g
    ensures GroupShared(Assign(b, g, Empty), Assign(groups, g, {}), q)
    ensures GroupClosed(Assign(b, g, Empty), Assign(groups, g, {}), q)
  {
    var b' := Assign(b, g, Empty);
    forall y | y in groups[q]
      ensures y in b && b'[y] == b'[q] && groups[y] == groups[q]
    {
      SharedAt(b, groups, q, y);
    }
  }
  lemma UnionNothing(a: set<Pos>, e: set<Pos>)
    requires e == {}
    ensures a + e == a
  {
  }

  /** A surviving stone is consistent after `_remove_group` takes a dead
      group off the board. */
  lemma RemovalSurvivor(n: nat, b: Board, groups: map<Pos, set<Pos>>, libs: map<Pos, set<Pos>>,
                        counts: map<Pos, int>, g: set<Pos>, x: Pos, q: Pos)
    requires IndexShape(n, b, groups, libs, counts) && g <= AllPos(n)
    requires forall c :: c in groups ==> groups[c] <= AllPos(n) && libs[c] <= AllPos(n)
    requires GroupsShared(b, groups) && StonesGrouped(b, groups) && GroupsClosed(b, groups)
    requires DeadGroup(n, b, groups, g, x) && q in AllPos(n) && b[q] != Empty
    requires libs[q] == LibertiesOf(n, b, groups[q]) && counts[q] == |libs[q]|
    ensures var b' := Assign(b, g, Empty);
            var libs' := RemovedLiberties(n, b', groups, libs, g);
            q !in g ==>
              CellConsistent(n, b', Assign(groups, g, {}), libs', RefreshedCounts(n, b', groups, libs', counts, g), q)
  {
    var b' := Assign(b, g, Empty);
    var libs' := RemovedLiberties(n, b', groups, libs, g);
    var counts' := RefreshedCounts(n, b', groups, libs', counts, g);
    if q !in g {
      forall y | y in g
        ensures b[y] != Empty
      {
        SharedAt(b, groups, x, y);
      }
      SurvivorMeets(n, b, groups, g, x, q);
      SurvivorLibs(n, b, groups, libs, g, q);
      SurvivorShape(n, b, groups, g, q);
      var gained := Gained(n, b', groups, g, q);
      assert libs'[q] == libs[q] + gained;
      if gained == {} {
        UnionNothing(libs[q], gained);
      }
      assert counts'[q] == |libs'[q]|;
    }
  }

  /** Every cell is consistent after `_remove_group` takes a dead group off
      the board. */
  lemma RemovalCell(n: nat, b: Board, groups: map<Pos, set<Pos>>, libs: map<Pos, set<Pos>>,
                    counts: map<Pos, int>, g: set<Pos>, x: Pos, q: Pos)
    requires IndexShape(n, b, groups, libs, counts) && g <= AllPos(n)
    requires forall c :: c in groups ==> groups[c] <= AllPos(n) && libs[c] <= AllPos(n)
    requires GroupsShared(b, groups) && StonesGrouped(b, groups) && GroupsClosed(b, groups)
    requires DeadGroup(n, b, groups, g, x) && q in AllPos(n) && CellConsistent(n, b, groups, libs, counts, q)
    ensures var b' := Assign(b, g, Empty);
            var libs' := RemovedLiberties(n, b', groups, libs, g);
            CellConsistent(n, b', Assign(groups, g, {}), libs', RefreshedCounts(n, b', groups, libs', counts, g), q)
  {
    var b' := Assign(b, g, Empty);
    var libs' := RemovedLiberties(n, b', groups, libs, g);
    var counts' := RefreshedCounts(n, b', groups, libs', counts, g);
    if q in g {
      RemovedCellOk(n, b', Assign(groups, g, {}), libs', counts', q);
    } else if b[q] == Empty {
      QuietEmptyOk(n, b, groups, libs, counts, g, q);
      UnionNothing(libs[q], Gained(n, b', groups, g, q));
    } else {
      RemovalSurvivor(n, b, groups, libs, counts, g, x, q);
    }
  }

  /** `_remove_group` applied to the group of a stone without liberties keeps
      the indices consistent with the board. */
  lemma RemoveDeadGroup(s: GameState, x: Pos)
    requires GroupsConsistent(s) && x in AllPos(s.size) && s.board[x] != Empty && s.libertySets[x] == {}
    ensures GroupsConsistent(RemoveGroup(s, s.groupSets[x]))
  {
    var n, b, groups, libs, counts := s.size, s.board, s.groupSets, s.libertySets, s.libertyCounts;
    var g := groups[x];
    StoneAt(n, b, groups, libs, counts, x);
    ConsistentGroupsShared(n, b, groups, libs, counts);
    ConsistentGroupsClosed(n, b, groups, libs, counts);
    var r := RemoveGroup(s, g);
    forall q | q in AllPos(n)
      ensures CellConsistent(n, r.board, r.groupSets, r.libertySets, r.libertyCounts, q)
    {
      RemovalCell(n, b, groups, libs, counts, g, x, q);
    }
  }
  /* ---------- the capture loop ---------- */

  /** Cell `r` of `b2` was captured in `bt`: an opponent stone of `c` whose
      group had no liberty in `b2`, taken off with its whole group. */
  ghost predicate Removed(n: nat, b2: Board, groups2: map<Pos, set<Pos>>, bt: Board, c: Player, r: Pos)
    requires r in b2 && r in groups2 && r in bt
  {
    && bt[r] == Empty && b2[r] == Opponent(c) && LibertiesOf(n, b2, groups2[r]) == {}
    && forall y :: y in groups2[r] ==> y in bt && bt[y] == Empty
  }

  /** `bt` and `groupsT` arise from `b2` and `groups2` by captures only: every
      cell is unchanged or removed, and every stone left keeps its group. */
  ghost predicate CapturedFrom(n: nat, b2: Board, groups2: map<Pos, set<Pos>>, bt: Board,
                               groupsT: map<Pos, set<Pos>>, c: Player)
  {
    && b2.Keys == groups2.Keys == bt.Keys == groupsT.Keys == AllPos(n)
    && (forall r :: r in AllPos(n) ==> bt[r] == b2[r] || Removed(n, b2, groups2, bt, c, r))
    && (forall r :: r in AllPos(n) && bt[r] != Empty ==> groupsT[r] == groups2[r])
  }

  /** A removed cell takes with it every opponent stone next to it. */
  lemma RemovalReaches(n: nat, b2: Board, groups2: map<Pos, set<Pos>>, bt: Board, groupsT: map<Pos, set<Pos>>,
                       c: Player, e: Pos, m: Pos)
    requires CapturedFrom(n, b2, groups2, bt, groupsT, c)
    requires GroupsShared(b2, groups2) && StonesGrouped(b2, groups2) && GroupsClosed(b2, groups2)
    requires e in AllPos(n) && bt[e] != b2[e] && m in AllPos(n) && Adjacent(m, e) && b2[m] == Opponent(c)
    ensures forall y :: y in groups2[m] ==> bt[y] == Empty
  {
    assert Removed(n, b2, groups2, bt, c, e);
    assert e in groups2[e] && Adjacent(e, m);
    assert m in groups2[e];
    SharedAt(b2, groups2, e, m);
  }

  /** A liberty gained since `b2` by an opponent group of `c` comes from
      a capture that took that group too. */
  lemma GainedOnlyByCapture(n: nat, b2: Board, groups2: map<Pos, set<Pos>>, bt: Board, groupsT: map<Pos, set<Pos>>,
                            c: Player, nb: Pos, e: Pos)
    requires CapturedFrom(n, b2, groups2, bt, groupsT, c)
    requires GroupsShared(b2, groups2) && StonesGrouped(b2, groups2) && GroupsClosed(b2, groups2)
    requires nb in AllPos(n) && b2[nb] == Opponent(c)
    ensures e in LibertiesOf(n, bt, groups2[nb]) ==> bt[nb] == Empty || e in LibertiesOf(n, b2, groups2[nb])
  {
    if e in LibertiesOf(n, bt, groups2[nb]) {
      var m :| m in groups2[nb] && Adjacent(m, e);
      SharedAt(b2, groups2, nb, m);
      if b2[e] != Empty {
        RemovalReaches(n, b2, groups2, bt, groupsT, c, e, m);
      }
    }
  }

  /** An opponent group without liberties in `b2` has none later either,
      unless it was captured. */
  lemma DeadStaysDead(n: nat, b2: Board, groups2: map<Pos, set<Pos>>, bt: Board, groupsT: map<Pos, set<Pos>>,
                      c: Player, nb: Pos)
    requires CapturedFrom(n, b2, groups2, bt, groupsT, c)
    requires GroupsShared(b2, groups2) && StonesGrouped(b2, groups2) && GroupsClosed(b2, groups2)
    requires nb in AllPos(n) && b2[nb] == Opponent(c) && LibertiesOf(n, b2, groups2[nb]) == {}
    ensures bt[nb] == Empty || LibertiesOf(n, bt, groups2[nb]) == {}
  {
    forall e | e in LibertiesOf(n, bt, groups2[nb])
      ensures bt[nb] == Empty
    {
      GainedOnlyByCapture(n, b2, groups2, bt, groupsT, c, nb, e);
    }
  }

  /** Capturing a dead opponent group of `bt` keeps `CapturedFrom`. */
  lemma CaptureKeepsOrigin(n: nat, b2: Board, groups2: map<Pos, set<Pos>>, bt: Board, groupsT: map<Pos, set<Pos>>,
                           c: Player, nb: Pos)
    requires CapturedFrom(n, b2, groups2, bt, groupsT, c) && GroupsShared(bt, groupsT)
    requires nb in AllPos(n) && bt[nb] == Opponent(c) && nb in groupsT[nb]
    requires LibertiesOf(n, bt, groupsT[nb]) == {}
    ensures CapturedFrom(n, b2, groups2, Assign(bt, groupsT[nb], Empty), Assign(groupsT, groupsT[nb], {}), c)
  {
    var g := groupsT[nb];
    var bt' := Assign(bt, g, Empty);
    LibertiesGrow(n, b2, bt, g);
    forall r | r in AllPos(n)
      ensures bt'[r] == b2[r] || Removed(n, b2, groups2, bt', c, r)
    {
      if r in g {
        SharedAt(bt, groupsT, nb, r);
        assert groups2[r] == g;
      } else if bt[r] != b2[r] {
        assert Removed(n, b2, groups2, bt, c, r);
      }
    }
  }
  /** An opponent stone of `c` in `s2` whose group has no liberty there. */
  ghost predicate DeadOpponent(s2: GameState, c: Player, nb: Pos)
    requires WellFormed(s2)
  {
    nb in AllPos(s2.size) && s2.board[nb] == Opponent(c) && LibertiesOf(s2.size, s2.board, s2.groupSets[nb]) == {}
  }

  /** The facts about the groups of `s2` the capture loop relies on. */
  ghost predicate Grouped(s2: GameState) {
    GroupsShared(s2.board, s2.groupSets) && StonesGrouped(s2.board, s2.groupSets) && GroupsClosed(s2.board, s2.groupSets)
  }

  /** The invariant of the capture loop started from `s2`: consistent indices,
      a correct hash, and a board reached from `s2`'s by captures only. */
  ghost predicate CaptureInv(s2: GameState, t: GameState, c: Player) {
    && WellFormed(s2) && GroupsConsistent(t) && t.size == s2.size
    && t.currentHash == HashOf(t.hashLookup, t.size, t.board)
    && CapturedFrom(s2.size, s2.board, s2.groupSets, t.board, t.groupSets, c)
  }

  /** Capturing the dead group of `nb` keeps the indices consistent and the
      hash correct, and takes exactly that group off the board. */
  lemma CaptureConsistent(t: GameState, p: Pos, c: Player, nb: Pos)
    requires GroupsConsistent(t) && t.currentHash == HashOf(t.hashLookup, t.size, t.board)
    requires OnBoard(t.size, p) && OnBoard(t.size, nb) && t.board[nb] != Empty && |t.libertySets[nb]| == 0
    ensures var r := Capture(t, p, c, nb);
            && GroupsConsistent(r) && r.currentHash == HashOf(r.hashLookup, r.size, r.board)
            && r.board == Assign(t.board, t.groupSets[nb], Empty) && r.groupSets == Assign(t.groupSets, t.groupSets[nb], {})
  {
    var g := t.groupSets[nb];
    RemoveDeadGroup(t, nb);
    RemoveGroupHash(t, g);
    RemoveGroupBoardHash(t, g);
  }

  /** Emptying a set of cells fills no empty cell. */
  lemma EmptiesStay(b: Board, g: set<Pos>, b': Board)
    requires b' == Assign(b, g, Empty)
    ensures forall q :: q in b && b[q] == Empty ==> b'[q] == Empty
  {
  }

  /** One iteration of the capture loop fills no empty cell, and empties
      `nb` when it captures. */
  lemma CaptureStepEmpties(t: GameState, p: Pos, c: Player, nb: Pos)
    requires GroupsConsistent(t) && t.currentHash == HashOf(t.hashLookup, t.size, t.board)
    requires OnBoard(t.size, p) && OnBoard(t.size, nb)
    ensures var bt := CaptureStep(t, p, c, nb).board;
            && (t.board[nb] == Opponent(c) && |t.libertySets[nb]| == 0 ==> bt[nb] == Empty)
            && forall q :: q in AllPos(t.size) && t.board[q] == Empty ==> bt[q] == Empty
  {
    if t.board[nb] == Opponent(c) && |t.libertySets[nb]| == 0 {
      CaptureConsistent(t, p, c, nb);
      StoneAt(t.size, t.board, t.groupSets, t.libertySets, t.libertyCounts, nb);
      EmptiesStay(t.board, t.groupSets[nb], Capture(t, p, c, nb).board);
    }
  }

  /** The capture branch of one iteration keeps the invariant. */
  lemma CaptureBranch(s2: GameState, t: GameState, p: Pos, c: Player, nb: Pos)
    requires CaptureInv(s2, t, c) && OnBoard(t.size, p) && OnBoard(t.size, nb)
    requires t.board[nb] == Opponent(c) && |t.libertySets[nb]| == 0
    ensures CaptureInv(s2, Capture(t, p, c, nb), c)
  {
    var n := t.size;
    CaptureConsistent(t, p, c, nb);
    StoneAt(n, t.board, t.groupSets, t.libertySets, t.libertyCounts, nb);
    ConsistentGroupsShared(n, t.board, t.groupSets, t.libertySets, t.libertyCounts);
    CaptureKeepsOrigin(n, s2.board, s2.groupSets, t.board, t.groupSets, c, nb);
  }

  /** One iteration of the capture loop keeps the invariant. */
  lemma CaptureStepInv(s2: GameState, t: GameState, p: Pos, c: Player, nb: Pos)
    requires CaptureInv(s2, t, c) && OnBoard(t.size, p) && OnBoard(t.size, nb)
    ensures CaptureInv(s2, CaptureStep(t, p, c, nb), c)
  {
    if t.board[nb] == Opponent(c) && |t.libertySets[nb]| == 0 {
      CaptureBranch(s2, t, p, c, nb);
    }
  }

  /** A neighbour whose group was dead after placement is, at every later
      iteration, either already captured or still an opponent stone with an
      empty liberty index. */
  lemma DeadStillDead(s2: GameState, t: GameState, c: Player, nb: Pos)
    requires CaptureInv(s2, t, c) && Grouped(s2) && DeadOpponent(s2, c, nb)
    ensures t.board[nb] == Empty || (t.board[nb] == Opponent(c) && |t.libertySets[nb]| == 0)
  {
    var n := t.size;
    assert CellConsistent(n, t.board, t.groupSets, t.libertySets, t.libertyCounts, nb);
    DeadStaysDead(n, s2.board, s2.groupSets, t.board, t.groupSets, c, nb);
  }

  /** One iteration of the capture loop captures the neighbour's group when
      it was dead after placement. */
  lemma CaptureStepTakes(s2: GameState, t: GameState, p: Pos, c: Player, nb: Pos)
    requires CaptureInv(s2, t, c) && OnBoard(t.size, p) && OnBoard(t.size, nb)
    requires Grouped(s2) && DeadOpponent(s2, c, nb)
    ensures CaptureStep(t, p, c, nb).board[nb] == Empty
  {
    DeadStillDead(s2, t, c, nb);
    CaptureStepEmpties(t, p, c, nb);
  }

  /* ---------- the capture loop ---------- */

  /** The capture loop keeps the invariant. */
  lemma {:induction false} CapturesInv(s2: GameState, t: GameState, p: Pos, c: Player, ns: seq<Pos>)
    requires CaptureInv(s2, t, c) && OnBoard(t.size, p) && forall q :: q in ns ==> OnBoard(t.size, q)
    ensures CaptureInv(s2, Captures(t, p, c, ns), c)
    decreases |ns|
  {
    if ns != [] {
      CaptureStepInv(s2, t, p, c, ns[0]);
      CapturesInv(s2, CaptureStep(t, p, c, ns[0]), p, c, ns[1..]);
    }
  }

  /** The capture loop fills no empty cell. */
  lemma {:induction false} CapturesEmpties(s2: GameState, t: GameState, p: Pos, c: Player, ns: seq<Pos>)
    requires CaptureInv(s2, t, c) && OnBoard(t.size, p) && forall q :: q in ns ==> OnBoard(t.size, q)
    ensures var bt := Captures(t, p, c, ns).board;
            forall q :: q in AllPos(t.size) && t.board[q] == Empty ==> bt[q] == Empty
    decreases |ns|
  {
    if ns != [] {
      var t' := CaptureStep(t, p, c, ns[0]);
      CaptureStepInv(s2, t, p, c, ns[0]);
      CaptureStepEmpties(t, p, c, ns[0]);
      CapturesEmpties(s2, t', p, c, ns[1..]);
    }
  }

  /** The capture loop captures every listed neighbour whose group was dead
      after placement. */
  lemma {:induction false} CapturesTake(s2: GameState, t: GameState, p: Pos, c: Player, ns: seq<Pos>, nb: Pos)
    requires CaptureInv(s2, t, c) && Grouped(s2)
    requires OnBoard(t.size, p) && forall q :: q in ns ==> OnBoard(t.size, q)
    requires nb in ns && DeadOpponent(s2, c, nb)
    ensures Captures(t, p, c, ns).board[nb] == Empty
    decreases |ns|
  {
    var t' := CaptureStep(t, p, c, ns[0]);
    CaptureStepInv(s2, t, p, c, ns[0]);
    if ns[0] == nb {
      CaptureStepTakes(s2, t, p, c, nb);
      CapturesEmpties(s2, t', p, c, ns[1..]);
    } else {
      CapturesTake(s2, t', p, c, ns[1..], nb);
    }
  }
}
