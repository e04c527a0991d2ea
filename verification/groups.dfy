/** Incremental maintenance of the group and liberty indices: merging groups
    when a stone is placed (`_update_neighbors`) and taking a captured group
    off the board (`_remove_group`).

    The engine stores one set object per group and lets every member's entry
    point at it, so mutating "the liberty set of `nb`" changes the entry of
    every cell sharing that object. The model names those cells explicitly:
    `Sharers(groups, c)` is the group of a stone and `{c}` for an empty cell,
    and a mutation of `c`'s set writes the new value to every cell in it. */
module Groups {
  import opened GoTypes
  import opened Geometry
  import opened Seqs
  import opened Zobrist
  import opened GameStates

  /** The cells whose index entries are the same set object as `c`'s. */
  function Sharers(groups: map<Pos, set<Pos>>, c: Pos): (r: set<Pos>)
    ensures c in groups && c in groups[c] ==> c in r
    ensures c in groups && groups[c] == {} ==> r == {c}
  {
    if c in groups && groups[c] != {} then groups[c] else {c}
  }

  /** Write `v` into the entries of `cells`, leaving all other entries alone. */
  function Assign<V>(m: map<Pos, V>, cells: set<Pos>, v: V): (r: map<Pos, V>)
    ensures r.Keys == m.Keys
    ensures forall q :: q in r ==> r[q] == (if q in cells then v else m[q])
  {
    map q | q in m :: if q in cells then v else m[q]
  }

  /* ---------- placing a stone: `_update_neighbors` ---------- */

  /** The state of the neighbour loop of `_update_neighbors`: the liberty and
      count indices as mutated so far, and the merged group and merged
      liberty set being accumulated. */
  datatype Merge = Merge(libs: map<Pos, set<Pos>>, counts: map<Pos, int>, group: set<Pos>, groupLibs: set<Pos>)

  /** The merge state only mentions positions of the board. */
  ghost predicate MergeWithin(n: nat, acc: Merge) {
    && acc.group <= AllPos(n) && acc.groupLibs <= AllPos(n)
    && forall q :: q in acc.libs ==> acc.libs[q] <= AllPos(n)
  }

  /** One iteration of the neighbour loop for neighbour `nb` of the placed
      stone `p`: `p` leaves the liberty set of `nb` (and so of every cell
      sharing it); an opponent neighbour's group gets the new size of that set
      as its count; a neighbour of the placed stone's colour has its group and
      liberties merged in. */
  function MergeStep(b: Board, groups: map<Pos, set<Pos>>, cur: Player, p: Pos, acc: Merge, nb: Pos): (r: Merge)
    requires nb in b && nb in groups && nb in acc.libs && p in b
    ensures r.libs.Keys == acc.libs.Keys && r.counts.Keys == acc.counts.Keys
    ensures acc.group <= r.group && acc.groupLibs <= r.groupLibs
  {
    var nbLibs := acc.libs[nb] - {p};
    var libs := Assign(acc.libs, Sharers(groups, nb), nbLibs);
    if b[nb] == Opponent(cur) then
      Merge(libs, Assign(acc.counts, groups[nb], |nbLibs|), acc.group, acc.groupLibs)
    else if b[p] == b[nb] then
      Merge(libs, acc.counts, acc.group + groups[nb], acc.groupLibs + nbLibs)
    else
      Merge(libs, acc.counts, acc.group, acc.groupLibs)
  }

  /** The neighbour loop of `_update_neighbors`, in the order of `ns`. */
  function MergeLoop(b: Board, groups: map<Pos, set<Pos>>, cur: Player, p: Pos, acc: Merge, ns: seq<Pos>): (r: Merge)
    requires p in b && forall q :: q in ns ==> q in b && q in groups && q in acc.libs
    ensures r.libs.Keys == acc.libs.Keys && r.counts.Keys == acc.counts.Keys
    ensures acc.group <= r.group && acc.groupLibs <= r.groupLibs
    decreases |ns|
  {
    if ns == [] then acc
    else MergeLoop(b, groups, cur, p, MergeStep(b, groups, cur, p, acc, ns[0]), ns[1..])
  }

  lemma {:induction false} MergeLoopWithin(n: nat, b: Board, groups: map<Pos, set<Pos>>, cur: Player, p: Pos,
                                           acc: Merge, ns: seq<Pos>)
    requires p in b && forall q :: q in ns ==> q in b && q in groups && q in acc.libs
    requires MergeWithin(n, acc) && forall q :: q in ns ==> groups[q] <= AllPos(n)
    ensures MergeWithin(n, MergeLoop(b, groups, cur, p, acc, ns))
    decreases |ns|
  {
    if ns != [] {
      var next := MergeStep(b, groups, cur, p, acc, ns[0]);
      assert MergeWithin(n, next);
      MergeLoopWithin(n, b, groups, cur, p, next, ns[1..]);
    }
  }

  /** The merge state after the neighbour loop for a stone at `p`. The merged
      group starts as `{p}` and the merged liberty set as `p`'s own liberty
      set object. */
  function PlacementMerge(s: GameState, p: Pos): (r: Merge)
    requires WellFormed(s) && OnBoard(s.size, p)
    ensures r.libs.Keys == AllPos(s.size) && r.counts.Keys == AllPos(s.size)
    ensures p in r.group && s.libertySets[p] <= r.groupLibs
    ensures MergeWithin(s.size, r)
  {
    var init := Merge(s.libertySets, s.libertyCounts, {p}, s.libertySets[p]);
    assert MergeWithin(s.size, init);
    MergeLoopWithin(s.size, s.board, s.groupSets, s.currentPlayer, p, init, Neighbors(s.size, p));
    MergeLoop(s.board, s.groupSets, s.currentPlayer, p, init, Neighbors(s.size, p))
  }

  /** `_update_neighbors`: after the neighbour loop, every member of the merged
      group gets the merged group, the merged liberty set and its size. The
      stone at `p` must already be on the board. */
  function UpdateNeighbors(s: GameState, p: Pos): (r: GameState)
    requires WellFormed(s) && OnBoard(s.size, p)
    ensures WellFormed(r)
    ensures SameContext(s, r) && r.board == s.board && r.stoneAges == s.stoneAges
    ensures r.currentHash == s.currentHash && r.ko == s.ko
    ensures r.blackPrisoners == s.blackPrisoners && r.whitePrisoners == s.whitePrisoners
    ensures p in r.groupSets[p]
    ensures forall q :: q in r.groupSets[p] ==>
              && r.groupSets[q] == r.groupSets[p]
              && r.libertySets[q] == r.libertySets[p]
              && r.libertyCounts[q] == |r.libertySets[p]|
    ensures forall nb :: (nb in Neighbors(s.size, p) && s.board[nb] == s.board[p] &&
                          s.board[nb] != Opponent(s.currentPlayer)) ==> s.groupSets[nb] <= r.groupSets[p]
    ensures s.libertySets[p] <= r.libertySets[p]
  {
    var acc := PlacementMerge(s, p);
    var r := s.(groupSets := Assign(s.groupSets, acc.group, acc.group),
                libertySets := Assign(acc.libs, acc.group, acc.groupLibs),
                libertyCounts := Assign(acc.counts, acc.group, |acc.groupLibs|));
    MergedContainsSameColored(s, p);
    MergedShaped(s, acc);
    AssignedShared(s.groupSets, acc.libs, acc.counts, acc.group, acc.groupLibs, p);
    r
  }

  /** Writing the merged group back keeps the shape of the maps. */
  lemma MergedShaped(s: GameState, acc: Merge)
    requires WellFormed(s) && acc.libs.Keys == acc.counts.Keys == AllPos(s.size) && MergeWithin(s.size, acc)
    ensures Shaped(s.size, s.board, Assign(s.groupSets, acc.group, acc.group),
                   Assign(acc.libs, acc.group, acc.groupLibs), Assign(acc.counts, acc.group, |acc.groupLibs|),
                   s.stoneAges)
  {
  }

  /** After writing group `m` with liberties `l` to each member of `m`, the
      members share the group, the liberty set and its size. */
  lemma AssignedShared(groups: map<Pos, set<Pos>>, libs: map<Pos, set<Pos>>, counts: map<Pos, int>,
                       m: set<Pos>, l: set<Pos>, p: Pos)
    requires p in m && m <= groups.Keys && m <= libs.Keys && m <= counts.Keys
    ensures var groups', libs', counts' := Assign(groups, m, m), Assign(libs, m, l), Assign(counts, m, |l|);
            forall q :: q in groups'[p] ==>
              && groups'[q] == groups'[p] && libs'[q] == libs'[p] && counts'[q] == |libs'[p]|
  {
  }

  /** The merged group takes in the group of every same-coloured neighbour. */
  lemma MergedContainsSameColored(s: GameState, p: Pos)
    requires WellFormed(s) && OnBoard(s.size, p)
    ensures forall nb :: (nb in Neighbors(s.size, p) && s.board[nb] == s.board[p] &&
                          s.board[nb] != Opponent(s.currentPlayer)) ==>
              s.groupSets[nb] <= PlacementMerge(s, p).group
  {
    var init := Merge(s.libertySets, s.libertyCounts, {p}, s.libertySets[p]);
    MergeLoopCollects(s.board, s.groupSets, s.currentPlayer, p, init, Neighbors(s.size, p));
  }

  lemma {:induction false} MergeLoopCollects(b: Board, groups: map<Pos, set<Pos>>, cur: Player, p: Pos,
                                             acc: Merge, ns: seq<Pos>)
    requires p in b && forall q :: q in ns ==> q in b && q in groups && q in acc.libs
    ensures forall nb :: nb in ns && b[nb] == b[p] && b[nb] != Opponent(cur) ==> groups[nb] <= MergeLoop(b, groups, cur, p, acc, ns).group
    decreases |ns|
  {
    if ns != [] {
      var next := MergeStep(b, groups, cur, p, acc, ns[0]);
      MergeLoopCollects(b, groups, cur, p, next, ns[1..]);
    }
  }

  /* ---------- removing a captured group: `_remove_group` ---------- */

  /** The empty orthogonal neighbours of `q`. */
  function EmptyNeighbors(n: nat, b: Board, q: Pos): (r: set<Pos>)
    requires b.Keys == AllPos(n) && OnBoard(n, q)
    ensures forall r' :: r' in r <==> OnBoard(n, r') && Adjacent(q, r') && b[r'] == Empty
    ensures r <= AllPos(n)
  {
    set r' | r' in Neighbors(n, q) && b[r'] == Empty
  }

  /** The removed stones that become liberties of the set shared by `q`: those
      orthogonally next to a cell of that set that still holds a stone. */
  function Gained(n: nat, b': Board, groups: map<Pos, set<Pos>>, g: set<Pos>, q: Pos): (r: set<Pos>)
    requires b'.Keys == groups.Keys == AllPos(n) && q in groups
    requires forall c :: c in groups ==> groups[c] <= AllPos(n)
    ensures r <= g
  {
    set m | m in g && exists d :: d in Sharers(groups, q) && Adjacent(m, d) && b'[d] != Empty
  }

  /** The liberty index after removing `g` from the board, giving `b'`. */
  function RemovedLiberties(n: nat, b': Board, groups: map<Pos, set<Pos>>, libs: map<Pos, set<Pos>>,
                            g: set<Pos>): (r: map<Pos, set<Pos>>)
    requires b'.Keys == groups.Keys == libs.Keys == AllPos(n) && g <= AllPos(n)
    requires forall c :: c in groups ==> groups[c] <= AllPos(n) && libs[c] <= AllPos(n)
    ensures r.Keys == AllPos(n)
    ensures forall q :: q in g ==> r[q] == EmptyNeighbors(n, b', q)
    ensures forall q :: q in r && q !in g ==> libs[q] <= r[q] && r[q] - libs[q] <= g
  {
    map q | q in AllPos(n) ::
      if q in g then EmptyNeighbors(n, b', q) else libs[q] + Gained(n, b', groups, g, q)
  }

  /** The liberty counts after removing `g`: -1 on removed cells, the new size
      of the liberty set where it gained a removed cell, unchanged elsewhere. */
  function RefreshedCounts(n: nat, b': Board, groups: map<Pos, set<Pos>>, libs': map<Pos, set<Pos>>,
                           counts: map<Pos, int>, g: set<Pos>): (r: map<Pos, int>)
    requires b'.Keys == groups.Keys == libs'.Keys == counts.Keys == AllPos(n) && g <= AllPos(n)
    requires forall c :: c in groups ==> groups[c] <= AllPos(n)
    ensures r.Keys == AllPos(n)
  {
    map q | q in AllPos(n) ::
      if q in g then -1
      else if Gained(n, b', groups, g, q) != {} then |libs'[q]|
      else counts[q]
  }

  /** `_remove_group`: the stones of `g` leave the board and the hash; every
      removed cell gets an empty group, count and age -1, and its empty
      neighbours as liberties; every removed cell next to a remaining stone
      joins that stone's (shared) liberty set, whose members' counts are
      refreshed to the set's new size. Other entries are unchanged. The net
      effect does not depend on the order in which the engine visits `g`. */
  function RemoveGroup(s: GameState, g: set<Pos>): (r: GameState)
    requires WellFormed(s) && g <= AllPos(s.size)
    ensures WellFormed(r) && SameContext(s, r) && r.ko == s.ko
    ensures r.blackPrisoners == s.blackPrisoners && r.whitePrisoners == s.whitePrisoners
  {
    var n := s.size;
    var b' := Assign(s.board, g, Empty);
    var libs := RemovedLiberties(n, b', s.groupSets, s.libertySets, g);
    var counts := RefreshedCounts(n, b', s.groupSets, libs, s.libertyCounts, g);
    var r := s.(board := b',
                currentHash := Xor(s.currentHash, RemovedKeys(s.hashLookup, n, s.board, g)),
                groupSets := Assign(s.groupSets, g, {}),
                libertySets := libs,
                libertyCounts := counts,
                stoneAges := Assign(s.stoneAges, g, -1));
    RemovedShaped(s, g, libs, counts);
    r
  }

  /** Emptying and resetting the cells of `g` keeps the shape of the maps. */
  lemma RemovedShaped(s: GameState, g: set<Pos>, libs: map<Pos, set<Pos>>, counts: map<Pos, int>)
    requires WellFormed(s) && g <= AllPos(s.size)
    requires libs.Keys == counts.Keys == AllPos(s.size)
    requires forall q :: q in g ==> libs[q] == EmptyNeighbors(s.size, Assign(s.board, g, Empty), q)
    requires forall q :: q in libs && q !in g ==> libs[q] - s.libertySets[q] <= g
    ensures Shaped(s.size, Assign(s.board, g, Empty), Assign(s.groupSets, g, {}), libs, counts,
                   Assign(s.stoneAges, g, -1))
  {
    forall q | q in libs
      ensures libs[q] <= AllPos(s.size)
    {
      if q !in g {
        assert libs[q] <= s.libertySets[q] + g;
      }
    }
  }

  /** What `_remove_group` does to the cells of `g` and to the others: the
      removed cells are emptied and reset, their empty neighbours become their
      liberties; elsewhere groups and ages stay, and liberty sets only grow,
      by removed cells. */
  lemma RemoveGroupEffects(s: GameState, g: set<Pos>)
    requires WellFormed(s) && g <= AllPos(s.size)
    ensures var r := RemoveGroup(s, g);
      && (forall q :: q in r.board ==> r.board[q] == if q in g then Empty else s.board[q])
      && (forall q :: q in g ==>
            && r.groupSets[q] == {} && r.libertyCounts[q] == -1 && r.stoneAges[q] == -1
            && r.libertySets[q] == EmptyNeighbors(s.size, r.board, q))
      && (forall q :: q in AllPos(s.size) && q !in g ==>
            && r.groupSets[q] == s.groupSets[q] && r.stoneAges[q] == s.stoneAges[q]
            && s.libertySets[q] <= r.libertySets[q]
            && r.libertySets[q] - s.libertySets[q] <= g)
  {
    RemovedCellsReset(s, g);
    KeptCellsKept(s, g);
  }

  /** The maps `_remove_group` leaves, by definition. */
  lemma RemoveGroupMaps(s: GameState, g: set<Pos>)
    requires WellFormed(s) && g <= AllPos(s.size)
    ensures var r := RemoveGroup(s, g);
      && r.board == Assign(s.board, g, Empty) && r.groupSets == Assign(s.groupSets, g, {})
      && r.stoneAges == Assign(s.stoneAges, g, -1)
      && r.libertySets == RemovedLiberties(s.size, r.board, s.groupSets, s.libertySets, g)
  {
  }

  /** The removed cells of `_remove_group`. */
  lemma RemovedCellsReset(s: GameState, g: set<Pos>)
    requires WellFormed(s) && g <= AllPos(s.size)
    ensures var r := RemoveGroup(s, g);
      forall q :: q in g ==>
        && r.board[q] == Empty && r.groupSets[q] == {} && r.libertyCounts[q] == -1 && r.stoneAges[q] == -1
        && r.libertySets[q] == EmptyNeighbors(s.size, r.board, q)
  {
    RemoveGroupMaps(s, g);
  }

  /** The other cells of `_remove_group`. */
  lemma KeptCellsKept(s: GameState, g: set<Pos>)
    requires WellFormed(s) && g <= AllPos(s.size)
    ensures var r := RemoveGroup(s, g);
      forall q :: q in AllPos(s.size) && q !in g ==>
        && r.board[q] == s.board[q] && r.groupSets[q] == s.groupSets[q] && r.stoneAges[q] == s.stoneAges[q]
        && s.libertySets[q] <= r.libertySets[q]
        && r.libertySets[q] - s.libertySets[q] <= g
  {
    RemoveGroupMaps(s, g);
  }

  lemma RemoveGroupBoardHash(s: GameState, g: set<Pos>)
    requires WellFormed(s) && g <= AllPos(s.size)
    ensures RemoveGroup(s, g).board == Assign(s.board, g, Empty)
    ensures RemoveGroup(s, g).currentHash == Xor(s.currentHash, RemovedKeys(s.hashLookup, s.size, s.board, g))
  {
  }

  /** Emptying the cells of `g` XORs exactly their keys out of the board hash. */
  lemma ClearedHash(t: ZobristTable, n: nat, b: Board, g: set<Pos>)
    requires b.Keys == AllPos(n)
    ensures HashOf(t, n, Assign(b, g, Empty)) == Xor(HashOf(t, n, b), RemovedKeys(t, n, b, g))
  {
    AllCellsFacts(n);
    XorOverClear(t, b, Assign(b, g, Empty), AllCells(n), g);
  }

  /** The XOR of the keys of the stones in `g`, visited in row-major order. */
  function RemovedKeys(t: ZobristTable, n: nat, b: Board, g: set<Pos>): Word
    requires b.Keys == AllPos(n)
  {
    AllCellsFacts(n);
    XorOver(t, b, Within(AllCells(n), g))
  }

  /** Removing a group keeps the incremental hash equal to the hash of the
      board: every removed stone's key is XORed out exactly once. */
  lemma RemoveGroupHash(s: GameState, g: set<Pos>)
    requires WellFormed(s) && g <= AllPos(s.size)
    requires s.currentHash == HashOf(s.hashLookup, s.size, s.board)
    ensures RemoveGroup(s, g).currentHash == HashOf(s.hashLookup, s.size, RemoveGroup(s, g).board)
  {
    RemoveGroupBoardHash(s, g);
    ClearedHash(s.hashLookup, s.size, s.board, g);
  }
}
