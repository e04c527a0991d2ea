/** The engine's state record (`GameState.__init__`, `copy`) and the
    invariant that ties its derived indices (groups, liberties, liberty
    counts, hash) to the board. */
module GameStates {
  import opened GoTypes
  import opened Geometry
  import opened Zobrist

  /** One game position with every index the engine keeps. The engine shares
      one group set and one liberty set object among all stones of a group;
      here each member's entry holds an equal value instead. */
  datatype GameState = GameState(
    size: nat,
    board: Board,
    currentPlayer: Player,
    ko: Option<Pos>,
    komi: real,
    handicaps: seq<Action>,
    history: seq<Action>,
    boardHistory: seq<Board>,        // the previous boards, oldest first
    blackPrisoners: nat,             // black stones captured so far
    whitePrisoners: nat,             // white stones captured so far
    isEndOfGame: bool,
    passesWhite: nat,
    passesBlack: nat,
    libertySets: map<Pos, set<Pos>>,
    libertyCounts: map<Pos, int>,    // -1 on empty cells
    groupSets: map<Pos, set<Pos>>,   // {} on empty cells
    stoneAges: map<Pos, int>,        // -1 on empty cells
    enforceSuperko: bool,
    hashLookup: ZobristTable,
    currentHash: Word,
    previousHashes: set<Word>)

  /** Every per-cell index covers exactly the board, and groups and liberty
      sets only name positions of the board. */
  ghost predicate WellFormed(s: GameState) {
    Shaped(s.size, s.board, s.groupSets, s.libertySets, s.libertyCounts, s.stoneAges)
  }

  /** The shape `WellFormed` asks of the board and the per-cell indices. */
  ghost predicate Shaped(n: nat, b: Board, groups: map<Pos, set<Pos>>, libs: map<Pos, set<Pos>>,
                         counts: map<Pos, int>, ages: map<Pos, int>)
  {
    var all := AllPos(n);
    && b.Keys == all
    && libs.Keys == all
    && counts.Keys == all
    && groups.Keys == all
    && ages.Keys == all
    && (forall p :: p in all ==> groups[p] <= all && libs[p] <= all)
  }

  /** `r` agrees with `s` on everything the board and index maintenance
      (placing, merging, capturing) leaves alone. */
  predicate SameContext(s: GameState, r: GameState) {
    && r.size == s.size && r.hashLookup == s.hashLookup && r.komi == s.komi
    && r.currentPlayer == s.currentPlayer && r.handicaps == s.handicaps && r.history == s.history
    && r.boardHistory == s.boardHistory && r.isEndOfGame == s.isEndOfGame
    && r.passesWhite == s.passesWhite && r.passesBlack == s.passesBlack
    && r.enforceSuperko == s.enforceSuperko && r.previousHashes == s.previousHashes
  }

  /** The board without stones. */
  function EmptyBoard(n: nat): (b: Board)
    ensures b.Keys == AllPos(n)
    ensures forall p :: p in b ==> b[p] == Empty
  {
    map p | p in AllPos(n) :: Empty
  }

  /* ---------- the reference meaning of the indices ---------- */

  /** The liberties of a set of stones: the empty cells orthogonally adjacent
      to at least one of them. */
  ghost function LibertiesOf(n: nat, b: Board, g: set<Pos>): set<Pos> {
    set q | q in AllPos(n) && q in b && b[q] == Empty && exists m :: m in g && Adjacent(m, q)
  }

  /** The indices at one cell agree with the board. */
  ghost predicate CellConsistent(n: nat, b: Board, groups: map<Pos, set<Pos>>, libs: map<Pos, set<Pos>>,
                                 counts: map<Pos, int>, p: Pos)
  {
    && p in b
    && if b[p] == Empty then EmptyCellOk(n, b, groups, libs, counts, p)
       else StoneCellOk(n, b, groups, libs, counts, p)
  }

  /** An empty cell has no group, count -1, and its empty neighbours as
      liberty set. */
  ghost predicate EmptyCellOk(n: nat, b: Board, groups: map<Pos, set<Pos>>, libs: map<Pos, set<Pos>>,
                              counts: map<Pos, int>, p: Pos)
  {
    && p in groups && p in libs && p in counts
    && groups[p] == {} && counts[p] == -1 && libs[p] == LibertiesOf(n, b, {p})
  }

  /** A stone's group contains it, is shared by its members and closed under
      same-coloured adjacency, and its liberty set and count are the group's
      liberties. */
  ghost predicate StoneCellOk(n: nat, b: Board, groups: map<Pos, set<Pos>>, libs: map<Pos, set<Pos>>,
                              counts: map<Pos, int>, p: Pos)
  {
    && p in groups && p in libs && p in counts
    && p in groups[p]
    && libs[p] == LibertiesOf(n, b, groups[p])
    && counts[p] == |libs[p]|
    && GroupShared(b, groups, p)
    && GroupClosed(b, groups, p)
  }

  /** Every member of `p`'s group has `p`'s colour and the same group. */
  ghost predicate GroupShared(b: Board, groups: map<Pos, set<Pos>>, p: Pos) {
    && p in b && p in groups
    && forall q :: q in groups[p] ==> q in b && q in groups && b[q] == b[p] && groups[q] == groups[p]
  }

  /** A stone of `p`'s colour next to a member of `p`'s group belongs to it. */
  ghost predicate GroupClosed(b: Board, groups: map<Pos, set<Pos>>, p: Pos) {
    && p in b && p in groups
    && forall q, r :: q in groups[p] && r in b && Adjacent(q, r) && b[r] == b[p] ==> r in groups[p]
  }

  /** Board and indices cover exactly the board's cells, and groups only name
      cells of the board. */
  ghost predicate IndexShape(n: nat, b: Board, groups: map<Pos, set<Pos>>, libs: map<Pos, set<Pos>>,
                             counts: map<Pos, int>)
  {
    && b.Keys == groups.Keys == libs.Keys == counts.Keys == AllPos(n)
    && (forall q :: q in AllPos(n) ==> groups[q] <= AllPos(n))
  }

  /** The indices are consistent with the board at every cell. */
  ghost predicate IndicesConsistent(n: nat, b: Board, groups: map<Pos, set<Pos>>, libs: map<Pos, set<Pos>>,
                                    counts: map<Pos, int>)
  {
    && IndexShape(n, b, groups, libs, counts)
    && forall p {:trigger CellConsistent(n, b, groups, libs, counts, p)} ::
         p in AllPos(n) ==> CellConsistent(n, b, groups, libs, counts, p)
  }

  /** What consistency says at a stone. */
  lemma StoneAt(n: nat, b: Board, groups: map<Pos, set<Pos>>, libs: map<Pos, set<Pos>>,
                counts: map<Pos, int>, x: Pos)
    requires IndicesConsistent(n, b, groups, libs, counts) && x in AllPos(n) && b[x] != Empty
    ensures StoneCellOk(n, b, groups, libs, counts, x)
  {
    assert CellConsistent(n, b, groups, libs, counts, x);
  }

  /** What consistency says at an empty cell. */
  lemma EmptyAt(n: nat, b: Board, groups: map<Pos, set<Pos>>, libs: map<Pos, set<Pos>>,
                counts: map<Pos, int>, x: Pos)
    requires IndicesConsistent(n, b, groups, libs, counts) && x in AllPos(n) && b[x] == Empty
    ensures EmptyCellOk(n, b, groups, libs, counts, x)
  {
    assert CellConsistent(n, b, groups, libs, counts, x);
  }

  /* ---------- what consistency says across cells ---------- */

  /** Members of a stone's group have its colour and its group, and a stone
      belongs to its own group. */
  ghost predicate GroupsShared(b: Board, groups: map<Pos, set<Pos>>) {
    forall x, q :: x in b && x in groups && b[x] != Empty && q in groups[x] ==>
      q in b && q in groups && b[q] == b[x] && groups[q] == groups[x]
  }

  ghost predicate StonesGrouped(b: Board, groups: map<Pos, set<Pos>>) {
    forall x :: x in b && x in groups && b[x] != Empty ==> x in groups[x]
  }

  lemma ConsistentGroupsShared(n: nat, b: Board, groups: map<Pos, set<Pos>>, libs: map<Pos, set<Pos>>,
                               counts: map<Pos, int>)
    requires IndicesConsistent(n, b, groups, libs, counts)
    ensures GroupsShared(b, groups) && StonesGrouped(b, groups)
  {
    forall x | x in b && x in groups && b[x] != Empty
      ensures x in groups[x] && GroupShared(b, groups, x)
    {
      StoneAt(n, b, groups, libs, counts, x);
    }
  }

  /** A stone next to a member of a group, of the group's colour, is in it. */
  ghost predicate GroupsClosed(b: Board, groups: map<Pos, set<Pos>>) {
    forall x, q, r :: x in b && x in groups && b[x] != Empty && q in groups[x] && r in b && Adjacent(q, r) && b[r] == b[x]
      ==> r in groups[x]
  }

  lemma ConsistentGroupsClosed(n: nat, b: Board, groups: map<Pos, set<Pos>>, libs: map<Pos, set<Pos>>,
                               counts: map<Pos, int>)
    requires IndicesConsistent(n, b, groups, libs, counts)
    ensures GroupsClosed(b, groups)
  {
    forall x | x in b && x in groups && b[x] != Empty
      ensures GroupClosed(b, groups, x)
    {
      StoneAt(n, b, groups, libs, counts, x);
    }
  }

  /** One instance of `GroupsShared`. */
  lemma SharedAt(b: Board, groups: map<Pos, set<Pos>>, x: Pos, q: Pos)
    requires GroupsShared(b, groups) && x in b && x in groups && b[x] != Empty && q in groups[x]
    ensures q in b && q in groups && b[q] == b[x] && groups[q] == groups[x]
  {
  }

  /** The group and liberty indices of a state are consistent at every cell. */
  ghost predicate GroupsConsistent(s: GameState) {
    WellFormed(s) && IndicesConsistent(s.size, s.board, s.groupSets, s.libertySets, s.libertyCounts)
  }

  /** No stone on the board is left without liberties. */
  ghost predicate NoDeadGroups(s: GameState)
    requires WellFormed(s)
  {
    forall p :: p in AllPos(s.size) && s.board[p] != Empty ==> |s.libertySets[p]| > 0
  }

  /** The invariant every state reachable through the engine satisfies. */
  ghost predicate Inv(s: GameState) {
    && GroupsConsistent(s)
    && s.currentHash == HashOf(s.hashLookup, s.size, s.board)
    && NoDeadGroups(s)
  }

  /** The liberties of a single cell are its empty neighbours. */
  lemma SingleLiberties(n: nat, b: Board, p: Pos)
    requires b.Keys == AllPos(n) && OnBoard(n, p)
    ensures LibertiesOf(n, b, {p}) == set q | q in Neighbors(n, p) && b[q] == Empty
  {
  }

  /** Initial group index: no cell belongs to a group. */
  function NoGroups(n: nat): map<Pos, set<Pos>> {
    map p | p in AllPos(n) :: {}
  }

  /** Initial liberty index: every cell's set of neighbours. */
  function NeighborSets(n: nat): map<Pos, set<Pos>> {
    map p | p in AllPos(n) :: (set q | q in Neighbors(n, p))
  }

  /** Initial liberty counts and stone ages: -1 everywhere. */
  function AllMinusOne(n: nat): map<Pos, int> {
    map p | p in AllPos(n) :: -1
  }

  /** The indices of a fresh engine are consistent with the empty board. */
  lemma EmptyIndices(n: nat)
    ensures IndicesConsistent(n, EmptyBoard(n), NoGroups(n), NeighborSets(n), AllMinusOne(n))
  {
    var b, groups, libs, counts := EmptyBoard(n), NoGroups(n), NeighborSets(n), AllMinusOne(n);
    assert IndexShape(n, b, groups, libs, counts);
    EmptyCells(n, b, groups, libs, counts);
  }

  lemma EmptyCells(n: nat, b: Board, groups: map<Pos, set<Pos>>, libs: map<Pos, set<Pos>>, counts: map<Pos, int>)
    requires IndexShape(n, b, groups, libs, counts)
    requires b == EmptyBoard(n) && groups == NoGroups(n) && libs == NeighborSets(n) && counts == AllMinusOne(n)
    ensures forall p :: p in AllPos(n) ==> CellConsistent(n, b, groups, libs, counts, p)
  {
    forall p | p in AllPos(n)
      ensures CellConsistent(n, b, groups, libs, counts, p)
    {
      EmptyCell(n, b, groups, libs, counts, p);
    }
  }

  lemma EmptyCell(n: nat, b: Board, groups: map<Pos, set<Pos>>, libs: map<Pos, set<Pos>>,
                  counts: map<Pos, int>, p: Pos)
    requires IndexShape(n, b, groups, libs, counts) && p in AllPos(n)
    requires b == EmptyBoard(n) && groups[p] == {} && counts[p] == -1
    requires libs[p] == set q | q in Neighbors(n, p)
    ensures CellConsistent(n, b, groups, libs, counts, p)
  {
    SingleLiberties(n, b, p);
    assert libs[p] == set q | q in Neighbors(n, p) && b[q] == Empty;
  }

  /** A state whose board is empty and whose indices have their initial values
      satisfies the invariant. */
  lemma FreshStateInv(s: GameState)
    requires s.board == EmptyBoard(s.size)
    requires s.groupSets == NoGroups(s.size) && s.libertySets == NeighborSets(s.size)
    requires s.libertyCounts == AllMinusOne(s.size)
    requires s.stoneAges.Keys == AllPos(s.size) && s.currentHash == 0
    ensures Inv(s)
  {
    EmptyIndices(s.size);
    assert WellFormed(s);
    assert GroupsConsistent(s);
    AllCellsFacts(s.size);
    XorOverNoStones(s.hashLookup, s.board, AllCells(s.size));
    assert s.currentHash == HashOf(s.hashLookup, s.size, s.board);
    assert NoDeadGroups(s);
  }

  /** `GameState.__init__`: an empty board with Black to move, every cell's
      liberty set its neighbours, all counts and ages -1, hash 0, and
      `historyLength - 1` empty snapshots. */
  function NewGame(size: nat, komi: real, enforceSuperko: bool, historyLength: int, table: ZobristTable): (s: GameState)
    ensures Inv(s)
    ensures s.currentPlayer == Black && s.ko == None && s.history == [] && s.handicaps == []
    ensures s.size == size && s.board == EmptyBoard(size)
    ensures |s.boardHistory| == (if historyLength >= 1 then historyLength - 1 else 0)
    ensures forall i :: 0 <= i < |s.boardHistory| ==> s.boardHistory[i] == EmptyBoard(size)
  {
    var empty := EmptyBoard(size);
    var s := GameState(
      size := size,
      board := empty,
      currentPlayer := Black,
      ko := None,
      komi := komi,
      handicaps := [],
      history := [],
      boardHistory := seq(if historyLength >= 1 then historyLength - 1 else 0, _ => empty),
      blackPrisoners := 0,
      whitePrisoners := 0,
      isEndOfGame := false,
      passesWhite := 0,
      passesBlack := 0,
      libertySets := NeighborSets(size),
      libertyCounts := AllMinusOne(size),
      groupSets := NoGroups(size),
      stoneAges := AllMinusOne(size),
      enforceSuperko := enforceSuperko,
      hashLookup := table,
      currentHash := 0,
      previousHashes := {});
    FreshStateInv(s);
    s
  }

  /** `copy`: a fresh state built with the same size and komi, into which the
      board, player, ko point, handicaps, history, snapshots, prisoner counts,
      superko flag, hash, seen hashes and group/liberty indices are copied. Pass
      counters, stone ages and the end-of-game flag are not copied and keep
      the fresh state's values. */
  function Copy(s: GameState): (r: GameState)
    ensures r.board == s.board && r.currentHash == s.currentHash && r.previousHashes == s.previousHashes
    ensures r.groupSets == s.groupSets && r.libertySets == s.libertySets && r.libertyCounts == s.libertyCounts
    ensures r.currentPlayer == s.currentPlayer && r.ko == s.ko && r.history == s.history
    ensures r.passesBlack == 0 && r.passesWhite == 0 && !r.isEndOfGame
    ensures WellFormed(s) ==> WellFormed(r)
    ensures Inv(s) ==> Inv(r)
  {
    s.(passesWhite := 0, passesBlack := 0, isEndOfGame := false,
       stoneAges := AllMinusOne(s.size))
  }
}
