/** What a stone move of `do_move` does beyond keeping the invariant: which
    point can become the ko point, how the prisoner counts grow, when the
    placed stone's group is left without liberties, and which hash the
    superko simulation looks up. */
module MoveOutcome {
  import opened GoTypes
  import opened Geometry
  import opened Zobrist
  import opened GameStates
  import opened Groups
  import opened Placement
  import opened Rules
  import opened Capturing
  import opened Invariant

  /* ---------- the ko point ---------- */

  /** The ko point `ko` is unset, or a neighbour of `p` that held a lone
      opponent stone of `c` on `b` (its group in `groups` has one member)
      and is empty on `bt`. */
  ghost predicate KoPoint(n: nat, p: Pos, b: Board, groups: map<Pos, set<Pos>>, bt: Board, c: Player, ko: Option<Pos>) {
    ko.Some? ==>
      var q := ko.value;
      && q in AllPos(n) && Adjacent(p, q) && q in b && q in groups && q in bt
      && b[q] == Opponent(c) && |groups[q]| == 1 && bt[q] == Empty
  }

  /** The ko point of `f` is unset, or a neighbour of `p` whose lone opponent
      stone of `c` in `s` is gone in `f`. */
  ghost predicate KoFrom(s: GameState, f: GameState, p: Pos, c: Player) {
    KoPoint(s.size, p, s.board, s.groupSets, f.board, c, f.ko)
  }

  /** `r` is `t` after capturing the group `g` of the opponent stone `nb`
      of `c`: `g` is emptied, the ko point moves to `nb` only when `g` is a
      single stone, and the opponent's prisoners grow by `|g|`. */
  ghost predicate TakesGroup(t: GameState, r: GameState, c: Player, nb: Pos) {
    && nb in t.groupSets && nb in t.groupSets[nb] && t.groupSets[nb] <= AllPos(t.size)
    && (forall x :: x in t.groupSets[nb] ==> x in t.board && t.board[x] == Opponent(c))
    && r.board == Assign(t.board, t.groupSets[nb], Empty)
    && ((r.ko == Some(nb) && |t.groupSets[nb]| == 1) || r.ko == t.ko)
    && PrisonersOf(r, Opponent(c)) == PrisonersOf(t, Opponent(c)) + |t.groupSets[nb]|
    && PrisonersOf(r, c) == PrisonersOf(t, c)
  }

  /** What the capture branch does to the board, the ko point and the
      prisoner counts. */
  lemma CaptureFacts(t: GameState, p: Pos, c: Player, nb: Pos)
    requires GroupsConsistent(t) && t.currentHash == HashOf(t.hashLookup, t.size, t.board)
    requires OnBoard(t.size, p) && OnBoard(t.size, nb) && t.board[nb] == Opponent(c) && |t.libertySets[nb]| == 0
    ensures TakesGroup(t, Capture(t, p, c, nb), c, nb)
  {
    var n := t.size;
    CaptureConsistent(t, p, c, nb);
    CaptureCounts(t, p, c, nb);
    StoneAt(n, t.board, t.groupSets, t.libertySets, t.libertyCounts, nb);
    ConsistentGroupsShared(n, t.board, t.groupSets, t.libertySets, t.libertyCounts);
  }

  /** The capture branch moves the ko point only to `nb`, and only after
      taking one stone, and adds the stones it takes to the prisoners of the
      opponent of `c`. */
  lemma CaptureCounts(t: GameState, p: Pos, c: Player, nb: Pos)
    requires WellFormed(t) && OnBoard(t.size, p) && OnBoard(t.size, nb)
    ensures var r, k := Capture(t, p, c, nb), |t.groupSets[nb]|;
            && ((r.ko == Some(nb) && k == 1) || r.ko == t.ko)
            && PrisonersOf(r, Opponent(c)) == PrisonersOf(t, Opponent(c)) + k
            && PrisonersOf(r, c) == PrisonersOf(t, c)
  {
    var g := t.groupSets[nb];
    var removed := RemoveGroup(t, g);
    var counted := AddPrisoners(removed, c, |g|);
    assert Capture(t, p, c, nb) == KoCheck(counted, p, nb, |g|);
  }

  /** Every stone still on `bt` was on `b2` with the same colour and group. */
  ghost predicate Kept(b2: Board, groups2: map<Pos, set<Pos>>, bt: Board, groupsT: map<Pos, set<Pos>>) {
    forall x :: x in bt && bt[x] != Empty ==>
      x in b2 && x in groups2 && x in groupsT && bt[x] == b2[x] && groupsT[x] == groups2[x]
  }

  /** Captures only keep stones from `s2` or remove them. */
  lemma CaptureInvKept(s2: GameState, t: GameState, c: Player)
    requires CaptureInv(s2, t, c)
    ensures Kept(s2.board, s2.groupSets, t.board, t.groupSets)
  {
  }

  /** The ko point after one capture. */
  lemma KoStep(s2: GameState, t: GameState, r: GameState, p: Pos, c: Player, nb: Pos)
    requires TakesGroup(t, r, c, nb) && Kept(s2.board, s2.groupSets, t.board, t.groupSets)
    requires KoFrom(s2, t, p, c) && nb in AllPos(s2.size) && Adjacent(p, nb)
    ensures KoFrom(s2, r, p, c)
  {
    if r.ko == Some(nb) && |t.groupSets[nb]| == 1 {
      assert r.board[nb] == Empty;
    } else if t.ko.Some? {
      assert r.board[t.ko.value] == Empty;
    }
  }

  /** One iteration of the capture loop sets the ko point only to the
      neighbour it captures, and only when that capture took one stone. */
  lemma CaptureStepKo(s2: GameState, t: GameState, p: Pos, c: Player, nb: Pos)
    requires CaptureInv(s2, t, c) && OnBoard(t.size, p) && nb in Neighbors(t.size, p)
    requires KoFrom(s2, t, p, c)
    ensures KoFrom(s2, CaptureStep(t, p, c, nb), p, c)
  {
    if t.board[nb] == Opponent(c) && |t.libertySets[nb]| == 0 {
      CaptureFacts(t, p, c, nb);
      CaptureInvKept(s2, t, c);
      KoStep(s2, t, Capture(t, p, c, nb), p, c, nb);
    }
  }

  /** The capture loop sets the ko point only to a neighbour of `p` whose
      lone opponent stone it took. */
  lemma {:induction false} CapturesKo(s2: GameState, t: GameState, p: Pos, c: Player, ns: seq<Pos>)
    requires CaptureInv(s2, t, c) && OnBoard(t.size, p)
    requires forall q :: q in ns ==> OnBoard(t.size, q) && q in Neighbors(t.size, p)
    requires KoFrom(s2, t, p, c)
    ensures KoFrom(s2, Captures(t, p, c, ns), p, c)
    decreases |ns|
  {
    if ns != [] {
      CaptureStepInv(s2, t, p, c, ns[0]);
      CaptureStepKo(s2, t, p, c, ns[0]);
      CapturesKo(s2, CaptureStep(t, p, c, ns[0]), p, c, ns[1..]);
    }
  }

  /** The capture loop may start from the placed position. */
  lemma CaptureStart(s2: GameState, c: Player)
    requires GroupsConsistent(s2) && s2.currentHash == HashOf(s2.hashLookup, s2.size, s2.board)
    ensures CaptureInv(s2, s2, c)
  {
  }

  /** Placement keeps the ko point and the prisoner counts. */
  lemma PlacedContext(s: GameState, p: Pos)
    requires WellFormed(s) && OnBoard(s.size, p)
    ensures var s2 := Placed(s, p);
            s2.ko == s.ko && s2.blackPrisoners == s.blackPrisoners && s2.whitePrisoners == s.whitePrisoners
  {
  }

  /** Placement keeps the group of every opponent stone. */
  lemma PlacedKeepsOpponentGroups(s: GameState, p: Pos)
    requires GroupsConsistent(s) && OnBoard(s.size, p) && s.board[p] == Empty
    ensures forall q :: q in AllPos(s.size) && s.board[q] == Opponent(s.currentPlayer) ==>
              Placed(s, p).groupSets[q] == s.groupSets[q]
  {
    var m := Placed(s, p).groupSets[p];
    PlacedGroups(s, p);
    ConsistentGroupsShared(s.size, s.board, s.groupSets, s.libertySets, s.libertyCounts);
    MergedColour(s.size, s.board, s.groupSets, s.currentPlayer, p, m);
    forall q | q in AllPos(s.size) && s.board[q] == Opponent(s.currentPlayer)
      ensures q !in m
    {
      assert q != p;
    }
  }

  /** A ko point of the position after placement is one of the position
      before it. */
  lemma KoTransfer(n: nat, p: Pos, b: Board, groups: map<Pos, set<Pos>>, b2: Board, groups2: map<Pos, set<Pos>>,
                   bt: Board, c: Player, ko: Option<Pos>)
    requires KoPoint(n, p, b2, groups2, bt, c, ko)
    requires b.Keys == groups.Keys == AllPos(n) && p in b && b[p] == Empty && b2 == b[p := c]
    requires forall q :: q in AllPos(n) && b[q] == Opponent(c) ==> q in groups2 && groups2[q] == groups[q]
    ensures KoPoint(n, p, b, groups, bt, c, ko)
  {
  }

  /** Starting without a ko point, the captures of a stone move leave the ko
      point unset or on a neighbour whose lone opponent stone they took. */
  lemma CapturedKo(s: GameState, p: Pos)
    requires GroupsConsistent(s) && s.currentHash == HashOf(s.hashLookup, s.size, s.board)
    requires OnBoard(s.size, p) && s.board[p] == Empty && s.ko == None
    ensures KoFrom(s, Captured(s, p), p, s.currentPlayer)
  {
    var c := s.currentPlayer;
    var s2 := Placed(s, p);
    var f := Captured(s, p);
    PlacedConsistent(s, p);
    PlacedContext(s, p);
    CaptureStart(s2, c);
    CapturesKo(s2, s2, p, c, Neighbors(s.size, p));
    PlacedKeepsOpponentGroups(s, p);
    KoTransfer(s.size, p, s.board, s.groupSets, s2.board, s2.groupSets, f.board, c, f.ko);
  }

  /* ---------- the capturing stone of a ko ---------- */

  /** When `r` has a ko point, the stone at `p` that made it stands alone,
      and the ko point is one of its liberties. */
  ghost predicate LoneCapturer(r: GameState, p: Pos) {
    r.ko.Some? ==>
      && p in r.groupSets && r.groupSets[p] == {p}
      && p in r.libertySets && r.ko.value in r.libertySets[p]
  }

  /** Since the placement `s2`, a ko point was only ever set while the
      group of `p` was a single stone. */
  ghost predicate LoneFrom(s2: GameState, t: GameState, p: Pos) {
    t.ko.Some? ==> p in s2.groupSets && |s2.groupSets[p]| == 1
  }

  /** The capture branch moves the ko point only when the group of the
      capturing stone at `p`, which the capture leaves alone, has one
      member. */
  lemma CaptureLone(t: GameState, p: Pos, c: Player, nb: Pos)
    requires WellFormed(t) && OnBoard(t.size, p) && OnBoard(t.size, nb) && p !in t.groupSets[nb]
    ensures Capture(t, p, c, nb).ko == t.ko || |t.groupSets[p]| == 1
  {
    var g := t.groupSets[nb];
    var removed := RemoveGroup(t, g);
    var counted := AddPrisoners(removed, c, |g|);
    assert Capture(t, p, c, nb) == KoCheck(counted, p, nb, |g|);
    RemoveGroupMaps(t, g);
    assert counted.groupSets[p] == t.groupSets[p];
  }

  /** On consistent indices the group of an opponent stone never holds the
      capturing stone, so `CaptureLone` applies. */
  lemma CaptureOpponentLone(t: GameState, p: Pos, c: Player, nb: Pos)
    requires GroupsConsistent(t) && OnBoard(t.size, p) && OnBoard(t.size, nb)
    requires t.board[nb] == Opponent(c) && t.board[p] == c
    ensures Capture(t, p, c, nb).ko == t.ko || |t.groupSets[p]| == 1
  {
    StoneAt(t.size, t.board, t.groupSets, t.libertySets, t.libertyCounts, nb);
    assert p !in t.groupSets[nb];
    CaptureLone(t, p, c, nb);
  }

  /** One iteration of the capture loop keeps `LoneFrom`. */
  lemma CaptureStepLone(s2: GameState, t: GameState, p: Pos, c: Player, nb: Pos)
    requires CaptureInv(s2, t, c) && OnBoard(t.size, p) && OnBoard(t.size, nb)
    requires s2.board[p] == c && LoneFrom(s2, t, p)
    ensures LoneFrom(s2, CaptureStep(t, p, c, nb), p)
  {
    if t.board[nb] == Opponent(c) && |t.libertySets[nb]| == 0 {
      CaptureInvKept(s2, t, c);
      assert t.board[p] == c;
      CaptureOpponentLone(t, p, c, nb);
    }
  }

  /** The capture loop sets a ko point only while the placed stone's group
      is that stone alone. */
  lemma {:induction false} CapturesLone(s2: GameState, t: GameState, p: Pos, c: Player, ns: seq<Pos>)
    requires CaptureInv(s2, t, c) && OnBoard(t.size, p) && forall q :: q in ns ==> OnBoard(t.size, q)
    requires s2.board[p] == c && LoneFrom(s2, t, p)
    ensures LoneFrom(s2, Captures(t, p, c, ns), p)
    decreases |ns|
  {
    if ns != [] {
      CaptureStepInv(s2, t, p, c, ns[0]);
      CaptureStepLone(s2, t, p, c, ns[0]);
      CapturesLone(s2, CaptureStep(t, p, c, ns[0]), p, c, ns[1..]);
    }
  }

  /** A set of one element holding `p` is `{p}`. */
  lemma SingletonOf(g: set<Pos>, p: Pos)
    requires |g| == 1 && p in g
    ensures g == {p}
  {
    var rest := g - {p};
    assert g == rest + {p} && rest !! {p};
    assert |rest| == 0;
  }

  /** Starting without a ko point, the captures of a stone move leave a ko
      point only when the placed stone stands alone. */
  lemma CapturedLone(s: GameState, p: Pos)
    requires GroupsConsistent(s) && s.currentHash == HashOf(s.hashLookup, s.size, s.board)
    requires OnBoard(s.size, p) && s.board[p] == Empty && s.ko == None
    ensures var f := Captured(s, p);
            f.ko.Some? ==> p in f.groupSets && f.groupSets[p] == {p}
  {
    var c := s.currentPlayer;
    var s2 := Placed(s, p);
    var f := Captured(s, p);
    PlacedConsistent(s, p);
    PlacedContext(s, p);
    CaptureStart(s2, c);
    CapturesLone(s2, s2, p, c, Neighbors(s.size, p));
    CapturesOutcome(s2, p, c);
    CaptureInvKept(s2, f, c);
    PlacedStoneStays(s, p);
    StoneAt(s.size, s2.board, s2.groupSets, s2.libertySets, s2.libertyCounts, p);
    if f.ko.Some? {
      SingletonOf(s2.groupSets[p], p);
    }
  }

  /** A stone of the player to move on an empty point leaves a ko point
      only when it stands alone. */
  lemma StoneLone(u: GameState, p: Pos)
    requires GroupsConsistent(u) && u.currentHash == HashOf(u.hashLookup, u.size, u.board)
    requires OnBoard(u.size, p) && u.board[p] == Empty
    ensures var r := Transition(u, Play(p), u.currentPlayer);
            r.ko.Some? ==> p in r.groupSets && r.groupSets[p] == {p}
  {
    var st := StartMove(u);
    StartFacts(u);
    StoneResult(u, p);
    CapturedLone(st, p);
  }

  /** On consistent indices, an empty neighbour of a stone is one of its
      liberties. */
  lemma NeighbourLiberty(n: nat, b: Board, groups: map<Pos, set<Pos>>, libs: map<Pos, set<Pos>>,
                         counts: map<Pos, int>, p: Pos, q: Pos)
    requires IndicesConsistent(n, b, groups, libs, counts)
    requires p in AllPos(n) && b[p] != Empty && q in AllPos(n) && b[q] == Empty && Adjacent(p, q)
    ensures p in libs && q in libs[p]
  {
    StoneAt(n, b, groups, libs, counts, p);
    assert q in LibertiesOf(n, b, groups[p]);
  }

  /** A legal stone move leaves a ko point only when the stone stands alone
      with the ko point among its liberties. */
  lemma TransitionLone(u: GameState, p: Pos)
    requires Inv(u) && IsLegal(u, Play(p))
    ensures LoneCapturer(Transition(u, Play(p), u.currentPlayer), p)
  {
    var r := Transition(u, Play(p), u.currentPlayer);
    StoneKo(u, p);
    StoneLone(u, p);
    StoneKeepsOwn(u, p);
    LegalKeepsInv(u, Play(p), u.currentPlayer);
    if r.ko.Some? {
      NeighbourLiberty(r.size, r.board, r.groupSets, r.libertySets, r.libertyCounts, p, r.ko.value);
    }
  }

  /* ---------- the prisoner counts ---------- */

  /** The prisoner count of colour `col`: the stones of `col` captured so far. */
  function PrisonersOf(s: GameState, col: Player): nat {
    if col == Black then s.blackPrisoners else s.whitePrisoners
  }

  /** The opponent stones of `c` on `b` whose cells are empty in `bt`. */
  ghost function Taken(n: nat, b: Board, bt: Board, c: Player): set<Pos> {
    set q | q in AllPos(n) && q in b && q in bt && b[q] == Opponent(c) && bt[q] == Empty
  }

  /** Since `s`, the opponent of `c` lost as prisoners exactly the opponent
      stones of `s` that are gone in `f`, and `c` lost none. */
  ghost predicate CountFrom(s: GameState, f: GameState, c: Player) {
    && PrisonersOf(f, Opponent(c)) == PrisonersOf(s, Opponent(c)) + |Taken(s.size, s.board, f.board, c)|
    && PrisonersOf(f, c) == PrisonersOf(s, c)
  }

  /** Emptying a group of opponent stones adds exactly that group to the
      taken stones. */
  lemma TakenGrows(n: nat, b: Board, bt: Board, g: set<Pos>, c: Player)
    requires g <= AllPos(n)
    requires forall x :: x in g ==> x in b && x in bt && b[x] == Opponent(c) && bt[x] == Opponent(c)
    ensures |Taken(n, b, Assign(bt, g, Empty), c)| == |Taken(n, b, bt, c)| + |g|
  {
    var before := Taken(n, b, bt, c);
    var after := Taken(n, b, Assign(bt, g, Empty), c);
    assert after == before + g;
    assert before * g == {};
  }

  /** The prisoner counts after one capture. */
  lemma CountStep(s2: GameState, t: GameState, r: GameState, c: Player, nb: Pos)
    requires TakesGroup(t, r, c, nb) && Kept(s2.board, s2.groupSets, t.board, t.groupSets)
    requires CountFrom(s2, t, c) && t.size == s2.size
    ensures CountFrom(s2, r, c)
  {
    forall x | x in t.groupSets[nb]
      ensures x in s2.board && s2.board[x] == Opponent(c)
    {
      assert t.board[x] != Empty;
    }
    TakenGrows(s2.size, s2.board, t.board, t.groupSets[nb], c);
  }

  /** One iteration of the capture loop adds the captured stones to the
      prisoners of their colour. */
  lemma CaptureStepCount(s2: GameState, t: GameState, p: Pos, c: Player, nb: Pos)
    requires CaptureInv(s2, t, c) && OnBoard(t.size, p) && OnBoard(t.size, nb)
    requires CountFrom(s2, t, c)
    ensures CountFrom(s2, CaptureStep(t, p, c, nb), c)
  {
    if t.board[nb] == Opponent(c) && |t.libertySets[nb]| == 0 {
      CaptureFacts(t, p, c, nb);
      CaptureInvKept(s2, t, c);
      CountStep(s2, t, Capture(t, p, c, nb), c, nb);
    }
  }

  /** The capture loop adds every stone it takes to the prisoners of its
      colour. */
  lemma {:induction false} CapturesCount(s2: GameState, t: GameState, p: Pos, c: Player, ns: seq<Pos>)
    requires CaptureInv(s2, t, c) && OnBoard(t.size, p) && forall q :: q in ns ==> OnBoard(t.size, q)
    requires CountFrom(s2, t, c)
    ensures CountFrom(s2, Captures(t, p, c, ns), c)
    decreases |ns|
  {
    if ns != [] {
      CaptureStepInv(s2, t, p, c, ns[0]);
      CaptureStepCount(s2, t, p, c, ns[0]);
      CapturesCount(s2, CaptureStep(t, p, c, ns[0]), p, c, ns[1..]);
    }
  }

  /** Before any capture nothing is taken. */
  lemma CountStart(s2: GameState, c: Player)
    ensures CountFrom(s2, s2, c)
  {
    assert Taken(s2.size, s2.board, s2.board, c) == {};
  }

  /** Filling the empty cell `p` with `c` takes no opponent stone of `c`,
      so the counts from the position after placement are the counts from
      the position before it. */
  lemma CountTransfer(s: GameState, s2: GameState, f: GameState, p: Pos, c: Player)
    requires CountFrom(s2, f, c) && s2.size == s.size && p in s.board && s.board[p] == Empty
    requires s2.board == s.board[p := c]
    requires s2.blackPrisoners == s.blackPrisoners && s2.whitePrisoners == s.whitePrisoners
    ensures CountFrom(s, f, c)
  {
    assert Taken(s.size, s2.board, f.board, c) == Taken(s.size, s.board, f.board, c);
  }

  /** The captures of a stone move add the opponent stones they take to the
      opponent's prisoners and leave the mover's prisoners alone. */
  lemma CapturedPrisoners(s: GameState, p: Pos)
    requires GroupsConsistent(s) && s.currentHash == HashOf(s.hashLookup, s.size, s.board)
    requires OnBoard(s.size, p) && s.board[p] == Empty
    ensures CountFrom(s, Captured(s, p), s.currentPlayer)
  {
    var c := s.currentPlayer;
    var s2 := Placed(s, p);
    PlacedConsistent(s, p);
    PlacedContext(s, p);
    CaptureStart(s2, c);
    CountStart(s2, c);
    CapturesCount(s2, s2, p, c, Neighbors(s.size, p));
    CountTransfer(s, s2, Captured(s, p), p, c);
  }

  /* ---------- the stone move of `do_move` ---------- */

  /** The board, groups, ko point and prisoner counts after a stone move are
      those left by its captures. */
  lemma StoneResult(u: GameState, p: Pos)
    requires WellFormed(u) && OnBoard(u.size, p)
    ensures var r, f := Transition(u, Play(p), u.currentPlayer), Captured(StartMove(u), p);
            && r.size == u.size && r.board == f.board && r.groupSets == f.groupSets && r.ko == f.ko
            && r.blackPrisoners == f.blackPrisoners && r.whitePrisoners == f.whitePrisoners
  {
    var c := u.currentPlayer;
    var f := Captured(StartMove(u), p);
    TransitionPlay(u, p, c);
    assert PlayStone(StartMove(u), p, c) == f.(previousHashes := f.previousHashes + {f.currentHash});
  }

  /** The position a stone move starts its captures from is the mover's,
      without a ko point. */
  lemma StartFacts(u: GameState)
    requires GroupsConsistent(u) && u.currentHash == HashOf(u.hashLookup, u.size, u.board)
    ensures var st := StartMove(u);
            && GroupsConsistent(st) && st.currentHash == HashOf(st.hashLookup, st.size, st.board)
            && st.ko == None && st.size == u.size && st.board == u.board && st.groupSets == u.groupSets
            && st.currentPlayer == u.currentPlayer
            && st.blackPrisoners == u.blackPrisoners && st.whitePrisoners == u.whitePrisoners
  {
  }

  /** `KoFrom` only looks at sizes, boards, groups and the ko point. */
  lemma KoSame(s: GameState, st: GameState, f: GameState, r: GameState, p: Pos, c: Player)
    requires KoFrom(st, f, p, c) && st.size == s.size && st.board == s.board && st.groupSets == s.groupSets
    requires r.board == f.board && r.ko == f.ko
    ensures KoFrom(s, r, p, c)
  {
  }

  /** `CountFrom` only looks at sizes, boards and prisoner counts. */
  lemma CountSame(s: GameState, st: GameState, f: GameState, r: GameState, c: Player)
    requires CountFrom(st, f, c) && st.size == s.size && st.board == s.board
    requires st.blackPrisoners == s.blackPrisoners && st.whitePrisoners == s.whitePrisoners
    requires r.board == f.board && r.blackPrisoners == f.blackPrisoners && r.whitePrisoners == f.whitePrisoners
    ensures CountFrom(s, r, c)
  {
  }

  /** A stone of the player to move on an empty point sets the ko point only
      to a neighbour whose lone opponent stone it captured. */
  lemma StoneKo(u: GameState, p: Pos)
    requires GroupsConsistent(u) && u.currentHash == HashOf(u.hashLookup, u.size, u.board)
    requires OnBoard(u.size, p) && u.board[p] == Empty
    ensures KoFrom(u, Transition(u, Play(p), u.currentPlayer), p, u.currentPlayer)
  {
    var st := StartMove(u);
    StartFacts(u);
    StoneResult(u, p);
    CapturedKo(st, p);
    KoSame(u, st, Captured(st, p), Transition(u, Play(p), u.currentPlayer), p, u.currentPlayer);
  }

  /** A stone of the player to move on an empty point adds the stones it
      captures to the opponent's prisoners. */
  lemma StoneCounts(u: GameState, p: Pos)
    requires GroupsConsistent(u) && u.currentHash == HashOf(u.hashLookup, u.size, u.board)
    requires OnBoard(u.size, p) && u.board[p] == Empty
    ensures CountFrom(u, Transition(u, Play(p), u.currentPlayer), u.currentPlayer)
  {
    var st := StartMove(u);
    StartFacts(u);
    StoneResult(u, p);
    CapturedPrisoners(st, p);
    CountSame(u, st, Captured(st, p), Transition(u, Play(p), u.currentPlayer), u.currentPlayer);
  }

  /** After a successful stone move of `do_move` by mover `c`, the ko point
      is unset, or it is a neighbour of the stone that held a lone stone of
      the opponent of `c`, now captured, while the stone played stands alone
      with the ko point among its liberties. */
  lemma DoMoveKo(s: GameState, p: Pos, color: Color)
    requires Inv(s)
    ensures var r := DoMove(s, Play(p), color);
            r.Success? ==> KoFrom(s, r.value, p, MoveColor(s, color)) && LoneCapturer(r.value, p)
  {
    DoMoveTransition(s, Play(p), color);
    var u := Mover(s, color);
    if IsLegal(u, Play(p)) {
      var r := Transition(u, Play(p), u.currentPlayer);
      MoverKeepsInv(s, color);
      StoneKo(u, p);
      KoSame(s, u, r, r, p, u.currentPlayer);
      TransitionLone(u, p);
    }
  }

  /** After a successful stone move of `do_move` by mover `c`, the opponent
      of `c` has lost as prisoners exactly its stones that the move took off
      the board, and `c` has lost none. */
  lemma DoMovePrisoners(s: GameState, p: Pos, color: Color)
    requires Inv(s)
    ensures var r := DoMove(s, Play(p), color);
            r.Success? ==> CountFrom(s, r.value, MoveColor(s, color))
  {
    DoMoveTransition(s, Play(p), color);
    var u := Mover(s, color);
    if IsLegal(u, Play(p)) {
      var r := Transition(u, Play(p), u.currentPlayer);
      MoverKeepsInv(s, color);
      StoneCounts(u, p);
      CountSame(s, u, r, r, u.currentPlayer);
    }
  }

  /* ---------- the mover's stones ---------- */

  /** Captures by `c` after `c` fills the empty cell `p` of `b` never take
      a stone of `c`. */
  lemma OwnStonesKept(n: nat, b: Board, p: Pos, b2: Board, groups2: map<Pos, set<Pos>>, bt: Board,
                      groupsT: map<Pos, set<Pos>>, c: Player)
    requires CapturedFrom(n, b2, groups2, bt, groupsT, c)
    requires p in b && b[p] == Empty && b2 == b[p := c]
    ensures forall q :: q in AllPos(n) && q in b && b[q] == c ==> bt[q] == c
  {
  }

  /** The captures of a stone move keep every stone of the mover, the new
      one included. */
  lemma CapturedKeepsOwn(s: GameState, p: Pos)
    requires GroupsConsistent(s) && s.currentHash == HashOf(s.hashLookup, s.size, s.board)
    requires OnBoard(s.size, p) && s.board[p] == Empty
    ensures var f, c := Captured(s, p), s.currentPlayer;
            && f.board[p] == c
            && forall q :: q in AllPos(s.size) && s.board[q] == c ==> f.board[q] == c
  {
    var c := s.currentPlayer;
    var s2 := Placed(s, p);
    var f := Captured(s, p);
    PlacedConsistent(s, p);
    CapturesOutcome(s2, p, c);
    OwnStonesKept(s.size, s.board, p, s2.board, s2.groupSets, f.board, f.groupSets, c);
    PlacedStoneStays(s, p);
  }

  /** A stone move of the player to move keeps that player's stones and adds
      the new one. */
  lemma StoneKeepsOwn(u: GameState, p: Pos)
    requires GroupsConsistent(u) && u.currentHash == HashOf(u.hashLookup, u.size, u.board)
    requires OnBoard(u.size, p) && u.board[p] == Empty
    ensures var r, c := Transition(u, Play(p), u.currentPlayer), u.currentPlayer;
            && r.board[p] == c
            && forall q :: q in AllPos(u.size) && u.board[q] == c ==> r.board[q] == c
  {
    var st := StartMove(u);
    StartFacts(u);
    StoneResult(u, p);
    CapturedKeepsOwn(st, p);
  }

  /** Board `rb` keeps every stone of `c` that `b` holds and, when `a` is a
      stone move, has a stone of `c` on its point. */
  ghost predicate OwnKept(n: nat, b: Board, a: Action, c: Player, rb: Board) {
    && (a.Play? ==> a.at in rb && rb[a.at] == c)
    && forall q :: q in AllPos(n) && q in b && b[q] == c ==> q in rb && rb[q] == c
  }

  /** A legal move of the player to move keeps that player's stones. */
  lemma TransitionKeepsOwn(u: GameState, a: Action)
    requires Inv(u) && IsLegal(u, a)
    ensures var r := Transition(u, a, u.currentPlayer);
            r.size == u.size && OwnKept(u.size, u.board, a, u.currentPlayer, r.board)
  {
    match a {
      case Pass => TransitionPass(u, u.currentPlayer);
      case Play(p) => StoneKeepsOwn(u, p);
    }
  }

  /** A successful `do_move` by mover `c` keeps every stone of `c` on the
      board and, for a stone move, puts a stone of `c` on its point. */
  lemma DoMoveKeepsOwn(s: GameState, a: Action, color: Color)
    requires Inv(s)
    ensures var r := DoMove(s, a, color);
            r.Success? ==> r.value.size == s.size && OwnKept(s.size, s.board, a, MoveColor(s, color), r.value.board)
  {
    DoMoveTransition(s, a, color);
    var u := Mover(s, color);
    if IsLegal(u, a) {
      MoverKeepsInv(s, color);
      TransitionKeepsOwn(u, a);
    }
  }

  /* ---------- suicide ---------- */

  /** A capture loop that meets no opponent neighbour with an empty liberty
      set changes nothing. */
  lemma {:induction false} CapturesNone(t: GameState, p: Pos, c: Player, ns: seq<Pos>)
    requires WellFormed(t) && OnBoard(t.size, p) && forall q :: q in ns ==> OnBoard(t.size, q)
    requires forall q :: q in ns ==> t.board[q] != Opponent(c) || |t.libertySets[q]| > 0
    ensures Captures(t, p, c, ns) == t
    decreases |ns|
  {
    if ns != [] {
      assert ns[0] in ns;
      assert CaptureStep(t, p, c, ns[0]) == t;
      CapturesNone(t, p, c, ns[1..]);
    }
  }

  /** A liberty other than `p` stays a liberty when `p` is filled. */
  lemma LibertyBesides(n: nat, b: Board, g: set<Pos>, p: Pos, c: Player, e: Pos)
    requires e in LibertiesOf(n, b, g) && e != p
    ensures e in LibertiesOf(n, b[p := c], g)
  {
  }

  /** When the move is suicide, every opponent neighbour keeps a liberty
      after placement. */
  lemma SuicideOpponentsLive(s: GameState, p: Pos, nb: Pos)
    requires GroupsConsistent(s) && s.currentHash == HashOf(s.hashLookup, s.size, s.board)
    requires OnBoard(s.size, p) && s.board[p] == Empty && IsSuicide(s, p)
    requires nb in Neighbors(s.size, p) && s.board[nb] == Opponent(s.currentPlayer)
    ensures |Placed(s, p).libertySets[nb]| > 0
  {
    var n, c := s.size, s.currentPlayer;
    var s2 := Placed(s, p);
    PlacedConsistent(s, p);
    PlacedKeepsOpponentGroups(s, p);
    SuicideRule(s, p);
    var e :| e in s.libertySets[nb] - {p};
    StoneAt(n, s.board, s.groupSets, s.libertySets, s.libertyCounts, nb);
    StoneAt(n, s2.board, s2.groupSets, s2.libertySets, s2.libertyCounts, nb);
    LibertyBesides(n, s.board, s.groupSets[nb], p, c, e);
  }

  /** A suicide move captures nothing. */
  lemma SuicideCapturesNothing(s: GameState, p: Pos)
    requires GroupsConsistent(s) && s.currentHash == HashOf(s.hashLookup, s.size, s.board)
    requires OnBoard(s.size, p) && s.board[p] == Empty && IsSuicide(s, p)
    ensures Captured(s, p) == Placed(s, p)
  {
    var c := s.currentPlayer;
    var s2 := Placed(s, p);
    forall nb | nb in Neighbors(s.size, p)
      ensures s2.board[nb] != Opponent(c) || |s2.libertySets[nb]| > 0
    {
      if s.board[nb] == Opponent(c) {
        SuicideOpponentsLive(s, p, nb);
      }
    }
    CapturesNone(s2, p, c, Neighbors(s.size, p));
  }

  /** For a suicide move the placed point has no empty neighbour and every
      friendly neighbour's group has no liberty but `p`. */
  lemma SuicideSurroundings(s: GameState, p: Pos)
    requires GroupsConsistent(s) && OnBoard(s.size, p) && s.board[p] == Empty && IsSuicide(s, p)
    ensures LibertiesOf(s.size, s.board, {p}) == {}
    ensures forall nb :: FriendOf(s.size, s.board, s.groupSets, s.currentPlayer, p, nb) ==>
              LibertiesOf(s.size, s.board, s.groupSets[nb]) <= {p}
  {
    var n, b := s.size, s.board;
    SuicideRule(s, p);
    EmptyAt(n, b, s.groupSets, s.libertySets, s.libertyCounts, p);
    forall nb | FriendOf(n, b, s.groupSets, s.currentPlayer, p, nb)
      ensures LibertiesOf(n, b, s.groupSets[nb]) <= {p}
    {
      StoneAt(n, b, s.groupSets, s.libertySets, s.libertyCounts, nb);
    }
  }

  /** No cell is a liberty of a merged group whose parts have no liberty
      but the filled point `p`. */
  lemma MergedDead(n: nat, b: Board, groups: map<Pos, set<Pos>>, c: Player, p: Pos, m: set<Pos>, e: Pos)
    requires LibertiesOf(n, b, {p}) == {} && MembersFrom(n, b, groups, c, p, m)
    requires forall nb :: FriendOf(n, b, groups, c, p, nb) ==> LibertiesOf(n, b, groups[nb]) <= {p}
    ensures e !in LibertiesOf(n, b[p := c], m)
  {
    if e in AllPos(n) && e in b && e != p && b[e] == Empty {
      forall y | y in m
        ensures !Adjacent(y, e)
      {
        if y == p {
          assert e !in LibertiesOf(n, b, {p});
        } else {
          var nb :| FriendOf(n, b, groups, c, p, nb) && y in groups[nb];
          assert e !in LibertiesOf(n, b, groups[nb]);
        }
      }
    }
  }

  /** A suicide move leaves the placed stone's group without liberties: the
      stone is on the board, nothing was captured, and no cell next to the
      merged group is empty. */
  lemma SuicideNoLiberty(s: GameState, p: Pos)
    requires GroupsConsistent(s) && s.currentHash == HashOf(s.hashLookup, s.size, s.board)
    requires OnBoard(s.size, p) && s.board[p] == Empty && IsSuicide(s, p)
    ensures var f := Captured(s, p);
            && f.board == s.board[p := s.currentPlayer]
            && LibertiesOf(f.size, f.board, f.groupSets[p]) == {}
  {
    var m := Placed(s, p).groupSets[p];
    SuicideCapturesNothing(s, p);
    PlacedGroups(s, p);
    SuicideSurroundings(s, p);
    forall e | e in AllPos(s.size)
      ensures e !in LibertiesOf(s.size, s.board[p := s.currentPlayer], m)
    {
      MergedDead(s.size, s.board, s.groupSets, s.currentPlayer, p, m, e);
    }
  }

  /** The placed stone survives its own captures. */
  lemma PlacedStoneStays(s: GameState, p: Pos)
    requires GroupsConsistent(s) && s.currentHash == HashOf(s.hashLookup, s.size, s.board)
    requires OnBoard(s.size, p) && s.board[p] == Empty
    ensures Captured(s, p).board[p] == s.currentPlayer
  {
    PlacedConsistent(s, p);
    CapturesOutcome(Placed(s, p), p, s.currentPlayer);
  }

  /** `is_suicide` says exactly whether the placed stone's group would be
      left without liberties once the move's captures are done. */
  lemma SuicideIffNoLiberty(s: GameState, p: Pos)
    requires Inv(s) && OnBoard(s.size, p) && s.board[p] == Empty
    ensures var f := Captured(s, p);
            IsSuicide(s, p) <==> LibertiesOf(f.size, f.board, f.groupSets[p]) == {}
  {
    if IsSuicide(s, p) {
      SuicideNoLiberty(s, p);
    } else {
      PlacedStoneStays(s, p);
      CapturedNoDead(s, p);
    }
  }

  /* ---------- positional superko ---------- */

  /** Two states that hold the same position with the same player to move;
      ages, counters, history and flags may differ. */
  ghost predicate Alike(x: GameState, y: GameState) {
    SamePosition(x, y) && x.currentPlayer == y.currentPlayer
  }

  /** Placement depends only on the position and the player to move. */
  lemma PlacedAlike(x: GameState, y: GameState, p: Pos)
    requires WellFormed(x) && WellFormed(y) && OnBoard(x.size, p) && Alike(x, y)
    ensures Alike(Placed(x, p), Placed(y, p))
  {
    var c := x.currentPlayer;
    var x1, y1 := Place(x, p, c), Place(y, p, c);
    assert PlacementMerge(x1, p) == PlacementMerge(y1, p);
  }

  /** Removing a group depends only on the position. */
  lemma RemoveGroupAlike(x: GameState, y: GameState, g: set<Pos>)
    requires WellFormed(x) && WellFormed(y) && g <= AllPos(x.size) && Alike(x, y)
    ensures Alike(RemoveGroup(x, g), RemoveGroup(y, g))
  {
  }

  /** The capture branch depends only on the position. */
  lemma CaptureAlike(x: GameState, y: GameState, p: Pos, c: Player, nb: Pos)
    requires WellFormed(x) && WellFormed(y) && OnBoard(x.size, p) && OnBoard(x.size, nb) && Alike(x, y)
    ensures Alike(Capture(x, p, c, nb), Capture(y, p, c, nb))
  {
    RemoveGroupAlike(x, y, x.groupSets[nb]);
  }

  /** One iteration of the capture loop depends only on the position. */
  lemma CaptureStepAlike(x: GameState, y: GameState, p: Pos, c: Player, nb: Pos)
    requires WellFormed(x) && WellFormed(y) && OnBoard(x.size, p) && OnBoard(x.size, nb) && Alike(x, y)
    ensures Alike(CaptureStep(x, p, c, nb), CaptureStep(y, p, c, nb))
  {
    if x.board[nb] == Opponent(c) && |x.libertySets[nb]| == 0 {
      CaptureAlike(x, y, p, c, nb);
    }
  }

  /** The capture loop depends only on the position. */
  lemma {:induction false} CapturesAlike(x: GameState, y: GameState, p: Pos, c: Player, ns: seq<Pos>)
    requires WellFormed(x) && WellFormed(y) && OnBoard(x.size, p) && Alike(x, y)
    requires forall q :: q in ns ==> OnBoard(x.size, q)
    ensures Alike(Captures(x, p, c, ns), Captures(y, p, c, ns))
    decreases |ns|
  {
    if ns != [] {
      CaptureStepAlike(x, y, p, c, ns[0]);
      CapturesAlike(CaptureStep(x, p, c, ns[0]), CaptureStep(y, p, c, ns[0]), p, c, ns[1..]);
    }
  }

  /** The stone branch depends only on the position and the player to move. */
  lemma PlayStoneAlike(x: GameState, y: GameState, p: Pos)
    requires WellFormed(x) && WellFormed(y) && OnBoard(x.size, p) && Alike(x, y)
    ensures Alike(PlayStone(x, p, x.currentPlayer), PlayStone(y, p, y.currentPlayer))
  {
    PlacedAlike(x, y, p);
    CapturesAlike(Placed(x, p), Placed(y, p), p, x.currentPlayer, Neighbors(x.size, p));
  }

  /** The first steps of a move keep two states alike. */
  lemma StartAlike(x: GameState, y: GameState)
    requires WellFormed(x) && WellFormed(y) && Alike(x, y)
    ensures Alike(StartMove(x), StartMove(y))
  {
  }

  /** The last steps of a move keep the position. */
  lemma HandoverAlike(x: GameState, y: GameState, a: Action, c: Player)
    requires SamePosition(x, y)
    ensures SamePosition(Handover(x, a, c), Handover(y, a, c))
  {
  }

  /** The position after a stone move depends only on the position and the
      player to move before it. */
  lemma StoneAlike(x: GameState, y: GameState, p: Pos)
    requires WellFormed(x) && WellFormed(y) && OnBoard(x.size, p) && Alike(x, y)
    ensures SamePosition(Transition(x, Play(p), x.currentPlayer), Transition(y, Play(p), y.currentPlayer))
  {
    var c := x.currentPlayer;
    TransitionPlay(x, p, c);
    TransitionPlay(y, p, c);
    StartAlike(x, y);
    PlayStoneAlike(StartMove(x), StartMove(y), p);
    HandoverAlike(PlayStone(StartMove(x), p, c), PlayStone(StartMove(y), p, c), Play(p), c);
  }

  /** A move keeps the key table. */
  lemma TransitionTable(s: GameState, a: Action, c: Player)
    requires WellFormed(s) && (a.Play? ==> OnBoard(s.size, a.at))
    ensures Transition(s, a, c).hashLookup == s.hashLookup
  {
  }

  /** The simulated move of `is_positional_superko` is legal whenever the
      real one passes the board, suicide and ko checks, and it is the
      transition of the simulation copy. */
  lemma SimulatedStone(s: GameState, p: Pos)
    requires WellFormed(s) && OnBoard(s.size, p) && s.board[p] == Empty && !IsSuicide(s, p) && s.ko != Some(p)
    ensures DoMove(Simulation(s), Play(p), Empty) == Success(Transition(Simulation(s), Play(p), s.currentPlayer))
  {
    var sim := Simulation(s);
    assert Mover(sim, Empty) == sim;
    SuicideSameIndices(s, sim, p);
    DoMoveStone(sim, p, Empty);
    DoMoveTransition(sim, Play(p), Empty);
  }

  /** The hash the simulation looks up is the hash of the board the real
      move would produce. */
  lemma SimulatedHash(s: GameState, p: Pos)
    requires Inv(s) && OnBoard(s.size, p) && s.board[p] == Empty && !IsSuicide(s, p)
    ensures Transition(Simulation(s), Play(p), s.currentPlayer).currentHash ==
              HashOf(s.hashLookup, s.size, Transition(s, Play(p), s.currentPlayer).board)
  {
    StoneAlike(Simulation(s), s, p);
    StoneKeepsInv(s, p);
    TransitionTable(s, Play(p), s.currentPlayer);
  }

  /** `is_positional_superko` for a stone that passes the board, suicide and
      ko checks: it reports a repetition exactly when the stone is a
      handicap point or one of the player's own earlier moves and the hash
      of the board the move would produce has been seen before. */
  lemma SuperkoLooksUp(s: GameState, p: Pos)
    requires Inv(s) && OnBoard(s.size, p) && s.board[p] == Empty && !IsSuicide(s, p) && s.ko != Some(p)
    ensures IsPositionalSuperko(s, Play(p)) ==
              Success((Play(p) in s.handicaps || Play(p) in OwnMoves(s)) &&
                      HashOf(s.hashLookup, s.size, Transition(s, Play(p), s.currentPlayer).board) in s.previousHashes)
  {
    if Play(p) in s.handicaps || Play(p) in OwnMoves(s) {
      SimulatedStone(s, p);
      SimulatedHash(s, p);
    }
  }
}
