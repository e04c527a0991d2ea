/** Placing a stone keeps the indices exact. When the indices agree with the
    board before a stone of the player to move goes on an empty cell `p`,
    `_update_neighbors` leaves them agreeing with the new board: the placed
    stone's group is `p` together with every same-coloured neighbouring group,
    its liberty set is that union's liberties, and every other liberty set
    merely loses `p`.

    The neighbour loop updates three things independently (the liberty
    index, the count index, the merged group with its liberties), so each has
    its own loop invariant, stated against the indices `groups`, `libs`,
    `counts` of the board `b` before the stone of `c` went on `p`. */
module Placement {
  import opened GoTypes
  import opened Geometry
  import opened Seqs
  import opened GameStates
  import opened Groups
  import opened Liberties

  /** The situation in which `_update_neighbors` runs: consistent indices and
      an empty target cell. */
  ghost predicate Before(n: nat, b: Board, groups: map<Pos, set<Pos>>, libs: map<Pos, set<Pos>>,
                         counts: map<Pos, int>, p: Pos)
  {
    IndicesConsistent(n, b, groups, libs, counts) && OnBoard(n, p) && b[p] == Empty
  }

  /** A liberty entry is either untouched or has lost `p`, and it has lost
      `p` at every cell sharing a visited neighbour's set. */
  ghost predicate LibsInv(groups: map<Pos, set<Pos>>, libs: map<Pos, set<Pos>>, p: Pos,
                          accLibs: map<Pos, set<Pos>>, done: set<Pos>)
  {
    && (forall q :: q in accLibs ==> q in libs && (accLibs[q] == libs[q] || accLibs[q] == libs[q] - {p}))
    && (forall nb, q :: nb in done && q in Sharers(groups, nb) && q in accLibs ==>
          q in libs && accLibs[q] == libs[q] - {p})
  }

  /** A count is either untouched or, at an opponent stone, the size of its
      liberty set without `p`, which it is throughout every visited opponent
      neighbour's group. */
  ghost predicate CountsInv(b: Board, groups: map<Pos, set<Pos>>, libs: map<Pos, set<Pos>>,
                            counts: map<Pos, int>, c: Player, p: Pos, accCounts: map<Pos, int>, done: set<Pos>)
  {
    && (forall q :: q in accCounts ==>
          && q in counts && q in b && q in libs
          && (accCounts[q] == counts[q] || (b[q] == Opponent(c) && accCounts[q] == |libs[q] - {p}|)))
    && (forall nb, q :: OpponentIn(b, groups, c, nb, done) && q in groups[nb] && q in accCounts ==>
          q in libs && accCounts[q] == |libs[q] - {p}|)
  }

  /** `nb` is a visited opponent stone. */
  ghost predicate OpponentIn(b: Board, groups: map<Pos, set<Pos>>, c: Player, nb: Pos, done: set<Pos>) {
    nb in done && nb in b && nb in groups && b[nb] == Opponent(c)
  }

  /** The merged group is `p` plus groups of same-coloured neighbours, it
      holds the group of every visited one, and the merged liberty set is
      its liberties on the new board. */
  ghost predicate GroupInv(n: nat, b: Board, groups: map<Pos, set<Pos>>, c: Player, p: Pos,
                           group: set<Pos>, groupLibs: set<Pos>, done: set<Pos>)
  {
    && p in group
    && (forall q :: q in group ==> q == p || exists nb :: FriendOf(n, b, groups, c, p, nb) && q in groups[nb])
    && (forall nb :: nb in done && FriendOf(n, b, groups, c, p, nb) ==> groups[nb] <= group)
    && groupLibs == LibertiesOf(n, b[p := c], group)
  }

  /** `nb` is a neighbour of `p` holding a stone of `c`. */
  ghost predicate FriendOf(n: nat, b: Board, groups: map<Pos, set<Pos>>, c: Player, p: Pos, nb: Pos) {
    OnBoard(n, p) && nb in Neighbors(n, p) && nb in b && nb in groups && b[nb] == c
  }

  /** Every cell sharing a cell's set object has the same liberty set, and
      for a stone the same group and colour. */
  lemma SharersAgree(n: nat, b: Board, groups: map<Pos, set<Pos>>, libs: map<Pos, set<Pos>>,
                     counts: map<Pos, int>, nb: Pos)
    requires IndicesConsistent(n, b, groups, libs, counts) && nb in AllPos(n)
    ensures forall q :: q in Sharers(groups, nb) ==> q in AllPos(n) && libs[q] == libs[nb]
    ensures b[nb] != Empty ==> Sharers(groups, nb) == groups[nb] && GroupShared(b, groups, nb)
  {
    if b[nb] == Empty {
      EmptyAt(n, b, groups, libs, counts, nb);
    } else {
      StoneAt(n, b, groups, libs, counts, nb);
      forall q | q in groups[nb]
        ensures libs[q] == libs[nb]
      {
        StoneAt(n, b, groups, libs, counts, q);
      }
    }
  }

  /* ---------- the liberty index ---------- */

  /** What one iteration does to the liberty index. */
  lemma MergeStepLibs(b: Board, groups: map<Pos, set<Pos>>, c: Player, p: Pos, acc: Merge, nb: Pos)
    requires nb in b && nb in groups && nb in acc.libs && p in b
    ensures MergeStep(b, groups, c, p, acc, nb).libs == Assign(acc.libs, Sharers(groups, nb), acc.libs[nb] - {p})
  {
  }

  /** One iteration: `p` leaves the set shared by `nb`, whose sharers all
      have the liberty set of `nb`. */
  lemma LibsStep(groups: map<Pos, set<Pos>>, libs: map<Pos, set<Pos>>, p: Pos,
                 accLibs: map<Pos, set<Pos>>, done: set<Pos>, nb: Pos)
    requires nb in accLibs && nb in libs
    requires forall q :: q in Sharers(groups, nb) ==> q in libs && libs[q] == libs[nb]
    requires LibsInv(groups, libs, p, accLibs, done)
    ensures LibsInv(groups, libs, p, Assign(accLibs, Sharers(groups, nb), accLibs[nb] - {p}), done + {nb})
  {
    var l := Assign(accLibs, Sharers(groups, nb), accLibs[nb] - {p});
    forall nb', q | nb' in done + {nb} && q in Sharers(groups, nb') && q in l
      ensures q in libs && l[q] == libs[q] - {p}
    {
      if q !in Sharers(groups, nb) {
        assert nb' in done;
      }
    }
  }

  /** Cells sharing a set object have equal liberty sets. */
  ghost predicate LibsShared(groups: map<Pos, set<Pos>>, libs: map<Pos, set<Pos>>) {
    forall nb, q :: nb in libs && q in Sharers(groups, nb) ==> q in libs && libs[q] == libs[nb]
  }

  lemma ConsistentLibsShared(n: nat, b: Board, groups: map<Pos, set<Pos>>, libs: map<Pos, set<Pos>>,
                             counts: map<Pos, int>)
    requires IndicesConsistent(n, b, groups, libs, counts)
    ensures LibsShared(groups, libs)
  {
    forall nb | nb in libs
      ensures forall q :: q in Sharers(groups, nb) ==> q in libs && libs[q] == libs[nb]
    {
      SharersAgree(n, b, groups, libs, counts, nb);
    }
  }

  /** The whole loop over `ns`. */
  lemma {:induction false} LibsLoop(b: Board, groups: map<Pos, set<Pos>>, libs: map<Pos, set<Pos>>,
                                    c: Player, p: Pos, acc: Merge, done: set<Pos>, ns: seq<Pos>)
    requires b.Keys == groups.Keys == libs.Keys == acc.libs.Keys && p in b && forall q :: q in ns ==> q in b
    requires LibsShared(groups, libs) && LibsInv(groups, libs, p, acc.libs, done)
    ensures LibsInv(groups, libs, p, MergeLoop(b, groups, c, p, acc, ns).libs, done + Elems(ns))
    decreases |ns|
  {
    if ns == [] {
      assert done + Elems(ns) == done;
    } else {
      var next := MergeStep(b, groups, c, p, acc, ns[0]);
      MergeStepLibs(b, groups, c, p, acc, ns[0]);
      LibsStep(groups, libs, p, acc.libs, done, ns[0]);
      LibsLoop(b, groups, libs, c, p, next, done + {ns[0]}, ns[1..]);
      ElemsCons(ns, done);
    }
  }

  /* ---------- the count index ---------- */

  /** Every liberty entry agrees with the old one once `p` is taken out. */
  ghost predicate LibsLoose(libs: map<Pos, set<Pos>>, p: Pos, accLibs: map<Pos, set<Pos>>) {
    forall q :: q in accLibs ==> q in libs && accLibs[q] - {p} == libs[q] - {p}
  }

  lemma LooseStep(groups: map<Pos, set<Pos>>, libs: map<Pos, set<Pos>>, p: Pos,
                  accLibs: map<Pos, set<Pos>>, nb: Pos)
    requires nb in accLibs && LibsShared(groups, libs) && LibsLoose(libs, p, accLibs)
    ensures LibsLoose(libs, p, Assign(accLibs, Sharers(groups, nb), accLibs[nb] - {p}))
  {
  }

  /** What one iteration does to the count index. */
  lemma MergeStepCounts(b: Board, groups: map<Pos, set<Pos>>, c: Player, p: Pos, acc: Merge, nb: Pos)
    requires nb in b && nb in groups && nb in acc.libs && p in b
    ensures MergeStep(b, groups, c, p, acc, nb).counts ==
              if b[nb] == Opponent(c) then Assign(acc.counts, groups[nb], |acc.libs[nb] - {p}|) else acc.counts
  {
  }

  /** One iteration at an opponent neighbour: its group gets the size of its
      liberty set without `p` as count. */
  lemma CountsStepOpponent(b: Board, groups: map<Pos, set<Pos>>, libs: map<Pos, set<Pos>>, counts: map<Pos, int>,
                           c: Player, p: Pos, acc: Merge, done: set<Pos>, nb: Pos)
    requires nb in b && nb in groups && nb in libs && nb in acc.libs && b[nb] == Opponent(c)
    requires LibsShared(groups, libs) && GroupsShared(b, groups) && StonesGrouped(b, groups)
    requires LibsLoose(libs, p, acc.libs) && CountsInv(b, groups, libs, counts, c, p, acc.counts, done)
    ensures CountsInv(b, groups, libs, counts, c, p, Assign(acc.counts, groups[nb], |acc.libs[nb] - {p}|), done + {nb})
  {
    var v := |acc.libs[nb] - {p}|;
    assert v == |libs[nb] - {p}|;
    var k := Assign(acc.counts, groups[nb], v);
    assert nb in groups[nb] && Sharers(groups, nb) == groups[nb];
    forall q | q in k
      ensures q in counts && q in b && q in libs
      ensures k[q] == counts[q] || (b[q] == Opponent(c) && k[q] == |libs[q] - {p}|)
    {
      if q in groups[nb] {
        assert libs[q] == libs[nb] && b[q] == b[nb];
      }
    }
    forall nb', q | OpponentIn(b, groups, c, nb', done + {nb}) && q in groups[nb'] && q in k
      ensures q in libs && k[q] == |libs[q] - {p}|
    {
      if q in groups[nb] {
        assert libs[q] == libs[nb];
      } else {
        assert OpponentIn(b, groups, c, nb', done);
      }
    }
  }

  /** One iteration at any other neighbour: the counts stay. */
  lemma CountsStepOther(b: Board, groups: map<Pos, set<Pos>>, libs: map<Pos, set<Pos>>, counts: map<Pos, int>,
                        c: Player, p: Pos, accCounts: map<Pos, int>, done: set<Pos>, nb: Pos)
    requires nb in b && b[nb] != Opponent(c)
    requires CountsInv(b, groups, libs, counts, c, p, accCounts, done)
    ensures CountsInv(b, groups, libs, counts, c, p, accCounts, done + {nb})
  {
    forall nb', q | OpponentIn(b, groups, c, nb', done + {nb}) && q in groups[nb'] && q in accCounts
      ensures q in libs && accCounts[q] == |libs[q] - {p}|
    {
      assert OpponentIn(b, groups, c, nb', done);
    }
  }

  /** The whole loop over `ns`, on the board `b[p := c]` the loop sees. */
  lemma {:induction false} CountsLoop(b: Board, groups: map<Pos, set<Pos>>, libs: map<Pos, set<Pos>>,
                                      counts: map<Pos, int>, c: Player, p: Pos, acc: Merge, done: set<Pos>,
                                      ns: seq<Pos>)
    requires b.Keys == groups.Keys == libs.Keys == acc.libs.Keys && p in b
    requires forall q :: q in ns ==> q in b && q != p
    requires LibsShared(groups, libs) && GroupsShared(b, groups) && StonesGrouped(b, groups)
    requires LibsLoose(libs, p, acc.libs) && CountsInv(b, groups, libs, counts, c, p, acc.counts, done)
    ensures CountsInv(b, groups, libs, counts, c, p, MergeLoop(b[p := c], groups, c, p, acc, ns).counts,
                      done + Elems(ns))
    decreases |ns|
  {
    if ns == [] {
      assert done + Elems(ns) == done;
    } else {
      var nb := ns[0];
      var next := MergeStep(b[p := c], groups, c, p, acc, nb);
      MergeStepLibs(b[p := c], groups, c, p, acc, nb);
      MergeStepCounts(b[p := c], groups, c, p, acc, nb);
      assert b[p := c][nb] == b[nb];
      LooseStep(groups, libs, p, acc.libs, nb);
      if b[nb] == Opponent(c) {
        CountsStepOpponent(b, groups, libs, counts, c, p, acc, done, nb);
      } else {
        CountsStepOther(b, groups, libs, counts, c, p, acc.counts, done, nb);
      }
      CountsLoop(b, groups, libs, counts, c, p, next, done + {nb}, ns[1..]);
      ElemsCons(ns, done);
    }
  }

  /* ---------- the merged group ---------- */

  /** What one iteration does to the merged group and its liberties. */
  lemma MergeStepGroup(b: Board, groups: map<Pos, set<Pos>>, c: Player, p: Pos, acc: Merge, nb: Pos)
    requires nb in b && nb in groups && nb in acc.libs && p in b
    ensures var joins := b[nb] != Opponent(c) && b[p] == b[nb];
            && MergeStep(b, groups, c, p, acc, nb).group == (if joins then acc.group + groups[nb] else acc.group)
            && MergeStep(b, groups, c, p, acc, nb).groupLibs ==
                 (if joins then acc.groupLibs + (acc.libs[nb] - {p}) else acc.groupLibs)
  {
  }

  /** One iteration at a neighbour of the placed colour: its group and its
      liberties other than `p` join the merged ones. */
  lemma GroupStepFriend(n: nat, b: Board, groups: map<Pos, set<Pos>>, libs: map<Pos, set<Pos>>, c: Player, p: Pos,
                        acc: Merge, done: set<Pos>, nb: Pos)
    requires OnBoard(n, p) && nb in Neighbors(n, p) && nb in b && nb in groups && nb in libs && nb in acc.libs
    requires b[nb] == c && libs[nb] == LibertiesOf(n, b, groups[nb]) && acc.libs[nb] - {p} == libs[nb] - {p}
    requires GroupInv(n, b, groups, c, p, acc.group, acc.groupLibs, done)
    ensures GroupInv(n, b, groups, c, p, acc.group + groups[nb], acc.groupLibs + (acc.libs[nb] - {p}), done + {nb})
  {
    LibertiesUnion(n, b[p := c], acc.group, groups[nb]);
    LibertiesPlaced(n, b, p, c, groups[nb]);
    assert FriendOf(n, b, groups, c, p, nb);
    forall nb' | nb' in done + {nb} && FriendOf(n, b, groups, c, p, nb')
      ensures groups[nb'] <= acc.group + groups[nb]
    {
      if nb' != nb {
        assert nb' in done;
      }
    }
  }

  /** One iteration at any other neighbour: nothing joins. */
  lemma GroupStepOther(n: nat, b: Board, groups: map<Pos, set<Pos>>, c: Player, p: Pos,
                       group: set<Pos>, groupLibs: set<Pos>, done: set<Pos>, nb: Pos)
    requires nb in b && b[nb] != c
    requires GroupInv(n, b, groups, c, p, group, groupLibs, done)
    ensures GroupInv(n, b, groups, c, p, group, groupLibs, done + {nb})
  {
    forall nb' | nb' in done + {nb} && FriendOf(n, b, groups, c, p, nb')
      ensures groups[nb'] <= group
    {
      assert nb' in done;
    }
  }

  /** The whole loop over `ns`, on the board `b[p := c]` the loop sees. */
  lemma {:induction false} GroupLoop(n: nat, b: Board, groups: map<Pos, set<Pos>>, libs: map<Pos, set<Pos>>,
                                     c: Player, p: Pos, acc: Merge, done: set<Pos>, ns: seq<Pos>)
    requires OnBoard(n, p) && b.Keys == groups.Keys == libs.Keys == acc.libs.Keys && p in b
    requires forall q :: q in ns ==> q in Neighbors(n, p) && q in b
    requires forall q :: q in ns && b[q] == c ==> libs[q] == LibertiesOf(n, b, groups[q])
    requires LibsShared(groups, libs) && LibsLoose(libs, p, acc.libs)
    requires GroupInv(n, b, groups, c, p, acc.group, acc.groupLibs, done)
    ensures var r := MergeLoop(b[p := c], groups, c, p, acc, ns);
            GroupInv(n, b, groups, c, p, r.group, r.groupLibs, done + Elems(ns))
    decreases |ns|
  {
    if ns == [] {
      assert done + Elems(ns) == done;
    } else {
      var nb := ns[0];
      var next := MergeStep(b[p := c], groups, c, p, acc, nb);
      MergeStepLibs(b[p := c], groups, c, p, acc, nb);
      MergeStepGroup(b[p := c], groups, c, p, acc, nb);
      assert b[p := c][nb] == b[nb] && b[p := c][p] == c;
      LooseStep(groups, libs, p, acc.libs, nb);
      if b[nb] == c {
        GroupStepFriend(n, b, groups, libs, c, p, acc, done, nb);
      } else {
        GroupStepOther(n, b, groups, c, p, acc.group, acc.groupLibs, done, nb);
      }
      GroupLoop(n, b, groups, libs, c, p, next, done + {nb}, ns[1..]);
      ElemsCons(ns, done);
    }
  }

  /* ---------- the indices after the loop ---------- */

  /** The members of the merged group: `p` and the groups of the friendly
      neighbours. */
  ghost predicate MembersFrom(n: nat, b: Board, groups: map<Pos, set<Pos>>, c: Player, p: Pos, group: set<Pos>) {
    forall q :: q in group ==> q == p || exists nb :: FriendOf(n, b, groups, c, p, nb) && q in groups[nb]
  }

  /** Every friendly neighbour's group is inside the merged group. */
  ghost predicate FriendsIn(n: nat, b: Board, groups: map<Pos, set<Pos>>, c: Player, p: Pos, group: set<Pos>) {
    forall nb :: FriendOf(n, b, groups, c, p, nb) ==> groups[nb] <= group
  }

  /** After visiting every neighbour, the merge invariant says the merged
      group is made of, and contains, the friendly neighbours' groups. */
  lemma GroupInvDone(n: nat, b: Board, groups: map<Pos, set<Pos>>, c: Player, p: Pos,
                     group: set<Pos>, groupLibs: set<Pos>, done: set<Pos>)
    requires OnBoard(n, p) && GroupInv(n, b, groups, c, p, group, groupLibs, done)
    requires forall nb :: nb in Neighbors(n, p) ==> nb in done
    ensures MembersFrom(n, b, groups, c, p, group) && FriendsIn(n, b, groups, c, p, group)
  {
  }

  /** Every stone of the merged group has the placed colour. */
  lemma MergedColour(n: nat, b: Board, groups: map<Pos, set<Pos>>, c: Player, p: Pos, group: set<Pos>)
    requires b.Keys == AllPos(n) && p in b && b[p] == Empty
    requires GroupsShared(b, groups) && MembersFrom(n, b, groups, c, p, group)
    ensures forall x :: x in group ==> x in AllPos(n) && b[p := c][x] == c
  {
    forall x | x in group
      ensures x in AllPos(n) && b[p := c][x] == c
    {
      if x != p {
        var nb :| FriendOf(n, b, groups, c, p, nb) && x in groups[nb];
        SharedAt(b, groups, nb, x);
      }
    }
  }

  /** The merged group is closed under adjacency of the placed colour. */
  lemma MergedClosed(n: nat, b: Board, groups: map<Pos, set<Pos>>, c: Player, p: Pos, group: set<Pos>)
    requires b.Keys == groups.Keys == AllPos(n) && OnBoard(n, p) && p in group
    requires GroupsClosed(b, groups) && StonesGrouped(b, groups)
    requires MembersFrom(n, b, groups, c, p, group) && FriendsIn(n, b, groups, c, p, group)
    ensures forall x, r :: x in group && r in b && Adjacent(x, r) && b[p := c][r] == c ==> r in group
  {
    forall x, r | x in group && r in b && Adjacent(x, r) && b[p := c][r] == c
      ensures r in group
    {
      if r != p {
        if x == p {
          assert FriendOf(n, b, groups, c, p, r);
        } else {
          var nb :| FriendOf(n, b, groups, c, p, nb) && x in groups[nb];
          assert r in groups[nb];
        }
      }
    }
  }

  /** A stone's group that meets the merged group lies inside it. */
  lemma MergedWhole(n: nat, b: Board, groups: map<Pos, set<Pos>>, c: Player, p: Pos, group: set<Pos>, q: Pos)
    requires p in b && b[p] == Empty && q in b && q in groups && b[q] != Empty
    requires GroupsShared(b, groups) && StonesGrouped(b, groups)
    requires MembersFrom(n, b, groups, c, p, group) && FriendsIn(n, b, groups, c, p, group)
    ensures forall x :: x in groups[q] && x in group ==> groups[q] <= group
  {
    forall x | x in groups[q] && x in group
      ensures groups[q] <= group
    {
      SharedAt(b, groups, q, x);
      var nb :| FriendOf(n, b, groups, c, p, nb) && x in groups[nb];
      SharedAt(b, groups, nb, x);
    }
  }
  /** A cell of the merged group is a consistent stone cell afterwards. */
  lemma MergedCell(n: nat, b0: Board, groups: map<Pos, set<Pos>>, acc: Merge, c: Player, q: Pos)
    requires groups.Keys == acc.libs.Keys == acc.counts.Keys == AllPos(n) && q in acc.group
    requires forall x :: x in acc.group ==> x in AllPos(n) && x in b0 && b0[x] == c
    requires forall x, r :: x in acc.group && r in b0 && Adjacent(x, r) && b0[r] == c ==> r in acc.group
    requires acc.groupLibs == LibertiesOf(n, b0, acc.group)
    ensures StoneCellOk(n, b0, Assign(groups, acc.group, acc.group), Assign(acc.libs, acc.group, acc.groupLibs),
                        Assign(acc.counts, acc.group, |acc.groupLibs|), q)
  {
  }

  /** One instance of each half of `LibsInv`. */
  lemma LibsInvAt(groups: map<Pos, set<Pos>>, libs: map<Pos, set<Pos>>, p: Pos, accLibs: map<Pos, set<Pos>>,
                  done: set<Pos>, nb: Pos, q: Pos)
    requires LibsInv(groups, libs, p, accLibs, done) && q in accLibs
    ensures q in libs && (accLibs[q] == libs[q] || accLibs[q] == libs[q] - {p})
    ensures nb in done && q in Sharers(groups, nb) ==> accLibs[q] == libs[q] - {p}
  {
  }

  /** One instance of each half of `CountsInv`. */
  lemma CountsInvAt(b: Board, groups: map<Pos, set<Pos>>, libs: map<Pos, set<Pos>>, counts: map<Pos, int>,
                    c: Player, p: Pos, accCounts: map<Pos, int>, done: set<Pos>, nb: Pos, q: Pos)
    requires CountsInv(b, groups, libs, counts, c, p, accCounts, done) && q in accCounts
    ensures q in counts && q in b && q in libs
    ensures accCounts[q] == counts[q] || (b[q] == Opponent(c) && accCounts[q] == |libs[q] - {p}|)
    ensures OpponentIn(b, groups, c, nb, done) && q in groups[nb] ==> accCounts[q] == |libs[q] - {p}|
  {
  }

  /** An empty cell other than `p` keeps count -1 and loses `p` as a liberty
      exactly when it is next to `p`. */
  lemma OutsideEmptyCell(n: nat, b: Board, groups: map<Pos, set<Pos>>, libs: map<Pos, set<Pos>>,
                         counts: map<Pos, int>, c: Player, p: Pos, acc: Merge, done: set<Pos>, q: Pos)
    requires acc.libs.Keys == acc.counts.Keys == AllPos(n)
    requires OnBoard(n, p) && q in AllPos(n) && q in b && b[q] == Empty
    requires EmptyCellOk(n, b, groups, libs, counts, q)
    requires forall nb :: nb in Neighbors(n, p) ==> nb in done
    requires LibsInv(groups, libs, p, acc.libs, done) && CountsInv(b, groups, libs, counts, c, p, acc.counts, done)
    ensures acc.libs[q] == LibertiesOf(n, b[p := c], {q}) && acc.counts[q] == -1
  {
    LibertiesPlaced(n, b, p, c, {q});
    CountsInvAt(b, groups, libs, counts, c, p, acc.counts, done, q, q);
    LibsInvAt(groups, libs, p, acc.libs, done, q, q);
    if p in libs[q] {
      LibertyWitness(n, b, {q}, p);
      assert q in Neighbors(n, p);
    }
  }

  /** The liberty and count entries of a stone outside the merged group,
      given a visited neighbour `m` of `p` in its group when `p` was one of
      its liberties. */
  lemma OutsideStoneEntries(b: Board, groups: map<Pos, set<Pos>>, libs: map<Pos, set<Pos>>,
                            counts: map<Pos, int>, c: Player, p: Pos, acc: Merge, done: set<Pos>, q: Pos, m: Pos)
    requires q in acc.libs && q in acc.counts && q in b && q in groups && b[q] != Empty && q in libs && q in counts
    requires counts[q] == |libs[q]|
    requires p in libs[q] ==> m in done && m in b && m in groups && b[m] == b[q] && groups[m] == groups[q] && q in groups[q]
    requires p in libs[q] && b[q] == c ==> groups[m] <= acc.group
    requires LibsInv(groups, libs, p, acc.libs, done) && CountsInv(b, groups, libs, counts, c, p, acc.counts, done)
    ensures q !in acc.group ==> acc.libs[q] == libs[q] - {p} && acc.counts[q] == |acc.libs[q]|
  {
    if p in libs[q] {
      LibsInvAt(groups, libs, p, acc.libs, done, m, q);
      CountsInvAt(b, groups, libs, counts, c, p, acc.counts, done, m, q);
    } else {
      assert libs[q] - {p} == libs[q];
      LibsInvAt(groups, libs, p, acc.libs, done, q, q);
      CountsInvAt(b, groups, libs, counts, c, p, acc.counts, done, q, q);
    }
  }

  /** A stone outside the merged group keeps its liberty set, less `p`, and a
      matching count. */
  lemma OutsideStoneLibs(n: nat, b: Board, groups: map<Pos, set<Pos>>, libs: map<Pos, set<Pos>>,
                         counts: map<Pos, int>, c: Player, p: Pos, acc: Merge, done: set<Pos>, q: Pos)
    requires b.Keys == groups.Keys == libs.Keys == counts.Keys == acc.libs.Keys == acc.counts.Keys == AllPos(n)
    requires OnBoard(n, p) && q in AllPos(n) && b[q] != Empty
    requires libs[q] == LibertiesOf(n, b, groups[q]) && counts[q] == |libs[q]|
    requires GroupsShared(b, groups) && StonesGrouped(b, groups) && FriendsIn(n, b, groups, c, p, acc.group)
    requires forall nb :: nb in Neighbors(n, p) ==> nb in done
    requires LibsInv(groups, libs, p, acc.libs, done) && CountsInv(b, groups, libs, counts, c, p, acc.counts, done)
    ensures q !in acc.group ==> acc.libs[q] == libs[q] - {p} && acc.counts[q] == |acc.libs[q]|
  {
    if p in libs[q] {
      LibertyWitness(n, b, groups[q], p);
      var m :| m in groups[q] && Adjacent(m, p);
      SharedAt(b, groups, q, m);
      NeighborOf(n, p, m);
      OutsideStoneEntries(b, groups, libs, counts, c, p, acc, done, q, m);
    } else {
      OutsideStoneEntries(b, groups, libs, counts, c, p, acc, done, q, q);
    }
  }

  /** A stone outside the merged group keeps its group, which stays shared. */
  lemma OutsideStoneShared(n: nat, b: Board, groups: map<Pos, set<Pos>>, c: Player, p: Pos, group: set<Pos>, q: Pos)
    requires b.Keys == groups.Keys == AllPos(n) && p in b && b[p] == Empty && q in AllPos(n) && b[q] != Empty
    requires GroupsShared(b, groups) && StonesGrouped(b, groups)
    requires MembersFrom(n, b, groups, c, p, group) && FriendsIn(n, b, groups, c, p, group)
    ensures q !in group ==> GroupShared(b[p := c], Assign(groups, group, group), q)
  {
    MergedWhole(n, b, groups, c, p, group, q);
    forall x | x in groups[q]
      ensures x in b && b[x] == b[q] && groups[x] == groups[q]
    {
      SharedAt(b, groups, q, x);
    }
  }

  /** A stone outside the merged group keeps a closed group: the new stone
      could only join it by being of its colour, and then the group would
      have been merged. */
  lemma OutsideStoneClosed(n: nat, b: Board, groups: map<Pos, set<Pos>>, c: Player, p: Pos, group: set<Pos>, q: Pos)
    requires b.Keys == groups.Keys == AllPos(n) && OnBoard(n, p) && b[p] == Empty && q in AllPos(n) && b[q] != Empty
    requires GroupsShared(b, groups) && StonesGrouped(b, groups) && GroupsClosed(b, groups)
    requires FriendsIn(n, b, groups, c, p, group)
    ensures q !in group ==> GroupClosed(b[p := c], Assign(groups, group, group), q)
  {
    forall x, r | x in groups[q] && r in b && Adjacent(x, r) && b[p := c][r] == b[q]
      ensures r == p ==> q in group
      ensures r != p ==> r in groups[q]
    {
      SharedAt(b, groups, q, x);
      if r == p {
        NeighborOf(n, p, x);
        assert FriendOf(n, b, groups, c, p, x);
      }
    }
  }
  /* ---------- the whole index after `_update_neighbors` ---------- */

  /** A cell of the merged group is consistent. */
  lemma CellInMerged(n: nat, b: Board, groups: map<Pos, set<Pos>>, c: Player, p: Pos, acc: Merge, q: Pos)
    requires b.Keys == groups.Keys == acc.libs.Keys == acc.counts.Keys == AllPos(n)
    requires forall x :: x in acc.group ==> x in AllPos(n) && b[p := c][x] == c
    requires forall x, r :: x in acc.group && r in b && Adjacent(x, r) && b[p := c][r] == c ==> r in acc.group
    requires p in b && acc.groupLibs == LibertiesOf(n, b[p := c], acc.group)
    ensures q in acc.group ==>
              CellConsistent(n, b[p := c], Assign(groups, acc.group, acc.group),
                             Assign(acc.libs, acc.group, acc.groupLibs), Assign(acc.counts, acc.group, |acc.groupLibs|), q)
  {
    if q in acc.group {
      MergedCell(n, b[p := c], groups, acc, c, q);
    }
  }

  /** An empty cell outside the merged group is consistent. */
  lemma CellOutsideEmpty(n: nat, b: Board, groups: map<Pos, set<Pos>>, libs: map<Pos, set<Pos>>,
                         counts: map<Pos, int>, c: Player, p: Pos, acc: Merge, done: set<Pos>, q: Pos)
    requires b.Keys == groups.Keys == acc.libs.Keys == acc.counts.Keys == AllPos(n)
    requires OnBoard(n, p) && p in acc.group && q in AllPos(n) && CellConsistent(n, b, groups, libs, counts, q)
    requires forall nb :: nb in Neighbors(n, p) ==> nb in done
    requires LibsInv(groups, libs, p, acc.libs, done) && CountsInv(b, groups, libs, counts, c, p, acc.counts, done)
    ensures q !in acc.group && b[p := c][q] == Empty ==>
              CellConsistent(n, b[p := c], Assign(groups, acc.group, acc.group),
                             Assign(acc.libs, acc.group, acc.groupLibs), Assign(acc.counts, acc.group, |acc.groupLibs|), q)
  {
    if q !in acc.group && b[p := c][q] == Empty {
      OutsideEmptyCell(n, b, groups, libs, counts, c, p, acc, done, q);
    }
  }

  /** A stone outside the merged group is consistent. */
  lemma CellOutsideStone(n: nat, b: Board, groups: map<Pos, set<Pos>>, libs: map<Pos, set<Pos>>,
                         counts: map<Pos, int>, c: Player, p: Pos, acc: Merge, done: set<Pos>, q: Pos)
    requires b.Keys == groups.Keys == libs.Keys == counts.Keys == acc.libs.Keys == acc.counts.Keys == AllPos(n)
    requires OnBoard(n, p) && b[p] == Empty && p in acc.group && q in AllPos(n)
    requires CellConsistent(n, b, groups, libs, counts, q)
    requires GroupsShared(b, groups) && StonesGrouped(b, groups) && GroupsClosed(b, groups)
    requires MembersFrom(n, b, groups, c, p, acc.group) && FriendsIn(n, b, groups, c, p, acc.group)
    requires forall nb :: nb in Neighbors(n, p) ==> nb in done
    requires LibsInv(groups, libs, p, acc.libs, done) && CountsInv(b, groups, libs, counts, c, p, acc.counts, done)
    ensures q !in acc.group && b[p := c][q] != Empty ==>
              CellConsistent(n, b[p := c], Assign(groups, acc.group, acc.group),
                             Assign(acc.libs, acc.group, acc.groupLibs), Assign(acc.counts, acc.group, |acc.groupLibs|), q)
  {
    if q !in acc.group && b[p := c][q] != Empty {
      OutsideStoneLibs(n, b, groups, libs, counts, c, p, acc, done, q);
      LibertiesPlaced(n, b, p, c, groups[q]);
      OutsideStoneShared(n, b, groups, c, p, acc.group, q);
      OutsideStoneClosed(n, b, groups, c, p, acc.group, q);
    }
  }

  /** The new indices keep the shape: every group is a set of positions. */
  lemma MergedShape(n: nat, b: Board, groups: map<Pos, set<Pos>>, libs: map<Pos, set<Pos>>,
                    counts: map<Pos, int>, c: Player, p: Pos, acc: Merge)
    requires IndexShape(n, b, groups, libs, counts) && OnBoard(n, p)
    requires acc.libs.Keys == acc.counts.Keys == AllPos(n) && acc.group <= AllPos(n)
    ensures IndexShape(n, b[p := c], Assign(groups, acc.group, acc.group),
                       Assign(acc.libs, acc.group, acc.groupLibs), Assign(acc.counts, acc.group, |acc.groupLibs|))
  {
    var groups' := Assign(groups, acc.group, acc.group);
    forall q | q in AllPos(n)
      ensures groups'[q] <= AllPos(n)
    {
      assert groups[q] <= AllPos(n);
    }
  }

  /** Every cell is consistent after the merge. */
  lemma MergedCells(n: nat, b: Board, groups: map<Pos, set<Pos>>, libs: map<Pos, set<Pos>>,
                    counts: map<Pos, int>, c: Player, p: Pos, acc: Merge, done: set<Pos>)
    requires b.Keys == groups.Keys == libs.Keys == counts.Keys == acc.libs.Keys == acc.counts.Keys == AllPos(n)
    requires OnBoard(n, p) && b[p] == Empty && p in acc.group
    requires forall q :: q in AllPos(n) ==> CellConsistent(n, b, groups, libs, counts, q)
    requires GroupsShared(b, groups) && StonesGrouped(b, groups) && GroupsClosed(b, groups)
    requires MembersFrom(n, b, groups, c, p, acc.group) && FriendsIn(n, b, groups, c, p, acc.group)
    requires forall x :: x in acc.group ==> x in AllPos(n) && b[p := c][x] == c
    requires forall x, r :: x in acc.group && r in b && Adjacent(x, r) && b[p := c][r] == c ==> r in acc.group
    requires acc.groupLibs == LibertiesOf(n, b[p := c], acc.group)
    requires forall nb :: nb in Neighbors(n, p) ==> nb in done
    requires LibsInv(groups, libs, p, acc.libs, done) && CountsInv(b, groups, libs, counts, c, p, acc.counts, done)
    ensures forall q :: q in AllPos(n) ==>
              CellConsistent(n, b[p := c], Assign(groups, acc.group, acc.group),
                             Assign(acc.libs, acc.group, acc.groupLibs), Assign(acc.counts, acc.group, |acc.groupLibs|), q)
  {
    forall q | q in AllPos(n)
      ensures CellConsistent(n, b[p := c], Assign(groups, acc.group, acc.group),
                             Assign(acc.libs, acc.group, acc.groupLibs), Assign(acc.counts, acc.group, |acc.groupLibs|), q)
    {
      CellInMerged(n, b, groups, c, p, acc, q);
      CellOutsideEmpty(n, b, groups, libs, counts, c, p, acc, done, q);
      CellOutsideStone(n, b, groups, libs, counts, c, p, acc, done, q);
    }
  }

  /** After the neighbour loop has visited every neighbour of `p`, writing
      the merged group, its liberties and their number into its members gives
      indices consistent with the board holding the new stone. */
  lemma MergeConsistent(n: nat, b: Board, groups: map<Pos, set<Pos>>, libs: map<Pos, set<Pos>>,
                        counts: map<Pos, int>, c: Player, p: Pos, acc: Merge, done: set<Pos>)
    requires IndicesConsistent(n, b, groups, libs, counts) && OnBoard(n, p) && b[p] == Empty
    requires acc.libs.Keys == acc.counts.Keys == AllPos(n)
    requires forall nb :: nb in Neighbors(n, p) ==> nb in done
    requires LibsInv(groups, libs, p, acc.libs, done) && CountsInv(b, groups, libs, counts, c, p, acc.counts, done)
    requires GroupInv(n, b, groups, c, p, acc.group, acc.groupLibs, done)
    ensures IndicesConsistent(n, b[p := c], Assign(groups, acc.group, acc.group),
                              Assign(acc.libs, acc.group, acc.groupLibs), Assign(acc.counts, acc.group, |acc.groupLibs|))
  {
    ConsistentGroupsShared(n, b, groups, libs, counts);
    ConsistentGroupsClosed(n, b, groups, libs, counts);
    GroupInvDone(n, b, groups, c, p, acc.group, acc.groupLibs, done);
    MergedColour(n, b, groups, c, p, acc.group);
    MergedClosed(n, b, groups, c, p, acc.group);
    MergedShape(n, b, groups, libs, counts, c, p, acc);
    MergedCells(n, b, groups, libs, counts, c, p, acc, done);
  }
  /* ---------- `_update_neighbors` restores consistency ---------- */

  /** Before the first iteration nothing is visited and the counts are the
      old ones. */
  lemma CountsStart(b: Board, groups: map<Pos, set<Pos>>, libs: map<Pos, set<Pos>>, counts: map<Pos, int>,
                    c: Player, p: Pos)
    requires counts.Keys == b.Keys == libs.Keys
    ensures CountsInv(b, groups, libs, counts, c, p, counts, {})
  {
  }

  /** The liberty index after the whole neighbour loop. */
  lemma LibsAfterLoop(n: nat, b: Board, groups: map<Pos, set<Pos>>, libs: map<Pos, set<Pos>>,
                      counts: map<Pos, int>, c: Player, p: Pos)
    requires b.Keys == groups.Keys == libs.Keys == AllPos(n) && OnBoard(n, p) && LibsShared(groups, libs)
    ensures var acc := MergeLoop(b[p := c], groups, c, p, Merge(libs, counts, {p}, libs[p]), Neighbors(n, p));
            LibsInv(groups, libs, p, acc.libs, {} + Elems(Neighbors(n, p)))
  {
    LibsLoop(b[p := c], groups, libs, c, p, Merge(libs, counts, {p}, libs[p]), {}, Neighbors(n, p));
  }

  /** The count index after the whole neighbour loop. */
  lemma CountsAfterLoop(n: nat, b: Board, groups: map<Pos, set<Pos>>, libs: map<Pos, set<Pos>>,
                        counts: map<Pos, int>, c: Player, p: Pos)
    requires b.Keys == groups.Keys == libs.Keys == counts.Keys == AllPos(n) && OnBoard(n, p)
    requires LibsShared(groups, libs) && GroupsShared(b, groups) && StonesGrouped(b, groups)
    ensures var acc := MergeLoop(b[p := c], groups, c, p, Merge(libs, counts, {p}, libs[p]), Neighbors(n, p));
            CountsInv(b, groups, libs, counts, c, p, acc.counts, {} + Elems(Neighbors(n, p)))
  {
    CountsStart(b, groups, libs, counts, c, p);
    CountsLoop(b, groups, libs, counts, c, p, Merge(libs, counts, {p}, libs[p]), {}, Neighbors(n, p));
  }

  /** The merged group and its liberties after the whole neighbour loop. */
  lemma GroupAfterLoop(n: nat, b: Board, groups: map<Pos, set<Pos>>, libs: map<Pos, set<Pos>>,
                       counts: map<Pos, int>, c: Player, p: Pos)
    requires b.Keys == groups.Keys == libs.Keys == AllPos(n) && OnBoard(n, p) && b[p] == Empty
    requires libs[p] == LibertiesOf(n, b, {p}) && LibsShared(groups, libs)
    requires forall q :: q in Neighbors(n, p) && b[q] == c ==> libs[q] == LibertiesOf(n, b, groups[q])
    ensures var acc := MergeLoop(b[p := c], groups, c, p, Merge(libs, counts, {p}, libs[p]), Neighbors(n, p));
            GroupInv(n, b, groups, c, p, acc.group, acc.groupLibs, {} + Elems(Neighbors(n, p)))
  {
    LibertiesPlaced(n, b, p, c, {p});
    LibertyWitness(n, b, {p}, p);
    assert GroupInv(n, b, groups, c, p, {p}, libs[p], {});
    GroupLoop(n, b, groups, libs, c, p, Merge(libs, counts, {p}, libs[p]), {}, Neighbors(n, p));
  }

  /** Running the neighbour loop from its initial state `({p}, libs[p])` over
      all neighbours of `p`, then writing the merged group back, turns indices
      consistent with `b` into indices consistent with `b` plus a stone of `c`
      at the empty point `p`. */
  lemma MergeAll(n: nat, b: Board, groups: map<Pos, set<Pos>>, libs: map<Pos, set<Pos>>,
                 counts: map<Pos, int>, c: Player, p: Pos)
    requires IndicesConsistent(n, b, groups, libs, counts) && OnBoard(n, p) && b[p] == Empty
    ensures var acc := MergeLoop(b[p := c], groups, c, p, Merge(libs, counts, {p}, libs[p]), Neighbors(n, p));
            IndicesConsistent(n, b[p := c], Assign(groups, acc.group, acc.group),
                              Assign(acc.libs, acc.group, acc.groupLibs), Assign(acc.counts, acc.group, |acc.groupLibs|))
  {
    ConsistentLibsShared(n, b, groups, libs, counts);
    ConsistentGroupsShared(n, b, groups, libs, counts);
    EmptyAt(n, b, groups, libs, counts, p);
    forall q | q in Neighbors(n, p) && b[q] == c
      ensures libs[q] == LibertiesOf(n, b, groups[q])
    {
      StoneAt(n, b, groups, libs, counts, q);
    }
    LibsAfterLoop(n, b, groups, libs, counts, c, p);
    CountsAfterLoop(n, b, groups, libs, counts, c, p);
    GroupAfterLoop(n, b, groups, libs, counts, c, p);
    var acc := MergeLoop(b[p := c], groups, c, p, Merge(libs, counts, {p}, libs[p]), Neighbors(n, p));
    MergeConsistent(n, b, groups, libs, counts, c, p, acc, {} + Elems(Neighbors(n, p)));
  }

  /** `_update_neighbors` for a stone of the player to move at `p`, whose
      indices are still those of the board before the stone: afterwards the
      indices are consistent with the board. */
  lemma UpdateNeighborsConsistent(s: GameState, p: Pos)
    requires WellFormed(s) && OnBoard(s.size, p) && s.board[p] == s.currentPlayer
    requires IndicesConsistent(s.size, s.board[p := Empty], s.groupSets, s.libertySets, s.libertyCounts)
    ensures GroupsConsistent(UpdateNeighbors(s, p))
  {
    var b := s.board[p := Empty];
    assert b[p := s.currentPlayer] == s.board;
    MergeAll(s.size, b, s.groupSets, s.libertySets, s.libertyCounts, s.currentPlayer, p);
  }

  /** The group index `_update_neighbors` leaves: the placed stone's group
      `M` is written to each of its members and every other entry is kept;
      `M` holds `p` and the groups of the same-coloured neighbours, and
      nothing else. */
  lemma UpdateNeighborsGroups(s: GameState, p: Pos)
    requires WellFormed(s) && OnBoard(s.size, p) && s.board[p] == s.currentPlayer
    requires IndicesConsistent(s.size, s.board[p := Empty], s.groupSets, s.libertySets, s.libertyCounts)
    ensures var m := UpdateNeighbors(s, p).groupSets[p];
            var b := s.board[p := Empty];
            && UpdateNeighbors(s, p).groupSets == Assign(s.groupSets, m, m)
            && MembersFrom(s.size, b, s.groupSets, s.currentPlayer, p, m)
            && FriendsIn(s.size, b, s.groupSets, s.currentPlayer, p, m)
  {
    var n, b, c := s.size, s.board[p := Empty], s.currentPlayer;
    var groups, libs, counts := s.groupSets, s.libertySets, s.libertyCounts;
    assert b[p := c] == s.board;
    ConsistentLibsShared(n, b, groups, libs, counts);
    EmptyAt(n, b, groups, libs, counts, p);
    forall q | q in Neighbors(n, p) && b[q] == c
      ensures libs[q] == LibertiesOf(n, b, groups[q])
    {
      StoneAt(n, b, groups, libs, counts, q);
    }
    GroupAfterLoop(n, b, groups, libs, counts, c, p);
    var acc := MergeLoop(b[p := c], groups, c, p, Merge(libs, counts, {p}, libs[p]), Neighbors(n, p));
    GroupInvDone(n, b, groups, c, p, acc.group, acc.groupLibs, {} + Elems(Neighbors(n, p)));
  }
}
