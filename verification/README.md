# Go rules engine — a Dafny model of `GameState`

This project models the Go rules engine of AlphaGoZero (`AlphaGoZero/go.py`,
class `GameState`) and proves properties of the model. The engine keeps a
board of Black, White and empty points and, next to it, derived indices:

- a group set and a liberty set per point, shared by all stones of a group;
- a liberty count per point (-1 on empty points);
- a Zobrist hash of the position and the set of hashes seen so far;
- the ko point, pass and prisoner counters, stone ages and a fixed-length
  list of earlier boards.

On these it implements neighbour lookup, incremental group merging when a
stone is placed, group removal on capture, suicide, ko and positional-superko
legality, recursive true-eye detection, legal-move enumeration, area scoring,
handicap placement and the `do_move` transition.

The model is functional: a `GameState` record with `map<Pos, _>` board and
indices, pure functions that return a new record, and `Result` values where
the engine raises `IllegalMove`.

Modules, in dependency order:

| file | module | covers |
|---|---|---|
| types.dfy | GoTypes | colours, positions, actions, `Option`/`Result` |
| seqs.dfy | Seqs | filtering, duplicate-freedom, counting along sequences |
| geometry.dfy | Geometry | `_on_board`, `_neighbors`, `_diagonals`, row-major enumeration |
| zobrist.dfy | Zobrist | `_update_hash` and the from-scratch board hash |
| state.dfy | GameStates | the state record, `__init__`, `copy`, the index invariant |
| groups.dfy | Groups | `_update_neighbors`, `_remove_group` |
| liberties.dfy | Liberties | how the liberties of a set of stones respond to placing and clearing stones |
| placement.dfy | Placement | `_update_neighbors` keeps the indices consistent with the board |
| rules.dfy | Rules | `is_suicide`, `is_positional_superko`, `is_legal`, `do_move` |
| captures.dfy | Capturing | `_remove_group` and the capture loop of `do_move` keep the indices consistent |
| invariant.dfy | Invariant | every successful `do_move` keeps the invariant |
| outcome.dfy | MoveOutcome | what a stone move does to the ko point, the prisoners and the mover's stones; `is_suicide` against the board after the move; the lookup of `is_positional_superko` |
| eyes.dfy | Eyes | `is_eyeish`, `is_eye` |
| scoring.dfy | Scoring | `get_winner`, `get_legal_moves` |
| handicaps.dfy | Handicaps | `place_handicaps` |

How the engine's shared set objects are modelled: each member's entry holds
an equal value, and `Groups.Sharers(groups, c)` names the cells that share
`c`'s set object (the group of a stone, or `{c}` for an empty point). Where
the engine mutates a shared set in place, the model writes the new value to
every cell in `Sharers`. `GameStates.Inv` is the invariant under which that
reading is exact: every stone's entries agree with its group.

## Model

| member | source | states |
|---|---|---|
| Geometry.AllPos | AlphaGoZero/go.py:102-106 | the board's positions are exactly those with both coordinates in `[0, size)` |
| Geometry.Neighbors | AlphaGoZero/go.py:108-121 | a position's neighbour list holds exactly its on-board orthogonal neighbours, each once, at most four |
| Geometry.NeighborsTable | AlphaGoZero/go.py:108-115 | the cache maps every board position, and only those, to its neighbour list |
| Geometry.NeighborCount | AlphaGoZero/go.py:108-115 | exactly the interior points have four neighbours; on boards of size two or more every point has at least two |
| Geometry.Diagonals | AlphaGoZero/go.py:123-128 | a position's diagonal list holds exactly its on-board diagonal neighbours, each once |
| Zobrist.Toggle | AlphaGoZero/go.py:164-166 | XOR-ing the same stone's key in again restores the hash |
| Zobrist.PlaceToggles | AlphaGoZero/go.py:164-166 | toggling a stone's key is the same as recomputing the hash after placing it |
| Zobrist.XorBound | AlphaGoZero/go.py:164-166 | XOR of two words of a given width stays within that width, so the 64-bit hash never grows |
| Zobrist.XorOverUpdate | AlphaGoZero/go.py:164-166 | changing the content of one cell changes the board's XOR by exactly the old and the new key of that cell |
| Zobrist.PlaceThenClearRestores | AlphaGoZero/go.py:164-174 | placing a stone and later clearing its cell gives back the hash |
| GameStates.NewGame | AlphaGoZero/go.py:18-68 | a new game has an empty board, Black to move, no ko point, `history_length - 1` empty snapshots, and satisfies the invariant |
| GameStates.Copy | AlphaGoZero/go.py:191-223 | a copy keeps board, hash, seen hashes, indices, player, ko point and history, resets pass counters and the end flag, and keeps the invariant |
| Groups.UpdateNeighbors | AlphaGoZero/go.py:130-162 | after placement all members of the merged group share one group set, one liberty set and a count equal to its size; the merged group contains every same-coloured neighbour's group and the stone's own liberties |
| Groups.RemoveGroupEffects | AlphaGoZero/go.py:168-189 | removed cells are empty with no group, count and age -1, and their empty neighbours as liberties; elsewhere groups and ages are unchanged and liberty sets only gain removed cells |
| Groups.RemoveGroupHash | AlphaGoZero/go.py:168-174 | removing a group keeps the incremental hash equal to the hash of the board |
| Placement.UpdateNeighborsConsistent | AlphaGoZero/go.py:130-162 | after a stone is placed on a point whose indices were consistent, the merge leaves every stone's group containing the stone, shared by its members, of one colour and closed under same-coloured adjacency, its liberty set equal to that group's empty neighbours and its count equal to that set's size |
| Placement.UpdateNeighborsGroups | AlphaGoZero/go.py:130-162 | the merge writes the stone's new group to its members only, and that group holds the stone and exactly the groups of its same-coloured neighbours |
| Capturing.RemoveDeadGroup | AlphaGoZero/go.py:168-189 | removing the group of a stone without liberties keeps the indices consistent with the board |
| Capturing.CapturesInv | AlphaGoZero/go.py:416-422 | the capture loop keeps the indices consistent and the hash correct, and changes the board only by removing opponent groups that had no liberty after placement |
| Capturing.CapturesEmpties | AlphaGoZero/go.py:416-422 | the capture loop never fills an empty point |
| Capturing.CapturesTake | AlphaGoZero/go.py:416-422 | every neighbouring opponent group left without liberties by the placed stone is removed by the loop |
| Invariant.PlacedConsistent | AlphaGoZero/go.py:406-412 | placing the mover's stone on an empty point keeps the indices consistent and the hash equal to the new board's hash |
| Invariant.MergedAlive | AlphaGoZero/go.py:225-246 | when the move is not suicide, the placed stone's group has a liberty once the captures are done |
| Invariant.CapturedNoDead | AlphaGoZero/go.py:406-436 | after the captures of a legal stone move, every stone on the board has a liberty |
| Invariant.PlayStoneKeepsInv | AlphaGoZero/go.py:406-436 | the stone branch of `do_move` keeps the invariant for a move on an empty point that is not suicide |
| Invariant.DoMoveKeepsInv | AlphaGoZero/go.py:392-456 | every successful `do_move` keeps consistent indices, a hash equal to the board's and no stone without liberties |
| Rules.SuicideRule | AlphaGoZero/go.py:225-246 | a stone is suicide exactly when its point has no liberty, no friendly neighbour has a liberty besides it, and no opponent neighbour has it as its last liberty |
| Rules.AnySaves | AlphaGoZero/go.py:229-245 | the early-exit neighbour loop finds a rescuing neighbour exactly when one exists |
| Rules.EveryOther | AlphaGoZero/go.py:254-259 | `h[start::2]` has the right length and its `i`-th entry is `h[start + 2i]` |
| Rules.IsPositionalSuperko | AlphaGoZero/go.py:254-262 | an action neither among the handicaps nor among the player's own earlier moves is never a repetition |
| Rules.DoMove | AlphaGoZero/go.py:392-456 | a move succeeds exactly when it is legal with the mover to play; failure is `IllegalAction(action)` |
| Rules.DoMoveStone | AlphaGoZero/go.py:273-291 | `do_move` refuses a stone off the board, on a stone, on the ko point, suicide for the mover, or a repetition under superko; without superko it plays every other stone |
| Rules.DoMovePass | AlphaGoZero/go.py:392-445 | a pass always succeeds, keeps board, indices and hash, clears the ko point, grows only the passing colour's counter, hands the turn over and records the pass |
| Rules.Transition | AlphaGoZero/go.py:401-455 | a legal move hands the turn to the opponent, appends the action to the history and keeps the number of snapshots |
| Rules.Handover | AlphaGoZero/go.py:439-455 | the end flag becomes set exactly when the history ends in two passes and White is to move, and stays set |
| MoveOutcome.DoMoveKo | AlphaGoZero/go.py:427-436 | after a successful stone move the ko point is unset, or it is a neighbour of the new stone that held a lone stone of the opponent, now taken off the board, while the new stone forms a group of its own with the ko point among its liberties, so a capture by a larger group (a snapback) never sets it |
| MoveOutcome.DoMovePrisoners | AlphaGoZero/go.py:417-426 | after a successful stone move the opponent's prisoner count grows by exactly the number of its stones taken off the board, and the mover's count is unchanged |
| MoveOutcome.DoMoveKeepsOwn | AlphaGoZero/go.py:409-436 | a successful move never takes a stone of the mover, and a stone move leaves the mover's stone on its point |
| MoveOutcome.SuicideNoLiberty | AlphaGoZero/go.py:225-246 | a stone that `is_suicide` rejects would capture nothing and leave its merged group without a liberty |
| MoveOutcome.SuicideIffNoLiberty | AlphaGoZero/go.py:225-246 | on a consistent state `is_suicide` holds exactly when the placed stone's group would have no liberty once the move's captures are done |
| MoveOutcome.StoneAlike | AlphaGoZero/go.py:409-438 | the position after a stone move depends only on the position and the player to move before it |
| MoveOutcome.SimulatedStone | AlphaGoZero/go.py:264-266 | the move simulated on a copy with superko off succeeds for every stone that passes the board, suicide and ko checks |
| MoveOutcome.SuperkoLooksUp | AlphaGoZero/go.py:248-271 | for such a stone, `is_positional_superko` reports a repetition exactly when the stone is a handicap point or one of the player's own earlier moves and the board the move would produce hashes to a value seen before |
| Eyes.Allowance | AlphaGoZero/go.py:318-319 | one bad diagonal is tolerated exactly at interior points |
| Eyes.IsEye | AlphaGoZero/go.py:305-309 | a true eye is an empty point surrounded orthogonally by the owner's stones |
| Eyes.DiagonalsOkCounts | AlphaGoZero/go.py:321-333 | stopping the diagonal loop early gives the same verdict as counting every bad diagonal |
| Eyes.EyeCharacterization | AlphaGoZero/go.py:305-333 | a point is a true eye exactly when it is eyeish and its bad diagonals are within the allowance |
| Eyes.OwnedDiagonalsMakeEye | AlphaGoZero/go.py:305-333 | an eyeish point whose diagonals all hold the owner's stones is a true eye |
| Eyes.OpponentDiagonalsBreakEye | AlphaGoZero/go.py:321-333 | one opponent diagonal breaks an edge or corner eye, two break any eye |
| Scoring.StonesAmongCount | AlphaGoZero/go.py:356-357 | the stone count of a colour is the number of its stones on the board |
| Scoring.TerritoryAmongCount | AlphaGoZero/go.py:358-364 | the territory loop credits exactly the empty points enclosed by Black to Black, and the others enclosed by White to White |
| Scoring.NoDoubleEyeish | AlphaGoZero/go.py:360-364 | on boards of size two or more no point is enclosed by both colours |
| Scoring.WinnerHasHigherScore | AlphaGoZero/go.py:352-376 | the winner is the side with the higher area score (stones, enclosed points, komi, pass penalties), a tie exactly on equal scores |
| Scoring.SplitLegal | AlphaGoZero/go.py:342-348 | a point is listed as sensible exactly when legal and not an own true eye, and as an eye move exactly when legal and an own true eye |
| Scoring.SplitLegalDistinct | AlphaGoZero/go.py:342-348 | neither list repeats a point |
| Scoring.GetLegalMoves | AlphaGoZero/go.py:335-350 | the result lists every legal point once, leaving out own true eyes unless they are asked for |
| Handicaps.PlayAll | AlphaGoZero/go.py:382-383 | a failed handicap loop carries the `IllegalAction` of one of its actions; a successful one keeps the board size, the handicap list and the number of snapshots, leaves an empty list's state as it was, and after at least one action has White to move |
| Handicaps.PlayAllStops | AlphaGoZero/go.py:382-383 | a failed handicap loop stopped at some action: all earlier ones were played, that one was illegal on the board they left, and its `IllegalAction` is the error |
| Handicaps.PlayAllPlaysEach | AlphaGoZero/go.py:382-383 | a successful handicap loop found every action legal, in turn, on the board its predecessors left |
| Handicaps.PlayAllKeeps | AlphaGoZero/go.py:382-383 | the handicap loop keeps the invariant, keeps every Black stone, and leaves a Black stone on every handicap point |
| Handicaps.PlaceHandicapsAsWritten | AlphaGoZero/go.py:378-385 | as written, `place_handicaps` never returns normally |
| Handicaps.PlaceHandicaps | AlphaGoZero/go.py:378-385 | refuses a started game; otherwise fails only with an illegal handicap action's error, and on success records the handicaps, clears the history, resets every snapshot to an empty board of the game's size and, after at least one action, has White to move |
| Handicaps.PlaceHandicapsKeeps | AlphaGoZero/go.py:378-385 | a successful placement keeps the invariant, keeps every Black stone, and leaves a Black stone on every handicap point |
| Handicaps.AsWrittenFailsWhereIntendedSucceeds | AlphaGoZero/go.py:385 | wherever the intended placement succeeds, the code as written raises `NameError` instead |

## Left out

- `transform` (AlphaGoZero/go.py:458-472): it has no `self` parameter and discards its result, so it has no behaviour to model.
- The concrete Zobrist keys drawn from `RandomState(0)`: the key table is a field of the state, and every statement holds for any table.
- Floating-point komi: komi and scores are `real`, so rounding of the engine's floats is not modelled.
- The legal-move caches (`__legal_move_cache`, `__legal_eyes_cache`): `get_legal_moves` is modelled as a recomputation, which is what the caches return while valid.
- `get_group`, `get_groups_around` and `get_current_player`: plain lookups that no modelled operation calls.
- Zobrist.Xor: 64-bit words are modelled as naturals with XOR defined digit by digit; `XorBound` shows the width is kept, and the concrete `uint64` representation is not modelled.
- Placement.UpdateNeighborsConsistent: the consistency it keeps says every group contains its stone, is shared by its members, has one colour and is closed under same-coloured adjacency; it does not say a group is connected, so the union of two separate blocks of one colour would also satisfy it. Connectivity of the merged group is not proved.
- MoveOutcome.DoMoveKo: states that the capturing stone stands alone with the ko point among its liberties, not that it has exactly one liberty. The engine checks for ko after each captured group (AlphaGoZero/go.py:427-436), and the model does the same: when one stone takes two separate lone stones, the first capture can set the ko point while the capturer still has one liberty, and the second capture does not clear it although the capturer then has two. The end-of-move liberty count therefore does not follow. Whether play on that stale ko point would have been suicide anyway is not proved.
- `history_length` is not stored: the number of snapshots is kept instead, which `do_move` never changes.
- When a handicap move is illegal, the engine has already extended `handicaps` and played the earlier stones before raising; the model returns only the error. Likewise, on the `NameError` path of `place_handicaps` as written (AlphaGoZero/go.py:381-385) the engine has already extended `handicaps`, played every stone and cleared the history before the name lookup fails; `Handicaps.PlaceHandicapsAsWritten` returns only the error and not that partly updated state.
- The files around the engine (training orchestration, inter-process utilities, the search player): I/O and concurrency outside the rules.

## Findings

| source | as written | input that shows it | evidently intended | confidence | as-written member | corrected member |
|---|---|---|---|---|---|---|
| AlphaGoZero/go.py:385 | resets the snapshots with `np.zeros((size, size))` for `range(history_length - 1)`, names that are not defined in `place_handicaps` | any game with an empty history and legal handicap points | `history_length - 1` empty boards of the game's own size | high, not executed | Handicaps.PlaceHandicapsAsWritten | Handicaps.PlaceHandicaps |
