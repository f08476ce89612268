# Search problems and tic-tac-toe boards, modelled in Dafny

This project models the problem encodings of a small collection of AI-search exercises. Each encoding is what gets handed to a search or game engine:

- **Bai1: the 8-puzzle** (`EightPuzzle`, `puzzle.dfy`).
  - States are 3x3 grids of the tiles 1..8 and the blank 0.
  - It covers the blank-tile moves (`actions` / `_get_valid_actions`) and the swap that applies one (`result` / `_apply_action`).
  - It covers the goal test, the unit step cost, and the Manhattan-distance heuristic with its helpers `_find_empty` and `_find_goal_position`.
- **Bai2: 8-queens** (`EightQueens`, `queens.dfy`).
  - A state is the tuple of queen columns, one queen per row.
  - It covers `actions`, `result`, `is_goal`, `_is_safe`, the conflict/availability `heuristic` (whose `float('inf')` is the value `Infinity` of `HValue`) and `cost`.
- **Bai2: the exhaustive enumerators** `dfs_all`, `guided_dfs` and `greedy_dfs` (`QueenSearch`, `queen_search.dfy`).
  - All three collect complete placements into a shared list, skipping any already in a shared visited set.
  - That state lives in the fields of the `SolutionCollector` class.
  - Each recursive method is proved against a specification: the leaves of its search tree (`Completions`, `GuidedCompletions`) filtered by the visited set (`Fresh`).
- **Bai3 and Bai4: tic-tac-toe** (`TupleTicTacToe` in `tictactoe.dfy`, `TextTicTacToe` in `tictactoe_text.dfy`).
  - Each game is a class with a 3x3 `array2<int>` board updated in place, plus the player to move.
  - Bai3 moves are `(i, j)` pairs. Bai4 moves are `"i,j"` strings, and Bai4 adds the parsing of one line of `ask_player` input.
  - The read-only queries are proved against the pure rules in `TicTacToeBoard` (`board.dfy`): `check_winner`, `lose`, `is_over` and `scoring`.
  - The string side is in `MoveText` (`move_text.dfy`): Python's `int()`, `f"{n}"`, `str.split(',')` and `str.split()`, on ASCII text.
- **Shared vocabulary** (`Grids`, `grids.dfy`): an `Option`, cell positions, 3x3 grids, and Python's negative indexing on an axis of length 3.

Where the source crashes, the crash is a precondition. For example, `_find_empty` returns `None` and the caller unpacks it, or `result` indexes one past the last row. Where the source silently does something else, that is modelled. For example, `state[-1]` wraps to the last row, and `numpy` accepts negative move coordinates.

## Model

| member | source | states |
|---|---|---|
| Grids.PyIndex | Bai3/main.py:22-23 | A Python index from -3 to -1 counts from the end: the cell index is in 0..2 and equals k or k + 3 |
| Grids.Update | Bai3/main.py:23 | Writing v at one cell leaves a 3x3 grid whose cell p holds v and whose every other cell is unchanged |
| EightPuzzle.Blank | Bai1/main.py:22 | The blank `_find_empty` reports is on the board and holds 0 |
| EightPuzzle.PositionFromFirst | Bai1/main.py:105-108 | The scan from (i, j) on finds no cell holding v before the one it returns, and none at all when it returns None |
| EightPuzzle.PositionCharacterised | Bai1/main.py:104-109 | Some(p): p is a cell holding v and no earlier cell in row-major order holds v; None exactly when no cell holds v |
| EightPuzzle.PositionIsFirst | Bai1/main.py:104-109 | The first cell in row-major order holding v is what the scan returns |
| EightPuzzle.FindEmpty | Bai1/main.py:104-109 | Returns the first blank in row-major order, or None when there is none |
| EightPuzzle.FindGoalPosition | Bai1/main.py:121-126 | Returns the first goal cell holding the value, or None when the goal lacks it |
| EightPuzzle.Scan | Bai1/main.py:105-109 | The nested loop with early return finds the first cell holding v (proved with loop invariants) |
| EightPuzzle.ValidGridRange | Bai1/main.py:104-109 | In a permutation of 0..8 every cell holds a value from 0 to 8 |
| EightPuzzle.ValidGridDistinct | Bai1/main.py:104-109 | In a permutation of 0..8 two cells holding the same value are the same cell |
| EightPuzzle.ValidGridContains | Bai1/main.py:121-126 | In a permutation of 0..8 every value 0..8 is found, so the lookup never returns None |
| EightPuzzle.ValidGridPosition | Bai1/main.py:121-126 | Looking up the value of cell p in a permutation grid returns p itself |
| EightPuzzle.BlankUnique | Bai1/main.py:104-109 | On a permutation grid `_find_empty` succeeds and returns the only cell holding 0 |
| EightPuzzle.OnBoardMember | Bai1/main.py:55-71 | A direction survives the filter exactly when it is a candidate and its target cell lies on the board |
| EightPuzzle.DirectionsKept | Bai1/main.py:59-69 | Filtering UP, DOWN, LEFT, RIGHT keeps or drops each in turn, in that order |
| EightPuzzle.DirectionsUnfold | Bai1/main.py:59-69 | For a blank on the board, that filter equals the source's four tests row > 0, row < 2, col > 0, col < 2 in order |
| EightPuzzle.ValidActionsUnfold | Bai1/main.py:55-71 | The legal moves of a grid with a blank are the four tests run on its blank |
| EightPuzzle.TestsMembers | Bai1/main.py:59-69 | UP is offered iff row > 0, DOWN iff row < 2, LEFT iff col > 0, RIGHT iff col < 2 |
| EightPuzzle.TestsCount | Bai1/main.py:59-69 | A blank on the board gets between 2 and 4 moves |
| EightPuzzle.TestsOrdered | Bai1/main.py:59-69 | The moves come in the fixed order UP, DOWN, LEFT, RIGHT |
| EightPuzzle.ValidActionsCharacterised | Bai1/main.py:55-71 | All of the above for `actions`: the iff per direction, 2 to 4 moves, strictly in the order UP, DOWN, LEFT, RIGHT |
| EightPuzzle.LegalMoves | Bai1/main.py:57-71 | The four `append`s produce exactly the reference list of legal moves |
| EightPuzzle.Actions | Bai1/main.py:55-71 | `actions(state)` is the reference list of legal moves |
| EightPuzzle.GetValidActions | Bai1/main.py:19-33 | `_get_valid_actions(state)` is the same list as `actions(state)` |
| EightPuzzle.Partner | Bai1/main.py:78-89 | The cell the blank swaps with, after Python's index wrap, is on the board and is not the blank |
| EightPuzzle.Swap | Bai1/main.py:75-92 | Copying the rows and overwriting the blank and its partner gives the swapped grid |
| EightPuzzle.Result | Bai1/main.py:73-92 | `result(state, action)` is the grid with the blank and its partner exchanged |
| EightPuzzle.ApplyAction | Bai1/main.py:35-53 | `_apply_action` computes the same grid as `result` |
| EightPuzzle.MovePreservesTiles | Bai1/main.py:78-92 | Every applicable move, wrapped or not, keeps the multiset of tiles |
| EightPuzzle.MovePreservesValid | Bai1/main.py:78-92 | A move from a permutation of 0..8 gives a permutation of 0..8 |
| EightPuzzle.MoveEffect | Bai1/main.py:78-89 | For a legal move the blank lands on the target cell, the old blank cell gets the target's tile, and no other cell changes |
| EightPuzzle.OppositeUndoes | Bai1/main.py:78-89 | After a legal move, the opposite move is legal and restores the grid (UP/DOWN, LEFT/RIGHT) |
| EightPuzzle.ManhattanDistance | Bai1/main.py:111-119 | The nested accumulation loop returns the sum of the tiles' distances from their goal cells, skipping the blank |
| EightPuzzle.TileCell | Bai1/main.py:115-118 | A tile whose goal cell is home adds \|i - row\| + \|j - col\| to the running sum |
| EightPuzzle.BlankCell | Bai1/main.py:115 | The blank adds nothing to the sum |
| EightPuzzle.RowEnd | Bai1/main.py:113-114 | The sum after a row's last cell continues at the next row's first cell |
| EightPuzzle.Heuristic | Bai1/main.py:100-102 | `heuristic(state)` is the Manhattan distance to the goal |
| EightPuzzle.IsGoal | Bai1/main.py:94-95 | `is_goal`: structural equality with the goal grid; `GoalIffZeroHeuristic` characterises it by the heuristic |
| EightPuzzle.Cost | Bai1/main.py:97-98 | Every step has a positive cost, the constant 1, which `HeuristicConsistent` uses |
| EightPuzzle.ValidTilesFound | Bai1/main.py:117 | For two permutation grids every tile of the state is found in the goal, so the unpacking never fails |
| EightPuzzle.GoalIffZeroHeuristic | Bai1/main.py:94-95 | For permutation grids `is_goal(state)` holds exactly when the heuristic is 0 |
| EightPuzzle.GoalHasZeroHeuristic | Bai1/main.py:111-119 | The heuristic of the goal itself is 0 |
| EightPuzzle.ZeroHeuristicIsGoal | Bai1/main.py:111-119 | A heuristic of 0 on permutation grids means the state is the goal |
| EightPuzzle.ZeroHeuristicCell | Bai1/main.py:111-119 | A heuristic of 0 means every cell agrees with the goal |
| EightPuzzle.ZeroDistanceAtHome | Bai1/main.py:118 | A tile at distance 0 from its goal cell sits on that goal cell |
| EightPuzzle.TermAtMostSum | Bai1/main.py:113-118 | No single tile's distance exceeds the sum over the cells still to visit |
| EightPuzzle.ZeroTerms | Bai1/main.py:113-118 | The sum over the remaining cells is 0 when every one of them contributes 0 |
| EightPuzzle.PendingStep | Bai1/main.py:113-118 | Moving past one cell removes that cell's change in distance, if any, from what is still pending |
| EightPuzzle.PendingRow | Bai1/main.py:113-114 | The pending change at a row's end is the pending change at the next row's start |
| EightPuzzle.DistanceDifference | Bai1/main.py:111-119 | Two grids differing only in two cells have sums differing exactly by those two cells' changes |
| EightPuzzle.DifferenceRow | Bai1/main.py:113-114 | The row-end case of that induction |
| EightPuzzle.DifferenceStep | Bai1/main.py:113-118 | The one-cell case of that induction |
| EightPuzzle.HeuristicConsistent | Bai1/main.py:73-119 | A legal move changes the heuristic by exactly 1, so h(s) <= cost(s, a, s') + h(s'): the heuristic is consistent |
| EightPuzzle.MovedTileDistance | Bai1/main.py:78-89 | The only tile a legal move shifts moves one cell, so its distance changes by exactly 1; the blank contributes 0 before and after |
| EightPuzzle.StepDistance | Bai1/main.py:115-118 | A tile moved to an adjacent cell changes its distance from home by exactly 1 |
| EightPuzzle.HomeDistance | Bai1/main.py:117-118 | A tile found at home in the goal contributes \|row - home.row\| + \|col - home.col\| |
| EightPuzzle.DefaultGridsValid | Bai1/main.py:6-14 | The default goal and initial grids are permutations of 0..8 |
| EightPuzzle.DefaultGoalValid | Bai1/main.py:6-9 | The default goal is a permutation of 0..8 |
| EightPuzzle.DefaultInitialValid | Bai1/main.py:11-14 | The default initial state is a permutation of 0..8 |
| EightPuzzle.DefaultGoalHeuristic | Bai1/main.py:6-9 | The default goal has heuristic 0 |
| EightPuzzle.TilesAsRows | Bai1/main.py:6-14 | A grid whose three rows together hold 0..8 once each is a permutation grid |
| EightPuzzle.DefaultInitialHeuristic | Bai1/main.py:6-14 | The heuristic of the default initial state against the default goal is 5 |
| EightPuzzle.GoalHomes | Bai1/main.py:6-9 | The home cell of every tile in the default goal |
| EightPuzzle.InitialAgainstGoal | Bai1/main.py:11-14 | With those home cells the default initial state's distance is 5 |
| EightPuzzle.InitialRow0 | Bai1/main.py:12 | Row (2, 8, 3) contributes 3 |
| EightPuzzle.InitialRow1 | Bai1/main.py:13 | Row (1, 6, 4) contributes 2 |
| EightPuzzle.InitialRow2 | Bai1/main.py:14 | Row (7, 0, 5) contributes 0 |
| EightPuzzle.DistanceRow | Bai1/main.py:113-118 | One row of the sum is its three cells' distances |
| EightQueens.IsSafe | Bai2/main.py:30-38 | False exactly when some earlier queen shares the column or lies on a diagonal (\|prev_row - row\| == \|prev_col - col\|) |
| EightQueens.SafeBelow | Bai2/main.py:18-20 | The safe columns below c number at most c |
| EightQueens.SafeBelowSound | Bai2/main.py:18-20 | Every listed column is below c and safe, and the list is strictly ascending |
| EightQueens.SafeBelowComplete | Bai2/main.py:18-20 | Every safe column below c is listed |
| EightQueens.Actions | Bai2/main.py:11-22 | The loop returns the reference list of safe columns for the next row, or [] on a full state |
| EightQueens.ActionsCharacterised | Bai2/main.py:11-22 | Empty on a full state; otherwise a column is offered iff it is in 0..7 and safe for row len(state); ascending order |
| EightQueens.ResultConsistent | Bai2/main.py:24-25 | Appending a column to a conflict-free state keeps it conflict-free exactly when the column is an offered action |
| EightQueens.ReachableIsConsistent | Bai2/main.py:11-25 | Every state reached from () by actions/result has at most 8 queens, columns in 0..7, and no two attacking |
| EightQueens.PrefixConsistent | Bai2/main.py:11-25 | Every prefix of a conflict-free state is conflict-free |
| EightQueens.ConsistentIsReachable | Bai2/main.py:11-25 | Conversely, every conflict-free state is reached from () |
| EightQueens.ExtendReachable | Bai2/main.py:24-25 | Applying an offered action to a reachable state gives a reachable state |
| EightQueens.Result | Bai2/main.py:24-25 | The successor holds one more queen: the old columns are kept and the action is the column of the new last row |
| EightQueens.IsGoal | Bai2/main.py:27-28 | A goal (all eight rows filled) offers no further action, so nothing is expanded below it |
| EightQueens.Cost | Bai2/main.py:63-64 | Every placement has a positive cost, the constant 1 |
| EightQueens.PathCostIsDepth | Bai2/main.py:63-64 | The cost summed along the placements that build a state from () is its number of queens; a goal costs 8 |
| EightQueens.ConflictsWith | Bai2/main.py:48-50 | Queen i's diagonal conflicts with the later queens from j on are 0 iff none shares a diagonal with it |
| EightQueens.ConflictsFrom | Bai2/main.py:47-50 | The conflict count from queen i on is 0 iff no pair from i on shares a diagonal |
| EightQueens.DiagonalConflictCount | Bai2/main.py:46-50 | The double loop counts the pairs of queens on a common diagonal |
| EightQueens.AvailableColumns | Bai2/main.py:52-56 | The counter equals the number of safe columns for the next row |
| EightQueens.Heuristic | Bai2/main.py:40-61 | 0 on a goal; infinity when no column is safe and queens remain; otherwise remaining + conflicts + (8 - available) |
| EightQueens.ConsistentNoConflicts | Bai2/main.py:46-50 | On a conflict-free state the conflicts term is 0 |
| EightQueens.HeuristicOnConsistent | Bai2/main.py:40-61 | On reachable states: 0 on a goal; infinite iff no column is safe; otherwise remaining + (8 - available), never below the remaining count |
| QueenSearch.Scored | Bai2/main.py:228-232 | One (col, h) pair per safe column, in column order, where h is the heuristic of the child state |
| QueenSearch.Columns | Bai2/main.py:236 | The columns of the pairs, in their order |
| QueenSearch.Insert | Bai2/main.py:234 | Inserting into a list adds that element and nothing else |
| QueenSearch.SortByKey | Bai2/main.py:234 | The sort is a permutation of its input |
| QueenSearch.InsertSorted | Bai2/main.py:234 | Inserting into a list sorted by heuristic keeps it sorted |
| QueenSearch.SortByKeySorted | Bai2/main.py:234 | The result is sorted by heuristic, with infinity last |
| QueenSearch.SortedColumns | Bai2/main.py:234-236 | Sorting changes the order of the columns, not which columns there are |
| QueenSearch.GuidedOrderColumns | Bai2/main.py:226-237 | `guided_dfs` tries exactly the safe columns, in heuristic order |
| QueenSearch.CompletionsOfMember | Bai2/main.py:107-109 | A leaf below the columns tried is a leaf below one child |
| QueenSearch.GuidedCompletionsOfMember | Bai2/main.py:236-237 | The same for the guided order |
| QueenSearch.CompletionsExtend | Bai2/main.py:99-109 | Every leaf below t has length 8 and starts with t |
| QueenSearch.CompletionsSound | Bai2/main.py:99-109 | Below a conflict-free t every leaf is a conflict-free 8-tuple extending t |
| QueenSearch.CompletionsComplete | Bai2/main.py:99-109 | Every conflict-free 8-tuple extending a conflict-free t is a leaf below t |
| QueenSearch.GuidedSameMembers | Bai2/main.py:219-237 | The guided search reaches exactly the same leaves as `dfs_all` |
| QueenSearch.BranchOrder | Bai2/main.py:107-109 | Leaves below a smaller column come lexicographically before leaves below a larger column |
| QueenSearch.CompletionsOfIncreasing | Bai2/main.py:107-109 | The leaves below an ascending list of columns are strictly lexicographically increasing |
| QueenSearch.CompletionsIncreasing | Bai2/main.py:99-109 | `dfs_all` reaches the leaves in strictly increasing lexicographic order |
| QueenSearch.Fresh | Bai2/main.py:101-103 | The states appended are those of the list that were not yet visited |
| QueenSearch.FreshDistinct | Bai2/main.py:101-103 | The visited check appends no state twice |
| QueenSearch.FreshSplit | Bai2/main.py:101-103 | Visiting xs and then ys appends the unseen states of xs, then the states of ys seen neither before nor in xs |
| QueenSearch.FreshOfDistinct | Bai2/main.py:101-103 | A duplicate-free list with nothing visited yet is appended whole |
| QueenSearch.IsSafePosition | Bai2/main.py:111-115 | False exactly when some earlier queen shares the column or a diagonal |
| QueenSearch.SolutionCollector.constructor | Bai2/main.py:96-97 | The solution list and visited set start empty |
| QueenSearch.SolutionCollector.Record | Bai2/main.py:100-104 | A complete state is appended iff not yet visited, and is then marked visited |
| QueenSearch.SolutionCollector.DfsAll | Bai2/main.py:99-109 | Appends to the shared list exactly the not-yet-visited leaves below the state, in search order, and marks all of them visited |
| QueenSearch.SolutionCollector.GreedyDfs | Bai2/main.py:252-262 | The same effect as `dfs_all` |
| QueenSearch.SolutionCollector.GuidedDfs | Bai2/main.py:219-237 | The same, for the leaves in heuristic-guided order |
| QueenSearch.PlainVisitStep | Bai2/main.py:107-109 | Recursing into one more column extends the appended list and visited set by that child's leaves |
| QueenSearch.GuidedVisitStep | Bai2/main.py:236-237 | The same step for the guided order |
| QueenSearch.VisitInTurn | Bai2/main.py:101-103 | Visiting two lists in turn has the effect of visiting their concatenation |
| QueenSearch.ScoreMoves | Bai2/main.py:226-232 | The loop builds the (col, h) pair of every safe column, in column order |
| QueenSearch.RootCompletions | Bai2/main.py:118 | From () the leaves are exactly the conflict-free 8-tuples, lexicographically increasing and without repeats |
| QueenSearch.RootPlain | Bai2/main.py:118 | From () with nothing visited, `dfs_all` collects exactly the conflict-free 8-tuples, in increasing order |
| QueenSearch.RootGuided | Bai2/main.py:246 | From (), `guided_dfs` collects exactly the conflict-free 8-tuples, each once |
| QueenSearch.FindAllSolutions | Bai2/main.py:92-134 | Returns every conflict-free placement of 8 queens, each once, in lexicographic order |
| QueenSearch.FindAllWithAlgorithm | Bai2/main.py:207-287 | Both branches return every conflict-free placement once; the greedy branch returns them in lexicographic order |
| TicTacToeBoard.Line | Bai3/main.py:44-59 | The 8 lines in the order checked: rows, columns, main diagonal, anti-diagonal, each of 3 cells on the board |
| TicTacToeBoard.FirstComplete | Bai3/main.py:44-59 | The first line from k on that holds three equal nonzero cells, or 8 when there is none |
| TicTacToeBoard.WinnerIsFirst | Bai3/main.py:44-61 | When line k is the first complete one, the winner is its mark |
| TicTacToeBoard.WinnerCharacterised | Bai3/main.py:38-61 | 0 iff no line is complete; otherwise the mark of a complete line; always in {0, 1, 2} on a board of marks |
| TicTacToeBoard.MarksUpdate | Bai3/main.py:6 | Writing 0, 1 or 2 into a cell keeps a board of the marks 0 (empty), 1 (X) and 2 (O) |
| TicTacToeBoard.ScanWinner | Bai3/main.py:38-61 | The loops with early returns over the array return that winner |
| TicTacToeBoard.RowEmpties | Bai3/main.py:15-17 | The empty cells of row i before column j, in column order, and all of them |
| TicTacToeBoard.EmptyBefore | Bai3/main.py:13-17 | The empty cells of the rows before i, in row-major order, and all of them |
| TicTacToeBoard.ScanStep | Bai3/main.py:16-17 | One inner-loop step appends the cell exactly when it is empty |
| TicTacToeBoard.ScanRow | Bai3/main.py:14-15 | A finished row joins the cells collected so far |
| TicTacToeBoard.EmptyCellsCharacterised | Bai3/main.py:11-18 | A cell is listed iff it is on the board and empty; row-major order; empty list iff the board is full |
| TicTacToeBoard.BlankRow | Bai3/main.py:15-17 | An empty row gives three moves |
| TicTacToeBoard.BlankRows | Bai3/main.py:13-17 | i empty rows give 3i moves |
| TicTacToeBoard.BlankBoardMoves | Bai3/main.py:11-18 | An empty board offers all 9 cells |
| TicTacToeBoard.EmptyBoardMoves | Bai3/main.py:7 | The board of a new game offers all 9 cells |
| TicTacToeBoard.Zeros | Bai3/main.py:7 | `np.zeros((3, 3))` is a new 3x3 array reading as the empty board |
| TicTacToeBoard.UnmakeUndoesMake | Bai3/main.py:20-28 | Marking an empty cell and then clearing it restores the board exactly |
| TicTacToeBoard.MoveConsumesCell | Bai3/main.py:11-23 | After marking an empty cell, the moves offered are the old ones minus that cell |
| TicTacToeBoard.GameOverCharacterised | Bai3/main.py:34-36 | The game is over iff some line is complete or no cell is empty |
| TicTacToeBoard.LosingEndsGame | Bai3/main.py:30-36 | A lost position is over |
| TicTacToeBoard.ScoreCharacterised | Bai3/main.py:63-74 | 100 iff the player to move has won, -100 iff they lose, 0 iff nobody has won; the opponent's score is the negation |
| TupleTicTacToe.TicTacToe.constructor | Bai3/main.py:5-9 | A new game has an empty board and player 1 to move; the board holds only 0 (empty), 1 (X) and 2 (O) |
| TupleTicTacToe.TicTacToe.PossibleMoves | Bai3/main.py:11-18 | The double loop returns the empty cells in row-major order |
| TupleTicTacToe.TicTacToe.MakeMove | Bai3/main.py:20-23 | The addressed cell, wrapped as numpy does, gets the current player's mark; nothing else changes; the board still holds only 0, 1 and 2 |
| TupleTicTacToe.TicTacToe.UnmakeMove | Bai3/main.py:25-28 | The addressed cell is cleared; nothing else changes; the board still holds only 0, 1 and 2 |
| TupleTicTacToe.TicTacToe.CheckWinner | Bai3/main.py:38-61 | Returns the winner of the board, which is 0, 1 or 2 |
| TupleTicTacToe.TicTacToe.Lose | Bai3/main.py:30-32 | True iff the winner is the opponent 3 - current_player |
| TupleTicTacToe.TicTacToe.IsOver | Bai3/main.py:34-36 | True iff there is a winner or there are no moves left |
| TupleTicTacToe.TicTacToe.Scoring | Bai3/main.py:63-74 | +100, -100 or 0 from the point of view of the player to move |
| TupleTicTacToe.TryMove | Bai3/main.py:20-28 | Make then unmake of an offered move restores the board; in between, the offered moves are the old ones minus that cell |
| MoveText.TrimStart | Bai4/main.py:92 | Drops exactly the leading tab, line feed, vertical tab, form feed, carriage return and space that `int()` skips in a piece of the comma split (`"1, 2"`); the separators 0x1c..0x1f stay |
| MoveText.TrimEnd | Bai4/main.py:92 | Drops exactly the trailing tab, line feed, vertical tab, form feed, carriage return and space that `int()` skips; the separators 0x1c..0x1f stay |
| MoveText.NatToString | Bai4/main.py:16 | A non-empty string of decimal digits |
| MoveText.IntToString | Bai4/main.py:16 | `f"{n}"` is non-empty digits with an optional leading '-', with no surrounding space |
| MoveText.NatToStringValue | Bai4/main.py:16 | The digits of n read back as n |
| MoveText.ParseIntToString | Bai4/main.py:20 | `int(f"{n}") == n` for every integer n |
| MoveText.ParseIntPadded | Bai4/main.py:92 | `int()` of a piece of the comma split that is a number surrounded by tab, line feed, vertical tab, form feed, carriage return or space is that number |
| MoveText.ParseInt | Bai4/main.py:92 | `int()` of one piece: the whitespace `int()` skips, an optional sign, then decimal digits with single underscores between digits; None where Python raises ValueError |
| MoveText.ParseIntNeedsDigits | Bai4/main.py:92 | `int()` refuses any text that contains a comma and any text without a digit |
| MoveText.SeparatorsAroundNumbers | Bai4/main.py:91-97 | A separator 0x1c..0x1f next to a number makes `int()` raise, so a comma line holding one reads as malformed, while between two words it separates "i" from "j"; tab and space around a number are skipped |
| MoveText.SpacesAroundNumber | Bai4/main.py:92 | `int(" i\t")` is i |
| MoveText.SeparatorBeforeNumber | Bai4/main.py:92 | `int()` raises on a separator before a digit |
| MoveText.SeparatorAfterNumber | Bai4/main.py:92 | `int()` raises on a separator after a digit |
| MoveText.SeparatorInCommaLine | Bai4/main.py:91-92 | "i<sep>,j" has a comma, splits into "i<sep>" and "j", and the first piece makes `int()` raise |
| MoveText.SeparatorBetweenWords | Bai4/main.py:95-97 | "i<sep>j" has no comma and splits into the words "i" and "j", read as (i, j) |
| MoveText.Split | Bai4/main.py:20 | `split(',')` gives at least one part; no part contains ','; exactly one part iff there is no ',' |
| MoveText.JoinSplit | Bai4/main.py:20 | Joining the parts with the separator gives back the string |
| MoveText.SplitAtFirst | Bai4/main.py:20 | The text before the first separator is the first part |
| MoveText.Word | Bai4/main.py:96 | The longest whitespace-free prefix |
| MoveText.Words | Bai4/main.py:96 | `str.split()` yields only non-empty words |
| MoveText.WordOfUnspaced | Bai4/main.py:96 | A word followed by whitespace or the end is read whole |
| MoveText.WordsSkipSpaces | Bai4/main.py:96 | Leading whitespace does not change the words |
| MoveText.TwoWords | Bai4/main.py:96-97 | "a gap b ..." splits into at least two words, a first and b second |
| MoveText.ParseFormatMove | Bai4/main.py:16-25 | Parsing `f"{i},{j}"` with `map(int, move.split(','))` recovers (i, j) |
| MoveText.FormatMoveInjective | Bai4/main.py:16 | Two cells have the same move string iff they are the same cell |
| MoveText.FormatMove | Bai4/main.py:16 | `f"{i},{j}"`: the row, a comma, the column; `ParseFormatMove` reads it back |
| MoveText.ParseMove | Bai4/main.py:20 | `map(int, move.split(','))` unpacked into two: a move string that parses holds a comma; None where Python raises |
| MoveText.ParseInputComma | Bai4/main.py:91-92 | Input in the comma format `f"{i},{j}"` reads as (i, j) |
| MoveText.ParseInputWords | Bai4/main.py:95-97 | Input "i j", with any whitespace gap and trailing words, reads as (i, j) |
| MoveText.CommaDigits | Bai4/main.py:91-92 | "i,j" for digits i, j reads as (i, j) |
| MoveText.AdjacentDigits | Bai4/main.py:93-94 | The two-digit "ij" reads as (i, j) |
| MoveText.SpacedDigits | Bai4/main.py:95-97 | "i j" reads as (i, j) |
| MoveText.InputFormatsAgree | Bai4/main.py:91-97 | "i,j", "ij" and "i j" all read as the same cell |
| MoveText.ParseInput | Bai4/main.py:91-97 | The three branches of `ask_player`: a comma line through the comma split, two digits side by side, else the first two words of `split()`; None where Python raises |
| TextTicTacToe.FormatMoves | Bai4/main.py:16 | One string per cell |
| TextTicTacToe.FormatMovesAt | Bai4/main.py:16 | The k-th string is `f"{i},{j}"` of the k-th cell |
| TextTicTacToe.MoveStringsMember | Bai4/main.py:11-17 | A string is offered iff it is `f"{i},{j}"` of some empty cell |
| TextTicTacToe.OfferedIsEmpty | Bai4/main.py:13-16 | Every offered string formats an empty cell |
| TextTicTacToe.EmptyIsOffered | Bai4/main.py:13-16 | Every empty cell's string is offered |
| TextTicTacToe.NewGameMoveStrings | Bai4/main.py:7 | A new game offers 9 strings, one for every cell |
| TextTicTacToe.MoveStringsReadBack | Bai4/main.py:16-21 | `make_move` reads an offered string back as the empty cell it was made from |
| TextTicTacToe.MoveStringsDistinct | Bai4/main.py:11-17 | No string is offered twice |
| TextTicTacToe.MoveConsumesString | Bai4/main.py:11-21 | After making an offered move, the strings offered are the old ones minus that move |
| TextTicTacToe.AskOutcomeCharacterised | Bai4/main.py:91-108 | A line is accepted iff it parses to an empty cell, and then its move string is returned; it is malformed iff parsing raises |
| TextTicTacToe.AskAcceptsEveryFormat | Bai4/main.py:91-102 | For an empty cell, each of "i,j", "ij" and "i j" is accepted as `f"{i},{j}"` |
| TextTicTacToe.AskOutcome | Bai4/main.py:98-108 | One round of `ask_player`: malformed where parsing raises, otherwise `f"{i},{j}"` accepted if offered by `possible_moves` and rejected if not |
| TextTicTacToe.AskRejectsSeparatorNextToNumber | Bai4/main.py:91-108 | A comma line with a separator 0x1c..0x1f next to a number is answered with the format message on any board |
| TextTicTacToe.TicTacToe.constructor | Bai4/main.py:5-9 | A new game has an empty board and player 1 to move; the board holds only 0 (empty), 1 (X) and 2 (O) |
| TextTicTacToe.TicTacToe.PossibleMoves | Bai4/main.py:11-17 | The double loop returns the strings of the empty cells in row-major order |
| TextTicTacToe.TicTacToe.MakeMove | Bai4/main.py:19-21 | The parsed cell gets the current player's mark; nothing else changes; the board still holds only 0, 1 and 2 |
| TextTicTacToe.TicTacToe.UnmakeMove | Bai4/main.py:23-26 | The parsed cell is cleared; nothing else changes; the board still holds only 0, 1 and 2 |
| TextTicTacToe.TicTacToe.CheckWinner | Bai4/main.py:34-57 | Returns the winner of the board, which is 0, 1 or 2 |
| TextTicTacToe.TicTacToe.Lose | Bai4/main.py:28-29 | True iff the winner is the opponent |
| TextTicTacToe.TicTacToe.IsOver | Bai4/main.py:31-32 | True iff there is a winner or there are no moves left |
| TextTicTacToe.TicTacToe.Scoring | Bai4/main.py:59-70 | +100, -100 or 0 from the point of view of the player to move |
| TextTicTacToe.TicTacToe.AskPlayerMove | Bai4/main.py:90-105 | One round of `ask_player` on a line of input: accepted, rejected or malformed, as the reference outcome says |
| TextTicTacToe.TryMove | Bai4/main.py:19-26 | Make then unmake of an offered string restores the board; in between, the offered strings are the old ones minus that move |

There is one model of `dfs_all` and `greedy_dfs` between them: the two bodies are the same code. `GreedyDfs` calls `DfsAll`. Likewise, `_get_valid_actions` and `actions` share `LegalMoves`, and `_apply_action` and `result` share `Swap`. Both tic-tac-toe classes share `ScanWinner` and `Zeros`.

## Left out

- The search and game engines (`simpleai`'s `astar`/`greedy` and `easyAI`'s `Negamax`, `TwoPlayerGame`, `AI_Player`, `Human_Player`). They are foreign libraries. No claim is made about optimal play or the paths found. This includes the switching of `current_player`, which `easyAI` does.
- Timing with `time.time()`, all console output (`show`, `print_board`, the menus, the `main` drivers), and `input()`.
- The retry loop of `ask_player` and the whole of Bai3's `get_human_move`. One round of `ask_player` is modelled as `AskPlayerMove` on the line read.
- The `players` argument of both constructors. It is only stored for the engine.
- numpy. The board is a 3x3 `array2<int>`, and a cell value larger than a machine integer is not considered.
- `float('inf')`. It is the value `Infinity` of `HValue`, ordered above every finite value.
- Action strings other than 'UP', 'DOWN', 'LEFT' and 'RIGHT': the 8-puzzle actions are a four-valued datatype. The engine only passes actions that `actions` offered.
- Crashes. Each is excluded by a precondition and not modelled as an exception:
  - a grid without a blank (`None` unpacked);
  - DOWN on the last row or RIGHT on the last column (`IndexError`);
  - a tile missing from the goal (`None` unpacked);
  - a move string that is not two integers, or a move string or tuple move that indexes outside -3..2.
- EightPuzzle.TileDistance: gives 0 for a tile missing from the goal. The source crashes there, so `ManhattanDistance` requires `TilesFound`.
- QueenSearch.FindAllSolutions: does not state that there are 92 solutions. That needs the whole search tree evaluated.
- QueenSearch.SolutionCollector.GuidedDfs: does not state the order in which equal heuristic values are tried. Python's `list.sort` is stable, and the model's insertion sort is stable too, but stability is not stated.
- MoveText: `int()`, `str.isdigit()`, `str.split()` and whitespace are modelled on ASCII: `int()` skips tab, line feed, vertical tab, form feed, carriage return and space, and `str.split()` also breaks at the separators 0x1c..0x1f. Unicode digits and spaces, which Python also accepts, are not modelled.
- TextTicTacToe.TryMove, TupleTicTacToe.TryMove: state the make/unmake round trip for one move, not for the engine's search as a whole.
