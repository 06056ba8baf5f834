# Principles of Computing: 2048, Monte Carlo tic-tac-toe, Yahtzee and Cookie Clicker in Dafny

This project models the game logic of four course projects and proves properties about it.

- **2048 merge** (`Merge`). The line merge of `week1_2048_merge.py` (repeated in `poc_2048_template.py`) is modelled as the source's loop over an output buffer, kept in an `array`. It is proved equal to a reference definition: compress the tiles, combine equal neighbours once each from left to right, then pad with zeros.
- **2048 game** (`Game2048`). The class `TwentyFortyEight` becomes a Dafny class.
  - The grid is a `seq<seq<int>>` field.
  - `move` walks each line from its edge tile using `OFFSETS`, merges it and writes it back.
  - It then calls `new_tile`, whose random draws are a parameter: one probe per iteration of its loop.
- **Monte Carlo tic-tac-toe** (`TicTacToe`, `MonteCarlo`). This covers `mc_trial`, `mc_update_scores`, `get_best_move` and `mc_move` over a board class with the interface they use.
  - Scores live in an `array2<real>`.
  - The random square chosen at each move of a trial is a parameter.
- **Yahtzee** (`Yahtzee`). This covers `gen_all_sequences`, `score`, `expected_value`, `gen_all_holds` and `strategy`. Python sets of tuples become Dafny sets of sequences, and floats become `real`.
- **Cookie Clicker** (`Clicker`). `ClickerState` becomes a class with `real` fields and a history sequence. The strategies `strategy_cursor_broken`, `strategy_none`, `strategy_cheap`, `strategy_expensive` and `strategy_best` run over the list of build items.

Where the code and its documentation differ, the model follows the code:
- `move` calls `new_tile` even when no tile moved.
- `get_best_move` returns the first empty square with the highest score, not a random one among the best.
- `strategy` breaks ties between equal expected values by the larger hold in tuple order. This comes from `sorted(..., reverse=True)[0]`.

## Model

| member | source | states |
|---|---|---|
| Merge.Merge | week1_2048_merge.py:5-31 | the buffer loop returns exactly `MergeSpec(line)`: tiles compressed, equal neighbours combined once each from the left, zero padded |
| Merge.SettleTile | week1_2048_merge.py:17-29 | one pass of the inner loop leaves the buffer as the reference `Step` of the occupied prefix, and `last_merge` as that step's flag |
| Merge.MergeSpec | week1_2048_merge.py:5-31 | the merged line has the length of the input line |
| Merge.Compress | week1_2048_merge.py:17-20 | the compressed line has no zero tile and as many tiles as the line's non-zero count |
| Merge.SlideIsCombinePairs | week1_2048_merge.py:17-29 | the loop state after scanning a line is the pairwise combination of its compressed tiles |
| Merge.CombinePairsSnoc | week1_2048_merge.py:21-27 | scanning one more non-zero tile is one step of the pairwise combination |
| Merge.CompressSnoc | week1_2048_merge.py:17-20 | a zero tile is skipped and a non-zero tile is appended |
| Merge.MergeKeepsSum | week1_2048_merge.py:5-31 | merging keeps the sum of the line's tiles |
| Merge.MergePacksTiles | week1_2048_merge.py:5-31 | in a merged line every zero comes after every non-zero tile |
| Merge.MergeNeverAddsTiles | week1_2048_merge.py:5-31 | a merged line never has more non-zero tiles than its input; for lines of length two or more it has exactly as many as the combined compressed line |
| Merge.MergeExampleGap | week1_2048_merge.py:33 | [2, 0, 2, 4] merges to [4, 4, 0, 0] |
| Merge.MergeExampleTrailingPair | week1_2048_merge.py:34 | [0, 0, 2, 2] merges to [4, 0, 0, 0] |
| Merge.MergeExampleLeadingPair | week1_2048_merge.py:35 | [2, 2, 0, 0] merges to [4, 0, 0, 0] |
| Merge.MergeExampleNoDoubleMerge | week1_2048_merge.py:36 | [2, 2, 2, 2] merges to [4, 4, 0, 0]: a merged tile does not merge again |
| Merge.MergeExampleMiddlePair | week1_2048_merge.py:37 | [8, 16, 16, 8] merges to [8, 32, 8, 0] |
| Game2048.TwentyFortyEight.constructor | poc_2048_template.py:53-62 | builds a grid of the given size and the edge lists; the grid is the empty grid after two `new_tile` placements |
| Game2048.TwentyFortyEight.Reset | poc_2048_template.py:64-71 | the grid becomes the empty grid followed by two `new_tile` placements; the size is kept |
| Game2048.TwentyFortyEight.SetTile | poc_2048_template.py:148-152 | the cell takes the value and every other cell keeps its tile |
| Game2048.TwentyFortyEight.NewTile | poc_2048_template.py:128-146 | the grid becomes `PlaceTile`: the value of the first probe that hits an empty cell, drawing at most width * height probes |
| Game2048.TwentyFortyEight.EdgeList | poc_2048_template.py:58-62 | the edge list of a direction has one tile per line, and its k-th tile starts line k |
| Game2048.TwentyFortyEight.Move | poc_2048_template.py:96-126 | the new grid is every line of the old grid replaced by its merge (`Shifted`), followed by a `new_tile` placement |
| Game2048.TwentyFortyEight.MoveLine | poc_2048_template.py:109-124 | processing edge tile k replaces line k by its merge and advances the partial grid by one line |
| Game2048.TwentyFortyEight.ReadLineTiles | poc_2048_template.py:113-116 | the collected tiles are the tiles of line k in walking order |
| Game2048.TwentyFortyEight.WriteLineTiles | poc_2048_template.py:119-124 | writing back along the walk turns line k into its merged line and touches no other line |
| Game2048.EmptyGrid | poc_2048_template.py:64-71 | the grid built by `reset` has height rows of width cells |
| Game2048.ReadLine | poc_2048_template.py:113-116 | a line read from an edge tile has `times` tiles |
| Game2048.PlaceTile | poc_2048_template.py:128-146 | `new_tile` keeps the grid's shape |
| Game2048.WalkStaysInGrid | poc_2048_template.py:109-124 | every cell `move` visits from an edge tile is inside the grid and lies on that line at that position |
| Game2048.WalkFollowsOffset | poc_2048_template.py:113-124 | the t-th visited cell is the edge tile plus t times the direction's offset |
| Game2048.StepAlongLine | poc_2048_template.py:116 | adding the offset moves to the next cell of the same line |
| Game2048.ReadPartialLine | poc_2048_template.py:113-116 | when `move` reaches line k, that line still holds its original tiles |
| Game2048.ShiftedLines | poc_2048_template.py:118 | after the merge phase, line k read from its edge tile is the merge of the original line k |
| Game2048.LineShapes | poc_2048_template.py:16-19 | LEFT reads rows, RIGHT reversed rows, UP columns and DOWN reversed columns |
| Game2048.OffsetIsUnitStep | poc_2048_template.py:16-19 | each entry of `OFFSETS` (`Offset`) is a single step along one axis: UP and DOWN move along a column, LEFT and RIGHT along a row |
| Game2048.MoveLeftMergesRows | poc_2048_template.py:96-124 | LEFT replaces every row by its merge |
| Game2048.MoveRightMergesReversedRows | poc_2048_template.py:96-124 | RIGHT replaces every row by the reverse of the merge of the reversed row |
| Game2048.MoveUpMergesColumns | poc_2048_template.py:96-124 | UP replaces every column by its merge |
| Game2048.MoveDownMergesReversedColumns | poc_2048_template.py:96-124 | DOWN replaces every column by the reverse of the merge of the reversed column |
| Game2048.MoveKeepsTileSum | poc_2048_template.py:96-124 | the merge phase of `move` keeps the grid's shape and the total of its tiles, in every direction |
| Game2048.PlaceTileChangesOneEmptyCell | poc_2048_template.py:128-146 | `new_tile` leaves the grid unchanged exactly when every drawn probe hits an occupied cell; otherwise it writes a 2 or 4 into one empty cell |
| Game2048.FullGridUnchanged | poc_2048_template.py:135-146 | on a full grid `new_tile` changes nothing |
| Game2048.PlaceTileReadsFirstProbes | poc_2048_template.py:135 | `new_tile` reads at most width * height probes |
| TicTacToe.SwitchPlayer | week3_tic_tac_toe.py:26 | the player to move next is the other player |
| TicTacToe.EmptySquares | week3_tic_tac_toe.py:23 | every listed square is inside the board and empty |
| TicTacToe.EmptySquaresExactly | week3_tic_tac_toe.py:23 | a square is listed if and only if it is inside the board and empty |
| TicTacToe.PlaceFillsOneSquare | week3_tic_tac_toe.py:25 | a move on an empty square removes exactly one square from the empty list |
| TicTacToe.GameResult | week3_tic_tac_toe.py:22 | a game that is still going on has an empty square |
| TicTacToe.GameResultMeaning | week3_tic_tac_toe.py:22 | a win means the player holds a full line; a draw means a full board with no full line; no result means an empty square and no full line |
| TicTacToe.Board.constructor | week3_tic_tac_toe.py:83 | the core never constructs a board itself; `clone` at this line builds its new board with it, and that board has the given size with every square empty |
| TicTacToe.Board.Move | week3_tic_tac_toe.py:25 | a move marks the square only when it is empty, and leaves the board unchanged otherwise |
| TicTacToe.Board.Clone | week3_tic_tac_toe.py:83 | the clone is a fresh board with the same squares |
| MonteCarlo.Playout | week3_tic_tac_toe.py:17-28 | a random game played to its end finishes with a result and keeps every square that was already marked |
| MonteCarlo.MCTrial | week3_tic_tac_toe.py:17-28 | the board is played in place until the game is over; the final board is `Playout` of the old board |
| MonteCarlo.PlayoutOfFinishedBoard | week3_tic_tac_toe.py:22 | a finished game is left unchanged |
| MonteCarlo.PlayoutStep | week3_tic_tac_toe.py:22-26 | each move of a trial marks one empty square for the player to move and hands the move to the other player |
| MonteCarlo.UnscoredSquares | week3_tic_tac_toe.py:35-44 | a draw and an empty square both add nothing |
| MonteCarlo.Reward | week3_tic_tac_toe.py:45-54 | the table of score changes: zero exactly on a draw or an empty square, positive exactly when the square's owner is the winner (the machine's square after a machine win, the other player's after a loss), and SCORE_CURRENT or SCORE_OTHER in size by who won |
| MonteCarlo.ScoreCurrent | week3_tic_tac_toe.py:13 | `SCORE_CURRENT`, the weight of a square after a machine win, is 1.0 |
| MonteCarlo.ScoreOther | week3_tic_tac_toe.py:14 | `SCORE_OTHER`, the weight of a square after a machine loss, is 1.0 |
| MonteCarlo.MCUpdateScores | week3_tic_tac_toe.py:30-54 | every score is increased by the square's reward: +SCORE_CURRENT or -SCORE_CURRENT when the machine won, +SCORE_OTHER or -SCORE_OTHER when it lost, 0 on a draw or an empty square |
| MonteCarlo.UpdateRow | week3_tic_tac_toe.py:41-54 | one row of the score update changes only that row's scores, by their rewards |
| MonteCarlo.RewardFromCounts | week3_tic_tac_toe.py:40-54 | the summed reward of the remaining squares is (own marks - other marks) * SCORE_CURRENT after a machine win, (other - own) * SCORE_OTHER after a loss, and 0 on a draw |
| MonteCarlo.TotalReward | week3_tic_tac_toe.py:30-54 | one update adds (own marks - other marks) * SCORE_CURRENT to the board's total score after a machine win, (other - own) * SCORE_OTHER after a loss, and 0 on a draw |
| MonteCarlo.FirstMaxIndex | week3_tic_tac_toe.py:66-71 | the index found holds the maximum, and every earlier value is strictly smaller |
| MonteCarlo.GetBestMove | week3_tic_tac_toe.py:57-73 | the loop returns `BestMove` of the empty squares and their scores |
| MonteCarlo.BestMoveIsFirstMaximum | week3_tic_tac_toe.py:57-73 | no move if and only if the board is full; otherwise the first empty square whose score is maximal |
| MonteCarlo.TrialScores | week3_tic_tac_toe.py:80-85 | there is one accumulated score per empty square |
| MonteCarlo.MCMove | week3_tic_tac_toe.py:75-87 | the move is the first best empty square under the scores accumulated over `trials` independent trials on clones |
| MonteCarlo.RunTrial | week3_tic_tac_toe.py:83-85 | one trial on a clone adds the rewards of the finished game to every score and leaves the board itself unchanged |
| MonteCarlo.ScoresAreTrialScores | week3_tic_tac_toe.py:80-87 | the score grid read at the empty squares is the accumulated trial scores |
| Yahtzee.GenAllSequences | week4_yahtzee.py:10-25 | the loop builds exactly `AllSequences(outcomes, length)` |
| Yahtzee.ExtendRound | week4_yahtzee.py:18-23 | one round extends every partial sequence by every outcome |
| Yahtzee.AllSequencesExactly | week4_yahtzee.py:10-25 | a sequence is generated if and only if it has the given length and every item is an outcome |
| Yahtzee.AllSequencesCount | week4_yahtzee.py:10-25 | with distinct outcomes, there are |outcomes|^length sequences |
| Yahtzee.Score | week4_yahtzee.py:28-42 | the loop returns `UpperScore`, the maximum over the hand of die times its count |
| Yahtzee.UpperScoreIsBest | week4_yahtzee.py:28-42 | the score is die * count for some die of the hand, and no die of the hand scores more |
| Yahtzee.UpperScoreBounds | week4_yahtzee.py:38-42 | every die's value times its count is at most the score |
| Yahtzee.UpperScoreIgnoresOrder | week4_yahtzee.py:28-42 | hands with the same dice in any order have the same score |
| Yahtzee.ExpectedValue | week4_yahtzee.py:45-69 | returns `ExpectedValueSpec`: the total score over all rolls of the free dice divided by the number of rolls |
| Yahtzee.Outcomes | week4_yahtzee.py:58 | the outcome list has one distinct entry per die side |
| Yahtzee.OutcomesAreFaces | week4_yahtzee.py:58 | the outcomes are exactly the faces 1 to `num_die_sides` |
| Yahtzee.SumScores | week4_yahtzee.py:63-65 | the loop's total is the sum of the scores of held dice plus each roll |
| Yahtzee.TotalScorePick | week4_yahtzee.py:63-65 | the total over a set of rolls is one roll's score plus the total over the rest, whichever roll is picked |
| Yahtzee.RollsShape | week4_yahtzee.py:58-59 | every roll has one die per free die, and there are sides^free rolls, so the division is defined |
| Yahtzee.ExpectedValueOfNoFreeDice | week4_yahtzee.py:45-69 | with no free dice, the expected value is the score of the held dice |
| Yahtzee.GenAllHolds | week4_yahtzee.py:72-88 | the empty hold is always there, and no hold is longer than the hand |
| Yahtzee.GenAllHoldsExactly | week4_yahtzee.py:72-88 | a tuple is a hold if and only if it is a subsequence of the hand, in the hand's order |
| Yahtzee.HoldsAreSubsequences | week4_yahtzee.py:80-88 | every generated hold picks dice of the hand at increasing positions |
| Yahtzee.SubsequencesAreHolds | week4_yahtzee.py:80-88 | every subsequence of the hand is generated |
| Yahtzee.HoldAll | week4_yahtzee.py:80-88 | holding the whole hand is one of the holds |
| Yahtzee.HoldsCount | week4_yahtzee.py:80-88 | a hand of n dice has at most 2^n holds |
| Yahtzee.Greatest | week4_yahtzee.py:114 | the first element of the reverse-sorted list is a pair of the list that no pair exceeds in tuple order |
| Yahtzee.LexLessTransitive | week4_yahtzee.py:114 | tuple order on holds is transitive |
| Yahtzee.LexLessIrreflexive | week4_yahtzee.py:114 | no hold is below itself in tuple order |
| Yahtzee.HoldValues | week4_yahtzee.py:103-108 | the dictionary's keys are exactly the holds, and each value is the hold's expected value with the remaining dice free |
| Yahtzee.ValueHolds | week4_yahtzee.py:106-108 | every visited hold is stored with its expected value |
| Yahtzee.DictItems | week4_yahtzee.py:110-112 | the list holds exactly the (value, hold) pairs of the dictionary |
| Yahtzee.Strategy | week4_yahtzee.py:92-114 | the result is a hold of the hand with its expected value, no hold has a higher expected value, and among holds of equal value it is the largest in tuple order |
| Clicker.ClickerState.constructor | poc_clicker_template.py:23-28 | the state starts at 0 cookies, time 0 and 1 cookie per second, with history [(0, None, 0, 0)] |
| Clicker.ClickerState.TimeUntil | poc_clicker_template.py:81-91 | a whole, non-negative number of seconds: 0 when enough cookies are at hand, otherwise the least whole time after which the cookies suffice |
| Clicker.ClickerState.Wait | poc_clicker_template.py:93-104 | a non-positive time changes nothing; otherwise time, current and total cookies advance by time and cps * time; the state invariant is kept |
| Clicker.ClickerState.BuyItem | poc_clicker_template.py:106-118 | an unaffordable item changes nothing; otherwise the cost is paid, the cps grows and (time, item, cost, total) is appended to the history; the invariant is kept |
| Clicker.ClickerState.WaitFor | poc_clicker_template.py:147-152 | waits exactly `time_until(cost)` seconds: time, current and total cookies advance by that time and cps times it, the item is then affordable, and neither the history nor the cps changes |
| Clicker.Ceil | poc_clicker_template.py:91 | `math.ceil` is the least whole number not below its argument |
| Clicker.CeilDivBounds | poc_clicker_template.py:91 | cps times the rounded-up wait reaches the missing cookies, and one second less does not |
| Clicker.Budget | poc_clicker_template.py:189 | the cookies a strategy counts on, `cookies + cps * time_left`, are never fewer than those in hand for non-negative cps and time left, and more exactly when time is left at a positive cps |
| Clicker.StrategyCursorBroken | poc_clicker_template.py:163-174 | always names the Cursor, whatever the state |
| Clicker.StrategyNone | poc_clicker_template.py:176-183 | never names an item |
| Clicker.StrategyCheap | poc_clicker_template.py:185-200 | None if and only if no item is affordable with cookies + cps * time_left; otherwise the cheapest affordable item, the last one among equal costs |
| Clicker.StrategyExpensive | poc_clicker_template.py:202-217 | None if and only if no item is affordable; otherwise the most expensive affordable item, the first one among equal costs |
| Clicker.StrategyBest | poc_clicker_template.py:219-235 | None if and only if no item is affordable; otherwise the affordable item with the highest cps-to-cost ratio, the last one among equal ratios |
| Clicker.CheapestIsUnique | poc_clicker_template.py:185-200 | the tie-break leaves exactly one cheapest item to choose |
| Clicker.PriciestIsUnique | poc_clicker_template.py:202-217 | the tie-break leaves exactly one most expensive item to choose |
| Clicker.BestRatioIsUnique | poc_clicker_template.py:219-235 | the tie-break leaves exactly one best-ratio item to choose |

## Left out

- The board module `poc_ttt_provided` is not part of this model. `TicTacToe` is a stand-in with the interface `week3_tic_tac_toe.py` uses, so its rows cite the lines that call it.
- `BuildInfo` of `poc_clicker_provided` is not part of this model. A strategy sees the build items as a list of (name, cost, cps) in `build_items()` order, and `update_item` (the cost increase after a purchase) is not modelled.
- Randomness becomes parameters.
  - For `new_tile`, the row, column and value of each iteration are probes. The 90%/10% split between 2 and 4 is not modelled; the value is only known to be 2 or 4.
  - For `mc_trial`, the choice of square is a list of picks.
  - For `mc_move`, each trial has its own list of picks.
- Floats are modelled as exact `real` numbers. Rounding, `float('-inf')` (replaced by a `Bound` datatype) and `float(...)` conversions are not modelled.
- `simulate_clicker` is modelled only through its wait-then-buy step (`WaitFor` followed by `BuyItem`). Its purchase loop (poc_clicker_template.py:133-154) and its final wait (156-158) are left out: the loop calls an arbitrary strategy callback and `BuildInfo.update_item`, which is not part of this model, and it has no bound on its number of steps.
- `__str__`, `run_strategy`, `run`, `run_example`, the GUI, plotting and all printing are left out as I/O.
- Python aliasing is not modelled.
  - `merge` of a line shorter than two tiles returns the very list it was given.
  - `get_history` returns the internal list.
  - Both are modelled as values.
- Clicker.ClickerState.GetHistory: the getters (`get_cookies`, `get_cps`, `get_time`, `get_history`) and the 2048 getters (`get_grid_height`, `get_grid_width`, `get_tile`) are plain field reads with no contract of their own.
- Yahtzee.Strategy: `sorted(..., reverse=True)[0]` is modelled as the greatest pair under tuple order, not as a full sort.
- Yahtzee.ValueHolds: `holds_dict.get(each_hold, expected_val)` always takes its default, because each hold is visited once, so the model stores `expected_val` directly.
- Game2048.Direction: only the four directions UP, DOWN, LEFT and RIGHT exist. Any other value makes `move` raise `KeyError` at `self._move_dict[direction]` (poc_2048_template.py:101-102), and that error path is not modelled.
- Game2048.TwentyFortyEight.SetTile requires a cell inside the grid, and so does `GetTile`. In Python a negative index wraps around to the far row or column, and an index too large raises `IndexError` (poc_2048_template.py:148-158). Every cell that `move` and `new_tile` touch is proved to lie in the grid (`WalkStaysInGrid`, `ValidProbes`).
- Yahtzee.Score requires a non-empty hand, because `max(())` raises `ValueError` at week4_yahtzee.py:42. That error path is not modelled.
- Yahtzee.ExpectedValue requires `num_die_sides >= 1` whenever dice are rolled, and a non-empty hand. Otherwise the source divides by zero or takes `max` of an empty tuple. `ExpectedValueSpec` guards the division with a branch that is never taken.
- Yahtzee.Strategy requires a non-empty hand and at least one die side, for the same reasons.
- Clicker.StrategyBest requires every affordable item to have a non-zero cost, because the source divides by the cost.
- Clicker.ClickerState.BuyItem keeps the state invariant only for non-negative costs and cps increases. The source does not check them.
- Clicker.ClickerState.TimeUntil requires a positive cps. The source only needs a non-zero cps to divide, so a negative cps is excluded as well. The state invariant (`Sound`) keeps the cps at 1 or more, so every state the game reaches meets the requirement.
- MonteCarlo.GetBestMove returns `None` on a full board, as the source's bare `return` does.
- MonteCarlo.MCMove takes the number of trials as a `nat`, so a negative count is not modelled. In Python `range` of a negative count is empty, which behaves like 0 trials.
- MonteCarlo.MCUpdateScores and `GetBestMove` require a score grid of exactly `dim` by `dim`. The source would also accept a larger grid, but `mc_move` always builds one of exactly that size (week3_tic_tac_toe.py:80).
