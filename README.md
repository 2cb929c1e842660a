# Connect Four engine: a Dafny model

This project models the engine and the series driver of `ConnectFour.py`.

The engine side covers:
- `Game` and its 6 x 7 board of cells, row 0 at the top. A cell holds 0 when empty, otherwise the number of the player whose mark it holds.
- The gravity drop `update_board`.
- The full-board test `game_tied`.
- The four-in-a-row test `game_won`, modelled as the source computes it: every row, column and diagonal is turned into a string of digits and searched for `"pppp"`.
- The turn logic `make_move` and the turn loop `gameloop`.

The series side covers:
- `play_game`, which plays one game and adds its result to the table of wins, ties and losses.
- `main`, which builds the player names, refuses two players with the same name, sets the number of games and the interactive flag, and plays the games with the seats swapped after each one.

The model has five modules:
- `Results`: Option, Result and Outcome values, and Python truthiness of an optional string.
- `Board`: the board as a value. It defines the drop, the tie test and cell counting, with their properties.
- `Win`: `game_won` as written (the string search over lines, the transpose, and the diagonals of the board and its mirror). It also holds a direct definition `HasFour` and the proof `WonIff` that the two agree.
- `Engine`: class `Game` over an `array2<int>` board that its methods update in place. Each method is proved against a value-level function of the old state:
  - `Place` for `update_board`;
  - `Step` for `make_move`, which is `Apply` followed by `Decide`;
  - `Play` for `gameloop`.

  The lemmas beside these functions state what a turn does.
- `Series`: the results table, `play_game`, and `main` as the method `RunExperiment`, which hands its game loop to `PlayGames`. `RunExperiment` is proved against the function `Experiment`, and `PlayGames` against the fold `Tallied` over the `Outcomes` of the games, which `Experiment` is built on. The lemmas state how the table adds up, how the seats alternate and when the run is interactive.

What an agent answers on a turn is an input of the model, `MoveInput`:
- `Move(c)`: a column;
- `NoMove`: the agent returned `None`;
- `Fault`: the worker process could not be started, or ran past its time limit and was terminated. These are the paths that reach `raise Exception('Game Over')`.

The strategies that compute the answer are outside the model. A player is modelled as its number and its name. The operator's command typed before each turn of an interactive game is also an input. Input for a game comes as a finite script of `Turn`s, and the series takes one script per game. `gameloop` itself never runs out of turns, so a game still running when its script ends comes out as `Unfinished`. The series then reports `Stalled` and produces no table, because the source would go on waiting for turns and never reach its results. Such a game is never counted as a tie.

Where the code differs from the stated design of the system, the model follows the code:
- **Interactive mode.** The run is interactive when `n == 1` or when `'human' in pnames`. This tests the player names, which include the parameter strings, not the player types. So a human player given a non-empty parameter string does not make the run interactive.
- **Two players with the same name.** The run ends with `sys.exit()`, which has no argument and so gives a zero exit status, not a failing one. The model returns `Err(SameNames(..))` before any game is played.
- **A game that raises.** Without a Tk window, an exception from a turn (a worker that timed out, a full column) is not recorded as an aborted game. It propagates out of `play_game` and `main` and ends the whole run without a results table. The model returns `Err(GameError(..))`.
- **A game ended with `x`.** It leaves `winner` at `None`, so `play_game` counts it as a tie for both players.
- **Answers of `None`.** They fill no cell (lines 116-117), so a game without an operator whose answers are all `None` never ends, and neither does the run (`Engine.NoMovesStall`, `Series.NoMovesStallRun`).

## Model

| member | source | states |
|---|---|---|
| Board.EmptyGrid | ConnectFour.py:39 | the starting board is a well-formed 6 x 7 grid with every cell empty |
| Board.EmptyGridGravity | ConnectFour.py:39 | the starting board has no column with a hole |
| Board.LandingFrom | ConnectFour.py:146-152 | the scan of the drop loop from row r down: the row it returns, if any, is empty and lies on an occupied cell or is the bottom row, and no row it passed is such a row |
| Board.DropRow | ConnectFour.py:146-152 | the row `update_board` writes into is the first landing row from the top: it is a landing row unless it is 6 (no row found), and no row above it is one |
| Board.HasEmptyIffLanding | ConnectFour.py:145-152 | the drop loop finds a landing row exactly when `0 in board[:, move]` holds |
| Board.Drop | ConnectFour.py:144-155 | `update_board` on a column with room, as a function of the board: the board afterwards is still a well-formed grid of 0, 1 and 2 |
| Board.DropWrites | ConnectFour.py:144-155 | on any board with room in the column, the row the drop loop picks is on the board and empty; it gets the player's number, and every other cell keeps its value |
| Board.DropLowest | ConnectFour.py:144-155 | on a board obeying gravity, the row the drop loop picks is the lowest empty cell of the column: it is empty and every cell below it is occupied |
| Board.DropKeepsGravity | ConnectFour.py:144-155 | dropping a mark keeps every column free of holes |
| Board.DropCount | ConnectFour.py:144-155 | a drop fills exactly one more cell |
| Board.Tied | ConnectFour.py:186-189 | `game_tied` as written: `0 not in board`, over the cells of the board read row after row; `Board.TiedIff` proves what it means |
| Board.TiedIff | ConnectFour.py:186-189 | `0 not in board` holds exactly when every one of the 42 cells is occupied |
| Board.FullIffCount | ConnectFour.py:186-189 | at most 42 cells are filled, and the board is full exactly when all 42 are |
| Board.EmptyCellNotTied | ConnectFour.py:186-189 | a single empty cell anywhere means the game is not tied |
| Win.ToStr | ConnectFour.py:194 | `to_str` writes a line of single-digit cells as a string of the same length made only of digit characters |
| Win.WinStr | ConnectFour.py:192 | `player_win_str`: the digit of p four times; `Win.ContainsIffRun` proves what a search for it means |
| Win.Contains | ConnectFour.py:198 | Python's substring test `pat in s`: pat at the front of s, or in the rest of it; `Win.ContainsIffRun` proves what it means on digit strings |
| Win.ContainsIffRun | ConnectFour.py:192-198 | since every cell is one digit, `'pppp' in to_str(line)` holds exactly when four consecutive cells of the line equal p |
| Win.AnyLine | ConnectFour.py:196-200 | `check_horizontal` as written: some line, turned into a string, contains the winning string; `Win.AnyLineIff` proves what it means |
| Win.AnyLineIff | ConnectFour.py:196-200 | `check_horizontal` holds exactly when some line has four consecutive cells equal to p |
| Win.HorizontalIff | ConnectFour.py:196-200 | `check_horizontal(board)` holds exactly when some row holds four consecutive p's |
| Win.ColumnRunAt | ConnectFour.py:202-203 | a run of four in column c starting at row r is a downward run of four in the board from (r, c), and back |
| Win.VerticalIff | ConnectFour.py:202-203 | `check_verticle` (the rows of the transpose) holds exactly when some column holds four consecutive p's |
| Win.Transpose | ConnectFour.py:203 | line c of `b.T` is column c of the board |
| Win.FlipLR | ConnectFour.py:206-207 | `np.fliplr` mirrors each row and keeps the board well-formed |
| Win.Diagonal | ConnectFour.py:209-215 | `np.diagonal(b, offset=k)` has the NumPy length for a 6 x 7 array, and entry i is the cell at row i, column i + k (k >= 0) or at row i - k, column i (k < 0) |
| Win.DiagHit | ConnectFour.py:209-217 | one diagonal test as written: the diagonal at offset k, turned into a string, contains the winning string; `Win.DiagHitIff` proves what it means |
| Win.OffsetsFrom | ConnectFour.py:213-218 | the inner loop of `check_diagonal` as written: offsets i and -i for each i of `range(i, 4)`; `Win.OffsetsFromIff` proves what it means |
| Win.DiagonalView | ConnectFour.py:207-218 | one pass of the outer loop of `check_diagonal`: the root diagonal, then the inner loop; `Win.DiagonalViewIff` proves what it means |
| Win.CheckDiagonal | ConnectFour.py:205-220 | `check_diagonal` as written: the pass over the board, then over `np.fliplr` of it; `Win.DiagonalViewIff` and `Win.AntiDiagonalIff` prove what it means |
| Win.DiagRunAt | ConnectFour.py:209-217 | a run of four along a diagonal starting at entry i is a down-right run of four in the board from that entry's cell, and back |
| Win.DiagHitIff | ConnectFour.py:209-217 | the string test on the diagonal at offset k holds exactly when there is a down-right run of four along that diagonal |
| Win.OffsetsFromIff | ConnectFour.py:213-218 | the inner loop over offsets i and -i, for i in `range(1, 4)`, hits exactly when one of those offsets has a hit |
| Win.DiagonalViewIff | ConnectFour.py:206-218 | one pass of `check_diagonal` (the root diagonal, then offsets +-1..+-3) holds exactly when the board has a down-right run of four |
| Win.FlipRunAt | ConnectFour.py:206-207 | a down-right run in the mirrored board from (r, c) is a down-left run in the board from (r, 6 - c), and back |
| Win.AntiDiagonalIff | ConnectFour.py:206-207 | a down-right run in the mirrored board is a down-left run in the board, and back |
| Win.Won | ConnectFour.py:191-224 | `game_won` as written: `check_horizontal`, then `check_verticle`, then `check_diagonal`; `Win.WonIff` proves what it means |
| Win.WonIff | ConnectFour.py:191-224 | `game_won(p)` holds exactly when p has four consecutive marks along some row, column, down-right diagonal or down-left diagonal |
| Win.OffsetsCoverLongDiagonals | ConnectFour.py:209-214 | every diagonal long enough to hold four is at an offset the source scans |
| Win.BottomRowExample | ConnectFour.py:222-224 | marks of player 1 at columns 0..3 of the bottom row are a win for player 1 |
| Win.RisingDiagonalExample | ConnectFour.py:222-224 | marks of player 1 at (5,0), (4,1), (3,2), (2,3) are a win for player 1 |
| Engine.Other | ConnectFour.py:122 | `int(not t)` maps turn 0 to 1 and any other turn to 0; for a turn index 0 or 1 the result is the other turn index |
| Engine.OtherTwice | ConnectFour.py:122 | passing the turn twice gives it back to the same player |
| Engine.InitialState | ConnectFour.py:35-43 | the starting state (empty board, player 1 to move, no winner) satisfies the game invariant |
| Engine.Place | ConnectFour.py:144-165 | `update_board` as a function of the board: it succeeds exactly when the column is on the board and has an empty cell, and then gives a well-formed grid; a full column on the board is `InvalidMove` |
| Engine.Apply | ConnectFour.py:86-117 | the first half of `make_move`: the board after the agent's answer is still a well-formed grid of 0, 1 and 2 |
| Engine.Decide | ConnectFour.py:119-142 | the decision after the move (win, else tie, else the turn passes) keeps the game invariant |
| Engine.Step | ConnectFour.py:86-142 | a turn that does not raise keeps the game invariant, including that a recorded winner is the player to move and the loser the other player |
| Engine.Play | ConnectFour.py:72-84 | a game loop that does not raise, whether it was left or its turns ran out, ends in a state that keeps the game invariant |
| Engine.StepIsDecide | ConnectFour.py:116-138 | once the answer has been applied, the rest of the turn is the decision on the new board |
| Engine.StepWhenOver | ConnectFour.py:87 | once the game is over, `make_move` neither changes the state nor raises |
| Engine.StepErrors | ConnectFour.py:99-165 | a turn raises exactly when the game is running and either the worker could not be started or timed out, or the column is off the board, or the column is full. The exception is `PlayerFault(p)`, `ColumnOutOfRange(c)` or `InvalidMove(p, c)` respectively |
| Engine.ApplyBoard | ConnectFour.py:116-155 | `None` leaves the board as it is; a column with room gets the mover's mark in a cell that was empty, every other cell keeps its value, and one more cell is filled; on a board obeying gravity that cell is the lowest empty one of the column |
| Engine.StepKeepsGravity | ConnectFour.py:116-155 | a turn that does not raise keeps every column free of holes |
| Engine.PlayKeepsGravity | ConnectFour.py:72-84 | a game loop that does not raise, from a board without holes, ends on a board without holes |
| Engine.GameKeepsGravity | ConnectFour.py:39-84 | every game that does not raise, started from the empty board, ends on a board without holes |
| Engine.StepOutcome | ConnectFour.py:119-138 | if `game_won` holds for the mover, the game is over with the mover as winner, the other player as loser and the turn unchanged (a win is checked before a tie). Otherwise, if `game_tied` holds, the game is over with no winner. Otherwise the game goes on and the other player moves |
| Engine.StepLive | ConnectFour.py:119-138 | a turn that does not raise leaves the game over or its board with an empty cell |
| Engine.PlayFinishes | ConnectFour.py:72-138 | if every answer is a column and the operator never types x, the loop is left with the game over (won or tied) after at most as many turns as the board has empty cells, unless a turn raises |
| Engine.FinishedOnlyWhenOver | ConnectFour.py:72-81 | without an operator, `gameloop` is only left once the game is over |
| Engine.GameFinishes | ConnectFour.py:72-138 | from the empty board, 42 column answers without x always leave the loop with the game over, unless a turn raises |
| Engine.NoMovesStall | ConnectFour.py:116-138 | answers of `None` on a board with no four in a row and room left keep the game running with the board unchanged, so the loop runs out of turns |
| Engine.GameOfNoMovesStalls | ConnectFour.py:72-138 | from the empty board, a game without an operator whose answers are all `None` never ends |
| Engine.GridOf | ConnectFour.py:39 | the array's cells are the cells of the board value |
| Engine.Game.constructor | ConnectFour.py:35-43 | a new game has an empty board of its own, player 1 to move, not over, no winner |
| Engine.Game.UpdateBoard | ConnectFour.py:144-165 | the board afterwards is `Place` of the board before, where `Place` is the drop of Board.Drop; a full column raises `InvalidMove` and an off-board column `ColumnOutOfRange`, both leaving the board unchanged |
| Engine.Game.GameTied | ConnectFour.py:186-189 | true exactly when no array cell is 0, and exactly when 42 cells are filled |
| Engine.Game.GameWon | ConnectFour.py:191-224 | true exactly when p has four in a row on the array board |
| Engine.Game.MakeMove | ConnectFour.py:86-142 | the new state is `Step` of the old one, or the state is unchanged and the exception is returned; the invariant is kept |
| Engine.Game.Settle | ConnectFour.py:119-142 | the fields become `Decide` of the state on the current board |
| Engine.Game.LoopPass | ConnectFour.py:73-81 | one pass of the `while True` loop: stop on x, or when the move raised or ended the game; otherwise the rest of the game is `Play` of the new state over the remaining turns |
| Engine.Game.GameLoop | ConnectFour.py:72-84 | the final state is the state `Play` ends in, or the exception of the turn that raised; `left` is false exactly when the turns ran out with the loop still going |
| Series.Name | ConnectFour.py:259-265 | a player's name starts with its type; it is the type alone exactly when the parameter string is not truthy, and longer otherwise |
| Series.DifferentTypesDifferentNames | ConnectFour.py:258-265 | two players of different types from `ab, random, human, mcts, expmax` never share a name, whatever their parameters |
| Series.SameTypeNames | ConnectFour.py:258-269 | two players of the same type share a name exactly when their truthy parameter strings agree |
| Series.GameCount | ConnectFour.py:286-290 | `N`: 1 when n is 1, otherwise 2n; `Series.Passes` states what it gives |
| Series.IsInteractive | ConnectFour.py:281-284 | `n == 1 or 'human' in pnames`, a test on the names; `Series.InteractiveIff` proves what it means in terms of types |
| Series.NameIsHuman | ConnectFour.py:259-265 | for a known type, the name is exactly `human` when the type is human and the parameter string is not truthy |
| Series.InteractiveIff | ConnectFour.py:259-284 | the run is interactive exactly when n is 1 or a player is of the human type without a truthy parameter string |
| Series.Passes | ConnectFour.py:286-294 | `range(N)` makes one pass when n is 1, an even 2n passes when n > 1, none when n <= 0 |
| Series.Seats | ConnectFour.py:272-299 | the seating of each game holds both player names |
| Series.SeatsSwap | ConnectFour.py:299 | `pnames.reverse()` takes the seating of game i to that of game i + 1 |
| Series.Players | ConnectFour.py:237-245 | player 1 and player 2 carry the names of the first and second seats |
| Series.Record | ConnectFour.py:247-253 | updating the table keeps its set of names |
| Series.RecordDelta | ConnectFour.py:247-253 | a game with a truthy winner adds exactly one win to the winner and one loss to the loser. Any other game adds exactly one tie to each seated player. No other counter changes |
| Series.Fresh | ConnectFour.py:279 | the starting table holds both names at zero and adds up |
| Series.GameOutcome | ConnectFour.py:245 | a game that does not raise ends in a state keeping the game invariant |
| Series.Recorded | ConnectFour.py:245-253 | what `play_game` makes of a game's ending: a table comes out exactly when the game finished, and it holds the same names; a game left running gives `Stalled` |
| Series.RecordBalanced | ConnectFour.py:247-253 | recording a game keeps a's wins equal to b's losses, b's wins equal to a's losses and the ties equal; it counts one more game for each player and one more outcome in all |
| Series.Outcomes | ConnectFour.py:294-299 | game j of the run is played with the seating of game j, and each game that finishes ends in a state keeping the game invariant |
| Series.Tallied | ConnectFour.py:294-299 | the `for` loop of `main` as a fold: game after game is recorded, until the first exception or unfinished game; `Series.TalliedTotals`, `Series.TalliedAllFinished` and `Series.TalliedErrors` prove what it gives |
| Series.TalliedTotals | ConnectFour.py:247-299 | outcomes that all finish leave the table adding up, with one more game for each player and one more outcome per game played |
| Series.TalliedAllFinished | ConnectFour.py:294-299 | a table comes out only when every game finished |
| Series.TalliedErrors | ConnectFour.py:294-299 | the games end a run only with an exception of a turn or an unfinished game |
| Series.Experiment | ConnectFour.py:256-304 | `main` as a function: the names, the same-name refusal, then the fold over the N games with the interactive flag; `Series.ExperimentTotals`, `Series.ExperimentSameNames` and `Series.ExperimentGamesFinished` prove what it gives |
| Series.ExperimentTotals | ConnectFour.py:256-304 | a completed run returns a table of exactly the two names, each having played all N games, with wins of one equal to losses of the other, equal ties, and wins plus ties summing to N |
| Series.ExperimentSameNames | ConnectFour.py:267-269 | the run is refused before any game exactly when the two names coincide |
| Series.ExperimentGamesFinished | ConnectFour.py:72-81 | every game of a run that produces a table finished, and without an operator every one of them is over, so none is counted as a tie merely because its turns ran out |
| Series.NoMovesStallRun | ConnectFour.py:116-117 | a run without an operator whose first game gets only `None` answers never produces a table |
| Series.EachMovesFirstHalf | ConnectFour.py:286-299 | over 2n games each player has the first seat, and so moves first, exactly n times |
| Series.PlayGame | ConnectFour.py:228-253 | the result is `Recorded` of the game's ending: the table with the outcome recorded, the exception the game raised, or `Stalled` |
| Series.UpdateStats | ConnectFour.py:247-253 | the table update is `Record` of the winner and loser |
| Series.PlayGames | ConnectFour.py:294-299 | the loop plays game i in seating `Seats(a, b, i)` and its result is `Tallied` of the starting table over the `Outcomes` of the games |
| Series.RunExperiment | ConnectFour.py:256-304 | the result is `Experiment` of the arguments and the games |

## Left out

- The Tk window. The model describes the console path, which `Game.__init__` takes whenever the run is not interactive (lines 47-48) or tkinter cannot be imported (lines 13-17); there `gameloop` drives the turns. In an interactive run with tkinter, `__init__` never calls `gameloop`. The "Next Move" button calls `make_move` (line 65) inside `root.mainloop()` (line 66) instead, and tkinter reports an exception raised by that callback and keeps the event loop running. So on that path a full column, an off-board column or a timed-out worker only means the turn does not happen, and the game goes on. Closing the window ends the game in its current state, which `play_game` then records (lines 248-253), as if x had been typed. None of this is modelled.
- The console board printout and all other printing: output only, with no effect on the state.
- The operator's `input()`: the command before each interactive turn is part of the script. `argparse` is left out; `RunExperiment` takes the parsed arguments directly.
- The move strategies of `Player.py` (alpha-beta, MCTS, expectimax, random, human). Player.py is not part of this model. A player is its number and name, and its answer on a turn is an input. `Series.PlayGame` assumes a player's `name` is the name `main` built for it, that is, the key of the results table. Nothing in ConnectFour.py backs this for `RandomPlayer(num)` and `HumanPlayer(num)`, which are built without a name (lines 241 and 243). If their `name` differs, `stats[g.winner]` at line 249 raises `KeyError`, which the model does not capture.
- Agents that write to the board: `random` and `human` agents are handed the live `self.board`, not a copy (line 114). The model assumes an agent does not change the board. The gravity lemmas (`Engine.StepKeepsGravity`, `Engine.PlayKeepsGravity`, `Engine.GameKeepsGravity`) depend on that.
- The worker process, the pipe and the time limit `time`: a worker that cannot be started or that is terminated at the time limit is the input `Fault`. Timing and process termination are not modelled.
- A strategy that raises inside the worker process: the child exits, `p.join` returns, the `try` completes, and `recv_end.recv()` at line 112 then blocks forever, because the parent still holds `send_end` open. `make_move` hangs instead of raising. The model has no answer for this case; it is neither `Fault` nor an ending.
- Negative column indices: Python's `board[:, -1]` wraps around to the last column. The model treats every column outside 0..6 as an error, `ColumnOutOfRange`.
- NumPy details: the `uint8` cell type, and `np.int`, which NumPy 1.24 removed. Under such a NumPy, line 209 raises `AttributeError` whenever `check_diagonal` is reached, that is, on every move that makes no horizontal or vertical four, so every game raises on its first turn. The model describes the program under a NumPy that still has `np.int`. The cells are unbounded integers that hold only 0, 1 or 2.
- Engine.Play: `gameloop` keeps asking for turns until the game ends or x is typed. The model's script is finite. When it runs out, `Play` returns `Unfinished` with the state reached so far, and `Series.PlayGame` and `Series.Experiment` report `Stalled` instead of a table. The source would wait for more turns instead.
- `sys.exit()` itself: the model returns the SameNames error instead of ending the process.
