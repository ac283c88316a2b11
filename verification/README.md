# Gomoku engine: a Dafny model

This project models the decision core of a 15x15 Gomoku engine. The engine plays stone `1` against a human playing
`-1`, and `0` marks an empty cell. It covers:

- the board and its five-in-a-row test (`isValid`, `setState`, `countDirection`, `isFive`, `checkResult`);
- the pattern catalogue that scores stone configurations (`create_pattern_dict`);
- the incremental evaluator that counts catalogue patterns around a freshly played cell. It also folds their scores
  into the candidate cells (`countPattern`, `evaluate`);
- the candidate frontier (`childNodes`, `updateBound`, the throttled distant-stone check);
- Zobrist hashing and the transposition table (`rollingHash`, `update_TTable`);
- the minimax search with alpha-beta pruning (`alphaBetaPruning`);
- the pixel-to-cell conversion used by mouse clicks (`pixel_conversion`, `pos_pixel2map`, `create_mapping`);
- the moves the game driver plays on the engine: the opening (as written, and with the corrected first move of the Findings), an engine move and a human move.

The modules follow the source:

- `Scores`: search values with infinities.
- `Board`: the board and the five test.
- `Patterns`: the catalogue.
- `Evaluator`: `countPattern` and `evaluate`.
- `Frontier`: candidate ordering and growth.
- `Zobrist`: hashing and the table.
- `Search`: `checkResult` and `alphaBetaPruning`.
- `Pixels`: screen coordinates.
- `Game`: the engine object as the driver uses it.

The Python dictionary is modelled as an insertion-ordered list of distinct keys. In it a write to an existing key
overwrites the value in place, which makes "the last write wins" a theorem (`Patterns.LastWriteWins`). The catalogue's
final values are then derived from its write sequence, not restated.

Search values are extended integers (`NegInf`, `Fin(n)`, `PosInf`), because the search starts its running best at
Python's `-math.inf` / `math.inf`. Every catalogue score is written as the integer its floating-point product evaluates
to (for example `CRITICAL * 0.9` is `900000`), so the scores are the source's values.

The in-place mutation of the Python object is modelled with values:

- `evaluate` and `updateBound` return the new frontier;
- the search threads a `State` (board, hash, table, move counters, root choice) through every call and returns it;
- each method's contract says what comes back unchanged: the board and the hash after a search, and the caller's
  frontier, which the source copies with `dict(bound)`.

Two observations on the source, modelled as written:

- `step += length - 1` in `countPattern` (AI.py:214) reassigns a `for` loop variable. It has no effect, so every window
  is scanned.
- `childNodes` is a generator, but it builds and sorts its whole list on first use. Each child's move is undone before
  the next one is drawn, so computing the list eagerly gives the same moves.

## Model

| member | source | states |
|---|---|---|
| `Scores.Max` | Code/gomokuAI-py/source/AI.py:282 | `max(alpha, eval)` is an upper bound of both arguments and equals one of them, infinities included |
| `Scores.Min` | Code/gomokuAI-py/source/AI.py:325 | `min(beta, eval)` is a lower bound of both arguments and equals one of them |
| `Board.IsValid` | Code/gomokuAI-py/source/AI.py:52-65 | off the board a move is never valid; on it, it is valid unconditionally without the emptiness test and exactly when the cell holds 0 with it |
| `Board.ValidIsPositionEmpty` | Code/gomokuAI-py/source/AI.py:363-365 | `isPositionEmpty` answers the same as `isValid` with the emptiness test |
| `Board.SetCell` | Code/gomokuAI-py/source/AI.py:76 | the write `boardMap[i][j] = state` changes that cell to `state` and no other cell |
| `Board.SetCellRestore` | Code/gomokuAI-py/source/AI.py:284-286 | writing back the value a cell held restores the whole board, which is what the search's undo relies on |
| `Board.CountDirection` | Code/gomokuAI-py/source/AI.py:80-92 | the count is between 0 and 4, the first `count` cells in the direction are on the board and hold the state, and when fewer than 4 the next one does not |
| `Board.IsFiveIff` | Code/gomokuAI-py/source/AI.py:95-107 | `isFive` is true exactly when on one of the four axes five consecutive cells containing `(i, j)` all hold the state, `(i, j)` itself counted without being read |
| `Search.CheckResultIff` | Code/gomokuAI-py/source/AI.py:344-352 | the result is the last mover exactly when they have such a five through the current cell, 0 exactly when they do not and no empty cell is left, and `None` otherwise |
| `Patterns.PutLookup` | Code/gomokuAI-py/source/utils.py:84 | after `pattern_dict[k] = v`, `k` maps to `v` and every other key keeps its value |
| `Patterns.LastWriteWins` | Code/gomokuAI-py/source/utils.py:80-158 | the dictionary built by a sequence of writes maps a key to `v` exactly when the last write to that key wrote `v` |
| `Patterns.NeverWritten` | Code/gomokuAI-py/source/utils.py:71 | a key is absent from the built dictionary exactly when no write touches it |
| `Patterns.CreatePatternDict` | Code/gomokuAI-py/source/utils.py:70-160 | the catalogue is a dictionary: each key appears once |
| `Patterns.CatalogueKeysWellFormed` | Code/gomokuAI-py/source/utils.py:80-158 | every key of the catalogue is a line of 4 to 7 cells, each -1, 0 or 1 |
| `Patterns.CatalogueEngineFive` | Code/gomokuAI-py/source/utils.py:84 | the engine's five is worth `WIN` |
| `Patterns.CatalogueHumanFive` | Code/gomokuAI-py/source/utils.py:84 | the human's five is worth `-WIN`; no later write touches it |
| `Patterns.CatalogueEngineOpenFour` | Code/gomokuAI-py/source/utils.py:88 | the engine's open four ends at `CRITICAL`, the engine pass overriding the human pass's blocking value |
| `Patterns.HumanPassBlocksOpenFour` | Code/gomokuAI-py/source/utils.py:119 | the human pass first writes the engine's open four as a shape to block, worth 2.5 x `CRITICAL` |
| `Patterns.CatalogueHumanOpenFour` | Code/gomokuAI-py/source/utils.py:119 | the human's open four ends at -2.5 x `CRITICAL`, the engine pass's blocking value, not the human pass's open-four value |
| `Patterns.HumanPassOpenThree` | Code/gomokuAI-py/source/utils.py:110 | the human pass first scores the human's open three as an open three, -2 x `HIGH` |
| `Patterns.CatalogueHumanOpenThree` | Code/gomokuAI-py/source/utils.py:144-150 | the human's open three ends at the edge pattern's -1.2 x `MEDIUM`, which overwrites the open-three value |
| `Evaluator.MaxSteps` | Code/gomokuAI-py/source/AI.py:181-186 | `max_steps` is at most 5 and at most the room to the edge on either axis, and equals one of the three |
| `Evaluator.DirWindows` | Code/gomokuAI-py/source/AI.py:189 | the windows of a direction are exactly those whose start lies in `range(-max_steps, max_steps - len + 2)`, each once |
| `Evaluator.AllWindowsScanned` | Code/gomokuAI-py/source/AI.py:174-189 | the scan visits every window of the four directions with a start in that range, and no window twice |
| `Evaluator.Scan` | Code/gomokuAI-py/source/AI.py:189-211 | over distinct windows the count is the number of windows holding the pattern; a cell's score grows by `flag * score` once per matched window that needs it empty; no other key appears |
| `Evaluator.CountPattern` | Code/gomokuAI-py/source/AI.py:166-216 | `countPattern` returns the number of scanned windows that hold the pattern, and adds `flag * score` to the empty cells of each matched window |
| `Evaluator.ScanScoresNearEmpty` | Code/gomokuAI-py/source/AI.py:205-206 | every cell a scan scores is an empty board cell within the scanned lines around the anchor |
| `Evaluator.CountPatternLocal` | Code/gomokuAI-py/source/AI.py:205-211 | a pattern scan changes no score, and adds no key, outside the empty cells near the anchor |
| `Evaluator.EvalEntriesBoard` | Code/gomokuAI-py/source/AI.py:235-239 | the loop of `evaluate` leaves the move's cell cleared to 0 and the rest of the board as it was |
| `Evaluator.EvalEntriesGain` | Code/gomokuAI-py/source/AI.py:225-241 | on an empty cell `value_after - value_before` is the weight of all catalogue patterns around the cell after the move minus that before it |
| `Evaluator.EntryPass` | Code/gomokuAI-py/source/AI.py:233-236 | for one catalogue entry, the pass before the move and the pass after it move a cell's candidate score by `abs(score)` times the matched windows needing it empty after the move, minus those before |
| `Evaluator.EntryReach` | Code/gomokuAI-py/source/AI.py:233-236 | after one entry's two passes a cell is a key exactly when it was one or a matched window, before or after the move, needs it empty |
| `Evaluator.EvalEntriesShift` | Code/gomokuAI-py/source/AI.py:229-239 | on an empty cell the loop of `evaluate` moves every cell's candidate score by the sum of those per-entry shifts, and makes a cell a key exactly when it was one or some entry's matched window needs it |
| `Evaluator.Evaluate` | Code/gomokuAI-py/source/AI.py:219-241 | on an empty cell the board value moves by exactly the weight the move adds around the cell, the board comes back unchanged, only empty cells near the move get new candidate scores, and each cell's candidate score moves by the per-entry shift summed over the catalogue |
| `Frontier.RankedMoves` | Code/gomokuAI-py/source/AI.py:112-116 | the sorted `valid_moves` hold every empty key of the frontier exactly once, ordered by higher absolute score and then by position |
| `Frontier.SortRanked` | Code/gomokuAI-py/source/AI.py:116 | sorting distinct cells by the key `(-abs(score), pos)` yields a strictly ranked list |
| `Frontier.ChildNodes` | Code/gomokuAI-py/source/AI.py:109-120 | `childNodes(bound, k)` yields `min(k, #valid moves)` distinct empty keys, ranked, and every valid move left out ranks below every one yielded |
| `Frontier.MarkNeighbours` | Code/gomokuAI-py/source/AI.py:128-133 | every empty cell adjacent to the move becomes a key; the keys added are exactly such cells, with score `v`; existing keys keep their scores |
| `Frontier.DistantHumansIff` | Code/gomokuAI-py/source/AI.py:146-154 | `distant_groups` holds exactly the human stones farther than Manhattan distance 3 from every engine stone, in board order |
| `Frontier.AddDistant` | Code/gomokuAI-py/source/AI.py:140-164 | unless throttled (checked fewer than 3 moves ago), two or more distant human stones make the empty cells around the first two keys with -100 and stamp the check; otherwise nothing changes |
| `Frontier.UpdateBound` | Code/gomokuAI-py/source/AI.py:122-138 | the played cell leaves the frontier, its empty neighbours become keys with 0, the distant check runs only after a human move, other keys keep their scores, and the move counter rises by one |
| `Zobrist.ToggleTwice` | Code/gomokuAI-py/source/AI.py:284-286 | toggling the same key again restores `rollingHash` |
| `Zobrist.ToggleCommutes` | Code/gomokuAI-py/source/AI.py:265-267 | two moves toggle the hash to the same value in either order, so transposed move orders meet in the table |
| `Zobrist.PlaceHash` | Code/gomokuAI-py/source/AI.py:266-267 | placing a stone on an empty cell and toggling its key keeps `rollingHash` equal to the exclusive-or of the keys of all stones on the board |
| `Zobrist.EmptyHash` | Code/gomokuAI-py/source/AI.py:28 | the empty board's hash is 0, the initial `rollingHash` |
| `Zobrist.UpdateTTable` | Code/gomokuAI-py/source/utils.py:172-173 | the table maps the hash to `(score, depth)` and every other entry is as it was |
| `Zobrist.UpdateTTableOverwrites` | Code/gomokuAI-py/source/utils.py:173 | a later store at the same hash replaces an earlier one completely |
| `Search.Initial` | Code/gomokuAI-py/source/AI.py:256 | the running best starts below every value for the maximiser and above every value for the minimiser |
| `Search.Descend` | Code/gomokuAI-py/source/AI.py:258-270 | a child places the mover's stone on its empty cell, toggles the mover's key, leaves the table and root choice alone and counts one move |
| `Search.UndoRestores` | Code/gomokuAI-py/source/AI.py:284-286 | undoing a child's move gives back the board and the hash from before it |
| `Search.Settle` | Code/gomokuAI-py/source/AI.py:274-290 | after a child the best value only moves towards the side to move, and at the root depth an improvement records that child's cell, its frontier score and the value as the choice |
| `Search.Visit` | Code/gomokuAI-py/source/AI.py:258-290 | one child searched and taken back: board and hash restored, table only grown, best value improving, root choice as in `Settle` |
| `Search.AlphaBeta` | Code/gomokuAI-py/source/AI.py:244-338 | a static position returns the board value, a table hit at this depth or deeper returns the stored score, and any other position is searched and stored under its hash with the result and depth; the board and hash come back; at the root an improving result records an empty frontier cell, its score and the value |
| `Pixels.PixelConversion` | Code/gomokuAI-py/source/utils.py:13-38 | the walk ends at index 0 left of the first point, the last gap right of the last point, and otherwise at the gap holding the target |
| `Pixels.LocatedUnique` | Code/gomokuAI-py/source/utils.py:13-38 | on ascending points a target has only one such location |
| `Pixels.PointsRange` | Code/gomokuAI-py/source/utils.py:44-46 | the points of `pos_pixel2map` are 6, 41, ..., 531 |
| `Pixels.PosPixel2Map` | Code/gomokuAI-py/source/utils.py:43-50 | every pixel, even off the board, maps to a board cell: the row from `y` and the column from `x`, each the gap of the points that holds it |
| `Pixels.CreateMapping` | Code/gomokuAI-py/source/utils.py:58-65 | the mapping has exactly the 225 cells as keys and draws cell `(i, j)` at pixel `(23 + 35j, 23 + 35i)` |
| `Pixels.PixelRoundTrip` | Code/gomokuAI-py/source/utils.py:43-65 | converting a cell's drawn centre back with `pos_pixel2map` gives the same cell |
| `Game.Fresh` | Code/gomokuAI-py/source/AI.py:13-29 | a new engine has an empty board, a hash of 0 that is the board's hash, and `emptyCells` equal to the board's 225 empty cells |
| `Game.NewEngine` | Code/gomokuAI-py/source/AI.py:13-29 | the same, with the pattern dictionary of `create_pattern_dict()`, whose keys are distinct |
| `Game.EmptyCountZero` | Code/gomokuAI-py/source/AI.py:348-350 | no empty cell is counted exactly when every cell of the board holds a stone, so a counter in step detects the full board |
| `Game.EmptyCountPlace` | Code/gomokuAI-py/play_analysis.py:327 | a stone on an empty cell lowers the number of empty cells by exactly one, which `emptyCells -= 1` tracks |
| `Game.SetState` | Code/gomokuAI-py/source/AI.py:68-77 | a state outside -1, 0, 1 fails the assertion; otherwise the cell holds the state, `lastPlayed` is the state, and nothing else changes |
| `Game.FirstMove` | Code/gomokuAI-py/source/AI.py:340-342 | the opening as written puts the engine's stone in the centre, makes it current, and leaves `rollingHash` and `emptyCells` untouched |
| `Game.FirstMoveDrifts` | Code/gomokuAI-py/source/AI.py:340-342 | after that opening `emptyCells` counts one empty cell too many and `rollingHash` lacks the centre's key |
| `Game.FullBoardMissesDraw` | Code/gomokuAI-py/source/AI.py:348-352 | with `emptyCells` one too high, a full board without a five is reported as "no result" instead of a draw |
| `Game.FullBoardIsDraw` | Code/gomokuAI-py/source/AI.py:344-352 | with the counter in step, the same full board is the draw 0 |
| `Game.FixedFirstMove` | Code/gomokuAI-py/source/AI.py:340-342 | the opening with the bookkeeping of every other move: hash and empty-cell count stay in step with the board |
| `Game.Opening` | Code/gomokuAI-py/play_analysis.py:218-232 | the engine's opening as written puts its stone in the centre and passes the turn to the human, but leaves `rollingHash` and `emptyCells` as they were, so an engine in step falls out of step |
| `Game.FixedOpening` | Code/gomokuAI-py/play_analysis.py:218-232 | the driver's opening with the corrected first move (see Findings): it puts the centre stone, passes the turn, and keeps an engine in step |
| `Game.EngineMove` | Code/gomokuAI-py/play_analysis.py:324-327 | the engine's move places its stone, toggles its key, counts one empty cell fewer and passes the turn; an engine in step stays in step |
| `Game.HumanMove` | Code/gomokuAI-py/play_analysis.py:356-371 | an invalid cell changes nothing; a valid one becomes current, places the human's stone, toggles the human's key, moves the board value by the weight the move adds, counts one move and one empty cell fewer, and passes the turn; an engine in step stays in step |
| `Game.HumanClick` | Code/gomokuAI-py/play_analysis.py:349-356 | a click at any pixel is played at the board cell whose gaps hold it when that cell is empty, and changes nothing when it is occupied |

## Left out

- Drawing, console output and timing: `drawBoard`, `getWinner`, the pygame screen, the timers, move records and
  screenshots of play_analysis.py.
- `pos_map2pixel` (utils.py:54-55): floating-point pixel geometry used only for drawing stones.
- `init_zobrist` (utils.py:165-168) draws random `uuid4` keys. The keys are a parameter `z` of the model, any table of
  naturals below 2^128. The hash is an unbounded natural with exclusive-or defined bit by bit.
- The driver's call that starts a search (`ai_move` of the game object) is not part of this model. So no member runs
  `Search.AlphaBeta` from a `Game.Engine`; the search takes the engine's attributes as a `Context` and a `State`.
- Catalogue scores are integers. The source mixes ints and floats, and every one of its products is an exact integer in
  double precision, so values and comparisons are the same.
- `checkResult` calls `isFive` before testing `lastPlayed`. When `lastPlayed` is 0 the current cell may be `(-1, -1)`,
  and Python then reads the board with negative indices. The model skips that call, because the conjunction is false
  anyway.
- Search.AlphaBeta: does not state that the returned value equals the plain minimax value. Soundness of the
  transposition table (a stored score reused at a different window) and the effect of pruning are not stated either.
- Search.Descend: does not restate the child's value or its grown frontier. These are the results of `Evaluate` and
  `UpdateBound`, whose own contracts describe them.
- Game.HumanMove: states how the board value moves, but not the contents of `nextBound` after `updateBound` and
  `evaluate`. The contracts of `Frontier.UpdateBound` and `Evaluator.Evaluate` state those of each call.
- Evaluator.Evaluate: relates the incremental value to the pattern weight around the move only. It does not relate it to
  a full-board evaluation, which the source never computes.
- `sys.setrecursionlimit(1500)` (AI.py:6): an interpreter limit with no counterpart in the model.

## Findings

| source | as written | input that shows it | evidently intended | confidence | as-written member | corrected member |
|---|---|---|---|---|---|---|
| Code/gomokuAI-py/source/AI.py:340-342 | `firstMove` places the engine's centre stone through `setState` only. Neither it nor the driver (play_analysis.py:218-232) toggles `rollingHash` or decrements `emptyCells`, unlike every other move (play_analysis.py:324-327). | The engine opens, and the game reaches a full board with no five. `emptyCells` is then 1 instead of 0, so `checkResult` returns `None` instead of the draw 0. Every hash after the opening also lacks the centre's key. | The opening updates `rollingHash` and `emptyCells` like any other engine move. | not executed | `Game.FirstMove` (used by `Game.Opening`), with `Game.FirstMoveDrifts` and `Game.FullBoardMissesDraw` | `Game.FixedFirstMove` (used by `Game.FixedOpening`), with `Game.FullBoardIsDraw` |
