# Gomoku trainer core in Dafny

This project models the game logic of a Gomoku (five-in-a-row) trainer and
proves properties of it. The trainer pits a remote language model (the
"oracle", playing Black) against two local bots on a 15x15 board. The model
covers:

- **Board rules** (`game_rules.dfy`): the empty board; the four-axis
  five-in-a-row test from a placed stone, with its two counting loops; the
  row-major scan for empty cells; and the full-board draw test.
- **Local bots** (`bots.dfy`):
  - the random bot;
  - the greedy bot's cascade of five row-major scans (win, block win, own
    four, block four, own three);
  - its fallback, which stably sorts the empty cells by Manhattan distance
    to the centre and picks among the first three;
  - the hypothetical-placement line test behind both.
- **Headless game driver** (`training_loop.dfy`): the loop that plays one
  benchmark game between the oracle and a bot up to the 225-ply cap.
- **Oracle boundary** (`gemini_service.dfy`): the text picture of the board
  sent in each request, the two player symbols named in the prompt, and the
  move chosen when the remote call fails.
- **Controller transitions** (`app.dfy`):
  - the guarded move of play mode and the reset state;
  - the log append;
  - the statistics and checkpoint update after each training game.

**How the code is modelled.**

- The board is a value: `seq<seq<Player>>` with 15 rows of 15 cells.
- Loops in the source become methods with loop invariants. Each method is
  proved against a specification function (`Run`/`Line`, `EmptyCells`,
  `FirstMatch`/`Greedy`, `BoardText`) or against a trace predicate
  (`Played`/`Ongoing`/`Ends` for the game driver).
- Further properties are proved about those functions.
- A draw of `Math.random()` is a `real` parameter in [0, 1), and the index
  it selects is `Math.floor(u * n)`.
- The oracle is an abstract function from the ply number and the board to
  either a thrown error or any pair of integers.

## Model

| member | source | states |
|---|---|---|
| Types.Other | services/trainingLoop.ts:64 | the side to move next is never empty, and it is White exactly when the current side is Black |
| Types.Place | services/trainingLoop.ts:51 | writing a stone sets exactly the chosen grid cell and leaves every other cell as it was; an off-grid column changes no grid cell |
| GameRules.EmptyBoard | utils/gameRules.ts:4 | 15 rows of 15 cells, every cell empty |
| GameRules.Run | utils/gameRules.ts:11-15 | a one-sided run from step `i` is at most `5 - i`, so each side counts at most 4 stones |
| GameRules.RunCovers | utils/gameRules.ts:11-21 | a run reaches `k` stones iff the `k` probed cells all hold the player's stone; counting stops at the first off-board or foreign cell |
| GameRules.LineFiveIffWindow | utils/gameRules.ts:9-22 | 1 + forward run + backward run >= 5 along an axis iff some window of five consecutive cells through the stone holds the player's stones, the centre aside |
| GameRules.WinsIffFiveInARow | utils/gameRules.ts:6-25 | the counting test is a win iff one of the four axes has such a window of five |
| GameRules.RunIgnoresCentre | utils/gameRules.ts:11-21 | two boards that differ only at the placed cell give the same run: the walk starts one step away |
| GameRules.WinsIgnoresCentre | utils/gameRules.ts:6-25 | the win test from `(r, c)` does not depend on what `(r, c)` holds |
| GameRules.CountRun | utils/gameRules.ts:11-21 | each inner counting loop returns exactly the run `Run(..., 1)` and reads only on-board cells |
| GameRules.CheckWin | utils/gameRules.ts:6-25 | `checkWin` is true iff some axis gives 1 + forward + backward >= 5, i.e. `Wins` |
| GameRules.EmptyCellsFacts | utils/gameRules.ts:27-37 | the empty-cell list holds exactly the empty cells, in strictly increasing row-major order (so each once) |
| GameRules.GetValidMoves | utils/gameRules.ts:27-37 | the double loop returns `EmptyCells`: exactly the empty cells, row-major, without duplicates |
| GameRules.FullIffNoEmptyCells | utils/gameRules.ts:39-41 | no cell is empty iff the empty-cell list is empty |
| GameRules.CheckDraw | utils/gameRules.ts:39-41 | `checkDraw` is true iff the board is full, iff `getValidMoves` is empty |
| GameRules.PlaceAddsOneStone | services/trainingLoop.ts:51 | a stone written on an empty grid cell adds exactly one to the stone count |
| GameRules.EmptyBoardHasNoStones | utils/gameRules.ts:4 | the empty board has no stones |
| GameRules.Replay | services/trainingLoop.ts:11-52 | replaying a list of moves from the empty board yields a well-formed board |
| GameRules.ReplayAppends | services/trainingLoop.ts:51 | replaying one more move writes that move on the replayed board |
| GameRules.OnEmptyCellsExtends | App.tsx:64-68 | a stone put on an empty cell extends a history in which every move went to an empty cell |
| GameRules.ReplayCountsStones | App.tsx:64-70 | when each move lands on an empty cell, the board holds exactly one stone per move |
| Bots.GetValidMoves | services/bots.ts:5-15 | the bots' own scan returns exactly the empty cells, row-major, without duplicates |
| Bots.RandomIndex | services/bots.ts:21 | `Math.floor(u * n)` for a draw in [0, 1) is a valid index into a list of `n > 0` elements |
| Bots.EveryIndexReachable | services/bots.ts:21 | every index `i < n` is selected by the draw `i / n` |
| Bots.GetRandomMove | services/bots.ts:18-23 | no move iff the board is full; otherwise the empty cell at the drawn index of the row-major list |
| Bots.RandomMoveCoversEveryEmptyCell | services/bots.ts:18-23 | every empty cell is the random bot's choice for some draw |
| Bots.CheckPotentialLine | services/bots.ts:72-106 | true iff some axis gives 1 + forward run + backward run >= `targetLength`; with target 5 it is exactly `checkWin` |
| Bots.SortByCentreDistance | services/bots.ts:60-64 | the sorted list is ordered by distance to (7,7) and is a permutation of the input |
| Bots.SortIsStable | services/bots.ts:60-64 | for every distance, the cells at that distance keep their original order |
| Bots.FirstMatchIsFirst | services/bots.ts:34-56 | a stage scan finds nothing iff no cell passes its test; otherwise it finds a passing cell with no earlier passing cell |
| Bots.Fallback | services/bots.ts:66-68 | the fallback pick is one of the empty cells |
| Bots.ScanStage | services/bots.ts:34-56 | each for-loop with early return yields the stage's first row-major match |
| Bots.GetGreedyMove | services/bots.ts:27-69 | the method computes `Greedy`: no move iff the board is full, otherwise an empty cell |
| Bots.GreedyPicksEmptyCell | services/bots.ts:29-68 | the greedy choice is absent iff the board is full and is otherwise always an empty cell |
| Bots.CascadePicksAMove | services/bots.ts:34-68 | from any stage on, the cascade always produces a move among the candidates |
| Bots.CascadeSkipsEmptyStages | services/bots.ts:34-56 | stages that have no candidate anywhere are passed over |
| Bots.GreedyStageOrder | services/bots.ts:34-56 | if stages `0..k-1` have no candidate and cell `j` is stage `k`'s first candidate, the bot plays cell `j`, whatever later stages would pick |
| Bots.GreedyTakesFirstWin | services/bots.ts:34-36 | the first row-major cell that completes five for the mover is played, whatever threats exist elsewhere |
| Bots.GreedyFallsBackNearCentre | services/bots.ts:58-68 | with no candidate in any stage, the bot plays one of the first min(3, n) cells of the stably sorted list |
| GeminiService.Digit | services/geminiService.ts:20-24 | `(d).toString()` for a digit is one character in '0'..'9' of value `d` |
| GeminiService.PlayerOf | services/geminiService.ts:27-29 | reading a cell symbol back gives the player it stands for |
| GeminiService.BoardText | services/geminiService.ts:19-32 | the picture has 16 lines of 34 characters, 544 in all |
| GeminiService.SerializeHeader | services/geminiService.ts:19-21 | the header loop builds `Header()`: three spaces, `c % 10` and a space per column, a newline |
| GeminiService.SerializeRow | services/geminiService.ts:24-31 | each row loop builds the label `r % 10`, two spaces, `". "`/`"X "`/`"O "` per cell, a newline |
| GeminiService.SerializeBoard | services/geminiService.ts:19-32 | the accumulated string equals `BoardText(b)` |
| GeminiService.TextLineShape | services/geminiService.ts:19-32 | every line is 34 characters with the newline only at the end; header digits and row labels and cell symbols sit at fixed columns |
| GeminiService.BoardTextLayout | services/geminiService.ts:19-32 | character `34k + j` of the picture is character `j` of line `k` |
| GeminiService.BoardTextLines | services/geminiService.ts:19-32 | a character is a newline iff its position is 33 modulo 34: 16 newline-terminated lines |
| GeminiService.BoardTextLabels | services/geminiService.ts:20-24 | the header shows `c % 10` above column `c`, and row line `r` starts with `r % 10` |
| GeminiService.BoardTextCells | services/geminiService.ts:25-29 | the symbol of cell `(r, c)` sits at offset `34(r+1) + 3 + 2c` |
| GeminiService.ParseBoard | services/geminiService.ts:19-32 | reading the symbols back at the cell offsets gives a well-formed board |
| GeminiService.ParseBoardText | services/geminiService.ts:19-32 | parsing the picture gives back the board: the serialiser loses nothing |
| GeminiService.BoardTextInjective | services/geminiService.ts:19-32 | different boards give different pictures |
| GeminiService.PlayerSymbol | services/geminiService.ts:34 | one character: `X` for Black, `O` for White, the same symbol the picture shows for that side's stones |
| GeminiService.OpponentSymbol | services/geminiService.ts:35 | always differs from the player symbol, being the symbol of the other side |
| GeminiService.FallbackMove | services/geminiService.ts:91-107 | always on the grid with win rate 0. Centre empty: the centre, "Fallback center.". Centre occupied: the first empty cell in row-major order, with the error reason. Centre occupied and board full: the centre again |
| GeminiService.FirstEmptyIsHead | services/geminiService.ts:98-103 | an empty cell preceded (row-major) only by occupied cells is the head of `getValidMoves` |
| TrainingLoop.MoverAt | services/trainingLoop.ts:13-64 | Black moves at even plies and White at odd ones |
| TrainingLoop.RunHeadlessGame | services/trainingLoop.ts:8-72 | the plies played are the valid ones from the empty board with Black first; no ply follows a decided position. The result: a win by the last mover; White on an oracle throw, with the moves so far; a rejection on an off-grid row; or no winner on a full board or at 225 plies. The move count never exceeds 225, a declared winner is a real side, and a rejection happens on Black's turn |
| TrainingLoop.DetermineMove | services/trainingLoop.ts:22-43 | Black asks the oracle and reports a throw; White asks the random or greedy bot, which answers nothing exactly on a full board and an empty cell otherwise |
| TrainingLoop.ApplyMove | services/trainingLoop.ts:50-61 | the stone is written, then the win test runs, and the draw test only when there is no win |
| TrainingLoop.PlayedExtends | services/trainingLoop.ts:19-65 | appending a valid ply to an undecided game keeps it played and ongoing, and the new board is the old one with that ply placed |
| TrainingLoop.WhitePliesOnEmptyCells | services/trainingLoop.ts:36-41 | every White ply is on an empty cell: both bots choose only among empty cells |
| TrainingLoop.StonesMatchPlies | services/trainingLoop.ts:51-52 | if the oracle, too, answers only empty cells, the board holds exactly one stone per ply |
| TrainingLoop.PlayedPrefixesAgree | services/trainingLoop.ts:19-65 | two games with the same oracle and draws agree ply by ply |
| TrainingLoop.EndIsFinal | services/trainingLoop.ts:30-71 | a game that has ended has no further valid ply |
| TrainingLoop.OutcomeIsDetermined | services/trainingLoop.ts:8-72 | for a given opponent, oracle and draws there is exactly one game and one result |
| App.InitialGameState | App.tsx:222-230 | the reset state is consistent: empty board, Black to move, playing, no history |
| App.HandleMove | App.tsx:62-84 | state unchanged when the cell is taken, off the grid or the game is over. Otherwise: exactly that cell becomes the mover's; the history grows by that move, which becomes `lastMove`; the turn flips; `Won` with the mover as winner iff five in a row, else `Playing` with no winner; never `Draw` |
| App.HandleMoveKeepsConsistent | App.tsx:62-84 | `handleMove` preserves consistency: board = replay of history, moves on empty cells, alternation, `lastMove`, status and winner |
| App.HistoryCountsStones | App.tsx:64-79 | in a consistent state the number of stones equals the length of the history |
| App.PlayMoves | App.tsx:62-84 | a sequence of clicks adds at most one history entry per click |
| App.PlayFromReset | App.tsx:222-230 | from the reset state, after any clicks, the state is consistent and the stone count equals the history length |
| App.PlayMovesKeepConsistent | App.tsx:62-84 | any sequence of `handleMove` calls keeps a consistent state consistent |
| App.InitialTrainingState | App.tsx:29-38 | the initial training record is stopped and headless, at iteration 0 with no games and no wins, a loss of 1.0, no logs and no checkpoints, and it is tallied |
| App.WinRate | App.tsx:171 | the win rate times the total is the number of wins, and it lies in [0, 1] |
| App.Decimal | App.tsx:178 | the numeral is a non-empty digit string without a leading zero |
| App.DecimalRoundTrip | App.tsx:178 | reading the numeral back gives the number |
| App.CheckpointIdsDistinct | App.tsx:178 | different game counts give different checkpoint ids `model_N.pth` |
| App.LossInRange | App.tsx:171-172 | the loss of a tallied record lies in [0, 1] |
| App.AddLog | App.tsx:51-59 | exactly one entry is appended, earlier entries are unchanged, and nothing else in the record changes |
| App.RecordGame | App.tsx:166-195 | one more game and iteration; one more win iff Black won; loss = 1 - wins/total; a checkpoint `{model_N.pth, N, rate, N}` appended iff N % 5 == 0; earlier checkpoints, the flags and the logs are unchanged |
| App.RecordGameKeepsTallied | App.tsx:166-195 | after each game: iterations equal games, wins <= games, loss = 1 - win rate, and one checkpoint per five games, the k-th after 5(k+1) games |
| App.BlackWins | App.tsx:166 | the number of Black wins is at most the number of games |
| App.Session | App.tsx:166-195 | recording games leaves the logs untouched |
| App.SessionTally | App.tsx:166-195 | from the initial record, after G games: G games, the wins are the Black wins, G / 5 checkpoints, the record is tallied, and checkpoint k carries Black's win rate over the first 5(k+1) games |

## Left out

- The remote model call: prompt text, JSON parsing and the client
  library. The success path of `getAiMove` returns whatever coordinates the
  reply holds, without checks. The game driver therefore takes the oracle
  as a parameter that may answer any pair of integers or throw.
- The driver's throw branch is reachable even though `getAiMove` catches
  its own errors. When the reply text is the JSON literal `null`,
  `getAiMove` returns `null` (services/geminiService.ts:84-86). Reading
  `.row` from it inside the driver's `try` then throws, and the driver
  ends the game with White as winner (services/trainingLoop.ts:29-34).
  The model keeps the oracle's `Threw` answer for that case.
- Nothing in the driver checks that an oracle reply targets an empty
  cell, so the model does not either: an oracle ply may overwrite a stone,
  and `StonesMatchPlies` assumes empty replies.
- An off-grid row from the oracle throws when the driver writes the cell,
  and the whole game promise rejects. This is modelled as the result
  `Rejected`. An off-grid column with an on-grid row writes outside the
  grid, and the ply still counts.
- Non-integer coordinates from the oracle are not modelled: coordinates
  are integers.
- TrainingLoop.RunHeadlessGame: the bot's "no move" branch is modelled.
  The invariant shows it cannot be reached, because the draw test after
  each ply ends the game on a full board before White is asked.
- TrainingLoop.RunHeadlessGame: the driver's board is kept as a value and
  reassigned after each write. Nothing else holds a reference to it, so no
  aliasing is lost.
- `async`/`await`, `setTimeout` pacing, console logging and the React
  hooks, refs and effects are not modelled. This includes the training
  pipeline loop and its log of a loss computed from a stale ref. The
  log's `iteration` is a parameter, because the source reads it from a
  ref.
- Timestamps and dates are string parameters, and `toFixed` formatting is
  not modelled.
- App.WinRate: the win rate and the loss are exact rationals, not IEEE
  doubles; rounding is not modelled.
- App.HandleMove: an off-grid row throws when the cell is read. The model
  leaves the state unchanged in that case, which is what the caller's
  `catch` ends with.
- The rendering components, `types.ts` and `constants.ts` are not
  modelled beyond the datatypes and constants they define.
