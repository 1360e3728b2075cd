/** The two pure state transitions of the React controller: the guarded
    move of play mode on a `GameState` record, and the statistics and
    checkpoint update applied to the `TrainingState` record after each
    benchmark game, with the append-only log beside it. */
module App {
  import opened Types
  import opened GameRules
  import GeminiService
  import TrainingLoop

  // ---------------------------------------------------------------------
  // Play mode
  // ---------------------------------------------------------------------

  /** The play-mode record: the board, whose turn it is, the status, the
      winner (if any), the moves so far and the most recent one. */
  datatype GameState = GameState(board: Board, currentPlayer: Player, status: GameStatus,
                                 winner: Option<Player>, history: seq<Move>, lastMove: Option<Move>)

  /** The state a new game (and `resetGame`) starts from. */
  function InitialGameState(): (s: GameState)
    ensures Consistent(s)
    ensures s.history == [] && s.status == Playing && s.currentPlayer == Black
    ensures forall r, c :: InBounds(r, c) ==> s.board[r][c] == Empty
  {
    GameState(EmptyBoard(), Black, Playing, None, [], None)
  }

  /** A state that a sequence of accepted moves from the initial state can
      reach: the board is the replay of the history, every move went to an
      empty cell, Black and White alternate starting with Black, `lastMove`
      is the last entry of the history, and the game is `Won` exactly when
      the last move made five in a row, the winner being its player. */
  predicate Consistent(s: GameState)
  {
    var h := s.history;
    s.board == Replay(h) &&
    OnEmptyCells(h) &&
    (forall i :: 0 <= i < |h| ==> h[i].player == TrainingLoop.MoverAt(i)) &&
    s.currentPlayer == TrainingLoop.MoverAt(|h|) &&
    s.lastMove == (if h == [] then None else Some(h[|h| - 1])) &&
    s.status != Draw &&
    (s.status == Won <==> TrainingLoop.Won(h)) &&
    s.winner == (if s.status == Won then Some(h[|h| - 1].player) else None)
  }

  /** `handleMove` goes ahead only for an empty grid cell while the game is
      being played. A column off the grid reads `undefined`, which is not
      `Player.None`, so the guard returns; a row off the grid throws on the
      read, and the caller's `catch` leaves the state as it was. */
  predicate Accepts(s: GameState, row: int, col: int)
    requires WellFormed(s.board)
  {
    InBounds(row, col) && s.board[row][col] == Empty && s.status == Playing
  }

  /** The source's `handleMove`: on a copy of the board the mover's stone
      is written, the move is appended to the history and becomes the last
      move, the turn passes to the other side, and the status becomes `Won`
      with the mover as winner when the stone makes five in a row and stays
      `Playing` with no winner otherwise. */
  function HandleMove(s: GameState, row: int, col: int): (r: GameState)
    requires WellFormed(s.board)
    ensures WellFormed(r.board)
    ensures !Accepts(s, row, col) ==> r == s
    ensures Accepts(s, row, col) ==>
      var m := Move(row, col, s.currentPlayer);
      && r.board[row][col] == s.currentPlayer
      && (forall i, j :: InBounds(i, j) && (i, j) != (row, col) ==> r.board[i][j] == s.board[i][j])
      && r.history == s.history + [m]
      && r.lastMove == Some(m)
      && r.currentPlayer == Other(s.currentPlayer)
      && r.status != Draw
      && (r.status == Won <==> Wins(r.board, row, col, s.currentPlayer))
      && r.winner == (if r.status == Won then Some(s.currentPlayer) else None)
  {
    if !Accepts(s, row, col) then s
    else
      var m := Move(row, col, s.currentPlayer);
      var board := Place(s.board, m);
      var hasWon := Wins(board, row, col, s.currentPlayer);
      GameState(board, Other(s.currentPlayer), if hasWon then Won else Playing,
                if hasWon then Some(s.currentPlayer) else None, s.history + [m], Some(m))
  }

  /** `handleMove` keeps a consistent state consistent. */
  lemma HandleMoveKeepsConsistent(s: GameState, row: int, col: int)
    requires Consistent(s)
    ensures Consistent(HandleMove(s, row, col))
  {
    if Accepts(s, row, col) {
      AcceptedBoard(s, row, col);
      AcceptedStatus(s, row, col);
    }
  }

  /** The board and turn parts of `Consistent` after an accepted move. */
  lemma AcceptedBoard(s: GameState, row: int, col: int)
    requires Consistent(s) && Accepts(s, row, col)
    ensures var r := HandleMove(s, row, col);
      var h := r.history;
      r.board == Replay(h) && OnEmptyCells(h) &&
      (forall i :: 0 <= i < |h| ==> h[i].player == TrainingLoop.MoverAt(i)) &&
      r.currentPlayer == TrainingLoop.MoverAt(|h|)
  {
    var h := s.history;
    var m := Move(row, col, s.currentPlayer);
    ReplayAppends(h, m);
    OnEmptyCellsExtends(h, m);
    TrainingLoop.MoverAlternates(|h|);
  }

  /** The last-move and status parts of `Consistent` after an accepted move. */
  lemma AcceptedStatus(s: GameState, row: int, col: int)
    requires Consistent(s) && Accepts(s, row, col)
    ensures var r := HandleMove(s, row, col);
      var h := r.history;
      r.lastMove == (if h == [] then None else Some(h[|h| - 1])) &&
      r.status != Draw &&
      (r.status == Won <==> TrainingLoop.Won(h)) &&
      r.winner == (if r.status == Won then Some(h[|h| - 1].player) else None)
  {
    var m := Move(row, col, s.currentPlayer);
    ReplayAppends(s.history, m);
  }

  /** Every move lands on an empty cell, so the board holds one stone per
      entry of the history. */
  lemma HistoryCountsStones(s: GameState)
    requires Consistent(s)
    ensures StoneCount(s.board) == |s.history|
  {
    ReplayCountsStones(s.history);
  }

  /** The clicks `ps` applied one after another with `handleMove`. */
  function PlayMoves(s: GameState, ps: seq<Pos>): (r: GameState)
    requires WellFormed(s.board)
    ensures WellFormed(r.board)
    ensures |r.history| <= |s.history| + |ps|
    decreases |ps|
  {
    if ps == [] then s else PlayMoves(HandleMove(s, ps[0].row, ps[0].col), ps[1..])
  }

  /** From the reset state, whatever cells are clicked, the state stays
      consistent and the number of stones equals the length of the history. */
  lemma PlayFromReset(ps: seq<Pos>)
    ensures Consistent(PlayMoves(InitialGameState(), ps))
    ensures StoneCount(PlayMoves(InitialGameState(), ps).board) == |PlayMoves(InitialGameState(), ps).history|
  {
    PlayMovesKeepConsistent(InitialGameState(), ps);
    HistoryCountsStones(PlayMoves(InitialGameState(), ps));
  }

  lemma {:induction false} PlayMovesKeepConsistent(s: GameState, ps: seq<Pos>)
    requires Consistent(s)
    ensures Consistent(PlayMoves(s, ps))
    decreases |ps|
  {
    if ps != [] {
      HandleMoveKeepsConsistent(s, ps[0].row, ps[0].col);
      PlayMovesKeepConsistent(HandleMove(s, ps[0].row, ps[0].col), ps[1..]);
    }
  }

  // ---------------------------------------------------------------------
  // Training statistics
  // ---------------------------------------------------------------------

  datatype LogType = Info | Success | Warning

  datatype TrainingLog = TrainingLog(iteration: nat, timestamp: string, message: string, logType: LogType)

  datatype Checkpoint = Checkpoint(id: string, iteration: nat, winRate: real, gamesPlayed: nat, date: string)

  datatype TrainingState = TrainingState(isRunning: bool, isHeadless: bool, currentIteration: nat,
                                         totalGames: nat, geminiWins: nat, loss: real,
                                         logs: seq<TrainingLog>, checkpoints: seq<Checkpoint>)

  /** The training record the controller starts with: stopped, headless,
      no games, a loss of 1.0, no logs and no checkpoints. */
  function InitialTrainingState(): (st: TrainingState)
    ensures Tallied(st)
    ensures !st.isRunning && st.isHeadless && st.logs == []
    ensures st.currentIteration == 0 && st.totalGames == 0 && st.geminiWins == 0
    ensures st.loss == 1.0 && st.checkpoints == []
  {
    TrainingState(false, true, 0, 0, 0, 1.0, [], [])
  }

  /** The share of games won, as an exact ratio. */
  function WinRate(wins: nat, total: nat): (rate: real)
    requires total > 0
    ensures rate * total as real == wins as real
    ensures wins <= total ==> 0.0 <= rate <= 1.0
  {
    wins as real / total as real
  }

  /** The decimal numeral of `n`, as a template literal writes it. */
  function Decimal(n: nat): (s: string)
    ensures |s| >= 1
    ensures forall i :: 0 <= i < |s| ==> '0' <= s[i] <= '9'
    ensures |s| > 1 ==> s[0] != '0'
  {
    if n < 10 then [GeminiService.Digit(n)] else Decimal(n / 10) + [GeminiService.Digit(n % 10)]
  }

  /** The number a string of digits denotes. */
  function DecimalValue(s: string): int
  {
    if s == [] then 0 else DecimalValue(s[..|s| - 1]) * 10 + (s[|s| - 1] as int - '0' as int)
  }

  lemma {:induction false} DecimalRoundTrip(n: nat)
    ensures DecimalValue(Decimal(n)) == n
  {
    var s := Decimal(n);
    if n < 10 {
      assert s[..0] == [];
    } else {
      assert s[..|s| - 1] == Decimal(n / 10);
      DecimalRoundTrip(n / 10);
    }
  }

  /** The name under which the checkpoint after `n` games is saved. */
  function CheckpointId(n: nat): string
  {
    "model_" + Decimal(n) + ".pth"
  }

  /** Different game counts give different checkpoint names. */
  lemma CheckpointIdsDistinct(a: nat, b: nat)
    ensures CheckpointId(a) == CheckpointId(b) ==> a == b
  {
    if CheckpointId(a) == CheckpointId(b) {
      var s := CheckpointId(a);
      assert s[6..|s| - 4] == Decimal(a);
      assert CheckpointId(b)[6..|s| - 4] == Decimal(b);
      DecimalRoundTrip(a);
      DecimalRoundTrip(b);
    }
  }

  /** What the counters of a training record amount to after any number of
      games: one iteration per game, no more wins than games, the loss is 1
      minus the win rate (1.0 before the first game), and there is one
      checkpoint per 5 games, the `k`-th taken after `5 * (k + 1)` games. */
  predicate Tallied(st: TrainingState)
  {
    st.currentIteration == st.totalGames &&
    st.geminiWins <= st.totalGames &&
    st.loss == (if st.totalGames == 0 then 1.0 else 1.0 - WinRate(st.geminiWins, st.totalGames)) &&
    |st.checkpoints| == st.totalGames / 5 &&
    forall k :: 0 <= k < |st.checkpoints| ==>
      var n := 5 * (k + 1);
      st.checkpoints[k].id == CheckpointId(n) && st.checkpoints[k].iteration == n &&
      st.checkpoints[k].gamesPlayed == n
  }

  /** In a tallied record the loss lies between 0 and 1. */
  lemma LossInRange(st: TrainingState)
    requires Tallied(st)
    ensures 0.0 <= st.loss <= 1.0
  {
    if st.totalGames > 0 {
      var rate := WinRate(st.geminiWins, st.totalGames);
      assert 0.0 <= rate <= 1.0;
    }
  }

  /** The source's `addLog`: the entry, stamped with the iteration and the
      time it is given, is appended and nothing else changes. */
  function AddLog(st: TrainingState, iteration: nat, timestamp: string, message: string, logType: LogType): (r: TrainingState)
    ensures |r.logs| == |st.logs| + 1 && r.logs[..|st.logs|] == st.logs
    ensures r.logs[|st.logs|] == TrainingLog(iteration, timestamp, message, logType)
    ensures r.(logs := st.logs) == st
  {
    st.(logs := st.logs + [TrainingLog(iteration, timestamp, message, logType)])
  }

  /** The reducer applied after a game whose winner is `winner` (none for a
      draw or the cap): one more game and iteration, one more win iff Black
      won, the loss recomputed, and a checkpoint appended iff the new total
      is a multiple of 5; the flags and the logs stay as they were. */
  function RecordGame(st: TrainingState, winner: Option<Player>, date: string): (r: TrainingState)
    ensures r.totalGames == st.totalGames + 1 && r.currentIteration == st.currentIteration + 1
    ensures r.geminiWins == st.geminiWins + (if winner == Some(Black) then 1 else 0)
    ensures r.loss == 1.0 - WinRate(r.geminiWins, r.totalGames)
    ensures |r.checkpoints| == |st.checkpoints| + (if r.totalGames % 5 == 0 then 1 else 0)
    ensures r.checkpoints[..|st.checkpoints|] == st.checkpoints
    ensures r.totalGames % 5 == 0 ==>
      r.checkpoints[|st.checkpoints|] ==
        Checkpoint(CheckpointId(r.totalGames), r.totalGames, WinRate(r.geminiWins, r.totalGames), r.totalGames, date)
    ensures r.isRunning == st.isRunning && r.isHeadless == st.isHeadless && r.logs == st.logs
  {
    var newTotal := st.totalGames + 1;
    var newWins := st.geminiWins + if winner == Some(Black) then 1 else 0;
    var newWinRate := WinRate(newWins, newTotal);
    var newCheckpoints :=
      if newTotal % 5 == 0 then st.checkpoints + [Checkpoint(CheckpointId(newTotal), newTotal, newWinRate, newTotal, date)]
      else st.checkpoints;
    st.(currentIteration := st.currentIteration + 1, totalGames := newTotal, geminiWins := newWins,
        loss := 1.0 - newWinRate, checkpoints := newCheckpoints)
  }

  /** Recording a game keeps the record tallied. */
  lemma RecordGameKeepsTallied(st: TrainingState, winner: Option<Player>, date: string)
    requires Tallied(st)
    ensures Tallied(RecordGame(st, winner, date))
  {
    var r := RecordGame(st, winner, date);
    assert r.totalGames / 5 == st.totalGames / 5 + (if r.totalGames % 5 == 0 then 1 else 0);
  }

  /** Logging keeps the record tallied. */
  lemma AddLogKeepsTallied(st: TrainingState, iteration: nat, timestamp: string, message: string, logType: LogType)
    requires Tallied(st)
    ensures Tallied(AddLog(st, iteration, timestamp, message, logType))
  {
  }

  /** The number of games in `winners` that Black won. */
  function BlackWins(winners: seq<Option<Player>>): (n: nat)
    ensures n <= |winners|
  {
    if winners == [] then 0
    else BlackWins(winners[..|winners| - 1]) + if winners[|winners| - 1] == Some(Black) then 1 else 0
  }

  /** The record after the games with winners `winners`, recorded in order
      from `st` (every checkpoint dated `date`). */
  function Session(st: TrainingState, winners: seq<Option<Player>>, date: string): (r: TrainingState)
    ensures r.logs == st.logs
  {
    if winners == [] then st
    else RecordGame(Session(st, winners[..|winners| - 1], date), winners[|winners| - 1], date)
  }

  /** From the initial record, after `G` games the counters hold `G` games
      and iterations, the wins are the games Black won, there are `G / 5`
      checkpoints, the record is tallied, and the `k`-th checkpoint carries
      Black's win rate over the first `5 * (k + 1)` games. */
  lemma {:induction false} SessionTally(winners: seq<Option<Player>>, date: string)
    ensures var r := Session(InitialTrainingState(), winners, date);
      Tallied(r) && r.totalGames == |winners| && r.geminiWins == BlackWins(winners) &&
      |r.checkpoints| == |winners| / 5
    ensures var r := Session(InitialTrainingState(), winners, date);
      forall k :: 0 <= k < |r.checkpoints| ==>
        r.checkpoints[k].winRate == WinRate(BlackWins(winners[..5 * (k + 1)]), 5 * (k + 1))
  {
    if winners != [] {
      var pre := winners[..|winners| - 1];
      var s := Session(InitialTrainingState(), pre, date);
      var r := Session(InitialTrainingState(), winners, date);
      SessionTally(pre, date);
      RecordGameKeepsTallied(s, winners[|winners| - 1], date);
      assert r == RecordGame(s, winners[|winners| - 1], date);
      forall k | 0 <= k < |r.checkpoints|
        ensures r.checkpoints[k].winRate == WinRate(BlackWins(winners[..5 * (k + 1)]), 5 * (k + 1))
      {
        if k < |s.checkpoints| {
          assert r.checkpoints[k] == s.checkpoints[k];
          assert winners[..5 * (k + 1)] == pre[..5 * (k + 1)];
        } else {
          assert winners[..5 * (k + 1)] == winners;
        }
      }
    }
  }
}
