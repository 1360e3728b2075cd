/** The headless benchmark game: the oracle plays Black, a local bot plays
    White, on a fresh board, until a win, a full board, a failure of the
    oracle or the ply cap. The oracle and the random draws are parameters. */
module TrainingLoop {
  import opened Types
  import opened GameRules
  import opened Bots

  /** Safety cap on the number of plies in one game. */
  const MaxMoves: int := 225

  /** What awaiting the oracle yields at one ply: it throws, or it answers a
      coordinate pair that nothing validates. */
  datatype OracleReply = Threw | Reply(row: int, col: int)

  /** The game's resolution: a winner (none for a draw or the cap) and the
      number of plies played, or a rejected promise when the oracle's row
      is off the grid and the write `board[row][col]` throws. */
  datatype GameResult = Finished(winner: Option<Player>, moves: nat) | Rejected(moves: nat)

  /** Black moves at even plies, White at odd ones. */
  function MoverAt(i: int): (p: Player)
    ensures p != Empty
    ensures (p == Black) == (i % 2 == 0)
  {
    if i % 2 == 0 then Black else White
  }

  lemma MoverAlternates(i: int)
    ensures MoverAt(i + 1) == Other(MoverAt(i))
  {
  }

  /** Every draw of `Math.random` lies in [0, 1). */
  ghost predicate Draws(random: nat -> real)
  {
    forall k: nat :: 0.0 <= random(k) < 1.0
  }

  /** White's choice: the random bot for `Random`, the greedy bot for any
      other opponent type. */
  function BotMove(opponent: BotType, b: Board, u: real): Option<Pos>
    requires WellFormed(b) && 0.0 <= u < 1.0
  {
    if opponent == Random then RandomPick(b, u) else Bots.Greedy(b, White, u)
  }

  /** `m` is what the side to move after the plies `pre` plays: the oracle's
      answer for Black, whose row must lie on the grid for the write to
      succeed; the bot's choice with the ply's draw for White. */
  predicate ValidPly(opponent: BotType, oracle: (nat, Board) -> OracleReply, random: nat -> real, pre: seq<Move>, m: Move)
    requires Draws(random)
  {
    var b := Replay(pre);
    m.player == MoverAt(|pre|) &&
    if m.player == Black then
      oracle(|pre|, b) == Reply(m.row, m.col) && 0 <= m.row < BoardSize
    else
      BotMove(opponent, b, random(|pre|)) == Some(Pos(m.row, m.col))
  }

  /** Every ply of `t` is the valid one after the plies before it. */
  predicate Played(opponent: BotType, oracle: (nat, Board) -> OracleReply, random: nat -> real, t: seq<Move>)
    requires Draws(random)
  {
    forall i {:trigger ValidPly(opponent, oracle, random, t[..i], t[i])} ::
      0 <= i < |t| ==> ValidPly(opponent, oracle, random, t[..i], t[i])
  }

  /** The last ply of `t` completes five in a row for its player. */
  predicate Won(t: seq<Move>)
  {
    t != [] && Wins(Replay(t), t[|t| - 1].row, t[|t| - 1].col, t[|t| - 1].player)
  }

  /** After the plies `t` the game goes on: no win and a free cell left. */
  predicate Undecided(t: seq<Move>)
  {
    t == [] || (!Won(t) && !Full(Replay(t)))
  }

  /** No ply of `t` before its last ended the game. */
  predicate Ongoing(t: seq<Move>)
  {
    forall k {:trigger Undecided(t[..k])} :: 0 <= k < |t| ==> Undecided(t[..k])
  }

  /** Why the game stopped after the plies `t` with result `res`:
      - a win by the last mover;
      - a throw of the oracle on Black's turn, scored as a win for White;
      - an off-grid row from the oracle, which rejects the whole game;
      - a full board or the ply cap, with no winner. */
  predicate Ends(oracle: (nat, Board) -> OracleReply, t: seq<Move>, res: GameResult)
  {
    var n := |t|;
    var b := Replay(t);
    res.moves == n && n <= MaxMoves &&
    match res
    case Rejected(_) =>
      n < MaxMoves && MoverAt(n) == Black && Undecided(t) &&
      oracle(n, b).Reply? && !(0 <= oracle(n, b).row < BoardSize)
    case Finished(None, _) =>
      t != [] && !Won(t) && (Full(b) || n == MaxMoves)
    case Finished(Some(w), _) =>
      (Won(t) && w == t[n - 1].player) ||
      (w == White && n < MaxMoves && MoverAt(n) == Black && Undecided(t) && oracle(n, b) == Threw)
  }

  /** The source's `runHeadlessGame`. The board is a local that only this
      loop writes, so it is kept as a value and reassigned at each write. */
  method RunHeadlessGame(opponent: BotType, oracle: (nat, Board) -> OracleReply, random: nat -> real)
    returns (res: GameResult, ghost trace: seq<Move>)
    requires Draws(random)
    ensures Played(opponent, oracle, random, trace)
    ensures Ongoing(trace)
    ensures Ends(oracle, trace, res)
    ensures res.moves <= MaxMoves
    ensures res.Finished? && res.winner.Some? ==> res.winner.value != Empty
    ensures res.Rejected? ==> res.moves % 2 == 0
  {
    var board := EmptyBoard();
    var currentPlayer := Black;
    var status := Playing;
    var movesCount := 0;
    trace := [];
    while status == Playing && movesCount < MaxMoves
      invariant status == Playing
      invariant movesCount == |trace| <= MaxMoves
      invariant board == Replay(trace)
      invariant currentPlayer == MoverAt(movesCount)
      invariant Played(opponent, oracle, random, trace)
      invariant Ongoing(trace) && Undecided(trace)
      decreases MaxMoves - movesCount
    {
      var threw, move := DetermineMove(opponent, oracle, random, board, currentPlayer, movesCount);
      if threw {
        res := Finished(Some(White), movesCount);
        EndsOnFailure(oracle, trace, res);
        return;
      }
      if move.None? {
        status := Draw;
        break;
      }

      var row, col := move.value.row, move.value.col;
      if !(0 <= row < BoardSize) {
        res := Rejected(movesCount);
        EndsOnFailure(oracle, trace, res);
        return;
      }
      var m := Move(row, col, currentPlayer);
      PlayedExtends(opponent, oracle, random, trace, m);
      MoverAlternates(movesCount);
      var won, draw;
      board, won, draw := ApplyMove(board, m, trace);
      trace := trace + [m];
      movesCount := movesCount + 1;

      if won {
        res := Finished(Some(currentPlayer), movesCount);
        EndsOnBoard(oracle, trace, res);
        return;
      } else if draw {
        res := Finished(None, movesCount);
        EndsOnBoard(oracle, trace, res);
        return;
      }
      currentPlayer := Other(currentPlayer);
    }
    res := Finished(None, movesCount);
    EndsOnBoard(oracle, trace, res);
  }

  /** Steps 2 and 3 of a ply: the stone is written, then the board is
      judged, for a draw only when the ply did not win. */
  method ApplyMove(board: Board, m: Move, ghost t: seq<Move>) returns (board': Board, won: bool, draw: bool)
    requires board == Replay(t)
    ensures board' == Place(board, m) == Replay(t + [m])
    ensures won == Wins(board', m.row, m.col, m.player)
    ensures won <==> Won(t + [m])
    ensures !won ==> (draw <==> Full(board'))
  {
    board' := Place(board, m);
    assert (t + [m])[..|t|] == t;
    won := CheckWin(board', m.row, m.col, m.player);
    draw := false;
    if !won {
      draw := CheckDraw(board');
    }
  }

  /** The two exits of a ply at which the oracle fails. */
  lemma EndsOnFailure(oracle: (nat, Board) -> OracleReply, t: seq<Move>, res: GameResult)
    requires |t| < MaxMoves && MoverAt(|t|) == Black && Undecided(t) && res.moves == |t|
    requires res.Rejected? ==> oracle(|t|, Replay(t)).Reply? && !(0 <= oracle(|t|, Replay(t)).row < BoardSize)
    requires res.Finished? ==> res.winner == Some(White) && oracle(|t|, Replay(t)) == Threw
    ensures Ends(oracle, t, res)
  {
  }

  /** The exits on a decided board or at the ply cap. */
  lemma EndsOnBoard(oracle: (nat, Board) -> OracleReply, t: seq<Move>, res: GameResult)
    requires t != [] && |t| <= MaxMoves && res.Finished? && res.moves == |t|
    requires res.winner.Some? ==> Won(t) && res.winner.value == t[|t| - 1].player
    requires res.winner.None? ==> !Won(t) && (Full(Replay(t)) || |t| == MaxMoves)
    ensures Ends(oracle, t, res)
  {
  }

  /** Step 1 of a ply: Black awaits the oracle, whose throw is caught and
      reported in `threw`; White asks the bot of the opponent type. */
  method DetermineMove(opponent: BotType, oracle: (nat, Board) -> OracleReply, random: nat -> real,
                       board: Board, currentPlayer: Player, movesCount: nat)
    returns (threw: bool, move: Option<Pos>)
    requires Draws(random) && WellFormed(board) && currentPlayer != Empty
    ensures threw <==> currentPlayer == Black && oracle(movesCount, board) == Threw
    ensures currentPlayer == Black && !threw ==>
      move == Some(Pos(oracle(movesCount, board).row, oracle(movesCount, board).col))
    ensures currentPlayer != Black ==> move == BotMove(opponent, board, random(movesCount))
    ensures currentPlayer != Black ==> (move.None? <==> Full(board))
    ensures currentPlayer != Black && move.Some? ==> IsEmptyCell(board, move.value)
  {
    threw := false;
    if currentPlayer == Black {
      var reply := oracle(movesCount, board);
      if reply.Threw? {
        return true, None;
      }
      move := Some(Pos(reply.row, reply.col));
    } else if opponent == Random {
      move := GetRandomMove(board, random(movesCount));
    } else {
      move := GetGreedyMove(board, currentPlayer, random(movesCount));
    }
  }

  /** Appending a valid ply to an undecided game keeps `Played` and
      `Ongoing`, and the new board is the old one with that ply placed. */
  lemma PlayedExtends(opponent: BotType, oracle: (nat, Board) -> OracleReply, random: nat -> real, t: seq<Move>, m: Move)
    requires Draws(random)
    requires Played(opponent, oracle, random, t) && Ongoing(t) && Undecided(t)
    requires ValidPly(opponent, oracle, random, t, m)
    ensures Played(opponent, oracle, random, t + [m])
    ensures Ongoing(t + [m])
    ensures Replay(t + [m]) == Place(Replay(t), m)
  {
    var t' := t + [m];
    assert t'[..|t|] == t;
    forall i | 0 <= i < |t'|
      ensures ValidPly(opponent, oracle, random, t'[..i], t'[i])
    {
      if i < |t| {
        assert t'[..i] == t[..i];
      }
    }
    forall k | 0 <= k < |t'|
      ensures Undecided(t'[..k])
    {
      if k < |t| {
        assert t'[..k] == t[..k];
      }
    }
    assert t'[..|t'| - 1] == t;
  }

  // ---------------------------------------------------------------------
  // Properties of played games
  // ---------------------------------------------------------------------

  /** White's plies always land on an empty cell: both bots only choose
      among the empty cells. */
  lemma WhitePliesOnEmptyCells(opponent: BotType, oracle: (nat, Board) -> OracleReply, random: nat -> real, t: seq<Move>, i: int)
    requires Draws(random) && Played(opponent, oracle, random, t)
    requires 0 <= i < |t| && i % 2 == 1
    ensures t[i].player == White
    ensures IsEmptyCell(Replay(t[..i]), Pos(t[i].row, t[i].col))
  {
    assert ValidPly(opponent, oracle, random, t[..i], t[i]);
    var b := Replay(t[..i]);
    var u := random(i);
    if opponent == Random {
      EmptyCellsFacts(b);
      var moves := EmptyCells(b);
      assert RandomPick(b, u) == Some(moves[RandomIndex(u, |moves|)]);
      assert moves[RandomIndex(u, |moves|)] in moves;
    } else {
      GreedyPicksEmptyCell(b, White, u);
    }
  }

  /** When the oracle, too, only answers empty grid cells, every ply adds a
      stone: the board holds exactly as many stones as plies were played. */
  lemma StonesMatchPlies(opponent: BotType, oracle: (nat, Board) -> OracleReply, random: nat -> real, t: seq<Move>)
    requires Draws(random) && Played(opponent, oracle, random, t)
    requires forall i :: 0 <= i < |t| && i % 2 == 0 ==> IsEmptyCell(Replay(t[..i]), Pos(t[i].row, t[i].col))
    ensures StoneCount(Replay(t)) == |t|
  {
    forall i | 0 <= i < |t|
      ensures t[i].player != Empty && IsEmptyCell(Replay(t[..i]), Pos(t[i].row, t[i].col))
    {
      assert ValidPly(opponent, oracle, random, t[..i], t[i]);
      if i % 2 == 1 {
        WhitePliesOnEmptyCells(opponent, oracle, random, t, i);
      }
    }
    ReplayCountsStones(t);
  }

  /** Two played games with the same oracle and draws agree ply by ply. */
  lemma {:induction false} PlayedPrefixesAgree(opponent: BotType, oracle: (nat, Board) -> OracleReply, random: nat -> real,
                                               t1: seq<Move>, t2: seq<Move>, k: nat)
    requires Draws(random)
    requires Played(opponent, oracle, random, t1) && Played(opponent, oracle, random, t2)
    requires k <= |t1| && k <= |t2|
    ensures t1[..k] == t2[..k]
  {
    if k > 0 {
      PlayedPrefixesAgree(opponent, oracle, random, t1, t2, k - 1);
      var pre := t1[..k - 1];
      assert ValidPly(opponent, oracle, random, t1[..k - 1], t1[k - 1]);
      assert ValidPly(opponent, oracle, random, t2[..k - 1], t2[k - 1]);
      assert t1[k - 1] == t2[k - 1];
      assert t1[..k] == pre + [t1[k - 1]];
      assert t2[..k] == t2[..k - 1] + [t2[k - 1]];
    }
  }

  /** A game that has ended has no further valid ply: no played, ongoing
      game within the cap goes on past it. */
  lemma EndIsFinal(opponent: BotType, oracle: (nat, Board) -> OracleReply, random: nat -> real,
                   t: seq<Move>, res: GameResult, t2: seq<Move>)
    requires Draws(random) && Ends(oracle, t, res)
    requires Played(opponent, oracle, random, t2) && Ongoing(t2) && |t2| <= MaxMoves
    requires |t| <= |t2| && t2[..|t|] == t
    ensures |t2| == |t|
  {
    if |t| < |t2| {
      // `t2` holds a valid ply after `t` although the game had ended there
      PlyAt(opponent, oracle, random, t2, |t|);
    }
  }

  /** What a played, ongoing game states about its ply at index `n`. */
  lemma PlyAt(opponent: BotType, oracle: (nat, Board) -> OracleReply, random: nat -> real, t: seq<Move>, n: int)
    requires Draws(random) && Played(opponent, oracle, random, t) && Ongoing(t) && 0 <= n < |t|
    ensures Undecided(t[..n]) && ValidPly(opponent, oracle, random, t[..n], t[n])
  {
  }

  /** The contract of `RunHeadlessGame` leaves no freedom: for a given
      opponent, oracle and draws there is one game and one result. */
  lemma OutcomeIsDetermined(opponent: BotType, oracle: (nat, Board) -> OracleReply, random: nat -> real,
                            t1: seq<Move>, r1: GameResult, t2: seq<Move>, r2: GameResult)
    requires Draws(random)
    requires Played(opponent, oracle, random, t1) && Ongoing(t1) && Ends(oracle, t1, r1)
    requires Played(opponent, oracle, random, t2) && Ongoing(t2) && Ends(oracle, t2, r2)
    ensures t1 == t2 && r1 == r2
  {
    if |t1| <= |t2| {
      PlayedPrefixesAgree(opponent, oracle, random, t1, t2, |t1|);
      assert t1[..|t1|] == t1;
      EndIsFinal(opponent, oracle, random, t1, r1, t2);
    } else {
      PlayedPrefixesAgree(opponent, oracle, random, t1, t2, |t2|);
      assert t2[..|t2|] == t2;
      EndIsFinal(opponent, oracle, random, t2, r2, t1);
    }
    assert t1 == t1[..|t1|] == t2[..|t2|] == t2;
  }
}
