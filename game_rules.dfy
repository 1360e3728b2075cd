/** Board rules: the empty board, the five-in-a-row test around a placed
    stone, the row-major list of empty cells and the full-board draw test. */
module GameRules {
  import opened Types

  /** A fresh board: 15 rows of 15 empty cells. */
  function EmptyBoard(): (b: Board)
    ensures WellFormed(b)
    ensures forall r, c :: InBounds(r, c) ==> b[r][c] == Empty
  {
    seq(BoardSize, _ => seq(BoardSize, _ => Empty))
  }

  // ---------------------------------------------------------------------
  // Runs of stones along a direction
  // ---------------------------------------------------------------------

  /** The four axes, as (row step, column step): horizontal, vertical,
      diagonal down-right and diagonal down-left. */
  const Directions: seq<(int, int)> := [(0, 1), (1, 0), (1, 1), (1, -1)]

  /** `d * j` for a step component `d` in {-1, 0, 1}, written without a
      product of two variables. */
  function Scale(d: int, j: int): int
  {
    if d == 0 then 0 else if d > 0 then j else -j
  }

  /** The cell `(r, c)` holds `p` and lies on the board. Off-board cells
      never match, so nothing outside [0,15)^2 is ever read. */
  predicate Matches(b: Board, r: int, c: int, p: Player)
    requires WellFormed(b)
  {
    InBounds(r, c) && b[r][c] == p
  }

  /** The cell `j` steps from `(r, c)` along `dir` (negative `j` walks the
      opposite way) holds `p`. */
  predicate StoneAt(b: Board, r: int, c: int, dir: (int, int), j: int, p: Player)
    requires WellFormed(b)
  {
    Matches(b, r + Scale(dir.0, j), c + Scale(dir.1, j), p)
  }

  lemma ScaleIsProduct(d: int, j: int)
    requires -1 <= d <= 1
    ensures d * j == Scale(d, j)
    ensures -(d * j) == Scale(d, -j)
  {
  }

  function Signed(back: bool, i: int): int
  {
    if back then -i else i
  }


  /** How many consecutive `p` stones follow `(r, c)` along `dir` (or
      against it when `back`), looking at steps `i` up to 4 only: the count
      stops at the first off-board or non-`p` cell and never exceeds 4. */
  function Run(b: Board, r: int, c: int, dir: (int, int), p: Player, back: bool, i: int): (n: nat)
    requires WellFormed(b)
    requires 1 <= i <= WinStreak
    ensures n <= WinStreak - i
    decreases WinStreak - i
  {
    if i == WinStreak || !StoneAt(b, r, c, dir, Signed(back, i), p) then 0
    else 1 + Run(b, r, c, dir, p, back, i + 1)
  }

  /** The line length a stone of `p` at `(r, c)` would have along `dir`:
      itself plus the run forward plus the run backward. */
  function Line(b: Board, r: int, c: int, p: Player, dir: (int, int)): nat
    requires WellFormed(b)
  {
    1 + Run(b, r, c, dir, p, false, 1) + Run(b, r, c, dir, p, true, 1)
  }

  /** Some axis gives a line of at least `target` through `(r, c)`. */
  predicate PotentialLine(b: Board, r: int, c: int, p: Player, target: int)
    requires WellFormed(b)
  {
    exists k :: 0 <= k < |Directions| && Line(b, r, c, p, Directions[k]) >= target
  }

  /** A stone of `p` at `(r, c)` makes five in a row. */
  predicate Wins(b: Board, r: int, c: int, p: Player)
    requires WellFormed(b)
  {
    PotentialLine(b, r, c, p, WinStreak)
  }

  /** The run from step `i` reaches `k` stones exactly when the `k` cells
      from step `i` on all hold `p`. */
  lemma {:induction false} RunCovers(b: Board, r: int, c: int, dir: (int, int), p: Player, back: bool, i: int, k: int)
    requires WellFormed(b)
    requires 1 <= i <= WinStreak && 0 <= k && i + k <= WinStreak
    ensures Run(b, r, c, dir, p, back, i) >= k <==>
            forall m :: i <= m < i + k ==> StoneAt(b, r, c, dir, Signed(back, m), p)
    decreases k
  {
    if k > 0 {
      RunCovers(b, r, c, dir, p, back, i + 1, k - 1);
    }
  }

  /** Five cells along `dir` covering steps `s .. s+4`, all holding `p`
      except possibly the centre (step 0). */
  predicate Window(b: Board, r: int, c: int, dir: (int, int), p: Player, s: int)
    requires WellFormed(b)
  {
    forall j :: s <= j <= s + 4 && j != 0 ==> StoneAt(b, r, c, dir, j, p)
  }

  /** The counting test agrees with the direct definition of a win: a line
      of five or more through `(r, c)` along `dir` exists iff some window of
      five consecutive cells containing `(r, c)` is all `p` apart from
      `(r, c)` itself. */
  lemma LineFiveIffWindow(b: Board, r: int, c: int, p: Player, dir: (int, int))
    requires WellFormed(b)
    ensures Line(b, r, c, p, dir) >= WinStreak <==>
            exists s :: -4 <= s <= 0 && Window(b, r, c, dir, p, s)
  {
    var f: int := Run(b, r, c, dir, p, false, 1);
    var g: int := Run(b, r, c, dir, p, true, 1);
    if Line(b, r, c, p, dir) >= WinStreak {
      RunCovers(b, r, c, dir, p, true, 1, g);
      RunCovers(b, r, c, dir, p, false, 1, 4 - g);
      var s: int := -g;
      forall j | s <= j <= s + 4 && j != 0
        ensures StoneAt(b, r, c, dir, j, p)
      {
        if j < 0 {
          assert Signed(true, -j) == j;
        } else {
          assert Signed(false, j) == j;
        }
      }
      assert Window(b, r, c, dir, p, s);
    }
    if s :| -4 <= s <= 0 && Window(b, r, c, dir, p, s) {
      RunCovers(b, r, c, dir, p, true, 1, -s);
      RunCovers(b, r, c, dir, p, false, 1, s + 4);
      forall m | 1 <= m < 1 - s
        ensures StoneAt(b, r, c, dir, Signed(true, m), p)
      {
        assert Signed(true, m) == -m;
      }
      forall m | 1 <= m < s + 5
        ensures StoneAt(b, r, c, dir, Signed(false, m), p)
      {
        assert Signed(false, m) == m;
      }
    }
  }

  /** `Wins` holds iff one of the four axes has a window of five cells
      through `(r, c)` that are all `p`, the centre aside. */
  lemma WinsIffFiveInARow(b: Board, r: int, c: int, p: Player)
    requires WellFormed(b)
    ensures Wins(b, r, c, p) <==>
            exists k, s :: 0 <= k < |Directions| && -4 <= s <= 0 && Window(b, r, c, Directions[k], p, s)
  {
    forall k | 0 <= k < |Directions|
      ensures Line(b, r, c, p, Directions[k]) >= WinStreak <==>
              exists s :: -4 <= s <= 0 && Window(b, r, c, Directions[k], p, s)
    {
      LineFiveIffWindow(b, r, c, p, Directions[k]);
    }
  }

  /** Boards `b` and `b'` hold the same stones everywhere except possibly
      at `(r, c)`. */
  ghost predicate AgreeOffCentre(b: Board, b': Board, r: int, c: int)
    requires WellFormed(b) && WellFormed(b')
  {
    forall y, z :: InBounds(y, z) && (y != r || z != c) ==> b'[y][z] == b[y][z]
  }

  /** A cell a non-zero number of steps away from `(r, c)` is not `(r, c)`. */
  lemma StoneAtOffCentre(b: Board, b': Board, r: int, c: int, dir: (int, int), p: Player, j: int)
    requires WellFormed(b) && WellFormed(b') && AgreeOffCentre(b, b', r, c)
    requires -1 <= dir.0 <= 1 && -1 <= dir.1 <= 1 && dir != (0, 0) && j != 0
    ensures StoneAt(b', r, c, dir, j, p) == StoneAt(b, r, c, dir, j, p)
  {
    var y, z := r + Scale(dir.0, j), c + Scale(dir.1, j);
    assert y != r || z != c;
  }

  /** The run never looks at `(r, c)` itself: two boards that differ at
      most there give the same run. */
  lemma {:induction false} RunIgnoresCentre(b: Board, b': Board, r: int, c: int, dir: (int, int), p: Player, back: bool, i: int)
    requires WellFormed(b) && WellFormed(b') && AgreeOffCentre(b, b', r, c)
    requires -1 <= dir.0 <= 1 && -1 <= dir.1 <= 1 && dir != (0, 0)
    requires 1 <= i <= WinStreak
    ensures Run(b', r, c, dir, p, back, i) == Run(b, r, c, dir, p, back, i)
    decreases WinStreak - i
  {
    if i < WinStreak {
      StoneAtOffCentre(b, b', r, c, dir, p, Signed(back, i));
      RunIgnoresCentre(b, b', r, c, dir, p, back, i + 1);
    }
  }

  /** Whatever `(r, c)` holds, the win test from `(r, c)` gives the same
      answer: it only reads the neighbours. */
  lemma WinsIgnoresCentre(b: Board, r: int, c: int, p: Player, x: Player)
    requires WellFormed(b) && InBounds(r, c)
    ensures Wins(b[r := b[r][c := x]], r, c, p) == Wins(b, r, c, p)
  {
    var b' := b[r := b[r][c := x]];
    assert AgreeOffCentre(b, b', r, c);
    forall k | 0 <= k < |Directions|
      ensures Line(b', r, c, p, Directions[k]) == Line(b, r, c, p, Directions[k])
    {
      RunIgnoresCentre(b, b', r, c, Directions[k], p, false, 1);
      RunIgnoresCentre(b, b', r, c, Directions[k], p, true, 1);
    }
  }

  /** The cell `i` steps from `(r, c)` along `dir` (against it when
      `back`), computed with products as the source does. */
  method Probe(r: int, c: int, dir: (int, int), back: bool, i: int) returns (nr: int, nc: int)
    requires -1 <= dir.0 <= 1 && -1 <= dir.1 <= 1
    ensures nr == r + Scale(dir.0, Signed(back, i)) && nc == c + Scale(dir.1, Signed(back, i))
  {
    var (dr, dc) := dir;
    if back {
      nr, nc := r - dr * i, c - dc * i;
    } else {
      nr, nc := r + dr * i, c + dc * i;
    }
    ScaleIsProduct(dr, i);
    ScaleIsProduct(dc, i);
  }

  /** One of the inner loops of `checkWin`: walks from `(r, c)` along
      `dir` (against it when `back`) for steps 1 to 4, stopping at the first
      off-board cell or cell not holding `player`, and counts the stones. */
  method CountRun(b: Board, r: int, c: int, player: Player, dir: (int, int), back: bool) returns (n: int)
    requires WellFormed(b)
    requires -1 <= dir.0 <= 1 && -1 <= dir.1 <= 1
    ensures n == Run(b, r, c, dir, player, back, 1)
  {
    n := 0;
    var i := 1;
    while i < WinStreak
      invariant 1 <= i <= WinStreak
      invariant n == i - 1
      invariant Run(b, r, c, dir, player, back, 1) == n + Run(b, r, c, dir, player, back, i)
    {
      var nr, nc := Probe(r, c, dir, back, i);
      if !Matches(b, nr, nc, player) {
        break;
      }
      n := n + 1;
      i := i + 1;
    }
  }

  /** The source's `checkWin`: for each axis, starts from the placed stone
      and adds the stones counted forward and backward. */
  method CheckWin(b: Board, r: int, c: int, player: Player) returns (won: bool)
    requires WellFormed(b)
    ensures won == Wins(b, r, c, player)
  {
    for k := 0 to |Directions|
      invariant forall k' :: 0 <= k' < k ==> Line(b, r, c, player, Directions[k']) < WinStreak
    {
      var count := 1;
      var forward := CountRun(b, r, c, player, Directions[k], false);
      count := count + forward;
      var backward := CountRun(b, r, c, player, Directions[k], true);
      count := count + backward;
      if count >= WinStreak {
        return true;
      }
    }
    return false;
  }

  // ---------------------------------------------------------------------
  // Empty cells in row-major order
  // ---------------------------------------------------------------------

  /** Row-major position of a cell. */
  function Index(q: Pos): int
  {
    q.row * BoardSize + q.col
  }

  /** Strictly increasing row-major positions: row-major order, no cell twice. */
  predicate RowMajor(s: seq<Pos>)
  {
    forall i, j :: 0 <= i < j < |s| ==> Index(s[i]) < Index(s[j])
  }

  predicate IsEmptyCell(b: Board, q: Pos)
    requires WellFormed(b)
  {
    InBounds(q.row, q.col) && b[q.row][q.col] == Empty
  }

  /** The empty cells among the first `n` cells of row `r`, left to right. */
  function EmptyInRow(b: Board, r: int, n: int): seq<Pos>
    requires WellFormed(b) && 0 <= r < BoardSize && 0 <= n <= BoardSize
  {
    if n == 0 then []
    else EmptyInRow(b, r, n - 1) + (if b[r][n - 1] == Empty then [Pos(r, n - 1)] else [])
  }

  /** The empty cells of the first `m` rows, in row-major order. */
  function EmptyInRows(b: Board, m: int): seq<Pos>
    requires WellFormed(b) && 0 <= m <= BoardSize
  {
    if m == 0 then [] else EmptyInRows(b, m - 1) + EmptyInRow(b, m - 1, BoardSize)
  }

  /** All empty cells of the board in row-major order. */
  function EmptyCells(b: Board): seq<Pos>
    requires WellFormed(b)
  {
    EmptyInRows(b, BoardSize)
  }

  lemma {:induction false} EmptyInRowFacts(b: Board, r: int, n: int)
    requires WellFormed(b) && 0 <= r < BoardSize && 0 <= n <= BoardSize
    ensures forall q :: q in EmptyInRow(b, r, n) <==> q.row == r && 0 <= q.col < n && IsEmptyCell(b, q)
    ensures RowMajor(EmptyInRow(b, r, n))
  {
    if n > 0 {
      EmptyInRowFacts(b, r, n - 1);
    }
  }

  lemma {:induction false} EmptyInRowsFacts(b: Board, m: int)
    requires WellFormed(b) && 0 <= m <= BoardSize
    ensures forall q :: q in EmptyInRows(b, m) <==> 0 <= q.row < m && IsEmptyCell(b, q)
    ensures RowMajor(EmptyInRows(b, m))
  {
    if m > 0 {
      EmptyInRowsFacts(b, m - 1);
      EmptyInRowFacts(b, m - 1, BoardSize);
      var s, t := EmptyInRows(b, m - 1), EmptyInRow(b, m - 1, BoardSize);
      forall i, j | 0 <= i < j < |s + t|
        ensures Index((s + t)[i]) < Index((s + t)[j])
      {
        if j >= |s| && i < |s| {
          assert s[i] in s && t[j - |s|] in t;
        }
      }
    }
  }

  /** The empty-cell list holds exactly the empty cells, each once, in
      row-major order. */
  lemma EmptyCellsFacts(b: Board)
    requires WellFormed(b)
    ensures forall q :: q in EmptyCells(b) <==> IsEmptyCell(b, q)
    ensures RowMajor(EmptyCells(b))
  {
    EmptyInRowsFacts(b, BoardSize);
  }

  /** The source's `getValidMoves` (utils/gameRules.ts): a double loop
      pushing every empty cell. */
  method GetValidMoves(b: Board) returns (moves: seq<Pos>)
    requires WellFormed(b)
    ensures moves == EmptyCells(b)
    ensures forall q :: q in moves <==> IsEmptyCell(b, q)
    ensures RowMajor(moves)
  {
    moves := [];
    for r := 0 to BoardSize
      invariant moves == EmptyInRows(b, r)
    {
      for c := 0 to BoardSize
        invariant moves == EmptyInRows(b, r) + EmptyInRow(b, r, c)
      {
        if b[r][c] == Empty {
          moves := moves + [Pos(r, c)];
        }
      }
    }
    EmptyCellsFacts(b);
  }

  // ---------------------------------------------------------------------
  // Draw
  // ---------------------------------------------------------------------

  /** No cell of the board is empty. */
  predicate Full(b: Board)
    requires WellFormed(b)
  {
    forall r, c :: 0 <= r < BoardSize && 0 <= c < BoardSize ==> b[r][c] != Empty
  }

  lemma FullIffNoEmptyCells(b: Board)
    requires WellFormed(b)
    ensures Full(b) <==> EmptyCells(b) == []
  {
    EmptyCellsFacts(b);
    if !Full(b) {
      var r, c :| InBounds(r, c) && b[r][c] == Empty;
      assert Pos(r, c) in EmptyCells(b);
    }
    if EmptyCells(b) != [] {
      assert EmptyCells(b)[0] in EmptyCells(b);
    }
  }

  /** The source's `checkDraw`: the board is drawn when the empty-cell
      list is empty. */
  method CheckDraw(b: Board) returns (draw: bool)
    requires WellFormed(b)
    ensures draw <==> Full(b)
    ensures draw <==> EmptyCells(b) == []
  {
    var moves := GetValidMoves(b);
    draw := |moves| == 0;
    FullIffNoEmptyCells(b);
  }

  // ---------------------------------------------------------------------
  // Stone count
  // ---------------------------------------------------------------------

  /** Non-empty cells among the first `n` cells of `row`. */
  function StonesInRow(row: seq<Player>, n: int): nat
    requires 0 <= n <= |row|
  {
    if n == 0 then 0 else StonesInRow(row, n - 1) + (if row[n - 1] != Empty then 1 else 0)
  }

  function StonesInRows(b: Board, m: int): nat
    requires WellFormed(b) && 0 <= m <= BoardSize
  {
    if m == 0 then 0 else StonesInRows(b, m - 1) + StonesInRow(b[m - 1], BoardSize)
  }

  /** The number of non-empty cells on the board. */
  function StoneCount(b: Board): nat
    requires WellFormed(b)
  {
    StonesInRows(b, BoardSize)
  }

  lemma {:induction false} StonesInRowUpdate(row: seq<Player>, c: int, x: Player, n: int)
    requires 0 <= c < |row| && 0 <= n <= |row|
    requires row[c] == Empty && x != Empty
    ensures StonesInRow(row[c := x], n) == StonesInRow(row, n) + (if c < n then 1 else 0)
  {
    if n > 0 {
      StonesInRowUpdate(row, c, x, n - 1);
    }
  }

  lemma {:induction false} StonesInRowsUpdate(b: Board, m: Move, n: int)
    requires WellFormed(b) && InBounds(m.row, m.col) && 0 <= n <= BoardSize
    requires b[m.row][m.col] == Empty && m.player != Empty
    ensures StonesInRows(Place(b, m), n) == StonesInRows(b, n) + (if m.row < n then 1 else 0)
  {
    if n > 0 {
      StonesInRowsUpdate(b, m, n - 1);
      if n - 1 == m.row {
        StonesInRowUpdate(b[m.row], m.col, m.player, BoardSize);
      } else {
        assert Place(b, m)[n - 1] == b[n - 1];
      }
    }
  }

  /** A stone put on an empty cell adds exactly one to the stone count. */
  lemma PlaceAddsOneStone(b: Board, m: Move)
    requires WellFormed(b) && InBounds(m.row, m.col)
    requires b[m.row][m.col] == Empty && m.player != Empty
    ensures StoneCount(Place(b, m)) == StoneCount(b) + 1
  {
    StonesInRowsUpdate(b, m, BoardSize);
  }

  lemma {:induction false} EmptyBoardHasNoStones(n: int)
    requires 0 <= n <= BoardSize
    ensures StonesInRows(EmptyBoard(), n) == 0
  {
    if n > 0 {
      EmptyBoardHasNoStones(n - 1);
      EmptyRowHasNoStones(EmptyBoard()[n - 1], BoardSize);
    }
  }

  lemma {:induction false} EmptyRowHasNoStones(row: seq<Player>, n: int)
    requires 0 <= n <= |row|
    requires forall c :: 0 <= c < |row| ==> row[c] == Empty
    ensures StonesInRow(row, n) == 0
  {
    if n > 0 {
      EmptyRowHasNoStones(row, n - 1);
    }
  }

  /** The board a sequence of placements leaves, starting from the empty
      board; each placement overwrites its cell, as the source's writes do. */
  function Replay(t: seq<Move>): (b: Board)
    ensures WellFormed(b)
  {
    if t == [] then EmptyBoard() else Place(Replay(t[..|t| - 1]), t[|t| - 1])
  }

  /** Every move of `t` puts a stone on a grid cell that was empty before it. */
  predicate OnEmptyCells(t: seq<Move>)
  {
    forall i :: 0 <= i < |t| ==> t[i].player != Empty && IsEmptyCell(Replay(t[..i]), Pos(t[i].row, t[i].col))
  }

  /** Replaying one more move places it on the replayed board. */
  lemma ReplayAppends(t: seq<Move>, m: Move)
    ensures Replay(t + [m]) == Place(Replay(t), m)
  {
    assert (t + [m])[..|t|] == t;
  }

  /** A stone put on an empty cell extends moves that all went to empty cells. */
  lemma OnEmptyCellsExtends(t: seq<Move>, m: Move)
    requires OnEmptyCells(t)
    requires m.player != Empty && IsEmptyCell(Replay(t), Pos(m.row, m.col))
    ensures OnEmptyCells(t + [m])
  {
    var t' := t + [m];
    forall i | 0 <= i < |t'|
      ensures t'[i].player != Empty && IsEmptyCell(Replay(t'[..i]), Pos(t'[i].row, t'[i].col))
    {
      if i < |t| {
        assert t'[..i] == t[..i];
      } else {
        assert t'[..i] == t;
      }
    }
  }

  /** Moves that each land on an empty cell leave one stone per move. */
  lemma {:induction false} ReplayCountsStones(t: seq<Move>)
    requires OnEmptyCells(t)
    ensures StoneCount(Replay(t)) == |t|
  {
    if t == [] {
      EmptyBoardHasNoStones(BoardSize);
    } else {
      var pre := t[..|t| - 1];
      assert OnEmptyCells(pre) by {
        forall i | 0 <= i < |pre|
          ensures pre[i].player != Empty && IsEmptyCell(Replay(pre[..i]), Pos(pre[i].row, pre[i].col))
        {
          assert pre[..i] == t[..i];
        }
      }
      ReplayCountsStones(pre);
      PlaceAddsOneStone(Replay(pre), t[|t| - 1]);
    }
  }
}
