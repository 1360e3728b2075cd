/** Shared vocabulary of the game: the constants, the cell/player values,
    moves, statuses and the 15x15 board as a value. */
module Types {

  /** Side length of the square board. */
  const BoardSize: int := 15
  /** Number of stones in a row needed to win. */
  const WinStreak: int := 5

  /** A cell value and a player at once: the source's `Player` enum,
      whose `None` (0) is written `Empty` here; `Black` is 1, `White` is 2. */
  datatype Player = Empty | Black | White

  datatype GameStatus = Playing | Won | Draw

  /** The kinds of mover the benchmark can be run against. */
  datatype BotType = Gemini | Greedy | Random

  datatype Option<T> = None | Some(value: T)

  /** A coordinate pair as returned by the bots and the oracle. */
  datatype Pos = Pos(row: int, col: int)

  /** One recorded stone placement. */
  datatype Move = Move(row: int, col: int, player: Player)

  /** A board is a sequence of rows of cells; only 15x15 boards occur. */
  type Board = seq<seq<Player>>

  predicate WellFormed(b: Board)
  {
    |b| == BoardSize && forall r :: 0 <= r < |b| ==> |b[r]| == BoardSize
  }

  predicate InBounds(r: int, c: int)
  {
    0 <= r < BoardSize && 0 <= c < BoardSize
  }

  /** The side that moves after `p`: `White` after `Black`, `Black` otherwise. */
  function Other(p: Player): (q: Player)
    ensures q != Empty
    ensures p == Black <==> q == White
  {
    if p == Black then White else Black
  }

  /** Writes `m.player` at `(m.row, m.col)` when that cell is on the grid;
      a write with an off-grid column lands outside the grid and leaves
      every grid cell as it was. */
  function Place(b: Board, m: Move): (b': Board)
    requires WellFormed(b)
    ensures WellFormed(b')
    ensures InBounds(m.row, m.col) ==> b'[m.row][m.col] == m.player
    ensures forall r, c :: InBounds(r, c) && (r, c) != (m.row, m.col) ==> b'[r][c] == b[r][c]
  {
    if InBounds(m.row, m.col) then b[m.row := b[m.row][m.col := m.player]] else b
  }
}
