/** The deterministic parts of the oracle boundary: the text picture of the
    board sent in every request, the two player symbols named in the prompt,
    and the move chosen when the call to the remote model fails. */
module GeminiService {
  import opened Types
  import opened GameRules

  // ---------------------------------------------------------------------
  // Board text
  // ---------------------------------------------------------------------

  /** The decimal digit `d` as a character. */
  function Digit(d: int): (ch: char)
    requires 0 <= d < 10
    ensures '0' <= ch <= '9'
    ensures ch as int - '0' as int == d
  {
    (('0' as int) + d) as char
  }

  /** The character that stands for a cell: `.` empty, `X` Black, `O` White. */
  function Symbol(p: Player): char
  {
    match p
    case Empty => '.'
    case Black => 'X'
    case White => 'O'
  }

  /** Reads a cell character back; anything but `X` or `O` reads as empty. */
  function PlayerOf(ch: char): (p: Player)
    ensures Symbol(p) == ch || (p == Empty && ch != 'X' && ch != 'O')
  {
    if ch == 'X' then Black else if ch == 'O' then White else Empty
  }

  /** The column labels of the header: the last digit of each index and a space. */
  function HeaderCells(n: nat): (s: string)
    ensures |s| == 2 * n
  {
    seq(2 * n, i requires 0 <= i < 2 * n => if i % 2 == 0 then Digit(i / 2 % 10) else ' ')
  }

  /** First line: three spaces, the labels of the 15 columns, a newline. */
  function Header(): (s: string)
    ensures |s| == 34
  {
    "   " + HeaderCells(BoardSize as nat) + "\n"
  }

  /** The cells `row[0..n)`, each as its symbol and a space. */
  function RowCells(row: seq<Player>, n: nat): (s: string)
    requires n <= |row|
    ensures |s| == 2 * n
  {
    if n == 0 then [] else RowCells(row, n - 1) + [Symbol(row[n - 1]), ' ']
  }

  /** Line of row `r`: the last digit of `r`, two spaces, the cells, a newline. */
  function RowText(b: Board, r: nat): (s: string)
    requires WellFormed(b) && r < BoardSize
    ensures |s| == 34
  {
    [Digit(r % 10), ' ', ' '] + RowCells(b[r], BoardSize as nat) + "\n"
  }

  /** The lines of rows `0..n)`. */
  function RowsText(b: Board, n: nat): (s: string)
    requires WellFormed(b) && n <= BoardSize
    ensures |s| == 34 * n
  {
    if n == 0 then [] else RowsText(b, n - 1) + RowText(b, n - 1)
  }

  /** The whole picture sent to the oracle: the header and the 15 row lines. */
  function BoardText(b: Board): (s: string)
    requires WellFormed(b)
    ensures |s| == 34 * (BoardSize + 1)
  {
    Header() + RowsText(b, BoardSize as nat)
  }

  /** Line `k` of the picture: the header for 0, row `k - 1` after it. */
  function TextLine(b: Board, k: nat): (s: string)
    requires WellFormed(b) && k <= BoardSize
    ensures |s| == 34
  {
    if k == 0 then Header() else RowText(b, k - 1)
  }

  /** Where the symbol of cell `(r, c)` sits in the picture. */
  function CellOffset(r: int, c: int): int
  {
    34 * (r + 1) + 3 + 2 * c
  }

  /** The serialiser of `getAiMove`: appends the header, then each row's
      line, to an accumulator. */
  method SerializeBoard(b: Board) returns (s: string)
    requires WellFormed(b)
    ensures s == BoardText(b)
  {
    s := SerializeHeader();
    assert RowsText(b, 0) == [];
    assert s == Header() + RowsText(b, 0);
    for r := 0 to BoardSize
      invariant s == Header() + RowsText(b, r)
    {
      var line := SerializeRow(b, r);
      assert RowsText(b, r + 1) == RowsText(b, r) + line;
      assert s + line == Header() + (RowsText(b, r) + line);
      s := s + line;
    }
  }

  /** The serialiser's first line: three spaces, each column label and a
      space, a newline. */
  method SerializeHeader() returns (s: string)
    ensures s == Header()
  {
    s := "   ";
    for c := 0 to BoardSize
      invariant s == "   " + HeaderCells(c)
    {
      s := s + [Digit(c % 10), ' '];
      HeaderCellsStep(c);
    }
    s := s + "\n";
  }

  /** One pass of the serialiser's row loop: the row label, two spaces,
      the symbol and a space for each cell, a newline. */
  method SerializeRow(b: Board, r: nat) returns (line: string)
    requires WellFormed(b) && r < BoardSize
    ensures line == RowText(b, r)
  {
    line := [Digit(r % 10), ' ', ' '];
    for c := 0 to BoardSize
      invariant line == [Digit(r % 10), ' ', ' '] + RowCells(b[r], c)
    {
      var cell := b[r][c];
      if cell == Empty {
        line := line + ". ";
      } else if cell == Black {
        line := line + "X ";
      } else if cell == White {
        line := line + "O ";
      }
      assert RowCells(b[r], c + 1) == RowCells(b[r], c) + [Symbol(cell), ' '];
    }
    line := line + "\n";
  }

  lemma HeaderCellsAt(n: nat)
    ensures forall c :: 0 <= c < n ==> HeaderCells(n)[2 * c] == Digit(c % 10) && HeaderCells(n)[2 * c + 1] == ' '
  {
    forall c | 0 <= c < n
      ensures HeaderCells(n)[2 * c] == Digit(c % 10) && HeaderCells(n)[2 * c + 1] == ' '
    {
      assert (2 * c) / 2 == c && (2 * c) % 2 == 0 && (2 * c + 1) % 2 == 1;
    }
  }

  /** Appending one label to the first `n` labels gives the first `n + 1`. */
  lemma HeaderCellsStep(n: nat)
    ensures HeaderCells(n + 1) == HeaderCells(n) + [Digit(n % 10), ' ']
  {
    var next := HeaderCells(n) + [Digit(n % 10), ' '];
    forall i | 0 <= i < 2 * n + 2
      ensures HeaderCells(n + 1)[i] == next[i]
    {
      if i >= 2 * n {
        assert i / 2 == n;
      }
    }
  }

  lemma {:induction false} RowCellsAt(row: seq<Player>, n: nat)
    requires n <= |row|
    ensures |RowCells(row, n)| == 2 * n
    ensures forall c :: 0 <= c < n ==> RowCells(row, n)[2 * c] == Symbol(row[c]) && RowCells(row, n)[2 * c + 1] == ' '
  {
    if n > 0 {
      RowCellsAt(row, n - 1);
    }
  }

  /** Every line is 34 characters long and only its last one is a
      newline; the characters of a row line are its label, two spaces and
      its cells. */
  lemma TextLineShape(b: Board, k: nat)
    requires WellFormed(b) && k <= BoardSize
    ensures |TextLine(b, k)| == 34
    ensures forall j :: 0 <= j < 34 ==> (TextLine(b, k)[j] == '\n' <==> j == 33)
    ensures k == 0 ==> forall c :: 0 <= c < BoardSize ==> TextLine(b, k)[3 + 2 * c] == Digit(c % 10)
    ensures k > 0 ==> TextLine(b, k)[0] == Digit((k - 1) % 10)
    ensures k > 0 ==> forall c :: 0 <= c < BoardSize ==> TextLine(b, k)[3 + 2 * c] == Symbol(b[k - 1][c])
  {
    if k == 0 {
      HeaderShape();
    } else {
      RowTextShape(b, k - 1);
    }
  }

  /** The header: three spaces, a digit and a space per column, a newline. */
  lemma HeaderShape()
    ensures forall j :: 0 <= j < 34 ==> (Header()[j] == '\n' <==> j == 33)
    ensures forall c :: 0 <= c < BoardSize ==> Header()[3 + 2 * c] == Digit(c % 10)
  {
    HeaderCellsAt(BoardSize as nat);
    var h := HeaderCells(BoardSize as nat);
    assert Header() == "   " + h + "\n";
    forall j | 0 <= j < 34
      ensures Header()[j] == '\n' <==> j == 33
    {
      if 3 <= j < 33 {
        var c := (j - 3) / 2;
        assert j == 3 + 2 * c || j == 3 + 2 * c + 1;
      }
    }
  }

  /** Row line `r`: its label digit, two spaces, a symbol and a space per
      cell, a newline. */
  lemma RowTextShape(b: Board, r: nat)
    requires WellFormed(b) && r < BoardSize
    ensures forall j :: 0 <= j < 34 ==> (RowText(b, r)[j] == '\n' <==> j == 33)
    ensures RowText(b, r)[0] == Digit(r % 10)
    ensures forall c :: 0 <= c < BoardSize ==> RowText(b, r)[3 + 2 * c] == Symbol(b[r][c])
  {
    var row := b[r];
    RowCellsAt(row, BoardSize as nat);
    var cells := RowCells(row, BoardSize as nat);
    assert RowText(b, r) == [Digit(r % 10), ' ', ' '] + cells + "\n";
    forall j | 0 <= j < 34
      ensures RowText(b, r)[j] == '\n' <==> j == 33
    {
      if 3 <= j < 33 {
        var c := (j - 3) / 2;
        assert j == 3 + 2 * c || j == 3 + 2 * c + 1;
      }
    }
  }

  lemma {:induction false} RowsTextAt(b: Board, n: nat)
    requires WellFormed(b) && n <= BoardSize
    ensures |RowsText(b, n)| == 34 * n
    ensures forall k, j :: 0 <= k < n && 0 <= j < 34 ==> RowsText(b, n)[34 * k + j] == RowText(b, k)[j]
  {
    if n > 0 {
      RowsTextAt(b, n - 1);
      TextLineShape(b, n);
      var pre := RowsText(b, n - 1);
      assert RowsText(b, n) == pre + RowText(b, n - 1);
      forall k, j | 0 <= k < n && 0 <= j < 34
        ensures RowsText(b, n)[34 * k + j] == RowText(b, k)[j]
      {
        if k < n - 1 {
          assert 34 * k + j < |pre|;
        } else {
          assert 34 * k + j == |pre| + j;
        }
      }
    }
  }

  /** The picture is 16 lines of 34 characters: line `k` of it is
      `TextLine(b, k)`. */
  lemma BoardTextLayout(b: Board)
    requires WellFormed(b)
    ensures |BoardText(b)| == 544
    ensures forall k, j :: 0 <= k <= BoardSize && 0 <= j < 34 ==> BoardText(b)[34 * k + j] == TextLine(b, k)[j]
  {
    var rows := RowsText(b, BoardSize as nat);
    assert BoardText(b) == Header() + rows;
    RowsTextAt(b, BoardSize as nat);
    forall k, j | 0 <= k <= BoardSize && 0 <= j < 34
      ensures BoardText(b)[34 * k + j] == TextLine(b, k)[j]
    {
      if k > 0 {
        var m := 34 * (k - 1) + j;
        assert BoardText(b)[34 + m] == rows[m];
        assert rows[m] == RowText(b, k - 1)[j];
      }
    }
  }

  /** The picture consists of exactly 16 newline-terminated lines: a
      character is a newline exactly at the end of each line. */
  lemma BoardTextLines(b: Board)
    requires WellFormed(b)
    ensures |BoardText(b)| == 544
    ensures forall i :: 0 <= i < |BoardText(b)| ==> (BoardText(b)[i] == '\n' <==> i % 34 == 33)
  {
    BoardTextLayout(b);
    forall i | 0 <= i < |BoardText(b)|
      ensures BoardText(b)[i] == '\n' <==> i % 34 == 33
    {
      var k, j := i / 34, i % 34;
      assert i == 34 * k + j && 0 <= k <= BoardSize;
      assert BoardText(b)[i] == TextLine(b, k)[j];
      TextLineShape(b, k);
    }
  }

  /** The header labels each column and each row line starts with its
      label. */
  lemma BoardTextLabels(b: Board)
    requires WellFormed(b)
    ensures forall c :: 0 <= c < BoardSize ==> BoardText(b)[3 + 2 * c] == Digit(c % 10)
    ensures forall r :: 0 <= r < BoardSize ==> BoardText(b)[34 * (r + 1)] == Digit(r % 10)
  {
    BoardTextLayout(b);
    TextLineShape(b, 0);
    forall c | 0 <= c < BoardSize
      ensures BoardText(b)[3 + 2 * c] == Digit(c % 10)
    {
      assert BoardText(b)[34 * 0 + (3 + 2 * c)] == TextLine(b, 0)[3 + 2 * c];
    }
    forall r | 0 <= r < BoardSize
      ensures BoardText(b)[34 * (r + 1)] == Digit(r % 10)
    {
      TextLineShape(b, r + 1);
      assert BoardText(b)[34 * (r + 1) + 0] == TextLine(b, r + 1)[0];
    }
  }

  /** Each row line shows every cell's symbol at `CellOffset`. */
  lemma BoardTextCells(b: Board)
    requires WellFormed(b)
    ensures forall r, c :: InBounds(r, c) ==> BoardText(b)[CellOffset(r, c)] == Symbol(b[r][c])
  {
    BoardTextLayout(b);
    forall r, c | InBounds(r, c)
      ensures BoardText(b)[CellOffset(r, c)] == Symbol(b[r][c])
    {
      TextLineShape(b, r + 1);
      assert BoardText(b)[34 * (r + 1) + (3 + 2 * c)] == TextLine(b, r + 1)[3 + 2 * c];
    }
  }

  /** Reads a board back from a picture of the right length. */
  function ParseBoard(s: string): (b: Board)
    requires |s| == 544
    ensures WellFormed(b)
  {
    seq(BoardSize, r requires 0 <= r < BoardSize =>
      seq(BoardSize, c requires 0 <= c < BoardSize => PlayerOf(s[CellOffset(r, c)])))
  }

  /** The picture loses nothing: the board can be read back from it. */
  lemma ParseBoardText(b: Board)
    requires WellFormed(b)
    ensures |BoardText(b)| == 544
    ensures ParseBoard(BoardText(b)) == b
  {
    BoardTextLayout(b);
    BoardTextCells(b);
    var b' := ParseBoard(BoardText(b));
    forall r | 0 <= r < BoardSize
      ensures b'[r] == b[r]
    {
      forall c | 0 <= c < BoardSize
        ensures b'[r][c] == b[r][c]
      {
        assert BoardText(b)[CellOffset(r, c)] == Symbol(b[r][c]);
      }
    }
  }

  /** Two different boards are never sent as the same picture. */
  lemma BoardTextInjective(b1: Board, b2: Board)
    requires WellFormed(b1) && WellFormed(b2)
    ensures BoardText(b1) == BoardText(b2) ==> b1 == b2
  {
    ParseBoardText(b1);
    ParseBoardText(b2);
  }

  // ---------------------------------------------------------------------
  // Prompt symbols
  // ---------------------------------------------------------------------

  /** The symbol the oracle is told it plays: `X` for Black, `O` otherwise;
      for a real side it is the symbol its stones show in the picture. */
  function PlayerSymbol(p: Player): (s: string)
    ensures |s| == 1
    ensures p != Empty ==> s == [Symbol(p)]
  {
    if p == Black then "X" else "O"
  }

  /** The symbol the oracle is told its opponent plays. */
  function OpponentSymbol(p: Player): (s: string)
    ensures s != PlayerSymbol(p)
    ensures s == PlayerSymbol(Other(p))
  {
    if p == Black then "O" else "X"
  }

  // ---------------------------------------------------------------------
  // Fallback move
  // ---------------------------------------------------------------------

  /** The oracle's answer: a coordinate pair, a short explanation and a win
      estimate in [-1, 1]. */
  datatype AiMove = AiMove(row: int, col: int, reasoning: string, winRate: real)

  const CentreReason: string := "Fallback center."
  const ErrorReason: string := "Fallback move due to AI connection error."

  /** The source's catch path: the centre when it is free; otherwise the
      first free cell in row-major order; the centre again (occupied) when
      no cell is free. */
  method FallbackMove(b: Board) returns (m: AiMove)
    requires WellFormed(b)
    ensures InBounds(m.row, m.col) && m.winRate == 0.0
    ensures b[7][7] == Empty ==> m == AiMove(7, 7, CentreReason, 0.0)
    ensures b[7][7] != Empty && Full(b) ==> m == AiMove(7, 7, CentreReason, 0.0)
    ensures b[7][7] != Empty && !Full(b) ==>
      m.reasoning == ErrorReason && EmptyCells(b) != [] && Pos(m.row, m.col) == EmptyCells(b)[0]
  {
    var bestR, bestC := 7, 7;
    if b[7][7] != Empty {
      for r := 0 to BoardSize
        invariant forall r', c' :: 0 <= r' < r && 0 <= c' < BoardSize ==> b[r'][c'] != Empty
      {
        for c := 0 to BoardSize
          invariant forall r', c' :: 0 <= r' < r && 0 <= c' < BoardSize ==> b[r'][c'] != Empty
          invariant forall c' :: 0 <= c' < c ==> b[r][c'] != Empty
        {
          if b[r][c] == Empty {
            FirstEmptyIsHead(b, Pos(r, c));
            return AiMove(r, c, ErrorReason, 0.0);
          }
        }
      }
    }
    return AiMove(bestR, bestC, CentreReason, 0.0);
  }

  /** An empty cell before which every cell (row-major) is occupied is the
      head of `EmptyCells`, the list `getValidMoves` returns. */
  lemma FirstEmptyIsHead(b: Board, q: Pos)
    requires WellFormed(b) && IsEmptyCell(b, q)
    requires forall r', c' :: 0 <= r' < q.row && 0 <= c' < BoardSize ==> b[r'][c'] != Empty
    requires forall c' :: 0 <= c' < q.col ==> b[q.row][c'] != Empty
    ensures !Full(b)
    ensures EmptyCells(b) != [] && EmptyCells(b)[0] == q
  {
    EmptyCellsFacts(b);
    var e := EmptyCells(b);
    assert q in e;
    var h := e[0];
    assert h in e;
    assert IsEmptyCell(b, h);
    var i :| 0 <= i < |e| && e[i] == q;
    assert Index(h) <= Index(q);
    assert !(h.row < q.row);
    assert !(h.row == q.row && h.col < q.col);
  }
}
