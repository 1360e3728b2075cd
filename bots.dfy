/** The two local opponents: the random bot and the greedy bot with its
    fixed priority cascade and its centre-distance fallback. */
module Bots {
  import opened Types
  import opened GameRules

  /** The source's own copy of the empty-cell scan (services/bots.ts). */
  method GetValidMoves(b: Board) returns (moves: seq<Pos>)
    requires WellFormed(b)
    ensures moves == EmptyCells(b)
    ensures forall q :: q in moves <==> IsEmptyCell(b, q)
    ensures RowMajor(moves)
  {
    moves := [];
    for r := 0 to BoardSize
      invariant moves == EmptyInRows(b, r)
    {
      for c := 0 to BoardSize
        invariant moves == EmptyInRows(b, r) + EmptyInRow(b, r, c)
      {
        if b[r][c] == Empty {
          moves := moves + [Pos(r, c)];
        }
      }
    }
    EmptyCellsFacts(b);
  }

  // ---------------------------------------------------------------------
  // Randomness
  // ---------------------------------------------------------------------

  /** `Math.floor(u * n)` for a draw `u` of `Math.random()`, which lies in
      [0, 1): always a valid index into a list of `n` elements. */
  function RandomIndex(u: real, n: int): (i: int)
    requires 0.0 <= u < 1.0 && n > 0
    ensures 0 <= i < n
  {
    assert 0.0 <= u * (n as real) < n as real by {
      assert (1.0 - u) * (n as real) > 0.0;
    }
    (u * (n as real)).Floor
  }

  /** Every index can be drawn: the draw `i / n` selects index `i`. */
  lemma EveryIndexReachable(n: int, i: int)
    requires 0 <= i < n
    ensures 0.0 <= (i as real) / (n as real) < 1.0
    ensures RandomIndex((i as real) / (n as real), n) == i
  {
    var u := (i as real) / (n as real);
    assert u * (n as real) == i as real;
  }

  // ---------------------------------------------------------------------
  // Random bot
  // ---------------------------------------------------------------------

  /** The random bot's choice for draw `u`: the empty cell at the drawn
      index of the row-major list, none when there is no empty cell. */
  function RandomPick(b: Board, u: real): Option<Pos>
    requires WellFormed(b) && 0.0 <= u < 1.0
  {
    var moves := EmptyCells(b);
    if moves == [] then None else Some(moves[RandomIndex(u, |moves|)])
  }

  /** The source's `getRandomMove`: no move on a full board, otherwise the
      empty cell at the drawn index of the row-major list. */
  method GetRandomMove(b: Board, u: real) returns (m: Option<Pos>)
    requires WellFormed(b) && 0.0 <= u < 1.0
    ensures m == RandomPick(b, u)
    ensures m.None? <==> Full(b)
    ensures m.Some? ==> IsEmptyCell(b, m.value)
    ensures m.Some? ==> |EmptyCells(b)| > 0 && m.value == EmptyCells(b)[RandomIndex(u, |EmptyCells(b)|)]
  {
    var moves := GetValidMoves(b);
    FullIffNoEmptyCells(b);
    if |moves| == 0 {
      return None;
    }
    var randomIdx := RandomIndex(u, |moves|);
    return Some(moves[randomIdx]);
  }

  /** Each empty cell is the random bot's choice for some draw. */
  lemma RandomMoveCoversEveryEmptyCell(b: Board, q: Pos)
    requires WellFormed(b) && IsEmptyCell(b, q)
    ensures exists u :: 0.0 <= u < 1.0 && |EmptyCells(b)| > 0 &&
                        EmptyCells(b)[RandomIndex(u, |EmptyCells(b)|)] == q
  {
    EmptyCellsFacts(b);
    var moves := EmptyCells(b);
    var i :| 0 <= i < |moves| && moves[i] == q;
    EveryIndexReachable(|moves|, i);
    var u := (i as real) / (|moves| as real);
    assert EmptyCells(b)[RandomIndex(u, |EmptyCells(b)|)] == q;
  }

  // ---------------------------------------------------------------------
  // Hypothetical placement
  // ---------------------------------------------------------------------

  /** The source's `checkPotentialLine`: would a stone of `player` at
      `(r, c)` give a line of at least `targetLength` along some axis? The
      two per-axis counting loops are the same walk as in `checkWin`. */
  method CheckPotentialLine(b: Board, r: int, c: int, player: Player, targetLength: int) returns (found: bool)
    requires WellFormed(b)
    ensures found == PotentialLine(b, r, c, player, targetLength)
    ensures targetLength == WinStreak ==> found == Wins(b, r, c, player)
  {
    for k := 0 to |Directions|
      invariant forall k' :: 0 <= k' < k ==> Line(b, r, c, player, Directions[k']) < targetLength
    {
      var count := 1; // the stone being placed
      var forward := CountRun(b, r, c, player, Directions[k], false);
      count := count + forward;
      var backward := CountRun(b, r, c, player, Directions[k], true);
      count := count + backward;
      if count >= targetLength {
        return true;
      }
    }
    return false;
  }

  // ---------------------------------------------------------------------
  // Stable sort by distance to the centre
  // ---------------------------------------------------------------------

  const Centre: int := 7

  function Abs(x: int): nat
  {
    if x < 0 then -x else x
  }

  /** Manhattan distance to the centre cell (7, 7). */
  function Distance(q: Pos): nat
  {
    Abs(q.row - Centre) + Abs(q.col - Centre)
  }

  predicate SortedByDistance(s: seq<Pos>)
  {
    forall i, j :: 0 <= i < j < |s| ==> Distance(s[i]) <= Distance(s[j])
  }

  /** The elements of `s` at distance `d`, in their order in `s`. */
  function Layer(s: seq<Pos>, d: int): seq<Pos>
  {
    if s == [] then []
    else (if Distance(s[0]) == d then [s[0]] else []) + Layer(s[1..], d)
  }

  /** The elements of `s` at distance `d` or more, in their order in `s`. */
  function AtLeast(s: seq<Pos>, d: int): seq<Pos>
  {
    if s == [] then []
    else (if Distance(s[0]) >= d then [s[0]] else []) + AtLeast(s[1..], d)
  }

  /** The layers of distance `d` to `hi`, nearest first. */
  function Layers(s: seq<Pos>, d: int, hi: int): seq<Pos>
    decreases hi - d
  {
    if d > hi then [] else Layer(s, d) + Layers(s, d + 1, hi)
  }

  function MaxDistance(s: seq<Pos>): nat
  {
    if s == [] then 0
    else var m := MaxDistance(s[1..]); if Distance(s[0]) > m then Distance(s[0]) else m
  }

  lemma {:induction false} MaxDistanceBounds(s: seq<Pos>)
    ensures forall q :: q in s ==> Distance(q) <= MaxDistance(s)
  {
    if s != [] {
      MaxDistanceBounds(s[1..]);
    }
  }

  lemma {:induction false} LayerOfConcat(a: seq<Pos>, b: seq<Pos>, d: int)
    ensures Layer(a + b, d) == Layer(a, d) + Layer(b, d)
  {
    if a != [] {
      var head := if Distance(a[0]) == d then [a[0]] else [];
      assert (a + b)[0] == a[0];
      assert (a + b)[1..] == a[1..] + b;
      LayerOfConcat(a[1..], b, d);
      calc {
        Layer(a + b, d);
        head + Layer(a[1..] + b, d);
        head + (Layer(a[1..], d) + Layer(b, d));
        (head + Layer(a[1..], d)) + Layer(b, d);
      }
    } else {
      assert a + b == b;
    }
  }

  lemma {:induction false} LayerOfLayer(s: seq<Pos>, e: int, d: int)
    ensures Layer(Layer(s, e), d) == if d == e then Layer(s, e) else []
  {
    if s != [] {
      var head := if Distance(s[0]) == e then [s[0]] else [];
      LayerOfConcat(head, Layer(s[1..], e), d);
      LayerOfLayer(s[1..], e, d);
    }
  }

  lemma {:induction false} LayerFacts(s: seq<Pos>, d: int)
    ensures forall q :: q in Layer(s, d) ==> Distance(q) == d && q in s
  {
    if s != [] {
      LayerFacts(s[1..], d);
    }
  }

  lemma {:induction false} LayersFacts(s: seq<Pos>, d: int, hi: int)
    ensures forall q :: q in Layers(s, d, hi) ==> d <= Distance(q) <= hi
    ensures SortedByDistance(Layers(s, d, hi))
    decreases hi - d
  {
    if d <= hi {
      LayerFacts(s, d);
      LayersFacts(s, d + 1, hi);
      var a, b := Layer(s, d), Layers(s, d + 1, hi);
      forall i, j | 0 <= i < j < |a + b|
        ensures Distance((a + b)[i]) <= Distance((a + b)[j])
      {
        if j < |a| {
          assert a[i] in a && a[j] in a;
        } else if i < |a| {
          assert a[i] in a && b[j - |a|] in b;
        } else {
          assert (a + b)[i] == b[i - |a|] && (a + b)[j] == b[j - |a|];
        }
      }
    }
  }

  /** Taking the layers keeps, for each distance, exactly the elements of
      that distance in their original order. */
  lemma {:induction false} LayerOfLayers(s: seq<Pos>, lo: int, hi: int, d: int)
    ensures Layer(Layers(s, lo, hi), d) == if lo <= d <= hi then Layer(s, d) else []
    decreases hi - lo
  {
    if lo <= hi {
      LayerOfConcat(Layer(s, lo), Layers(s, lo + 1, hi), d);
      LayerOfLayer(s, lo, d);
      LayerOfLayers(s, lo + 1, hi, d);
    }
  }

  lemma {:induction false} AtLeastSplits(s: seq<Pos>, d: int)
    ensures multiset(AtLeast(s, d)) == multiset(Layer(s, d)) + multiset(AtLeast(s, d + 1))
  {
    if s != [] {
      AtLeastSplits(s[1..], d);
    }
  }

  lemma {:induction false} AtLeastExtremes(s: seq<Pos>, hi: int)
    requires forall q :: q in s ==> Distance(q) <= hi
    ensures AtLeast(s, 0) == s
    ensures AtLeast(s, hi + 1) == []
  {
    if s != [] {
      AtLeastExtremes(s[1..], hi);
    }
  }

  lemma {:induction false} LayersPermute(s: seq<Pos>, d: int, hi: int)
    requires forall q :: q in s ==> Distance(q) <= hi
    ensures multiset(Layers(s, d, hi)) == multiset(AtLeast(s, d))
    decreases hi - d
  {
    if d <= hi {
      LayersPermute(s, d + 1, hi);
      AtLeastSplits(s, d);
      calc {
        multiset(Layers(s, d, hi));
        multiset(Layer(s, d) + Layers(s, d + 1, hi));
        multiset(Layer(s, d)) + multiset(Layers(s, d + 1, hi));
        multiset(AtLeast(s, d));
      }
    } else {
      AtLeastEmptyAbove(s, hi, d);
    }
  }

  lemma {:induction false} AtLeastEmptyAbove(s: seq<Pos>, hi: int, d: int)
    requires forall q :: q in s ==> Distance(q) <= hi
    requires d > hi
    ensures AtLeast(s, d) == []
  {
    if s != [] {
      AtLeastEmptyAbove(s[1..], hi, d);
    }
  }

  /** `Array.prototype.sort` with the comparator `distA - distB`, which the
      language standard (ECMAScript 2019 and later) requires to be stable:
      nearest cells first, ties kept in their original order (see
      `SortIsStable`). */
  function SortByCentreDistance(s: seq<Pos>): (sorted: seq<Pos>)
    ensures SortedByDistance(sorted)
    ensures multiset(sorted) == multiset(s)
    ensures |sorted| == |s|
  {
    var hi := MaxDistance(s);
    MaxDistanceBounds(s);
    LayersFacts(s, 0, hi);
    LayersPermute(s, 0, hi);
    AtLeastExtremes(s, hi);
    assert multiset(Layers(s, 0, hi)) == multiset(s);
    assert |multiset(Layers(s, 0, hi))| == |multiset(s)|;
    Layers(s, 0, hi)
  }

  /** The sort is stable: for every distance, the cells at that distance
      appear in the same order before and after sorting. */
  lemma SortIsStable(s: seq<Pos>, d: int)
    ensures Layer(SortByCentreDistance(s), d) == Layer(s, d)
  {
    MaxDistanceBounds(s);
    LayerOfEveryDistance(s, MaxDistance(s));
  }

  lemma LayerOfEveryDistance(s: seq<Pos>, hi: int)
    requires forall q :: q in s ==> Distance(q) <= hi
    ensures forall d :: Layer(Layers(s, 0, hi), d) == Layer(s, d)
  {
    forall d
      ensures Layer(Layers(s, 0, hi), d) == Layer(s, d)
    {
      LayerOfLayers(s, 0, hi, d);
      if !(0 <= d <= hi) {
        LayerOutOfRange(s, d);
      }
    }
  }

  lemma {:induction false} LayerOutOfRange(s: seq<Pos>, d: int)
    requires forall q :: q in s ==> Distance(q) != d
    ensures Layer(s, d) == []
  {
    if s != [] {
      assert s[0] in s;
      LayerOutOfRange(s[1..], d);
    }
  }

  // ---------------------------------------------------------------------
  // Greedy bot
  // ---------------------------------------------------------------------

  /** The first cell of `moves` where a stone of `p` would give a line of
      at least `target` (see `FirstMatchIsFirst`). */
  function FirstMatch(b: Board, moves: seq<Pos>, p: Player, target: int): Option<Pos>
    requires WellFormed(b)
  {
    if moves == [] then None
    else if PotentialLine(b, moves[0].row, moves[0].col, p, target) then Some(moves[0])
    else FirstMatch(b, moves[1..], p, target)
  }

  /** `FirstMatch` finds nothing iff no cell passes the test, and otherwise
      the cell it finds passes it and no earlier cell does. */
  lemma {:induction false} FirstMatchIsFirst(b: Board, moves: seq<Pos>, p: Player, target: int)
    requires WellFormed(b)
    ensures FirstMatch(b, moves, p, target).None? <==>
            forall i :: 0 <= i < |moves| ==> !PotentialLine(b, moves[i].row, moves[i].col, p, target)
    ensures FirstMatch(b, moves, p, target).Some? ==>
            exists i :: 0 <= i < |moves| && FirstMatch(b, moves, p, target).value == moves[i] &&
                        PotentialLine(b, moves[i].row, moves[i].col, p, target) &&
                        forall j :: 0 <= j < i ==> !PotentialLine(b, moves[j].row, moves[j].col, p, target)
  {
    if moves != [] {
      FirstMatchIsFirst(b, moves[1..], p, target);
      assert forall i :: 1 <= i < |moves| ==> moves[1..][i - 1] == moves[i];
      if !PotentialLine(b, moves[0].row, moves[0].col, p, target) && FirstMatch(b, moves, p, target).Some? {
        var i :| 0 <= i < |moves[1..]| && FirstMatch(b, moves[1..], p, target).value == moves[1..][i] &&
                 PotentialLine(b, moves[1..][i].row, moves[1..][i].col, p, target) &&
                 forall j :: 0 <= j < i ==> !PotentialLine(b, moves[1..][j].row, moves[1..][j].col, p, target);
        assert FirstMatch(b, moves, p, target).value == moves[i + 1];
      }
    }
  }

  /** The cascade of the greedy bot, in priority order: own five, block
      five, own four, block four, own three. */
  function Stages(player: Player): seq<(Player, int)>
  {
    var opponent := Other(player);
    [(player, 5), (opponent, 5), (player, 4), (opponent, 4), (player, 3)]
  }

  /** Fallback: stably sort by distance to the centre and take the drawn
      one among the first three. */
  function Fallback(moves: seq<Pos>, u: real): (q: Pos)
    requires moves != [] && 0.0 <= u < 1.0
    ensures q in moves
  {
    var sorted := SortByCentreDistance(moves);
    var top := sorted[..if |sorted| < 3 then |sorted| else 3];
    var pick := top[RandomIndex(u, |top|)];
    assert pick in multiset(sorted);
    pick
  }

  /** Runs the stages from `k` on; the first stage with a candidate decides. */
  function Cascade(b: Board, moves: seq<Pos>, player: Player, k: int, u: real): Option<Pos>
    requires WellFormed(b) && moves != [] && 0.0 <= u < 1.0 && 0 <= k <= 5
    decreases 5 - k
  {
    if k == 5 then Some(Fallback(moves, u))
    else
      var (p, target) := Stages(player)[k];
      var hit := FirstMatch(b, moves, p, target);
      if hit.Some? then hit else Cascade(b, moves, player, k + 1, u)
  }

  /** The greedy bot's choice as a function of the board, the mover and
      the fallback's random draw. */
  function Greedy(b: Board, player: Player, u: real): Option<Pos>
    requires WellFormed(b) && 0.0 <= u < 1.0
  {
    var moves := EmptyCells(b);
    if moves == [] then None else Cascade(b, moves, player, 0, u)
  }

  /** One stage of `getGreedyMove`: a row-major scan returning the first
      cell that passes the hypothetical-placement test. */
  method ScanStage(b: Board, validMoves: seq<Pos>, p: Player, target: int) returns (hit: Option<Pos>)
    requires WellFormed(b)
    ensures hit == FirstMatch(b, validMoves, p, target)
    ensures hit.Some? ==> hit.value in validMoves
  {
    for i := 0 to |validMoves|
      invariant FirstMatch(b, validMoves, p, target) == FirstMatch(b, validMoves[i..], p, target)
    {
      var move := validMoves[i];
      assert validMoves[i..][1..] == validMoves[i + 1..];
      var found := CheckPotentialLine(b, move.row, move.col, p, target);
      if found {
        return Some(move);
      }
    }
    return None;
  }

  /** The source's `getGreedyMove`. */
  method GetGreedyMove(b: Board, player: Player, u: real) returns (m: Option<Pos>)
    requires WellFormed(b) && 0.0 <= u < 1.0
    ensures m == Greedy(b, player, u)
    ensures m.None? <==> Full(b)
    ensures m.Some? ==> IsEmptyCell(b, m.value)
  {
    var opponent := Other(player);
    var validMoves := GetValidMoves(b);
    FullIffNoEmptyCells(b);
    if |validMoves| == 0 {
      return None;
    }
    assert Stages(player) == [(player, 5), (opponent, 5), (player, 4), (opponent, 4), (player, 3)];
    assert Greedy(b, player, u) == Cascade(b, validMoves, player, 0, u);
    // 1. Immediate win
    m := ScanStage(b, validMoves, player, 5);
    if m.Some? { return; }
    assert Cascade(b, validMoves, player, 0, u) == Cascade(b, validMoves, player, 1, u);
    // 2. Block the opponent's five
    m := ScanStage(b, validMoves, opponent, 5);
    if m.Some? { return; }
    assert Cascade(b, validMoves, player, 1, u) == Cascade(b, validMoves, player, 2, u);
    // 3. Own four
    m := ScanStage(b, validMoves, player, 4);
    if m.Some? { return; }
    assert Cascade(b, validMoves, player, 2, u) == Cascade(b, validMoves, player, 3, u);
    // 4. Block the opponent's four
    m := ScanStage(b, validMoves, opponent, 4);
    if m.Some? { return; }
    assert Cascade(b, validMoves, player, 3, u) == Cascade(b, validMoves, player, 4, u);
    // 5. Own three
    m := ScanStage(b, validMoves, player, 3);
    if m.Some? { return; }
    assert Cascade(b, validMoves, player, 4, u) == Cascade(b, validMoves, player, 5, u);
    // 6. Fallback: nearest to the centre, one of the top three
    var sorted := SortByCentreDistance(validMoves);
    var topCandidates := sorted[..if |sorted| < 3 then |sorted| else 3];
    m := Some(topCandidates[RandomIndex(u, |topCandidates|)]);
  }

  // ---------------------------------------------------------------------
  // Properties of the greedy choice
  // ---------------------------------------------------------------------

  /** No move exactly on a full board; otherwise always an empty cell. */
  lemma GreedyPicksEmptyCell(b: Board, player: Player, u: real)
    requires WellFormed(b) && 0.0 <= u < 1.0
    ensures Greedy(b, player, u).None? <==> Full(b)
    ensures Greedy(b, player, u).Some? ==> IsEmptyCell(b, Greedy(b, player, u).value)
  {
    FullIffNoEmptyCells(b);
    EmptyCellsFacts(b);
    var moves := EmptyCells(b);
    if moves != [] {
      CascadePicksAMove(b, moves, player, 0, u);
    }
  }

  lemma {:induction false} CascadePicksAMove(b: Board, moves: seq<Pos>, player: Player, k: int, u: real)
    requires WellFormed(b) && moves != [] && 0.0 <= u < 1.0 && 0 <= k <= 5
    ensures Cascade(b, moves, player, k, u).Some?
    ensures Cascade(b, moves, player, k, u).value in moves
    decreases 5 - k
  {
    if k < 5 {
      CascadePicksAMove(b, moves, player, k + 1, u);
      var (p, target) := Stages(player)[k];
      FirstMatchIsFirst(b, moves, p, target);
    }
  }

  /** When every stage before `k` has no candidate, stage `k` decides if it
      has one, and then its first row-major candidate is played. */
  lemma {:induction false} CascadeSkipsEmptyStages(b: Board, moves: seq<Pos>, player: Player, k: int, u: real)
    requires WellFormed(b) && moves != [] && 0.0 <= u < 1.0 && 0 <= k <= 5
    requires forall k', i :: 0 <= k' < k && 0 <= i < |moves| ==>
               !PotentialLine(b, moves[i].row, moves[i].col, Stages(player)[k'].0, Stages(player)[k'].1)
    ensures Cascade(b, moves, player, 0, u) == Cascade(b, moves, player, k, u)
    decreases k
  {
    if k > 0 {
      CascadeSkipsEmptyStages(b, moves, player, k - 1, u);
      var (p, target) := Stages(player)[k - 1];
      FirstMatchIsFirst(b, moves, p, target);
      assert FirstMatch(b, moves, p, target).None?;
    }
  }

  /** Priority order: if stages `0 .. k-1` have no candidate anywhere and
      cell `j` is the first row-major candidate of stage `k`, the greedy bot
      plays cell `j`, whatever the later stages would pick. */
  lemma GreedyStageOrder(b: Board, player: Player, u: real, k: int, j: int)
    requires WellFormed(b) && 0.0 <= u < 1.0 && 0 <= k < 5
    requires 0 <= j < |EmptyCells(b)|
    requires forall k', i :: 0 <= k' < k && 0 <= i < |EmptyCells(b)| ==>
               !PotentialLine(b, EmptyCells(b)[i].row, EmptyCells(b)[i].col, Stages(player)[k'].0, Stages(player)[k'].1)
    requires PotentialLine(b, EmptyCells(b)[j].row, EmptyCells(b)[j].col, Stages(player)[k].0, Stages(player)[k].1)
    requires forall i :: 0 <= i < j ==>
               !PotentialLine(b, EmptyCells(b)[i].row, EmptyCells(b)[i].col, Stages(player)[k].0, Stages(player)[k].1)
    ensures Greedy(b, player, u) == Some(EmptyCells(b)[j])
  {
    var moves := EmptyCells(b);
    CascadeSkipsEmptyStages(b, moves, player, k, u);
    var (p, target) := Stages(player)[k];
    var hit := FirstMatch(b, moves, p, target);
    FirstMatchIsFirst(b, moves, p, target);
    assert hit.Some?;
    var i :| 0 <= i < |moves| && hit.value == moves[i] && PotentialLine(b, moves[i].row, moves[i].col, p, target) &&
             forall j' :: 0 <= j' < i ==> !PotentialLine(b, moves[j'].row, moves[j'].col, p, target);
  }

  /** An immediate win is always taken: the first row-major cell that
      completes five for the mover is played, whatever blocks or threats
      exist elsewhere on the board. */
  lemma GreedyTakesFirstWin(b: Board, player: Player, u: real, j: int)
    requires WellFormed(b) && 0.0 <= u < 1.0
    requires 0 <= j < |EmptyCells(b)|
    requires Wins(b, EmptyCells(b)[j].row, EmptyCells(b)[j].col, player)
    requires forall i :: 0 <= i < j ==> !Wins(b, EmptyCells(b)[i].row, EmptyCells(b)[i].col, player)
    ensures Greedy(b, player, u) == Some(EmptyCells(b)[j])
  {
    GreedyStageOrder(b, player, u, 0, j);
  }

  /** With no candidate in any stage, the greedy bot plays one of the
      first three cells of the empty cells stably sorted by distance to the
      centre. */
  lemma GreedyFallsBackNearCentre(b: Board, player: Player, u: real)
    requires WellFormed(b) && 0.0 <= u < 1.0
    requires EmptyCells(b) != []
    requires forall k, i :: 0 <= k < 5 && 0 <= i < |EmptyCells(b)| ==>
               !PotentialLine(b, EmptyCells(b)[i].row, EmptyCells(b)[i].col, Stages(player)[k].0, Stages(player)[k].1)
    ensures exists j :: 0 <= j < 3 && j < |EmptyCells(b)| &&
              Greedy(b, player, u) == Some(SortByCentreDistance(EmptyCells(b))[j])
  {
    var moves := EmptyCells(b);
    CascadeSkipsEmptyStages(b, moves, player, 5, u);
    var sorted := SortByCentreDistance(moves);
    var top := sorted[..if |sorted| < 3 then |sorted| else 3];
    var j := RandomIndex(u, |top|);
    assert Greedy(b, player, u) == Some(sorted[j]);
  }
}
