/** The Tic-Tac-Toe engine: board, turn, legal actions, move application,
    line-based winner, terminal test, utility and the minimax search. */
module TicTacToe {
  import Wrappers

  /** A cell of the board. `Empty` is the engine's EMPTY, which is the same
      value as "no winner" (both are Python's `None`). */
  datatype Cell = Empty | X | O

  /** A row or column index. */
  type Coord = i: int | 0 <= i < 3

  /** An action `(i, j)`: the cell in row `i`, column `j`. */
  datatype Move = Move(row: Coord, col: Coord)

  /** A 3x3 grid of cells, as a list of three rows of three cells. A board is a
      value: applying a move builds a new board and leaves the old one as it was. */
  type Board = b: seq<seq<Cell>> | |b| == 3 && forall i :: 0 <= i < 3 ==> |b[i]| == 3
    witness [[Empty, Empty, Empty], [Empty, Empty, Empty], [Empty, Empty, Empty]]

  /** What `result` does: the new board, or the ValueError it raises on an occupied cell. */
  datatype MoveOutcome = Moved(board: Board) | ValueError

  /** -math.inf and math.inf, the starting values of the running best in the search.
      Every utility lies in -1..1, so these compare with utilities exactly as the infinities do. */
  const NegInf: int := -2
  const PosInf: int := 2

  function At(b: Board, m: Move): (c: Cell)
  {
    b[m.row][m.col]
  }

  /** The cells in row-major order: index `k` is row `k / 3`, column `k % 3`. */
  function CellAt(k: nat): (m: Move)
    requires k < 9
  {
    if k < 3 then Move(0, k) else if k < 6 then Move(1, k - 3) else Move(2, k - 6)
  }

  function CellIndex(m: Move): (k: nat)
    ensures k < 9 && CellAt(k) == m
  {
    3 * m.row + m.col
  }

  function Max(a: int, b: int): (m: int) { if a >= b then a else b }
  function Min(a: int, b: int): (m: int) { if a <= b then a else b }

  // ---------------------------------------------------------------------------
  // Counting marks

  /** `row.count(c)`: how many cells of `row` hold `c`. */
  function CountIn(row: seq<Cell>, c: Cell): (n: nat)
    ensures n <= |row|
  {
    if row == [] then 0
    else
      assert row == [row[0]] + row[1..];
      (if row[0] == c then 1 else 0) + CountIn(row[1..], c)
  }

  /** The number of cells holding `c`, summed row by row. */
  function Count(rows: seq<seq<Cell>>, c: Cell): (n: nat)
  {
    if rows == [] then 0 else Count(rows[..|rows| - 1], c) + CountIn(rows[|rows| - 1], c)
  }

  lemma {:induction false} CountInZero(row: seq<Cell>, c: Cell)
    ensures CountIn(row, c) == 0 <==> c !in row
  {
    if row != [] {
      CountInZero(row[1..], c);
      assert row == [row[0]] + row[1..];
    }
  }

  lemma {:induction false} CountInUpdate(row: seq<Cell>, j: nat, v: Cell, c: Cell)
    requires j < |row|
    ensures CountIn(row[j := v], c)
            == CountIn(row, c) - (if row[j] == c then 1 else 0) + (if v == c then 1 else 0)
  {
    if j == 0 {
      assert row[j := v][1..] == row[1..];
    } else {
      CountInUpdate(row[1..], j - 1, v, c);
      assert row[j := v][1..] == row[1..][j - 1 := v];
    }
  }

  lemma {:induction false} CountUpdate(rows: seq<seq<Cell>>, i: nat, r: seq<Cell>, c: Cell)
    requires i < |rows|
    ensures Count(rows[i := r], c) == Count(rows, c) - CountIn(rows[i], c) + CountIn(r, c)
  {
    var n := |rows| - 1;
    if i == n {
      assert rows[i := r][..n] == rows[..n];
    } else {
      CountUpdate(rows[..n], i, r, c);
      assert rows[i := r][..n] == rows[..n][i := r];
    }
  }

  /** The board count is the sum of the three row counts. */
  lemma CountBoard(b: Board, c: Cell)
    ensures Count(b, c) == CountIn(b[0], c) + CountIn(b[1], c) + CountIn(b[2], c)
  {
    assert Count(b[..1], c) == CountIn(b[0], c) by {
      assert b[..1][..0] == [];
    }
    assert Count(b[..2], c) == Count(b[..1], c) + CountIn(b[1], c) by {
      assert b[..2][..1] == b[..1];
    }
  }

  /** No cell holds `c` exactly when the count of `c` is zero. */
  lemma CountZero(b: Board, c: Cell)
    ensures Count(b, c) == 0 <==> forall i, j :: 0 <= i < 3 && 0 <= j < 3 ==> b[i][j] != c
  {
    CountBoard(b, c);
    CountInZero(b[0], c);
    CountInZero(b[1], c);
    CountInZero(b[2], c);
  }

  function Has(x: Cell, c: Cell): (n: nat)
  {
    if x == c then 1 else 0
  }

  /** The count of `c` on a board, cell by cell; lets a fixed board's counts be read off. */
  lemma CountCells(b: Board, c: Cell)
    ensures Count(b, c) == Has(b[0][0], c) + Has(b[0][1], c) + Has(b[0][2], c)
                           + Has(b[1][0], c) + Has(b[1][1], c) + Has(b[1][2], c)
                           + Has(b[2][0], c) + Has(b[2][1], c) + Has(b[2][2], c)
  {
    CountBoard(b, c);
    forall i | 0 <= i < 3
      ensures CountIn(b[i], c) == Has(b[i][0], c) + Has(b[i][1], c) + Has(b[i][2], c)
    {
      var r := b[i];
      assert CountIn(r, c) == Has(r[0], c) + CountIn(r[1..], c);
      assert CountIn(r[1..], c) == Has(r[1], c) + CountIn(r[2..], c) by {
        assert r[1..][1..] == r[2..];
      }
      assert CountIn(r[2..], c) == Has(r[2], c) by {
        assert r[2..][1..] == [];
      }
    }
  }

  /** Two boards that agree cell by cell are the same board. */
  lemma SameBoard(a: Board, b: Board)
    requires forall i, j :: 0 <= i < 3 && 0 <= j < 3 ==> a[i][j] == b[i][j]
    ensures a == b
  {
    assert a[0] == b[0] && a[1] == b[1] && a[2] == b[2];
  }

  // ---------------------------------------------------------------------------
  // initial_state

  /** The all-EMPTY board. */
  function InitialState(): (b: Board)
    ensures forall i, j :: 0 <= i < 3 && 0 <= j < 3 ==> b[i][j] == Empty
    ensures Count(b, Empty) == 9 && Count(b, X) == 0 && Count(b, O) == 0
    ensures NextPlayer(b) == X && !IsTerminal(b)
  {
    var b: Board := [[Empty, Empty, Empty], [Empty, Empty, Empty], [Empty, Empty, Empty]];
    CountBoard(b, Empty);
    CountBoard(b, X);
    CountBoard(b, O);
    b
  }

  // ---------------------------------------------------------------------------
  // player

  /** Whose turn it is: X when the two mark counts are equal, O otherwise. On a board
      reached by play, X moves exactly when an even number of marks has been placed. */
  function NextPlayer(b: Board): (p: Cell)
    ensures p != Empty
    ensures Balanced(b) ==> (p == X <==> (Count(b, X) + Count(b, O)) % 2 == 0)
  {
    if Count(b, X) == Count(b, O) then X else O
  }

  /** `player`: counts the marks row by row. */
  method Player(b: Board) returns (p: Cell)
    ensures p == X <==> Count(b, X) == Count(b, O)
    ensures p == O <==> Count(b, X) != Count(b, O)
    ensures p == NextPlayer(b)
  {
    var countX, countO := 0, 0;
    for k := 0 to 3
      invariant countX == Count(b[..k], X) && countO == Count(b[..k], O)
    {
      assert b[..k + 1][..k] == b[..k];
      countX := countX + CountIn(b[k], X);
      countO := countO + CountIn(b[k], O);
    }
    assert b[..3] == b;
    if countX == countO {
      return X;
    }
    return O;
  }

  /** X has as many marks as O, or one more: a necessary condition for a board reached by
      play from the initial state (not a sufficient one: a game may have ended earlier). */
  predicate Balanced(b: Board)
  {
    Count(b, X) == Count(b, O) || Count(b, X) == Count(b, O) + 1
  }

  // ---------------------------------------------------------------------------
  // actions

  /** Every EMPTY cell, as a move. */
  function LegalMoves(b: Board): (ms: set<Move>)
    ensures forall m :: m in ms <==> At(b, m) == Empty
  {
    var ms := set k | 0 <= k < 9 && At(b, CellAt(k)) == Empty :: CellAt(k);
    assert forall m :: At(b, m) == Empty ==> m in ms by {
      forall m | At(b, m) == Empty
        ensures m in ms
      {
        assert CellAt(CellIndex(m)) == m;
      }
    }
    ms
  }

  /** `actions`: scans the board row by row and collects the EMPTY cells in a set. */
  method Actions(b: Board) returns (moves: set<Move>)
    ensures moves == LegalMoves(b)
  {
    moves := {};
    for y := 0 to 3
      invariant forall m :: m in moves <==> m.row < y && At(b, m) == Empty
    {
      for x := 0 to 3
        invariant forall m :: m in moves <==> (m.row < y || (m.row == y && m.col < x)) && At(b, m) == Empty
      {
        if b[y][x] == Empty {
          moves := moves + {Move(y, x)};
        }
      }
    }
  }

  // ---------------------------------------------------------------------------
  // result

  /** The mark counts after writing `p` into the EMPTY cell `m`. */
  lemma PlaceCounts(b: Board, m: Move, p: Cell)
    requires At(b, m) == Empty && p != Empty
    ensures forall c :: Count(b[m.row := b[m.row][m.col := p]], c)
                        == Count(b, c) + (if c == p then 1 else 0) - (if c == Empty then 1 else 0)
  {
    forall c
      ensures Count(b[m.row := b[m.row][m.col := p]], c)
              == Count(b, c) + (if c == p then 1 else 0) - (if c == Empty then 1 else 0)
    {
      CountInUpdate(b[m.row], m.col, p, c);
      CountUpdate(b, m.row, b[m.row][m.col := p], c);
    }
  }

  /** `result`: a copy of the board with the player to move written into `m`,
      or ValueError when `m` is not EMPTY. */
  function Result(b: Board, m: Move): (r: MoveOutcome)
    ensures r.ValueError? <==> At(b, m) != Empty
    ensures r.Moved? ==> At(r.board, m) == NextPlayer(b)
    ensures r.Moved? ==> Count(r.board, Empty) == Count(b, Empty) - 1
    ensures r.Moved? ==> Count(r.board, X) == Count(b, X) + (if NextPlayer(b) == X then 1 else 0)
    ensures r.Moved? ==> Count(r.board, O) == Count(b, O) + (if NextPlayer(b) == O then 1 else 0)
  {
    if At(b, m) != Empty then ValueError
    else
      PlaceCounts(b, m, NextPlayer(b));
      Moved(b[m.row := b[m.row][m.col := NextPlayer(b)]])
  }

  /** `result` writes only the target cell: every other cell of the new board is as it was. */
  lemma ResultKeepsOtherCells(b: Board, m: Move)
    requires At(b, m) == Empty
    ensures forall a :: a != m ==> At(Result(b, m).board, a) == At(b, a)
  {
  }

  /** Turns alternate: a legal move keeps a played-out board balanced and hands the turn over. */
  lemma TurnAlternates(b: Board, m: Move)
    requires Balanced(b) && At(b, m) == Empty
    ensures Balanced(Result(b, m).board)
    ensures NextPlayer(Result(b, m).board) != NextPlayer(b)
  {
  }

  // ---------------------------------------------------------------------------
  // winner

  /** The eight lines in the order `winner` checks them: rows 0-2 (k = 0..2),
      columns 0-2 (k = 3..5), the main diagonal (k = 6), the anti-diagonal (k = 7). */
  function LineCells(k: nat): (Move, Move, Move)
    requires k < 8
  {
    if k < 3 then (Move(k, 0), Move(k, 1), Move(k, 2))
    else if k < 6 then (Move(0, k - 3), Move(1, k - 3), Move(2, k - 3))
    else if k == 6 then (Move(0, 0), Move(1, 1), Move(2, 2))
    else (Move(2, 0), Move(1, 1), Move(0, 2))
  }

  /** All three cells of line `k` are equal (possibly all EMPTY). */
  predicate Uniform(b: Board, k: nat)
    requires k < 8
  {
    var (p, q, r) := LineCells(k);
    At(b, p) == At(b, q) == At(b, r)
  }

  /** The value the cells of line `k` share, when it is uniform. */
  function LineValue(b: Board, k: nat): (c: Cell)
    requires k < 8
  {
    At(b, LineCells(k).1)
  }

  /** The value of the first uniform line among lines k..7, EMPTY if there is none. */
  function ScanLines(b: Board, k: nat): (w: Cell)
    requires k <= 8
    decreases 8 - k
  {
    if k == 8 then Empty
    else if Uniform(b, k) then LineValue(b, k)
    else ScanLines(b, k + 1)
  }

  /** What `winner` reports; EMPTY means no winner. */
  function LineWinner(b: Board): (w: Cell)
  {
    ScanLines(b, 0)
  }

  lemma {:induction false} ScanSkips(b: Board, k: nat)
    requires k <= 8
    requires forall j :: 0 <= j < k ==> !Uniform(b, j)
    ensures LineWinner(b) == ScanLines(b, k)
  {
    if k > 0 {
      ScanSkips(b, k - 1);
    }
  }

  /** The winner is the shared value of the first uniform line, even when that value is EMPTY. */
  lemma LineWinnerIsFirstUniform(b: Board, k: nat)
    requires k < 8 && Uniform(b, k)
    requires forall j :: 0 <= j < k ==> !Uniform(b, j)
    ensures LineWinner(b) == LineValue(b, k)
    ensures LineWinner(b) == At(b, LineCells(k).0) == At(b, LineCells(k).2)
  {
    ScanSkips(b, k);
  }

  /** With no uniform line there is no winner. */
  lemma NoUniformNoWinner(b: Board)
    requires forall j :: 0 <= j < 8 ==> !Uniform(b, j)
    ensures LineWinner(b) == Empty
  {
    ScanSkips(b, 8);
  }

  /** A reported winner always owns a whole line. */
  lemma {:induction false} WinnerOwnsLine(b: Board)
    requires LineWinner(b) != Empty
    ensures exists k :: 0 <= k < 8 && Uniform(b, k) && LineValue(b, k) == LineWinner(b)
  {
    var k := 0;
    while k < 8 && !Uniform(b, k)
      invariant 0 <= k <= 8
      invariant forall j :: 0 <= j < k ==> !Uniform(b, j)
    {
      k := k + 1;
    }
    ScanSkips(b, k);
  }

  /** An all-EMPTY row ahead of a full row of X masks X's line: no winner is
      reported and the game goes on. The board is reachable by play: row 0 is EMPTY
      on it and on every board before it, so none of them is over (TopRowEmptyGoesOn). */
  lemma EmptyRowMasksLaterLine()
    ensures var b: Board := [[Empty, Empty, Empty], [X, X, X], [O, O, Empty]];
      Balanced(b) && Uniform(b, 1) && LineValue(b, 1) == X
      && LineWinner(b) == Empty && !IsTerminal(b) && Utility(b) == 0
  {
    var b: Board := [[Empty, Empty, Empty], [X, X, X], [O, O, Empty]];
    LineWinnerIsFirstUniform(b, 0);
    CountBoard(b, Empty);
    CountBoard(b, X);
    CountBoard(b, O);
  }

  /** While row 0 is all EMPTY, no winner is reported and the game is not over,
      whatever the other rows hold. */
  lemma TopRowEmptyGoesOn(b: Board)
    requires b[0] == [Empty, Empty, Empty]
    ensures LineWinner(b) == Empty && !IsTerminal(b)
  {
    LineWinnerIsFirstUniform(b, 0);
    CountZero(b, Empty);
  }

  /** `winner`: rows, then columns, then the two diagonals; the first line
      whose three cells are equal decides. */
  method Winner(b: Board) returns (w: Cell)
    ensures w == LineWinner(b)
  {
    // horizontals
    for i := 0 to 3
      invariant forall j :: 0 <= j < i ==> !Uniform(b, j)
    {
      var row := b[i];
      if row[0] == row[1] == row[2] {
        ScanSkips(b, i);
        return row[0];
      }
    }
    // verticals
    for i := 0 to 3
      invariant forall j :: 0 <= j < 3 + i ==> !Uniform(b, j)
    {
      if b[0][i] == b[1][i] == b[2][i] {
        ScanSkips(b, 3 + i);
        return b[0][i];
      }
    }
    // diagonals
    ScanSkips(b, 6);
    if b[0][0] == b[1][1] == b[2][2] {
      return b[1][1];
    }
    if b[2][0] == b[1][1] == b[0][2] {
      return b[1][1];
    }
    return Empty;
  }

  // ---------------------------------------------------------------------------
  // terminal and utility

  /** The game is over: someone is reported as winner, or no cell is EMPTY.
      A game that is not over always has a legal move. */
  function IsTerminal(b: Board): (t: bool)
    ensures !t ==> LegalMoves(b) != {}
  {
    assert LineWinner(b) == Empty && Count(b, Empty) != 0 ==> LegalMoves(b) != {} by {
      if Count(b, Empty) != 0 {
        CountZero(b, Empty);
        var i, j :| 0 <= i < 3 && 0 <= j < 3 && b[i][j] == Empty;
        assert Move(i, j) in LegalMoves(b);
      }
    }
    LineWinner(b) != Empty || Count(b, Empty) == 0
  }

  /** `terminal`: asks `winner`, then looks for an EMPTY cell row by row. */
  method Terminal(b: Board) returns (t: bool)
    ensures t <==> LineWinner(b) != Empty || forall i, j :: 0 <= i < 3 && 0 <= j < 3 ==> b[i][j] != Empty
    ensures t == IsTerminal(b)
  {
    CountZero(b, Empty);
    var w := Winner(b);
    if w != Empty {
      return true;
    }
    for i := 0 to 3
      invariant forall k, j :: 0 <= k < i && 0 <= j < 3 ==> b[k][j] != Empty
    {
      if Empty in b[i] {
        return false;
      }
    }
    return true;
  }

  /** `utility`: 1 when X is the reported winner, -1 when O is, 0 otherwise. */
  function Utility(b: Board): (u: int)
    ensures u == 1 <==> LineWinner(b) == X
    ensures u == -1 <==> LineWinner(b) == O
    ensures u == 0 <==> LineWinner(b) == Empty
    ensures u != 0 ==> IsTerminal(b)
  {
    var w := LineWinner(b);
    if w == X then 1 else if w == O then -1 else 0
  }

  // ---------------------------------------------------------------------------
  // The minimax values that MaxValue and MinValue compute

  /** Some EMPTY cell is listed among the nine cells when the EMPTY count is positive. */
  lemma EmptyCellListed(b: Board)
    requires Count(b, Empty) > 0
    ensures exists k :: 0 <= k < 9 && At(b, CellAt(k)) == Empty
    ensures EmptyBelow(b, 9)
  {
    CountZero(b, Empty);
    var i, j :| 0 <= i < 3 && 0 <= j < 3 && b[i][j] == Empty;
    var k := CellIndex(Move(i, j));
    assert At(b, CellAt(k)) == Empty;
    EmptyBelowFrom(b, 9, k);
  }

  /** Some cell among the first `k` (row-major) is EMPTY. */
  predicate EmptyBelow(b: Board, k: nat)
    requires k <= 9
  {
    k > 0 && (At(b, CellAt(k - 1)) == Empty || EmptyBelow(b, k - 1))
  }

  lemma {:induction false} EmptyBelowFrom(b: Board, k: nat, j: nat)
    requires j < k <= 9 && At(b, CellAt(j)) == Empty
    ensures EmptyBelow(b, k)
  {
    if j < k - 1 {
      EmptyBelowFrom(b, k - 1, j);
    }
  }

  /** The value of `board` when the maximising side moves next. */
  function MaxScore(b: Board): (v: int)
    ensures -1 <= v <= 1
    decreases Count(b, Empty), 1, 0
  {
    if IsTerminal(b) then Utility(b)
    else
      EmptyCellListed(b);
      BestForMax(b, 9)
  }

  /** The value of `board` when the minimising side moves next. */
  function MinScore(b: Board): (v: int)
    ensures -1 <= v <= 1
    decreases Count(b, Empty), 1, 0
  {
    if IsTerminal(b) then Utility(b)
    else
      EmptyCellListed(b);
      BestForMin(b, 9)
  }

  /** The value of the board that action `m` leads to, the minimising side moving next there. */
  function MinScoreAfter(b: Board, m: Move): (v: int)
    requires At(b, m) == Empty
    ensures -1 <= v <= 1
    decreases Count(b, Empty), 0, 0
  {
    MinScore(Result(b, m).board)
  }

  /** The value of the board that action `m` leads to, the maximising side moving next there. */
  function MaxScoreAfter(b: Board, m: Move): (v: int)
    requires At(b, m) == Empty
    ensures -1 <= v <= 1
    decreases Count(b, Empty), 0, 0
  {
    MaxScore(Result(b, m).board)
  }

  /** The largest MinScore over the legal moves among the first `k` cells, NegInf if there is none. */
  function BestForMax(b: Board, k: nat): (v: int)
    requires k <= 9
    ensures v == NegInf <==> !EmptyBelow(b, k)
    ensures v != NegInf ==> -1 <= v <= 1
    decreases Count(b, Empty), 0, k
  {
    if k == 0 then NegInf
    else
      var m := CellAt(k - 1);
      var rest := BestForMax(b, k - 1);
      if At(b, m) != Empty then rest
      else Max(rest, MinScoreAfter(b, m))
  }

  /** The smallest MaxScore over the legal moves among the first `k` cells, PosInf if there is none. */
  function BestForMin(b: Board, k: nat): (v: int)
    requires k <= 9
    ensures v == PosInf <==> !EmptyBelow(b, k)
    ensures v != PosInf ==> -1 <= v <= 1
    decreases Count(b, Empty), 0, k
  {
    if k == 0 then PosInf
    else
      var m := CellAt(k - 1);
      var rest := BestForMin(b, k - 1);
      if At(b, m) != Empty then rest
      else Min(rest, MaxScoreAfter(b, m))
  }

  /** The running maximum bounds the value of every legal move among the first `k` cells. */
  lemma {:induction false} BestForMaxBounds(b: Board, k: nat)
    requires k <= 9
    ensures forall j :: 0 <= j < k && At(b, CellAt(j)) == Empty ==>
              MinScoreAfter(b, CellAt(j)) <= BestForMax(b, k)
  {
    if k > 0 {
      BestForMaxBounds(b, k - 1);
      var m := CellAt(k - 1);
      if At(b, m) == Empty {
        assert BestForMax(b, k) == Max(BestForMax(b, k - 1), MinScoreAfter(b, m));
      } else {
        assert BestForMax(b, k) == BestForMax(b, k - 1);
      }
    }
  }

  /** Once a legal move has been seen, the running maximum is the value of one of them. */
  lemma {:induction false} BestForMaxReached(b: Board, k: nat)
    requires k <= 9
    ensures BestForMax(b, k) != NegInf ==>
              exists j :: 0 <= j < k && At(b, CellAt(j)) == Empty &&
                          MinScoreAfter(b, CellAt(j)) == BestForMax(b, k)
  {
    if k > 0 {
      BestForMaxReached(b, k - 1);
      var m := CellAt(k - 1);
      if At(b, m) == Empty {
        var here := MinScoreAfter(b, m);
        var rest := BestForMax(b, k - 1);
        assert BestForMax(b, k) == Max(rest, here);
        if rest < here || rest == NegInf {
          assert BestForMax(b, k) == MinScoreAfter(b, CellAt(k - 1));
        }
      } else {
        assert BestForMax(b, k) == BestForMax(b, k - 1);
      }
    }
  }

  /** The running minimum bounds the value of every legal move among the first `k` cells. */
  lemma {:induction false} BestForMinBounds(b: Board, k: nat)
    requires k <= 9
    ensures forall j :: 0 <= j < k && At(b, CellAt(j)) == Empty ==>
              BestForMin(b, k) <= MaxScoreAfter(b, CellAt(j))
  {
    if k > 0 {
      BestForMinBounds(b, k - 1);
      var m := CellAt(k - 1);
      if At(b, m) == Empty {
        assert BestForMin(b, k) == Min(BestForMin(b, k - 1), MaxScoreAfter(b, m));
      } else {
        assert BestForMin(b, k) == BestForMin(b, k - 1);
      }
    }
  }

  /** Once a legal move has been seen, the running minimum is the value of one of them. */
  lemma {:induction false} BestForMinReached(b: Board, k: nat)
    requires k <= 9
    ensures BestForMin(b, k) != PosInf ==>
              exists j :: 0 <= j < k && At(b, CellAt(j)) == Empty &&
                          MaxScoreAfter(b, CellAt(j)) == BestForMin(b, k)
  {
    if k > 0 {
      BestForMinReached(b, k - 1);
      var m := CellAt(k - 1);
      if At(b, m) == Empty {
        var here := MaxScoreAfter(b, m);
        var rest := BestForMin(b, k - 1);
        assert BestForMin(b, k) == Min(rest, here);
        if rest > here || rest == PosInf {
          assert BestForMin(b, k) == MaxScoreAfter(b, CellAt(k - 1));
        }
      } else {
        assert BestForMin(b, k) == BestForMin(b, k - 1);
      }
    }
  }

  /** On a board that is not over, MaxScore is the maximum of MinScore over the
      boards the legal moves lead to, and some legal move reaches it. */
  lemma MaxScoreIsBest(b: Board)
    requires !IsTerminal(b)
    ensures LegalMoves(b) != {}
    ensures forall m :: m in LegalMoves(b) ==> MinScoreAfter(b, m) <= MaxScore(b)
    ensures exists m :: m in LegalMoves(b) && MinScoreAfter(b, m) == MaxScore(b)
  {
    EmptyCellListed(b);
    var k :| 0 <= k < 9 && At(b, CellAt(k)) == Empty;
    assert CellAt(k) in LegalMoves(b);
    BestForMaxBounds(b, 9);
    BestForMaxReached(b, 9);
    forall m | m in LegalMoves(b)
      ensures MinScoreAfter(b, m) <= MaxScore(b)
    {
      assert CellAt(CellIndex(m)) == m;
    }
  }

  /** On a board that is not over, MinScore is the minimum of MaxScore over the
      boards the legal moves lead to, and some legal move reaches it. */
  lemma MinScoreIsBest(b: Board)
    requires !IsTerminal(b)
    ensures LegalMoves(b) != {}
    ensures forall m :: m in LegalMoves(b) ==> MinScore(b) <= MaxScoreAfter(b, m)
    ensures exists m :: m in LegalMoves(b) && MaxScoreAfter(b, m) == MinScore(b)
  {
    EmptyCellListed(b);
    var k :| 0 <= k < 9 && At(b, CellAt(k)) == Empty;
    assert CellAt(k) in LegalMoves(b);
    BestForMinBounds(b, 9);
    BestForMinReached(b, 9);
    forall m | m in LegalMoves(b)
      ensures MinScore(b) <= MaxScoreAfter(b, m)
    {
      assert CellAt(CellIndex(m)) == m;
    }
  }

  // ---------------------------------------------------------------------------
  // MaxValue, MinValue, minimax

  /** One round of MaxValue's loop keeps the running value an upper bound of every tried action. */
  lemma MaxStep(b: Board, done: set<Move>, action: Move, v: int, a: int)
    requires At(b, action) == Empty && MinScoreAfter(b, action) == a
    requires forall m :: m in done ==> At(b, m) == Empty && MinScoreAfter(b, m) <= v
    ensures forall m :: m in done + {action} ==> At(b, m) == Empty && MinScoreAfter(b, m) <= Max(v, a)
  {
  }

  /** One round of MinValue's loop keeps the running value a lower bound of every tried action. */
  lemma MinStep(b: Board, done: set<Move>, action: Move, v: int, a: int)
    requires At(b, action) == Empty && MaxScoreAfter(b, action) == a
    requires forall m :: m in done ==> At(b, m) == Empty && Min(v, a) <= MaxScoreAfter(b, m)
    ensures forall m :: m in done + {action} ==> At(b, m) == Empty && Min(v, a) <= MaxScoreAfter(b, m)
  {
  }

  /** `MaxValue`: tries the actions in the set's (arbitrary) order, keeps the
      first strictly better one, and stops early once the value reaches 1. */
  method MaxValue(b: Board) returns (v: int, play: Wrappers.Option<Move>)
    ensures v == MaxScore(b)
    ensures IsTerminal(b) ==> v == Utility(b) && play == Wrappers.None
    ensures !IsTerminal(b) ==>
              play.Some? && play.value in LegalMoves(b) && MinScoreAfter(b, play.value) == v
    decreases Count(b, Empty)
  {
    play := Wrappers.None;
    var over := Terminal(b);
    if over {
      return Utility(b), play;
    }
    var moves := Actions(b);
    v := NegInf;
    var rest := moves;
    while rest != {}
      invariant rest <= moves
      invariant play.None? ==> v == NegInf && rest == moves
      invariant play.Some? ==> play.value in moves - rest && MinScoreAfter(b, play.value) == v
      invariant forall m :: m in moves - rest ==> At(b, m) == Empty && MinScoreAfter(b, m) <= v
      decreases rest
    {
      var action :| action in rest;
      var a, _ := MinValue(Result(b, action).board);
      MaxStep(b, moves - rest, action, v, a);
      assert moves - (rest - {action}) == (moves - rest) + {action};
      rest := rest - {action};
      if a > v {
        v := a;
        play := Wrappers.Some(action);
        if v == 1 {
          MaxScoreIsBest(b);
          return;
        }
      }
    }
    MaxScoreIsBest(b);
  }

  /** `MinValue`: the mirror image of MaxValue, stopping early once the value reaches -1. */
  method MinValue(b: Board) returns (v: int, play: Wrappers.Option<Move>)
    ensures v == MinScore(b)
    ensures IsTerminal(b) ==> v == Utility(b) && play == Wrappers.None
    ensures !IsTerminal(b) ==>
              play.Some? && play.value in LegalMoves(b) && MaxScoreAfter(b, play.value) == v
    decreases Count(b, Empty)
  {
    play := Wrappers.None;
    var over := Terminal(b);
    if over {
      return Utility(b), play;
    }
    var moves := Actions(b);
    v := PosInf;
    var rest := moves;
    while rest != {}
      invariant rest <= moves
      invariant play.None? ==> v == PosInf && rest == moves
      invariant play.Some? ==> play.value in moves - rest && MaxScoreAfter(b, play.value) == v
      invariant forall m :: m in moves - rest ==> At(b, m) == Empty && v <= MaxScoreAfter(b, m)
      decreases rest
    {
      var action :| action in rest;
      var a, _ := MaxValue(Result(b, action).board);
      MinStep(b, moves - rest, action, v, a);
      assert moves - (rest - {action}) == (moves - rest) + {action};
      rest := rest - {action};
      if a < v {
        v := a;
        play := Wrappers.Some(action);
        if v == -1 {
          MinScoreIsBest(b);
          return;
        }
      }
    }
    MinScoreIsBest(b);
  }

  /** `minimax`: no action on a finished game; otherwise an action that is
      optimal for the player to move. */
  method Minimax(b: Board) returns (action: Wrappers.Option<Move>)
    ensures action.None? <==> IsTerminal(b)
    ensures action.Some? ==> action.value in LegalMoves(b)
    ensures action.Some? && NextPlayer(b) == X ==>
              MinScoreAfter(b, action.value) == MaxScore(b) &&
              forall m :: m in LegalMoves(b) ==>
                MinScoreAfter(b, m) <= MinScoreAfter(b, action.value)
    ensures action.Some? && NextPlayer(b) == O ==>
              MaxScoreAfter(b, action.value) == MinScore(b) &&
              forall m :: m in LegalMoves(b) ==>
                MaxScoreAfter(b, action.value) <= MaxScoreAfter(b, m)
  {
    var over := Terminal(b);
    if over {
      return Wrappers.None;
    }
    var turn := Player(b);
    if turn == X {
      MaxScoreIsBest(b);
      var _, play := MaxValue(b);
      return play;
    } else {
      MinScoreIsBest(b);
      var _, play := MinValue(b);
      return play;
    }
  }

  /** X to move, two marks in the top row, O threatening the middle row. */
  const XToWin: Board := [[X, X, Empty], [O, O, Empty], [Empty, Empty, Empty]]

  /** XToWin's counts: X to move, and the game is not over (row 2 is an all-EMPTY line). */
  lemma XToWinPosition()
    ensures Count(XToWin, X) == 2 && Count(XToWin, O) == 2 && Count(XToWin, Empty) == 5
    ensures NextPlayer(XToWin) == X && !IsTerminal(XToWin)
  {
    var b := XToWin;
    CountCells(b, X);
    CountCells(b, O);
    CountCells(b, Empty);
    assert !Uniform(b, 0) && !Uniform(b, 1) && Uniform(b, 2);
    LineWinnerIsFirstUniform(b, 2);
  }

  /** A move in the bottom row leaves the game open, O to move, and (1, 2) free. */
  lemma XToWinBottomRowOpen(m: Move)
    requires m.row == 2
    ensures var c := Result(XToWin, m).board;
      NextPlayer(c) == O && !IsTerminal(c) && c[1] == XToWin[1] && c[0] == XToWin[0]
  {
    XToWinPosition();
    var b := XToWin;
    var c := Result(b, m).board;
    assert c == b[2 := b[2][m.col := X]];
    assert NextPlayer(c) == O && Count(c, Empty) == 4;
    if m.col == 2 {
      assert !Uniform(c, 0) && !Uniform(c, 1) && !Uniform(c, 2) && !Uniform(c, 3);
      assert !Uniform(c, 4) && !Uniform(c, 5) && !Uniform(c, 6) && !Uniform(c, 7);
      NoUniformNoWinner(c);
    } else {
      assert !Uniform(c, 0) && !Uniform(c, 1) && !Uniform(c, 2) && !Uniform(c, 3);
      assert !Uniform(c, 4) && Uniform(c, 5);
      LineWinnerIsFirstUniform(c, 5);
    }
  }

  /** A move in the bottom row leaves O free to complete the middle row. */
  lemma XToWinBottomRowLoses(m: Move)
    requires m.row == 2
    ensures MinScoreAfter(XToWin, m) == -1
  {
    XToWinBottomRowOpen(m);
    var c := Result(XToWin, m).board;
    var g := Result(c, Move(1, 2)).board;
    assert g == c[1 := c[1][2 := O]];
    assert !Uniform(g, 0) && Uniform(g, 1);
    LineWinnerIsFirstUniform(g, 1);
    MinScoreIsBest(c);
    assert Move(1, 2) in LegalMoves(c);
  }

  /** After X (1, 2) and O's block at (0, 2): X to move, row 2 still all EMPTY. */
  const Blocked: Board := [[X, X, O], [O, O, X], [Empty, Empty, Empty]]

  /** Blocked's counts: X to move, and the game is not over. */
  lemma BlockedPosition()
    ensures Count(Blocked, X) == 3 && Count(Blocked, O) == 3 && Count(Blocked, Empty) == 3
    ensures NextPlayer(Blocked) == X && !IsTerminal(Blocked)
  {
    var b := Blocked;
    CountCells(b, X);
    CountCells(b, O);
    CountCells(b, Empty);
    assert !Uniform(b, 0) && !Uniform(b, 1) && Uniform(b, 2);
    LineWinnerIsFirstUniform(b, 2);
  }

  /** Blocked, X at (2, 0) and O at (2, 1): X's only move fills the board without a line. */
  const BlockedLeftReply: Board := [[X, X, O], [O, O, X], [X, O, Empty]]

  /** X to move on BlockedLeftReply, no line yet, and (2, 2) is the only free cell. */
  lemma BlockedLeftReplyPosition()
    ensures NextPlayer(BlockedLeftReply) == X && !IsTerminal(BlockedLeftReply)
    ensures forall m :: m in LegalMoves(BlockedLeftReply) ==> m == Move(2, 2)
  {
    var b := BlockedLeftReply;
    CountCells(b, X);
    CountCells(b, O);
    CountCells(b, Empty);
    assert !Uniform(b, 0) && !Uniform(b, 1) && !Uniform(b, 2) && !Uniform(b, 3);
    assert !Uniform(b, 4) && !Uniform(b, 5) && !Uniform(b, 6) && !Uniform(b, 7);
    NoUniformNoWinner(b);
  }

  /** X fills the last cell of BlockedLeftReply: a full board with no line. */
  lemma BlockedLeftReplyFull()
    ensures MinScoreAfter(BlockedLeftReply, Move(2, 2)) == 0
  {
    BlockedLeftReplyPosition();
    var b := BlockedLeftReply;
    var c := Result(b, Move(2, 2)).board;
    assert c == b[2 := b[2][2 := X]];
    assert !Uniform(c, 0) && !Uniform(c, 1) && !Uniform(c, 2) && !Uniform(c, 3);
    assert !Uniform(c, 4) && !Uniform(c, 5) && !Uniform(c, 6) && !Uniform(c, 7);
    NoUniformNoWinner(c);
  }

  /** BlockedLeftReply is a draw. */
  lemma BlockedLeftReplyDraws()
    ensures MaxScore(BlockedLeftReply) == 0
  {
    BlockedLeftReplyPosition();
    BlockedLeftReplyFull();
    MaxScoreIsBest(BlockedLeftReply);
  }

  /** X at (2, 0) on Blocked: O can force at most a draw for X. */
  lemma BlockedLeftAtMostDraw()
    ensures MinScoreAfter(Blocked, Move(2, 0)) <= 0
  {
    BlockedPosition();
    var c := Result(Blocked, Move(2, 0)).board;
    assert c == Blocked[2 := Blocked[2][0 := X]];
    assert NextPlayer(c) == O && Count(c, Empty) == 2;
    assert !Uniform(c, 0) && !Uniform(c, 1) && !Uniform(c, 2) && !Uniform(c, 3);
    assert !Uniform(c, 4) && !Uniform(c, 5) && !Uniform(c, 6) && !Uniform(c, 7);
    NoUniformNoWinner(c);
    SameBoard(Result(c, Move(2, 1)).board, BlockedLeftReply);
    BlockedLeftReplyDraws();
    MinScoreIsBest(c);
    assert Move(2, 1) in LegalMoves(c);
  }

  /** X at (2, 1) or (2, 2) on Blocked: O takes the anti-diagonal with (2, 0). */
  lemma BlockedRightLoses(m: Move)
    requires m == Move(2, 1) || m == Move(2, 2)
    ensures MinScoreAfter(Blocked, m) == -1
  {
    BlockedPosition();
    var c := Result(Blocked, m).board;
    assert c == Blocked[2 := [Empty, Empty, Empty][m.col := X]];
    assert NextPlayer(c) == O && Count(c, Empty) == 2;
    assert !Uniform(c, 0) && !Uniform(c, 1) && !Uniform(c, 2) && !Uniform(c, 3);
    assert !Uniform(c, 4) && !Uniform(c, 5) && !Uniform(c, 6) && !Uniform(c, 7);
    NoUniformNoWinner(c);
    var g := Result(c, Move(2, 0)).board;
    assert g == c[2 := c[2][0 := O]];
    assert !Uniform(g, 0) && !Uniform(g, 1) && !Uniform(g, 2) && !Uniform(g, 3);
    assert !Uniform(g, 4) && !Uniform(g, 5) && !Uniform(g, 6) && Uniform(g, 7);
    LineWinnerIsFirstUniform(g, 7);
    MinScoreIsBest(c);
    assert Move(2, 0) in LegalMoves(c);
  }

  /** Blocked is worth at most a draw to X. */
  lemma BlockedAtMostDraw()
    ensures MaxScore(Blocked) <= 0
  {
    BlockedPosition();
    MaxScoreIsBest(Blocked);
    forall m | m in LegalMoves(Blocked)
      ensures MinScoreAfter(Blocked, m) <= 0
    {
      BlockedMoveAtMostDraw(m);
    }
  }

  /** Each of X's three moves on Blocked is worth at most a draw. */
  lemma BlockedMoveAtMostDraw(m: Move)
    requires At(Blocked, m) == Empty
    ensures MinScoreAfter(Blocked, m) <= 0
  {
    assert m.row == 2;
    if m.col == 0 {
      BlockedLeftAtMostDraw();
    } else {
      BlockedRightLoses(m);
    }
  }

  /** X at (1, 2) on XToWin: O blocks at (0, 2), and the game is then at most a draw for X. */
  lemma XToWinMiddleAtMostDraw()
    ensures MinScoreAfter(XToWin, Move(1, 2)) <= 0
  {
    XToWinPosition();
    var c := Result(XToWin, Move(1, 2)).board;
    assert c == XToWin[1 := XToWin[1][2 := X]];
    assert NextPlayer(c) == O && Count(c, Empty) == 4;
    assert !Uniform(c, 0) && !Uniform(c, 1) && Uniform(c, 2);
    LineWinnerIsFirstUniform(c, 2);
    SameBoard(Result(c, Move(0, 2)).board, Blocked);
    BlockedAtMostDraw();
    MinScoreIsBest(c);
    assert Move(0, 2) in LegalMoves(c);
  }

  /** X at (0, 2) on XToWin completes the top row. */
  lemma XToWinTopRowWins()
    ensures LineWinner(Result(XToWin, Move(0, 2)).board) == X
    ensures MinScoreAfter(XToWin, Move(0, 2)) == 1
  {
    XToWinPosition();
    var c := Result(XToWin, Move(0, 2)).board;
    assert c == XToWin[0 := XToWin[0][2 := X]];
    LineWinnerIsFirstUniform(c, 0);
  }

  /** Every other legal move on XToWin is worth at most a draw to X. */
  lemma XToWinOthersAtMostDraw(m: Move)
    requires m in LegalMoves(XToWin) && m != Move(0, 2)
    ensures MinScoreAfter(XToWin, m) <= 0
  {
    if m.row == 2 {
      XToWinBottomRowLoses(m);
    } else {
      assert m == Move(1, 2);
      XToWinMiddleAtMostDraw();
    }
  }

  /** X to move on [[X, X, -], [O, O, -], [-, -, -]]: completing the top row wins, so the
      position is worth 1; every other legal move is worth at most a draw, so (0, 2) is the
      only move minimax can return. */
  lemma ImmediateWinForX()
    ensures NextPlayer(XToWin) == X && !IsTerminal(XToWin)
    ensures LineWinner(Result(XToWin, Move(0, 2)).board) == X
    ensures MinScoreAfter(XToWin, Move(0, 2)) == 1 && MaxScore(XToWin) == 1
    ensures forall m :: m in LegalMoves(XToWin) && m != Move(0, 2) ==> MinScoreAfter(XToWin, m) <= 0
  {
    XToWinPosition();
    XToWinTopRowWins();
    MaxScoreIsBest(XToWin);
    forall m | m in LegalMoves(XToWin) && m != Move(0, 2)
      ensures MinScoreAfter(XToWin, m) <= 0
    {
      XToWinOthersAtMostDraw(m);
    }
  }

  /** `minimax` on XToWin returns the winning move (0, 2). */
  method MinimaxTakesImmediateWin() returns (action: Wrappers.Option<Move>)
    ensures action == Wrappers.Some(Move(0, 2))
  {
    ImmediateWinForX();
    action := Minimax(XToWin);
  }

  /** Both full rows masked by an all-EMPTY top row, X to move. */
  const MaskedRows: Board := [[Empty, Empty, Empty], [O, O, O], [X, X, X]]

  /** The masked position is balanced, X is to move and the game goes on. It is reachable
      by play because row 0 is EMPTY on every board leading to it (TopRowEmptyGoesOn). */
  lemma MaskedRowsPosition()
    ensures Balanced(MaskedRows) && NextPlayer(MaskedRows) == X && !IsTerminal(MaskedRows)
    ensures Uniform(MaskedRows, 2) && LineValue(MaskedRows, 2) == X
  {
    var b := MaskedRows;
    CountBoard(b, Empty);
    CountBoard(b, X);
    CountBoard(b, O);
    LineWinnerIsFirstUniform(b, 0);
  }

  /** Any move X makes on MaskedRows breaks up the top row, so O's row 1 is found first. */
  lemma MaskedRowsMove(m: Move)
    requires NextPlayer(MaskedRows) == X && At(MaskedRows, m) == Empty
    ensures LineWinner(Result(MaskedRows, m).board) == O
    ensures MinScoreAfter(MaskedRows, m) == -1
  {
    var b := MaskedRows;
    assert m.row == 0;
    var c := Result(b, m).board;
    var top := [Empty, Empty, Empty][m.col := X];
    assert c == b[0 := top];
    assert !Uniform(c, 0) by {
      assert top[m.col] == X && top[if m.col == 0 then 1 else 0] == Empty;
    }
    LineWinnerIsFirstUniform(c, 1);
  }

  /** X to move on [[-, -, -], [O, O, O], [X, X, X]]: the all-EMPTY top row masks both
      full rows, but every move X makes breaks it up and reveals O's row 1, which the
      rows-first scan finds before X's row 2. X completed a line first and still loses:
      every legal move hands O the win, and the position is worth -1. */
  lemma MoveRevealsOpponentLine()
    ensures Balanced(MaskedRows) && NextPlayer(MaskedRows) == X && !IsTerminal(MaskedRows)
    ensures Uniform(MaskedRows, 2) && LineValue(MaskedRows, 2) == X
    ensures forall m :: m in LegalMoves(MaskedRows) ==> LineWinner(Result(MaskedRows, m).board) == O
    ensures MaxScore(MaskedRows) == -1
  {
    MaskedRowsPosition();
    forall m | m in LegalMoves(MaskedRows)
      ensures LineWinner(Result(MaskedRows, m).board) == O
      ensures MinScoreAfter(MaskedRows, m) == -1
    {
      MaskedRowsMove(m);
    }
    MaxScoreIsBest(MaskedRows);
  }
}
