/**
  The walk of the Drunken Bishop on its 17 x 9 board: the clamped diagonal
  moves, the visit counters, and whole walks as sequences of moves.
  This is the state-change part of `DrunkenBishopGenerator` in drunk.py,
  written as functions on a state value that the class methods are proved against.
 */
module Grid {

  /** Board dimensions (`num_col`, `num_row`). */
  const NumCols: int := 17
  const NumRows: int := 9

  /** `CoordinateConstants.START_COL` and `START_ROW`: the centre of the board. */
  const StartCol: int := 8
  const StartRow: int := 4

  datatype Direction = UpLeft | UpRight | DownLeft | DownRight

  datatype Pos = Pos(col: int, row: int)

  predicate InBounds(p: Pos) {
    0 <= p.col < NumCols && 0 <= p.row < NumRows
  }

  /** The unclamped displacement of a direction on each axis. */
  function ColDelta(d: Direction): int {
    if d == UpLeft || d == DownLeft then -1 else 1
  }

  function RowDelta(d: Direction): int {
    if d == UpLeft || d == UpRight then -1 else 1
  }

  /**
    One diagonal step, clamped separately on each axis: an axis only moves
    when its new coordinate stays inside the board.
   */
  function Move(p: Pos, d: Direction): (r: Pos)
    ensures InBounds(p) ==> InBounds(r)
    ensures r.col == p.col || r.col == p.col + ColDelta(d)
    ensures r.row == p.row || r.row == p.row + RowDelta(d)
    ensures InBounds(p) ==> (r.col == p.col + ColDelta(d) <==> 0 <= p.col + ColDelta(d) < NumCols)
    ensures InBounds(p) ==> (r.row == p.row + RowDelta(d) <==> 0 <= p.row + RowDelta(d) < NumRows)
  {
    match d
    case UpLeft =>
      Pos(if p.col > 0 then p.col - 1 else p.col, if p.row > 0 then p.row - 1 else p.row)
    case UpRight =>
      Pos(if p.col < NumCols - 1 then p.col + 1 else p.col, if p.row > 0 then p.row - 1 else p.row)
    case DownLeft =>
      Pos(if p.col > 0 then p.col - 1 else p.col, if p.row < NumRows - 1 then p.row + 1 else p.row)
    case DownRight =>
      Pos(if p.col < NumCols - 1 then p.col + 1 else p.col, if p.row < NumRows - 1 then p.row + 1 else p.row)
  }

  /** The column a move ends on depends only on the column it starts from, and likewise for rows. */
  lemma MoveAxesIndependent(p: Pos, q: Pos, d: Direction)
    ensures p.col == q.col ==> Move(p, d).col == Move(q, d).col
    ensures p.row == q.row ==> Move(p, d).row == Move(q, d).row
  {
  }

  /** Visit counters, indexed `board[row][col]`. */
  type Board = seq<seq<nat>>

  predicate Shaped(b: Board) {
    |b| == NumRows && forall i :: 0 <= i < |b| ==> |b[i]| == NumCols
  }

  /** The walker's state: the fields `curr_col`, `curr_row` and `board`. */
  datatype Walker = Walker(pos: Pos, board: Board)

  predicate Valid(s: Walker) {
    InBounds(s.pos) && Shaped(s.board)
  }

  function EmptyBoard(): (b: Board)
    ensures Shaped(b)
    ensures forall i, j :: 0 <= i < NumRows && 0 <= j < NumCols ==> b[i][j] == 0
  {
    seq(NumRows, _ => seq(NumCols, _ => 0))
  }

  /** The state after construction and after every reset. */
  function Initial(): (s: Walker)
    ensures Valid(s) && s.pos == Pos(StartCol, StartRow)
    ensures forall i, j :: 0 <= i < NumRows && 0 <= j < NumCols ==> s.board[i][j] == 0
  {
    Walker(Pos(StartCol, StartRow), EmptyBoard())
  }

  /** Counting one visit to the current position. */
  function Visit(s: Walker): Walker
    requires Valid(s)
  {
    var r, c := s.pos.row, s.pos.col;
    Walker(s.pos, s.board[r := s.board[r][c := s.board[r][c] + 1]])
  }

  /** One step of the walk: move, then count the cell landed on. */
  function Step(s: Walker, d: Direction): (t: Walker)
    requires Valid(s)
    ensures Valid(t)
  {
    Visit(Walker(Move(s.pos, d), s.board))
  }

  /** The state after a whole sequence of steps. */
  function Run(s: Walker, ds: seq<Direction>): (t: Walker)
    requires Valid(s)
    ensures Valid(t)
    decreases |ds|
  {
    if ds == [] then s else Run(Step(s, ds[0]), ds[1..])
  }

  function RowSum(row: seq<nat>): nat {
    if row == [] then 0 else row[0] + RowSum(row[1..])
  }

  /** The sum of all visit counters. */
  function Total(b: Board): nat {
    if b == [] then 0 else RowSum(b[0]) + Total(b[1..])
  }

  lemma {:induction false} RowSumIncrement(row: seq<nat>, c: nat)
    requires c < |row|
    ensures RowSum(row[c := row[c] + 1]) == RowSum(row) + 1
  {
    if c > 0 {
      RowSumIncrement(row[1..], c - 1);
      assert row[c := row[c] + 1][1..] == row[1..][c - 1 := row[c] + 1];
    }
  }

  lemma {:induction false} TotalIncrement(b: Board, r: nat, c: nat)
    requires r < |b| && c < |b[r]|
    ensures Total(b[r := b[r][c := b[r][c] + 1]]) == Total(b) + 1
  {
    if r == 0 {
      RowSumIncrement(b[0], c);
      assert b[r := b[r][c := b[r][c] + 1]][1..] == b[1..];
    } else {
      TotalIncrement(b[1..], r - 1, c);
      assert b[r := b[r][c := b[r][c] + 1]][1..] == b[1..][r - 1 := b[r][c := b[r][c] + 1]];
    }
  }

  lemma {:induction false} RowSumZero(n: nat)
    ensures RowSum(seq(n, _ => 0)) == 0
  {
    if n > 0 {
      RowSumZero(n - 1);
      assert seq(n, _ => 0)[1..] == seq(n - 1, _ => 0);
    }
  }

  /** The initial board has no visits, so the start cell is not counted before the first move. */
  lemma InitialTotal()
    ensures Valid(Initial())
    ensures Total(Initial().board) == 0
  {
    var b := EmptyBoard();
    RowSumZero(NumCols);
    var k := NumRows;
    while k > 0
      invariant 0 <= k <= NumRows
      invariant Total(b[k..]) == 0
    {
      k := k - 1;
      assert b[k..][0] == seq(NumCols, _ => 0);
      assert b[k..][1..] == b[k + 1..];
    }
  }

  /**
    A step moves the token as `Move` does and increments exactly one counter,
    the one at the new position, by exactly one.
   */
  lemma StepEffect(s: Walker, d: Direction)
    requires Valid(s)
    ensures Step(s, d).pos == Move(s.pos, d)
    ensures var p := Step(s, d).pos;
      Step(s, d).board[p.row][p.col] == s.board[p.row][p.col] + 1
    ensures forall i, j :: 0 <= i < NumRows && 0 <= j < NumCols && Pos(j, i) != Step(s, d).pos ==>
      Step(s, d).board[i][j] == s.board[i][j]
    ensures Total(Step(s, d).board) == Total(s.board) + 1
  {
    var p := Move(s.pos, d);
    TotalIncrement(s.board, p.row, p.col);
  }

  lemma {:induction false} RunAppend(s: Walker, a: seq<Direction>, b: seq<Direction>)
    requires Valid(s)
    ensures Run(s, a + b) == Run(Run(s, a), b)
    decreases |a|
  {
    if a != [] {
      assert (a + b)[0] == a[0];
      assert (a + b)[1..] == a[1..] + b;
      RunAppend(Step(s, a[0]), a[1..], b);
    } else {
      assert a + b == b;
    }
  }

  /** Extending a walk by one move is one more step. */
  lemma RunSnoc(s: Walker, ds: seq<Direction>, k: nat)
    requires Valid(s) && k < |ds|
    ensures Run(s, ds[..k + 1]) == Step(Run(s, ds[..k]), ds[k])
  {
    assert ds[..k + 1] == ds[..k] + [ds[k]];
    RunAppend(s, ds[..k], [ds[k]]);
  }

  /** Each step adds exactly one visit: after n steps the counters sum to n more. */
  lemma {:induction false} RunTotal(s: Walker, ds: seq<Direction>)
    requires Valid(s)
    ensures Total(Run(s, ds).board) == Total(s.board) + |ds|
    decreases |ds|
  {
    if ds != [] {
      StepEffect(s, ds[0]);
      RunTotal(Step(s, ds[0]), ds[1..]);
    }
  }

  /** Visit counters never decrease during a walk. */
  lemma {:induction false} RunMonotone(s: Walker, ds: seq<Direction>)
    requires Valid(s)
    ensures forall i, j :: 0 <= i < NumRows && 0 <= j < NumCols ==> Run(s, ds).board[i][j] >= s.board[i][j]
    decreases |ds|
  {
    if ds != [] {
      StepEffect(s, ds[0]);
      RunMonotone(Step(s, ds[0]), ds[1..]);
    }
  }
}
