/**
  `DrunkenBishopGenerator`: the walker object of drunk.py. Its fields are
  updated in place by the four move methods, by the walk loop of
  generateAscii and by resetBoard; each method is proved against the state
  functions of module Grid, and its output against module Render.
 */
module Generator {
  import opened Wrappers
  import opened Grid
  import opened Decode
  import opened Rendering

  class DrunkenBishopGenerator {
    var currCol: int
    var currRow: int
    var board: Board

    /** The fields as a state value. */
    ghost function State(): Walker
      reads this
    {
      Walker(Pos(currCol, currRow), board)
    }

    ghost predicate Valid()
      reads this
    {
      Grid.Valid(State())
    }

    /** `__init__`: an empty board and the token on the start cell. */
    constructor ()
      ensures State() == Initial()
      ensures Valid()
    {
      InitialTotal();
      currCol := StartCol;
      currRow := StartRow;
      board := EmptyBoard();
    }

    method MoveUpLeft()
      modifies this
      ensures State() == Walker(Move(old(State()).pos, UpLeft), old(board))
    {
      if currCol > 0 {
        currCol := currCol - 1;
      }
      if currRow > 0 {
        currRow := currRow - 1;
      }
    }

    method MoveUpRight()
      modifies this
      ensures State() == Walker(Move(old(State()).pos, UpRight), old(board))
    {
      if currCol < NumCols - 1 {
        currCol := currCol + 1;
      }
      if currRow > 0 {
        currRow := currRow - 1;
      }
    }

    method MoveDownLeft()
      modifies this
      ensures State() == Walker(Move(old(State()).pos, DownLeft), old(board))
    {
      if currCol > 0 {
        currCol := currCol - 1;
      }
      if currRow < NumRows - 1 {
        currRow := currRow + 1;
      }
    }

    method MoveDownRight()
      modifies this
      ensures State() == Walker(Move(old(State()).pos, DownRight), old(board))
    {
      if currCol < NumCols - 1 {
        currCol := currCol + 1;
      }
      if currRow < NumRows - 1 {
        currRow := currRow + 1;
      }
    }

    /**
      generateAscii on an already parsed fingerprint: walks all its moves,
      renders the board with "S" at the start cell and "E" at the end cell,
      and resets. The rendered text is the value handed to prettyPrint. When
      readBoard raises, the exception skips the reset and the walk's state stays.
     */
    method GenerateAscii(octets: seq<Octet>) returns (r: Result<string, Error>)
      requires Valid()
      modifies this
      ensures var t := Run(old(State()), Moves(octets));
        r == Render(t.board, StartCol, StartRow, t.pos.col, t.pos.row)
      ensures r.Ok? ==> State() == Initial()
      ensures r.Err? ==> State() == Run(old(State()), Moves(octets))
    {
      ghost var s0 := State();
      for n := 0 to |octets|
        invariant Valid()
        invariant State() == Run(s0, Moves(octets[..n]))
      {
        WalkOctet(octets[n]);
        MovesSnoc(octets, n);
        RunAppend(s0, Moves(octets[..n]), OctetMoves(octets[n]));
      }
      assert octets[..|octets|] == octets;
      r := ReadBoard(StartCol, StartRow, currCol, currRow);
      if r.Err? {
        return;
      }
      ResetBoard();
    }

    /**
      The body of generateAscii's loop over octets: the four steps selected
      by the bit pairs of `b`, rightmost pair first.
     */
    method WalkOctet(b: Octet)
      requires Valid()
      modifies this
      ensures Valid()
      ensures State() == Run(old(State()), OctetMoves(b))
    {
      var bits := Bits(b);
      BitsLength(b);
      ghost var before := State();
      ghost var ds := OctetMoves(b);
      var i := |bits|;
      ghost var k := 0;
      while i > 1
        invariant 0 <= k <= 4 && i == 8 - 2 * k
        invariant Valid()
        invariant State() == Run(before, ds[..k])
      {
        var step := bits[i - 2..i];
        assert step == PairText(ds[k]) by {
          PairDecodes(b, k);
        }
        TakeStep(step, ds[k]);
        RunSnoc(before, ds, k);
        i, k := i - 2, k + 1;
      }
      assert ds[..4] == ds;
    }

    /**
      The body of generateAscii's loop over bit pairs: the move the pair
      selects, then counting the visit of the cell landed on. The pair is
      always one of the four recognised ones, so the ValueError branch is dead.
     */
    method TakeStep(step: string, ghost d: Direction)
      requires Valid()
      requires step == PairText(d)
      modifies this
      ensures Valid()
      ensures State() == Step(old(State()), d)
    {
      if step == "00" {
        MoveUpLeft();
      } else if step == "01" {
        MoveUpRight();
      } else if step == "10" {
        MoveDownLeft();
      } else if step == "11" {
        MoveDownRight();
      } else {
        assert false;
      }
      // Count the visit to the cell the token landed on.
      board := board[currRow := board[currRow][currCol := board[currRow][currCol] + 1]];
    }

    /**
      readBoard: the glyph of every count, "S" at (start_y, start_x), then "E"
      at (end_y, end_x), padded and joined into text.
     */
    method ReadBoard(startX: int, startY: int, endX: int, endY: int) returns (r: Result<string, Error>)
      requires Valid()
      ensures r == Render(board, startX, startY, endX, endY)
    {
      var ascii: seq<seq<string>> := seq(NumRows, _ => seq(NumCols, _ => ""));
      for i := 0 to NumRows
        invariant |ascii| == NumRows && forall r :: 0 <= r < NumRows ==> |ascii[r]| == NumCols
        invariant forall r, c :: 0 <= r < i && 0 <= c < NumCols ==>
          board[r][c] in FreqToVal && ascii[r][c] == FreqToVal[board[r][c]]
      {
        for j := 0 to NumCols
          invariant |ascii| == NumRows && forall r :: 0 <= r < NumRows ==> |ascii[r]| == NumCols
          invariant forall r, c :: 0 <= r < i && 0 <= c < NumCols ==>
            board[r][c] in FreqToVal && ascii[r][c] == FreqToVal[board[r][c]]
          invariant forall c :: 0 <= c < j ==> board[i][c] in FreqToVal && ascii[i][c] == FreqToVal[board[i][c]]
        {
          if board[i][j] !in FreqToVal {
            return Err(KeyError);
          }
          ascii := ascii[i := ascii[i][j := FreqToVal[board[i][j]]]];
        }
      }
      forall r | 0 <= r < NumRows
        ensures ascii[r] == GlyphGrid(board)[r]
      {
      }
      assert ascii == GlyphGrid(board);
      // Overwrite the start cell with "S", then the end cell with "E".
      var sr, sc := PyIndex(startY, NumRows), PyIndex(startX, NumCols);
      if sr.None? || sc.None? {
        return Err(IndexError);
      }
      ascii := ascii[sr.value := ascii[sr.value][sc.value := "S"]];
      var er, ec := PyIndex(endY, NumRows), PyIndex(endX, NumCols);
      if er.None? || ec.None? {
        return Err(IndexError);
      }
      ascii := ascii[er.value := ascii[er.value][ec.value := "E"]];
      r := Ok(Layout(ascii));
    }

    /** resetBoard: back to the state of a fresh generator. */
    method ResetBoard()
      modifies this
      ensures State() == Initial()
      ensures Valid()
    {
      InitialTotal();
      board := EmptyBoard();
      currCol := StartCol;
      currRow := StartRow;
    }
  }

  /**
    Two calls of generateAscii with the same fingerprint on a fresh generator
    give the same result. On success the first call resets the state. On failure
    the state keeps the first walk's counts, which only grow during the
    second walk, so the count above 16 is still there and it fails in the same way.
   */
  method GenerateTwice(g: DrunkenBishopGenerator, octets: seq<Octet>)
      returns (first: Result<string, Error>, second: Result<string, Error>)
    requires g.State() == Initial()
    modifies g
    ensures second == first
    ensures first.Err? ==> first == Err(KeyError)
    ensures first.Ok? ==> g.State() == Initial()
  {
    InitialTotal();
    first := g.GenerateAscii(octets);
    second := g.GenerateAscii(octets);
    RepeatedWalkFails(octets);
  }

  /**
    From the start, a walk whose board cannot be rendered fails with KeyError
    (the markers are always on the board), and walking the same moves again
    from where it stopped fails with KeyError too.
   */
  lemma RepeatedWalkFails(os: seq<Octet>)
    ensures var t1 := Run(Initial(), Moves(os));
      var t2 := Run(t1, Moves(os));
      Render(t1.board, StartCol, StartRow, t1.pos.col, t1.pos.row).Err? ==>
        Render(t1.board, StartCol, StartRow, t1.pos.col, t1.pos.row) == Err(KeyError) &&
        Render(t2.board, StartCol, StartRow, t2.pos.col, t2.pos.row) == Err(KeyError)
  {
    InitialTotal();
    var t1 := Run(Initial(), Moves(os));
    var t2 := Run(t1, Moves(os));
    RenderFails(t1.board, StartCol, StartRow, t1.pos.col, t1.pos.row);
    RenderFails(t2.board, StartCol, StartRow, t2.pos.col, t2.pos.row);
    if Render(t1.board, StartCol, StartRow, t1.pos.col, t1.pos.row).Err? {
      var i, j :| 0 <= i < NumRows && 0 <= j < NumCols && t1.board[i][j] > 16;
      RunMonotone(t1, Moves(os));
      assert t2.board[i][j] > 16;
    }
  }

  /** A walk from the start adds four visits per octet: 64 for a 16-octet fingerprint. */
  lemma FingerprintTotal(os: seq<Octet>)
    ensures Total(Run(Initial(), Moves(os)).board) == 4 * |os|
  {
    var s0 := Initial();
    var ds := Moves(os);
    assert |ds| == 4 * |os|;
    assert Total(s0.board) == 0 by {
      InitialTotal();
    }
    RunTotal(s0, ds);
  }


  function Repeat(d: Direction, n: nat): (ds: seq<Direction>)
    ensures |ds| == n
  {
    seq(n, _ => d)
  }

  /** The octet whose four bit pairs all select d: 00, 55, aa or ff. */
  function UniformOctet(d: Direction): Octet {
    match d
    case UpLeft => 0x00
    case UpRight => 0x55
    case DownLeft => 0xaa
    case DownRight => 0xff
  }

  /** The corner a walk in direction d runs into. */
  function Corner(d: Direction): Pos {
    Pos(if ColDelta(d) < 0 then 0 else NumCols - 1, if RowDelta(d) < 0 then 0 else NumRows - 1)
  }

  /** Where n moves in direction d lead from p: each axis advances until it reaches the edge. */
  function Approach(p: Pos, d: Direction, n: nat): Pos {
    Pos(if ColDelta(d) < 0 then (if p.col - n < 0 then 0 else p.col - n)
        else (if p.col + n > NumCols - 1 then NumCols - 1 else p.col + n),
        if RowDelta(d) < 0 then (if p.row - n < 0 then 0 else p.row - n)
        else (if p.row + n > NumRows - 1 then NumRows - 1 else p.row + n))
  }

  lemma UniformOctetMoves(d: Direction)
    ensures OctetMoves(UniformOctet(d)) == Repeat(d, 4)
  {
    match d
    case UpLeft => assert Shr(0x00, 2) == 0 && Shr(0x00, 4) == 0 && Shr(0x00, 6) == 0;
    case UpRight => assert Shr(0x55, 2) == 0x15 && Shr(0x55, 4) == 0x05 && Shr(0x55, 6) == 0x01;
    case DownLeft => assert Shr(0xaa, 2) == 0x2a && Shr(0xaa, 4) == 0x0a && Shr(0xaa, 6) == 0x02;
    case DownRight => assert Shr(0xff, 2) == 0x3f && Shr(0xff, 4) == 0x0f && Shr(0xff, 6) == 0x03;
  }

  lemma {:induction false} UniformMoves(os: seq<Octet>, d: Direction)
    requires forall i :: 0 <= i < |os| ==> os[i] == UniformOctet(d)
    ensures Moves(os) == Repeat(d, 4 * |os|)
  {
    if os != [] {
      UniformMoves(os[..|os| - 1], d);
      UniformOctetMoves(d);
      assert Repeat(d, 4 * |os|) == Repeat(d, 4 * (|os| - 1)) + Repeat(d, 4);
    }
  }

  lemma ApproachStep(p: Pos, d: Direction, n: nat)
    requires InBounds(p) && n > 0
    ensures Approach(Move(p, d), d, n - 1) == Approach(p, d, n)
  {
  }

  lemma {:induction false} RunRepeatPos(s: Walker, d: Direction, n: nat)
    requires Grid.Valid(s)
    ensures Run(s, Repeat(d, n)).pos == Approach(s.pos, d, n)
    decreases n
  {
    if n > 0 {
      assert Repeat(d, n)[0] == d && Repeat(d, n)[1..] == Repeat(d, n - 1);
      RunRepeatPos(Step(s, d), d, n - 1);
      ApproachStep(s.pos, d, n);
    }
  }

  /** Once in its corner, a walk in direction d stays there and counts every step on the corner cell. */
  lemma {:induction false} RunRepeatCorner(s: Walker, d: Direction, n: nat)
    requires Grid.Valid(s) && s.pos == Corner(d)
    ensures Run(s, Repeat(d, n)).pos == Corner(d)
    ensures var c := Corner(d); Run(s, Repeat(d, n)).board[c.row][c.col] == s.board[c.row][c.col] + n
    decreases n
  {
    if n > 0 {
      assert Repeat(d, n)[0] == d && Repeat(d, n)[1..] == Repeat(d, n - 1);
      StepEffect(s, d);
      RunRepeatCorner(Step(s, d), d, n - 1);
    }
  }

  /**
    A fingerprint of 16 equal octets 00, 55, aa or ff drives the token into a
    corner within 16 moves and keeps it there, so the corner count reaches at
    least 48.
   */
  lemma UniformWalk(d: Direction, os: seq<Octet>)
    requires |os| == 16 && forall i :: 0 <= i < |os| ==> os[i] == UniformOctet(d)
    ensures var t := Run(Initial(), Moves(os));
      t.pos == Corner(d) && t.board[Corner(d).row][Corner(d).col] >= 48
  {
    var s0 := Initial();
    assert Valid(s0) by {
      InitialTotal();
    }
    assert Moves(os) == Repeat(d, 16) + Repeat(d, 48) by {
      UniformMoves(os, d);
      assert Repeat(d, 64) == Repeat(d, 16) + Repeat(d, 48);
    }
    RunAppend(s0, Repeat(d, 16), Repeat(d, 48));
    var mid := Run(s0, Repeat(d, 16));
    assert mid.pos == Corner(d) by {
      RunRepeatPos(s0, d, 16);
    }
    RunRepeatCorner(mid, d, 48);
  }

  /** For such a fingerprint readBoard raises KeyError: no glyph exists beyond 16. */
  lemma UniformFingerprintFails(d: Direction, os: seq<Octet>)
    requires |os| == 16 && forall i :: 0 <= i < |os| ==> os[i] == UniformOctet(d)
    ensures var t := Run(Initial(), Moves(os));
      Render(t.board, StartCol, StartRow, t.pos.col, t.pos.row) == Err(KeyError)
  {
    var t := Run(Initial(), Moves(os));
    UniformWalk(d, os);
    RenderFails(t.board, StartCol, StartRow, t.pos.col, t.pos.row);
  }
}
