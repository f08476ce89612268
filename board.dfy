/**
 * The rules of tic-tac-toe shared by both game classes: a 3x3 board whose cells
 * hold 0 (empty), 1 (X) or 2 (O); the winner as check_winner finds it, the empty
 * cells as possible_moves lists them, and the lose, is_over and scoring verdicts.
 * These are the specification functions the classes' methods are proved against.
 */
module TicTacToeBoard {
  import opened Grids

  /** The board of a new game: every cell empty. */
  const EmptyBoard: Grid := [[0, 0, 0], [0, 0, 0], [0, 0, 0]]

  /** Every cell holds a mark the game uses: 0, 1 or 2. */
  ghost predicate Marks(g: Grid)
    requires IsGrid(g)
  {
    forall p :: InBoard(p) ==> 0 <= At(g, p) <= 2
  }

  /** Writing 0, 1 or 2 into a cell keeps the board to the marks the game uses. */
  lemma MarksUpdate(g: Grid, p: Pos, v: int)
    requires IsGrid(g) && InBoard(p) && Marks(g) && 0 <= v <= 2
    ensures Marks(Update(g, p, v))
  {
  }

  /** The numpy board read as a grid of rows. */
  function Snapshot(b: array2<int>): (g: Grid)
    requires b.Length0 == 3 && b.Length1 == 3
    reads b
    ensures IsGrid(g) && forall p :: InBoard(p) ==> At(g, p) == b[p.row, p.col]
  {
    [[b[0, 0], b[0, 1], b[0, 2]], [b[1, 0], b[1, 1], b[1, 2]], [b[2, 0], b[2, 1], b[2, 2]]]
  }

  // ---------------------------------------------------------------------------
  // check_winner
  // ---------------------------------------------------------------------------

  /**
   * The eight lines in the order check_winner examines them: rows 0..2, columns
   * 0..2, the main diagonal, the anti-diagonal. The first cell of each is the
   * one whose value check_winner returns.
   */
  function Line(k: int): (line: seq<Pos>)
    requires 0 <= k < 8
    ensures |line| == 3 && InBoard(line[0]) && InBoard(line[1]) && InBoard(line[2])
  {
    if k < 3 then [Pos(k, 0), Pos(k, 1), Pos(k, 2)]
    else if k < 6 then [Pos(0, k - 3), Pos(1, k - 3), Pos(2, k - 3)]
    else if k == 6 then [Pos(0, 0), Pos(1, 1), Pos(2, 2)]
    else [Pos(0, 2), Pos(1, 1), Pos(2, 0)]
  }

  /** Python's chained test a == b == c != 0 on the cells of line k. */
  predicate Complete(g: Grid, k: int)
    requires IsGrid(g) && 0 <= k < 8
  {
    var l := Line(k);
    At(g, l[0]) == At(g, l[1]) && At(g, l[1]) == At(g, l[2]) && At(g, l[2]) != 0
  }

  /** The index of the first complete line among lines k..7, or 8 when there is none. */
  function FirstComplete(g: Grid, k: int): (r: int)
    requires IsGrid(g) && 0 <= k <= 8
    ensures k <= r <= 8 && (r < 8 ==> Complete(g, r))
    ensures forall n :: k <= n < r ==> !Complete(g, n)
    decreases 8 - k
  {
    if k == 8 || Complete(g, k) then k else FirstComplete(g, k + 1)
  }

  /** Reference definition of check_winner: the first cell of the first complete line, else 0. */
  function Winner(g: Grid): int
    requires IsGrid(g)
  {
    var k := FirstComplete(g, 0);
    if k == 8 then 0 else At(g, Line(k)[0])
  }

  /** The winner is the value of the first complete line, in check_winner's order. */
  lemma WinnerIsFirst(g: Grid, k: int)
    requires IsGrid(g) && 0 <= k < 8 && Complete(g, k)
    requires forall n :: 0 <= n < k ==> !Complete(g, n)
    ensures Winner(g) == At(g, Line(k)[0])
  {
  }

  /**
   * check_winner's verdict: 0 exactly when no line holds three equal marks; otherwise
   * the mark of such a line, which on a board of marks is player 1 or player 2.
   */
  lemma WinnerCharacterised(g: Grid)
    requires IsGrid(g)
    ensures Winner(g) == 0 <==> forall k :: 0 <= k < 8 ==> !Complete(g, k)
    ensures Winner(g) != 0 ==>
      exists k :: 0 <= k < 8 && Complete(g, k) &&
        Winner(g) == At(g, Line(k)[0]) == At(g, Line(k)[1]) == At(g, Line(k)[2])
    ensures Marks(g) ==> 0 <= Winner(g) <= 2
  {
    var k := FirstComplete(g, 0);
    if k < 8 {
      assert Winner(g) == At(g, Line(k)[0]) == At(g, Line(k)[1]) == At(g, Line(k)[2]);
    }
  }

  /** check_winner: the row loop, the column loop, then the two diagonals, each returning early. */
  method ScanWinner(b: array2<int>) returns (winner: int)
    requires b.Length0 == 3 && b.Length1 == 3
    ensures winner == Winner(Snapshot(b))
  {
    ghost var g := Snapshot(b);
    for i := 0 to 3
      invariant forall n :: 0 <= n < i ==> !Complete(g, n)
    {
      if b[i, 0] == b[i, 1] && b[i, 1] == b[i, 2] && b[i, 2] != 0 {
        assert Complete(g, i);
        WinnerIsFirst(g, i);
        return b[i, 0];
      }
    }
    for j := 0 to 3
      invariant forall n :: 0 <= n < 3 + j ==> !Complete(g, n)
    {
      if b[0, j] == b[1, j] && b[1, j] == b[2, j] && b[2, j] != 0 {
        assert Complete(g, 3 + j);
        WinnerIsFirst(g, 3 + j);
        return b[0, j];
      }
    }
    if b[0, 0] == b[1, 1] && b[1, 1] == b[2, 2] && b[2, 2] != 0 {
      assert Complete(g, 6);
      WinnerIsFirst(g, 6);
      return b[0, 0];
    }
    if b[0, 2] == b[1, 1] && b[1, 1] == b[2, 0] && b[2, 0] != 0 {
      assert Complete(g, 7);
      WinnerIsFirst(g, 7);
      return b[0, 2];
    }
    assert !Complete(g, 6) && !Complete(g, 7);
    return 0;
  }

  // ---------------------------------------------------------------------------
  // possible_moves
  // ---------------------------------------------------------------------------

  /** The empty cells of row i among columns 0..j-1, left to right. */
  function RowEmpties(g: Grid, i: int, j: int): (r: seq<Pos>)
    requires IsGrid(g) && 0 <= i < 3 && 0 <= j <= 3
    ensures forall k :: 0 <= k < |r| ==> r[k].row == i && 0 <= r[k].col < j && At(g, r[k]) == 0
    ensures forall k, m :: 0 <= k < m < |r| ==> r[k].col < r[m].col
    ensures forall c :: 0 <= c < j && g[i][c] == 0 ==> Pos(i, c) in r
  {
    if j == 0 then []
    else RowEmpties(g, i, j - 1) + (if g[i][j - 1] == 0 then [Pos(i, j - 1)] else [])
  }

  /** The empty cells of rows 0..i-1, in row-major order. */
  function EmptyBefore(g: Grid, i: int): (r: seq<Pos>)
    requires IsGrid(g) && 0 <= i <= 3
    ensures forall k :: 0 <= k < |r| ==> InBoard(r[k]) && r[k].row < i && At(g, r[k]) == 0
    ensures forall k, m :: 0 <= k < m < |r| ==> Before(r[k], r[m])
    ensures forall p :: InBoard(p) && p.row < i && At(g, p) == 0 ==> p in r
  {
    if i == 0 then []
    else
      var done := EmptyBefore(g, i - 1);
      var row := RowEmpties(g, i - 1, 3);
      assert forall p :: InBoard(p) && p.row == i - 1 && At(g, p) == 0 ==> p in row;
      done + row
  }

  /** One step of the inner loop of possible_moves: cell (i, j) is appended exactly when it is empty. */
  lemma ScanStep(g: Grid, i: int, j: int)
    requires IsGrid(g) && 0 <= i < 3 && 0 <= j < 3
    ensures EmptyBefore(g, i) + RowEmpties(g, i, j + 1) ==
      EmptyBefore(g, i) + RowEmpties(g, i, j) + (if g[i][j] == 0 then [Pos(i, j)] else [])
  {
  }

  /** The end of a row of possible_moves' nested loops. */
  lemma ScanRow(g: Grid, i: int)
    requires IsGrid(g) && 0 <= i < 3
    ensures EmptyBefore(g, i) + RowEmpties(g, i, 3) == EmptyBefore(g, i + 1)
    ensures EmptyBefore(g, i) + RowEmpties(g, i, 0) == EmptyBefore(g, i)
  {
  }

  /** Reference definition of possible_moves: the empty cells in the order of its nested loops. */
  function EmptyCells(g: Grid): seq<Pos>
    requires IsGrid(g)
  {
    EmptyBefore(g, 3)
  }

  /** The moves offered are exactly the empty cells, each once, in row-major order. */
  lemma EmptyCellsCharacterised(g: Grid, p: Pos)
    requires IsGrid(g)
    ensures p in EmptyCells(g) <==> InBoard(p) && At(g, p) == 0
    ensures forall k, m :: 0 <= k < m < |EmptyCells(g)| ==> Before(EmptyCells(g)[k], EmptyCells(g)[m])
    ensures |EmptyCells(g)| == 0 <==> forall q :: InBoard(q) ==> At(g, q) != 0
  {
    var e := EmptyCells(g);
    if |e| != 0 {
      assert InBoard(e[0]) && At(g, e[0]) == 0;
    }
  }

  /** A row with no mark in it offers its three cells. */
  lemma BlankRow(g: Grid, i: int)
    requires IsGrid(g) && 0 <= i < 3 && g[i][0] == 0 && g[i][1] == 0 && g[i][2] == 0
    ensures |RowEmpties(g, i, 3)| == 3
  {
    assert |RowEmpties(g, i, 1)| == 1;
    assert |RowEmpties(g, i, 2)| == 2;
  }

  /** The first i rows of a board without marks offer 3 * i cells. */
  lemma {:induction false} BlankRows(g: Grid, i: int)
    requires IsGrid(g) && (forall p :: InBoard(p) ==> At(g, p) == 0)
    requires 0 <= i <= 3
    ensures |EmptyBefore(g, i)| == 3 * i
  {
    if i > 0 {
      BlankRows(g, i - 1);
      assert At(g, Pos(i - 1, 0)) == 0 && At(g, Pos(i - 1, 1)) == 0 && At(g, Pos(i - 1, 2)) == 0;
      BlankRow(g, i - 1);
    }
  }

  /** A board without marks, such as a new game's, offers all nine cells. */
  lemma BlankBoardMoves(g: Grid)
    requires IsGrid(g) && (forall p :: InBoard(p) ==> At(g, p) == 0)
    ensures |EmptyCells(g)| == 9
    ensures forall p :: InBoard(p) ==> p in EmptyCells(g)
  {
    BlankRows(g, 3);
  }

  /** The board of a new game offers all nine cells. */
  lemma EmptyBoardMoves()
    ensures |EmptyCells(EmptyBoard)| == 9
    ensures forall p :: InBoard(p) ==> p in EmptyCells(EmptyBoard)
  {
    BlankBoardMoves(EmptyBoard);
  }

  /** numpy.zeros((3, 3)): a new array that reads as the empty board. */
  method Zeros() returns (b: array2<int>)
    ensures fresh(b) && b.Length0 == 3 && b.Length1 == 3 && Snapshot(b) == EmptyBoard
  {
    b := new int[3, 3]((i, j) => 0);
    assert Snapshot(b)[0] == [0, 0, 0] && Snapshot(b)[1] == [0, 0, 0] && Snapshot(b)[2] == [0, 0, 0];
  }

  // ---------------------------------------------------------------------------
  // make_move / unmake_move, lose, is_over, scoring
  // ---------------------------------------------------------------------------

  /** unmake_move after make_move on an empty cell gives back the board the search started from. */
  lemma UnmakeUndoesMake(g: Grid, p: Pos, v: int)
    requires IsGrid(g) && InBoard(p) && At(g, p) == 0
    ensures Update(Update(g, p, v), p, 0) == g
  {
    GridExtensionality(Update(Update(g, p, v), p, 0), g);
  }

  /** Marking an empty cell with a player's mark removes exactly that cell from the moves. */
  lemma MoveConsumesCell(g: Grid, p: Pos, v: int, q: Pos)
    requires IsGrid(g) && InBoard(p) && At(g, p) == 0 && v != 0
    ensures q in EmptyCells(Update(g, p, v)) <==> q in EmptyCells(g) && q != p
  {
    EmptyCellsCharacterised(g, q);
    EmptyCellsCharacterised(Update(g, p, v), q);
  }

  /** lose(): the opponent of the player to move has a winning line. */
  predicate Loses(g: Grid, player: int)
    requires IsGrid(g)
  {
    Winner(g) == 3 - player
  }

  /** is_over(): someone has won, or no move is left. */
  predicate GameOver(g: Grid)
    requires IsGrid(g)
  {
    Winner(g) != 0 || |EmptyCells(g)| == 0
  }

  /** The game is over exactly when a line holds three equal marks or the board is full. */
  lemma GameOverCharacterised(g: Grid)
    requires IsGrid(g)
    ensures GameOver(g) <==>
      (exists k :: 0 <= k < 8 && Complete(g, k)) || (forall q :: InBoard(q) ==> At(g, q) != 0)
  {
    WinnerCharacterised(g);
    EmptyCellsCharacterised(g, Pos(0, 0));
  }

  /** A player who has lost is in a finished game. */
  lemma LosingEndsGame(g: Grid, player: int)
    requires IsGrid(g) && (player == 1 || player == 2) && Loses(g, player)
    ensures GameOver(g)
  {
  }

  /** scoring(): +100 when the player to move has won, -100 when the opponent has, else 0. */
  function Score(winner: int, player: int): int {
    if winner == player then 100
    else if winner == 3 - player then -100
    else 0
  }

  /**
   * The score seen by the player to move, on a board of marks: +100 exactly when
   * that player has won, -100 exactly when they have lost, 0 exactly when there is
   * no winner; and the two players' scores are opposite (a zero-sum game).
   */
  lemma ScoreCharacterised(g: Grid, player: int)
    requires IsGrid(g) && Marks(g) && (player == 1 || player == 2)
    ensures Score(Winner(g), player) == 100 <==> Winner(g) == player
    ensures Score(Winner(g), player) == -100 <==> Loses(g, player)
    ensures Score(Winner(g), player) == 0 <==> Winner(g) == 0
    ensures Score(Winner(g), 3 - player) == -Score(Winner(g), player)
  {
    WinnerCharacterised(g);
  }
}
