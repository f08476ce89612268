/**
 * The tic-tac-toe game whose moves are (row, column) pairs: a numpy 3x3 board of
 * marks updated in place and the number of the player to move, with the methods
 * the minimax engine calls.
 */
module TupleTicTacToe {
  import opened Grids
  import opened TicTacToeBoard

  /** A move (i, j) the board can index: numpy counts negative indices from the end. */
  predicate Addressable(move: Pos) {
    -3 <= move.row < 3 && -3 <= move.col < 3
  }

  class TicTacToe {
    var board: array2<int>
    var currentPlayer: int

    /** A 3x3 board holding only 0 (empty), 1 (X) and 2 (O), with X or O to move. */
    ghost predicate Valid()
      reads this, board
    {
      board.Length0 == 3 && board.Length1 == 3 &&
      (currentPlayer == 1 || currentPlayer == 2) && Marks(Snapshot(board))
    }

    /** The board's cells, row by row. */
    function Cells(): (g: Grid)
      requires Valid()
      reads this, board
      ensures IsGrid(g)
    {
      Snapshot(board)
    }

    /** __init__: an empty board, player 1 (X) to move. */
    constructor()
      ensures Valid() && fresh(board)
      ensures Cells() == EmptyBoard && currentPlayer == 1
    {
      var zeros := Zeros();
      board := zeros;
      currentPlayer := 1;
    }

    /** possible_moves: the empty cells, collected by a row-major double loop. */
    method PossibleMoves() returns (moves: seq<Pos>)
      requires Valid()
      ensures moves == EmptyCells(Cells())
    {
      ghost var g := Cells();
      moves := [];
      for i := 0 to 3
        invariant moves == EmptyBefore(g, i)
      {
        ScanRow(g, i);
        for j := 0 to 3
          invariant moves == EmptyBefore(g, i) + RowEmpties(g, i, j)
        {
          ScanStep(g, i, j);
          if board[i, j] == 0 {
            moves := moves + [Pos(i, j)];
          }
        }
      }
    }

    /** make_move: the player to move marks the cell. */
    method MakeMove(move: Pos)
      requires Valid() && Addressable(move)
      modifies board
      ensures Valid()
      ensures Cells() == Update(old(Cells()), Wrap(move), currentPlayer)
    {
      ghost var before := Cells();
      board[PyIndex(move.row), PyIndex(move.col)] := currentPlayer;
      GridExtensionality(Cells(), Update(before, Wrap(move), currentPlayer));
      MarksUpdate(before, Wrap(move), currentPlayer);
    }

    /** unmake_move: the cell is emptied again. */
    method UnmakeMove(move: Pos)
      requires Valid() && Addressable(move)
      modifies board
      ensures Valid()
      ensures Cells() == Update(old(Cells()), Wrap(move), 0)
    {
      ghost var before := Cells();
      board[PyIndex(move.row), PyIndex(move.col)] := 0;
      GridExtensionality(Cells(), Update(before, Wrap(move), 0));
      MarksUpdate(before, Wrap(move), 0);
    }

    /** check_winner. */
    method CheckWinner() returns (winner: int)
      requires Valid()
      ensures winner == Winner(Cells()) && 0 <= winner <= 2
    {
      winner := ScanWinner(board);
      WinnerCharacterised(Cells());
    }

    /** lose: the opponent of the player to move has won. */
    method Lose() returns (lost: bool)
      requires Valid()
      ensures lost == Loses(Cells(), currentPlayer)
    {
      var winner := CheckWinner();
      lost := winner == 3 - currentPlayer;
    }

    /** is_over: someone has won, or no move is left (the move list is only built when no one has won). */
    method IsOver() returns (over: bool)
      requires Valid()
      ensures over == GameOver(Cells())
    {
      var winner := CheckWinner();
      if winner != 0 {
        return true;
      }
      var moves := PossibleMoves();
      over := |moves| == 0;
    }

    /** scoring: +100, -100 or 0 from the point of view of the player to move. */
    method Scoring() returns (score: int)
      requires Valid()
      ensures score == Score(Winner(Cells()), currentPlayer)
    {
      var winner := CheckWinner();
      if winner == currentPlayer {
        score := 100;
      } else if winner == 3 - currentPlayer {
        score := -100;
      } else {
        score := 0;
      }
    }
  }

  /**
   * What the minimax search does with every move it tries: make it, then unmake it.
   * The board comes back unchanged, and in between the move has been spent.
   */
  method TryMove(game: TicTacToe, move: Pos) returns (offered: seq<Pos>)
    requires game.Valid() && move in EmptyCells(game.Cells())
    modifies game.board
    ensures game.Valid()
    ensures game.Cells() == old(game.Cells())
    ensures forall q :: q in offered <==> q in old(EmptyCells(game.Cells())) && q != move
  {
    ghost var before := game.Cells();
    EmptyCellsCharacterised(before, move);
    game.MakeMove(move);
    offered := game.PossibleMoves();
    forall q
      ensures q in offered <==> q in EmptyCells(before) && q != move
    {
      MoveConsumesCell(before, move, game.currentPlayer, q);
    }
    game.UnmakeMove(move);
    UnmakeUndoesMake(before, move, game.currentPlayer);
  }
}
