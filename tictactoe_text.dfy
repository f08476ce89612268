/**
 * The tic-tac-toe game whose moves are "i,j" strings: the same numpy board and
 * player to move as the tuple version, with moves written by possible_moves and
 * read back by make_move and unmake_move, and the human player's input checked
 * by ask_player.
 */
module TextTicTacToe {
  import opened Grids
  import opened TicTacToeBoard
  import opened MoveText

  /** A move string make_move can apply: two integers that index the board (negative ones from the end). */
  predicate Addressable(move: string) {
    && ParseMove(move).Some?
    && -3 <= ParseMove(move).value.row < 3
    && -3 <= ParseMove(move).value.col < 3
  }

  /** The cell an addressable move string marks. */
  function Target(move: string): Pos
    requires Addressable(move)
  {
    Wrap(ParseMove(move).value)
  }

  /** The move strings of some cells, in the same order. */
  function FormatMoves(cells: seq<Pos>): (moves: seq<string>)
    ensures |moves| == |cells|
  {
    if cells == [] then [] else FormatMoves(cells[..|cells| - 1]) + [FormatMove(cells[|cells| - 1])]
  }

  /** The k-th string is the k-th cell's. */
  lemma {:induction false} FormatMovesAt(cells: seq<Pos>)
    ensures forall k :: 0 <= k < |cells| ==> FormatMoves(cells)[k] == FormatMove(cells[k])
  {
    if cells != [] {
      var init := cells[..|cells| - 1];
      FormatMovesAt(init);
      forall k | 0 <= k < |cells| - 1
        ensures FormatMoves(cells)[k] == FormatMove(cells[k])
      {
        assert cells[k] == init[k];
      }
    }
  }

  /** Reference definition of possible_moves for this game: the empty cells, written "i,j". */
  function MoveStrings(g: Grid): seq<string>
    requires IsGrid(g)
  {
    FormatMoves(EmptyCells(g))
  }

  /** The strings offered are exactly those of the empty cells. */
  lemma MoveStringsMember(g: Grid, m: string)
    requires IsGrid(g)
    ensures m in MoveStrings(g) <==> exists p :: InBoard(p) && At(g, p) == 0 && m == FormatMove(p)
  {
    if m in MoveStrings(g) {
      OfferedIsEmpty(g, m);
    }
    if exists p :: InBoard(p) && At(g, p) == 0 && m == FormatMove(p) {
      var p :| InBoard(p) && At(g, p) == 0 && m == FormatMove(p);
      EmptyIsOffered(g, p);
    }
  }

  lemma OfferedIsEmpty(g: Grid, m: string)
    requires IsGrid(g) && m in MoveStrings(g)
    ensures exists p :: InBoard(p) && At(g, p) == 0 && m == FormatMove(p)
  {
    var cells := EmptyCells(g);
    var moves := MoveStrings(g);
    FormatMovesAt(cells);
    var k :| 0 <= k < |moves| && moves[k] == m;
    EmptyCellsCharacterised(g, cells[k]);
    assert InBoard(cells[k]) && At(g, cells[k]) == 0 && m == FormatMove(cells[k]);
  }

  lemma EmptyIsOffered(g: Grid, p: Pos)
    requires IsGrid(g) && InBoard(p) && At(g, p) == 0
    ensures FormatMove(p) in MoveStrings(g)
  {
    var cells := EmptyCells(g);
    var moves := MoveStrings(g);
    FormatMovesAt(cells);
    EmptyCellsCharacterised(g, p);
    var k :| 0 <= k < |cells| && cells[k] == p;
    assert moves[k] == FormatMove(p);
  }

  /** A new game offers nine move strings, one per cell. */
  lemma NewGameMoveStrings()
    ensures |MoveStrings(EmptyBoard)| == 9
    ensures forall p :: InBoard(p) ==> FormatMove(p) in MoveStrings(EmptyBoard)
  {
    EmptyBoardMoves();
    forall p | InBoard(p)
      ensures FormatMove(p) in MoveStrings(EmptyBoard)
    {
      EmptyIsOffered(EmptyBoard, p);
    }
  }

  /** Every string offered is one make_move can apply, and it marks an empty cell whose string it is. */
  lemma MoveStringsReadBack(g: Grid, m: string)
    requires IsGrid(g) && m in MoveStrings(g)
    ensures Addressable(m) && At(g, Target(m)) == 0 && FormatMove(Target(m)) == m
  {
    MoveStringsMember(g, m);
    var p :| InBoard(p) && At(g, p) == 0 && m == FormatMove(p);
    ParseFormatMove(p);
  }

  /** No move string is offered twice. */
  lemma MoveStringsDistinct(g: Grid)
    requires IsGrid(g)
    ensures forall k, n :: 0 <= k < n < |MoveStrings(g)| ==> MoveStrings(g)[k] != MoveStrings(g)[n]
  {
    var cells := EmptyCells(g);
    var moves := MoveStrings(g);
    FormatMovesAt(cells);
    forall k, n | 0 <= k < n < |moves|
      ensures moves[k] != moves[n]
    {
      EmptyCellsCharacterised(g, cells[k]);
      FormatMoveInjective(cells[k], cells[n]);
    }
  }

  /** Marking the cell of an offered move removes exactly that string from the moves offered. */
  lemma MoveConsumesString(g: Grid, move: string, v: int, m: string)
    requires IsGrid(g) && move in MoveStrings(g) && v != 0
    ensures Addressable(move)
    ensures m in MoveStrings(Update(g, Target(move), v)) <==> m in MoveStrings(g) && m != move
  {
    MoveStringsReadBack(g, move);
    if m in MoveStrings(Update(g, Target(move), v)) {
      StillOffered(g, move, v, m);
    }
    if m in MoveStrings(g) && m != move {
      OtherStaysOffered(g, move, v, m);
    }
  }

  lemma StillOffered(g: Grid, move: string, v: int, m: string)
    requires IsGrid(g) && move in MoveStrings(g) && v != 0
    requires Addressable(move) && FormatMove(Target(move)) == move
    requires m in MoveStrings(Update(g, Target(move), v))
    ensures m in MoveStrings(g) && m != move
  {
    var next := Update(g, Target(move), v);
    MoveStringsMember(next, m);
    var p :| InBoard(p) && At(next, p) == 0 && m == FormatMove(p);
    assert p != Target(move);
    assert At(g, p) == 0;
    MoveStringsMember(g, m);
    FormatMoveInjective(p, Target(move));
  }

  lemma OtherStaysOffered(g: Grid, move: string, v: int, m: string)
    requires IsGrid(g) && move in MoveStrings(g) && v != 0
    requires Addressable(move) && FormatMove(Target(move)) == move
    requires m in MoveStrings(g) && m != move
    ensures m in MoveStrings(Update(g, Target(move), v))
  {
    var next := Update(g, Target(move), v);
    MoveStringsReadBack(g, m);
    var p := Target(m);
    assert p != Target(move);
    assert At(next, p) == 0;
    MoveStringsMember(next, m);
  }

  /** Writing one more cell appends its string. */
  lemma FormatMovesSnoc(cells: seq<Pos>, p: Pos)
    ensures FormatMoves(cells + [p]) == FormatMoves(cells) + [FormatMove(p)]
  {
    assert (cells + [p])[..|cells|] == cells;
  }

  /** What ask_player does with one line of input. */
  datatype Outcome =
    | Accepted(move: string)   // returned to the game
    | Rejected(move: string)   // well formed, but not an empty cell: "invalid move", ask again
    | Malformed                // int() or the unpacking raised: "wrong format", ask again

  /** Reference definition of one round of ask_player on the board g. */
  function AskOutcome(moveStr: string, g: Grid): Outcome
    requires IsGrid(g)
  {
    match ParseInput(moveStr)
    case None => Malformed
    case Some(p) =>
      var move := FormatMove(p);
      if move in MoveStrings(g) then Accepted(move) else Rejected(move)
  }

  /**
   * A line is accepted exactly when it names an empty cell, and then the move
   * returned is that cell's string; a line that parses but names no empty cell
   * is rejected; no other line is malformed.
   */
  lemma AskOutcomeCharacterised(moveStr: string, g: Grid)
    requires IsGrid(g)
    ensures AskOutcome(moveStr, g).Accepted? <==>
      ParseInput(moveStr).Some? && InBoard(ParseInput(moveStr).value) && At(g, ParseInput(moveStr).value) == 0
    ensures AskOutcome(moveStr, g).Accepted? ==> AskOutcome(moveStr, g).move == FormatMove(ParseInput(moveStr).value)
    ensures AskOutcome(moveStr, g).Malformed? <==> ParseInput(moveStr).None?
  {
    if ParseInput(moveStr).Some? {
      var p := ParseInput(moveStr).value;
      MoveStringsMember(g, FormatMove(p));
      if FormatMove(p) in MoveStrings(g) {
        var q :| InBoard(q) && At(g, q) == 0 && FormatMove(p) == FormatMove(q);
        FormatMoveInjective(p, q);
      }
    }
  }

  /** Every format ask_player accepts, typed for an empty cell, is answered with that cell's move. */
  lemma AskAcceptsEveryFormat(g: Grid, i: nat, j: nat)
    requires IsGrid(g) && InBoard(Pos(i, j)) && At(g, Pos(i, j)) == 0
    ensures AskOutcome([DigitChar(i), ',', DigitChar(j)], g) == Accepted(FormatMove(Pos(i, j)))
    ensures AskOutcome([DigitChar(i), DigitChar(j)], g) == Accepted(FormatMove(Pos(i, j)))
    ensures AskOutcome([DigitChar(i), ' ', DigitChar(j)], g) == Accepted(FormatMove(Pos(i, j)))
  {
    InputFormatsAgree(i, j);
    MoveStringsMember(g, FormatMove(Pos(i, j)));
  }

  /**
   * A separator 0x1c..0x1f typed next to a number in the comma format makes int()
   * raise, so ask_player answers with the format message whatever the board holds.
   */
  lemma AskRejectsSeparatorNextToNumber(g: Grid, c: char, i: nat, j: nat)
    requires IsGrid(g) && Separator(c) && i < 10 && j < 10
    ensures AskOutcome([DigitChar(i), c, ',', DigitChar(j)], g) == Malformed
  {
    SeparatorInCommaLine(c, i, j);
  }

  class TicTacToe {
    var board: array2<int>
    var currentPlayer: int

    /** A 3x3 board holding only 0 (empty), 1 (X) and 2 (O), with X or O to move. */
    ghost predicate Valid()
      reads this, board
    {
      board.Length0 == 3 && board.Length1 == 3 &&
      (currentPlayer == 1 || currentPlayer == 2) && Marks(Snapshot(board))
    }

    /** The board's cells, row by row. */
    function Cells(): (g: Grid)
      requires Valid()
      reads this, board
      ensures IsGrid(g)
    {
      Snapshot(board)
    }

    /** __init__: an empty board, player 1 (X) to move. */
    constructor()
      ensures Valid() && fresh(board)
      ensures Cells() == EmptyBoard && currentPlayer == 1
    {
      var zeros := Zeros();
      board := zeros;
      currentPlayer := 1;
    }

    /** possible_moves: the empty cells written "i,j", collected by a row-major double loop. */
    method PossibleMoves() returns (moves: seq<string>)
      requires Valid()
      ensures moves == MoveStrings(Cells())
    {
      ghost var g := Cells();
      ghost var cells: seq<Pos> := [];
      moves := [];
      for i := 0 to 3
        invariant cells == EmptyBefore(g, i) && moves == FormatMoves(cells)
      {
        ScanRow(g, i);
        for j := 0 to 3
          invariant cells == EmptyBefore(g, i) + RowEmpties(g, i, j) && moves == FormatMoves(cells)
        {
          ScanStep(g, i, j);
          if board[i, j] == 0 {
            FormatMovesSnoc(cells, Pos(i, j));
            cells := cells + [Pos(i, j)];
            moves := moves + [FormatMove(Pos(i, j))];
          }
        }
      }
    }

    /** make_move: the move string is split at the comma and the player to move marks that cell. */
    method MakeMove(move: string)
      requires Valid() && Addressable(move)
      modifies board
      ensures Valid()
      ensures Cells() == Update(old(Cells()), Target(move), currentPlayer)
    {
      ghost var before := Cells();
      ghost var target := Target(move);
      var p := ParseMove(move).value;
      board[PyIndex(p.row), PyIndex(p.col)] := currentPlayer;
      GridExtensionality(Snapshot(board), Update(before, target, currentPlayer));
      MarksUpdate(before, target, currentPlayer);
    }

    /** unmake_move: the cell the move string names is emptied again. */
    method UnmakeMove(move: string)
      requires Valid() && Addressable(move)
      modifies board
      ensures Valid()
      ensures Cells() == Update(old(Cells()), Target(move), 0)
    {
      ghost var before := Cells();
      ghost var target := Target(move);
      var p := ParseMove(move).value;
      board[PyIndex(p.row), PyIndex(p.col)] := 0;
      GridExtensionality(Snapshot(board), Update(before, target, 0));
      MarksUpdate(before, target, 0);
    }

    /** check_winner. */
    method CheckWinner() returns (winner: int)
      requires Valid()
      ensures winner == Winner(Cells()) && 0 <= winner <= 2
    {
      winner := ScanWinner(board);
      WinnerCharacterised(Cells());
    }

    /** lose: the opponent of the player to move has won. */
    method Lose() returns (lost: bool)
      requires Valid()
      ensures lost == Loses(Cells(), currentPlayer)
    {
      var winner := CheckWinner();
      lost := winner == 3 - currentPlayer;
    }

    /** is_over: someone has won, or no move is left (the move list is only built when no one has won). */
    method IsOver() returns (over: bool)
      requires Valid()
      ensures over == GameOver(Cells())
    {
      var winner := CheckWinner();
      if winner != 0 {
        return true;
      }
      var moves := PossibleMoves();
      over := |moves| == 0;
    }

    /** scoring: +100, -100 or 0 from the point of view of the player to move. */
    method Scoring() returns (score: int)
      requires Valid()
      ensures score == Score(Winner(Cells()), currentPlayer)
    {
      var winner := CheckWinner();
      if winner == currentPlayer {
        score := 100;
      } else if winner == 3 - currentPlayer {
        score := -100;
      } else {
        score := 0;
      }
    }

    /** One round of ask_player's loop: read the line, build "i,j", check it against possible_moves. */
    method AskPlayerMove(moveStr: string) returns (outcome: Outcome)
      requires Valid()
      ensures outcome == AskOutcome(moveStr, Cells())
    {
      var parsed := ParseInput(moveStr);
      if parsed.None? {
        return Malformed;
      }
      var move := FormatMove(parsed.value);
      var moves := PossibleMoves();
      if move in moves {
        return Accepted(move);
      }
      return Rejected(move);
    }
  }

  /**
   * What the minimax search does with every move string it tries: make it, then unmake it.
   * The board comes back unchanged, and in between the move is no longer offered.
   */
  method TryMove(game: TicTacToe, move: string) returns (offered: seq<string>)
    requires game.Valid() && move in MoveStrings(game.Cells())
    modifies game.board
    ensures game.Valid()
    ensures game.Cells() == old(game.Cells())
    ensures forall m :: m in offered <==> m in old(MoveStrings(game.Cells())) && m != move
  {
    ghost var before := game.Cells();
    MoveStringsReadBack(before, move);
    ghost var cell := Target(move);
    ghost var player := game.currentPlayer;
    ghost var after := Update(before, cell, player);
    game.MakeMove(move);
    offered := game.PossibleMoves();
    assert offered == MoveStrings(after);
    forall m
      ensures m in MoveStrings(after) <==> m in MoveStrings(before) && m != move
    {
      MoveConsumesString(before, move, player, m);
    }
    game.UnmakeMove(move);
    UnmakeUndoesMake(before, cell, player);
  }
}
