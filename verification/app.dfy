/**
 * The browser component's game state: the two state holders `board` and
 * `winner`, the click handler that plays the human's X and then the move the
 * prediction service returns for O, and the reset button.
 */
module App {
  import opened Wrappers
  import opened TicTacToe

  class Game {
    /** The nine squares on screen. */
    var board: Board
    /** The verdict shown above the board; None while the game is open. */
    var winner: Option<Outcome>

    /**
     * The state is nine squares, and the verdict on display is exactly the
     * judge's verdict on them: every write of `board` is followed by a
     * judgement that records any non-null verdict.
     */
    ghost predicate Valid()
      reads this
    {
      |board| == 9 && winner == Judge(board)
    }

    /** The initial state of both holders: nine empty squares and no verdict. */
    constructor ()
      ensures Valid()
      ensures board == EmptyBoard() && winner == None
    {
      board := EmptyBoard();
      winner := None;
    }

    /**
     * A click on square `index`. `reply` stands for the prediction service's
     * answer to the board after the human's move (it is consulted only when
     * that board has no verdict): `Some(m)` for a reply carrying square m,
     * `None` for a request that fails or a reply that is not JSON, which
     * abandons the handler after the X is already on the board.
     */
    method HandleClick(index: nat, reply: Option<nat>)
      requires Valid()
      requires index < 9
      requires reply.Some? ==> reply.value < 9
      modifies this
      ensures Valid()
      // Rejected clicks: an occupied square, or a game that is already over.
      ensures old(board[index]) != Empty || old(winner) != None ==>
        board == old(board) && winner == old(winner)
      // Accepted click that ends the game: the X is placed and judged, no O is placed.
      ensures old(board[index]) == Empty && old(winner) == None &&
              Judge(old(board)[index := X]) != None ==>
        board == old(board)[index := X] && winner == Judge(old(board)[index := X])
      // Accepted click on a still-open game whose request fails: the X stays, no O, no verdict.
      ensures old(board[index]) == Empty && old(winner) == None &&
              Judge(old(board)[index := X]) == None && reply == None ==>
        board == old(board)[index := X] && winner == None
      // Accepted click on a still-open game with a reply: the O lands on that square, whatever was there.
      ensures old(board[index]) == Empty && old(winner) == None &&
              Judge(old(board)[index := X]) == None && reply.Some? ==>
        board == old(board)[index := X][reply.value := O] &&
        winner == Judge(old(board)[index := X][reply.value := O])
    {
      if board[index] != Empty {
        return;
      }
      if winner != None {
        return;
      }

      var newBoard := board[index := X];
      board := newBoard;

      var humanWinner := CheckWinner(newBoard);
      if humanWinner != None {
        winner := humanWinner;
        return;
      }

      if reply == None {
        return;
      }
      var aiMove := reply.value;
      var aiBoard := newBoard[aiMove := O];
      board := aiBoard;

      var aiWinner := CheckWinner(aiBoard);
      if aiWinner != None {
        winner := aiWinner;
        return;
      }
    }

    /** Reset: nine empty squares and no verdict, whatever the state was before. */
    method ResetGame()
      modifies this
      ensures Valid()
      ensures board == EmptyBoard() && winner == None
    {
      board := EmptyBoard();
      winner := None;
    }
  }
}
