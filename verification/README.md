# Tic-tac-toe against a prediction service — a Dafny model

The system is a browser tic-tac-toe game. The human plays X. After a human
move that leaves the game open, the client sends the board to an HTTP
service, and a trained policy answers with the square for O. This project models three parts of it:

- **The client's judge.** `checkWinner` in `frontend/src/App.jsx` becomes
  module `TicTacToe`. The spec function `Judge` has a declarative contract:
  which line wins, when the game is a draw, and when there is no verdict yet.
  The method `CheckWinner` is the loop as written, proved equal to `Judge`.
- **The click handler's state machine.** The `board` and `winner` state
  holders become class `App.Game`. `handleClick` becomes `HandleClick`, and
  the service's reply is the parameter `reply`: the square it names, or
  `None` when the request or the decoding of its body fails. `resetGame` becomes
  `ResetGame`. The object invariant `Valid()` says the displayed verdict is
  always the judge's verdict on the displayed board.
- **The service's input encoder.** `convert_board_to_array` in
  `backend/app.py` becomes module `Backend`. It includes numpy's 3x3 reshape
  and its error on a list that does not hold nine entries.

The model follows the code as written:

- The client has no "awaiting opponent" phase.
- A failed request is not caught. The X is already on the board when the
  request is made, so after a failure the X stays, no O is placed and there
  is no verdict; the player moves again. `HandleClick` states this for
  `reply == None`.
- The service's move is not checked, so an O can overwrite any square, even
  the X just placed. `HandleClick`'s last postcondition says so:
  `board == old(board)[index := X][reply.value := O]`.
- The verdict is kept as the `winner` state holder. `Game.Valid()` proves it
  always equals `Judge(board)`.

## Model

| member | source | states |
|---|---|---|
| `TicTacToe.EmptyBoard` | frontend/src/App.jsx:5 | the initial board has nine squares, all empty |
| `TicTacToe.Line` | frontend/src/App.jsx:9-13 | each of the eight lines names three distinct squares of the nine-square board |
| `TicTacToe.ScanLines` | frontend/src/App.jsx:15-20 | scanning lines i..7 gives None exactly when none of them is held; otherwise it gives a mark that holds all three squares of a line, and every earlier line in the scan is not held |
| `TicTacToe.Judge` | frontend/src/App.jsx:8-27 | no verdict iff no line is held and a square is empty; Draw iff no line is held and the board is full (so a held line beats a full board); a Win iff some line is held, and the winning mark is non-empty and holds the first held line in scan order |
| `TicTacToe.JudgeNamesSoleWinner` | frontend/src/App.jsx:15-19 | if only one player holds a line, the verdict is a win for that player |
| `TicTacToe.CheckWinner` | frontend/src/App.jsx:8-27 | the early-return loop over the line table, followed by the all-squares-marked pass, returns exactly `Judge` of the board |
| `App.Game.constructor` | frontend/src/App.jsx:5-6 | the game starts with nine empty squares and no verdict, and the invariant holds |
| `App.Game.HandleClick` | frontend/src/App.jsx:31-76 | a click on an occupied square, or any click after a verdict, changes nothing. Otherwise square `index` becomes X and nothing else changes. If that board has a verdict, it is recorded and no O is placed. If not and the request fails, the X stays with no O and no verdict. If not and the reply names square m, square m becomes O, overwriting whatever is there, and the verdict is the judge's verdict on the final board. The displayed verdict always equals the judge's |
| `App.Game.ResetGame` | frontend/src/App.jsx:78-81 | from any prior state, the result is nine empty squares and no verdict, with the invariant restored |
| `Backend.CellCode` | backend/app.py:27-32 | an entry encodes to 1 iff it is the string "X" and to 2 iff it is the string "O"; every other entry, null included, encodes to 0 |
| `Backend.Reshape3x3` | backend/app.py:34 | a list of nine entries is laid out row-major: entry 3*row+col is at (row, col), and entry i is at (i / 3, i % 3). Any other length is an error that reports that length |
| `Backend.ConvertBoardToArray` | backend/app.py:23-34 | a nine-entry board gives a 3x3 grid whose cell (i / 3, i % 3) is the code of entry i alone, and every cell is in {0, 1, 2}. Any other length is the reshape error carrying the board's own length, which is the length of the encoded list |
| `Backend.Serialize` | frontend/src/App.jsx:55 | the client writes a square into the request body as null exactly when it is empty, "X" exactly when it holds X, "O" exactly when it holds O |
| `Backend.SquareCode` | backend/app.py:27-32 | the reference encoding the encoder is compared against: every square code is 0, 1 or 2 |
| `Backend.SentSquaresEncodeFaithfully` | backend/app.py:26-32 | a square as the client writes it (null, "X", "O") encodes to 0, 1, 2 respectively, so two squares encode alike exactly when they are equal |
| `Backend.SentBoardLayout` | backend/app.py:34 | the grid made from a board the client sent holds, at (row, col), the code of the board's square 3*row+col |
| `Backend.EncodeRequestBoard` | backend/app.py:38-39 | the encoder run on the nine squares the client sends never takes the reshape error, and gives the 3x3 grid holding the reference code of square 3*row+col at (row, col) |

## Left out

- The HTTP transport and the decoding of the reply (frontend/src/App.jsx:52-58) are network I/O. The reply's `move`, or the failure to get one, is the parameter `reply` of `HandleClick`. Only the body's board entries are modelled, by `Serialize`.
- `App.Game.HandleClick`: requires a reply's square to be below 9. A reply outside 0..8 would make the JavaScript array grow or take a non-numeric key, and the model does not capture that. The click index is always 0..8, because only the nine rendered squares call the handler.
- The 500 ms `sleep` before the request is timer plumbing with no effect on the state.
- The `console.log` calls, the JSX rendering, the status text and the CSS are user interface.
- Clicks that overlap while a request is pending are not modelled. React's batched and stale-closure `setState` semantics are not modelled either. Each `HandleClick` is one atomic step, and both state holders are updated in it.
- The copy-then-write of the board (`[...board]`, then an assignment to one square) is modelled as a sequence update on a value. The copy is fresh, so no aliasing is lost.
- The FastAPI application, the startup hook that loads the policy, the request model and `predict_moves` (backend/app.py:7-21, 36-41) are web plumbing. They wrap a reinforcement-learning policy whose choice of move cannot be specified. The policy is not part of this model.
- JSON numbers in a board entry are carried as integers. Every number encodes to 0 whatever its value, so nothing depends on this.
