/**
 * The prediction service's input encoder: the board list received as JSON
 * becomes a 3x3 grid of integers, 1 for X, 2 for O and 0 for anything else.
 */
module Backend {
  import opened Wrappers
  import opened TicTacToe

  /** A JSON value as the request body may carry it in a board entry. */
  datatype Json = JNull | JBool(b: bool) | JNumber(n: int) | JString(s: string) | JComposite

  /** numpy's refusal to reshape a list of `size` entries into 3x3. */
  datatype ReshapeError = CannotReshape(size: nat)

  /** The code of one board entry: only the exact strings "X" and "O" are marks. */
  function CellCode(v: Json): (code: int)
    ensures code == 1 <==> v == JString("X")
    ensures code == 2 <==> v == JString("O")
    ensures code == 0 <==> v != JString("X") && v != JString("O")
  {
    if v == JString("X") then 1
    else if v == JString("O") then 2
    else 0
  }

  /** numpy's `reshape(3, 3)`: row-major, and only for exactly nine entries. */
  function Reshape3x3(flat: seq<int>): (r: Result<seq<seq<int>>, ReshapeError>)
    ensures r.Success? <==> |flat| == 9
    ensures r.Failure? ==> r.error == CannotReshape(|flat|)
    ensures r.Success? ==> |r.value| == 3 && forall row :: 0 <= row < 3 ==> |r.value[row]| == 3
    ensures r.Success? ==>
      forall row, col :: 0 <= row < 3 && 0 <= col < 3 ==> r.value[row][col] == flat[3 * row + col]
    ensures r.Success? ==> forall i :: 0 <= i < 9 ==> r.value[i / 3][i % 3] == flat[i]
  {
    if |flat| != 9 then Failure(CannotReshape(|flat|))
    else Success([flat[0..3], flat[3..6], flat[6..9]])
  }

  /**
   * The encoder as written: append one code per entry, in order, then
   * reshape. Square i of a nine-entry board lands at row i / 3, column i % 3;
   * any other length is a reshape error reporting that length.
   */
  method ConvertBoardToArray(board: seq<Json>) returns (r: Result<seq<seq<int>>, ReshapeError>)
    ensures r.Success? <==> |board| == 9
    ensures r.Failure? ==> r.error == CannotReshape(|board|)
    ensures r.Success? ==> |r.value| == 3 && forall row :: 0 <= row < 3 ==> |r.value[row]| == 3
    ensures r.Success? ==> forall i :: 0 <= i < 9 ==> r.value[i / 3][i % 3] == CellCode(board[i])
    ensures r.Success? ==>
      forall row, col :: 0 <= row < 3 && 0 <= col < 3 ==> 0 <= r.value[row][col] <= 2
  {
    var converted: seq<int> := [];
    for i := 0 to |board|
      invariant |converted| == i
      invariant forall k :: 0 <= k < i ==> converted[k] == CellCode(board[k])
    {
      var value := board[i];
      if value == JString("X") {
        converted := converted + [1];
      } else if value == JString("O") {
        converted := converted + [2];
      } else {
        converted := converted + [0];
      }
    }
    r := Reshape3x3(converted);
  }

  /** How the client writes a square into the request body: null, "X" or "O". */
  function Serialize(c: Cell): (j: Json)
    ensures j == JNull <==> c == Empty
    ensures j == JString("X") <==> c == X
    ensures j == JString("O") <==> c == O
  {
    match c
    case Empty => JNull
    case X => JString("X")
    case O => JString("O")
  }

  /**
   * The reference encoding of a square, independent of the JSON form:
   * empty 0, X 1, O 2. `SentSquaresEncodeFaithfully` compares the encoder
   * against it.
   */
  function SquareCode(c: Cell): (code: int)
    ensures 0 <= code <= 2
  {
    match c
    case Empty => 0
    case X => 1
    case O => 2
  }

  /**
   * The encoding of what the client sends agrees with the square codes, and
   * so loses nothing: two squares encode alike exactly when they are equal.
   */
  lemma SentSquaresEncodeFaithfully(c: Cell, d: Cell)
    ensures CellCode(Serialize(c)) == SquareCode(c)
    ensures CellCode(Serialize(c)) == CellCode(Serialize(d)) <==> c == d
  {
  }

  /** The nine-square board the client sends encodes as its squares' codes, in row-major layout. */
  lemma SentBoardLayout(b: Board, grid: seq<seq<int>>)
    requires |b| == 9 && |grid| == 3 && forall row :: 0 <= row < 3 ==> |grid[row]| == 3
    requires forall i :: 0 <= i < 9 ==> grid[i / 3][i % 3] == CellCode(Serialize(b[i]))
    ensures forall row, col :: 0 <= row < 3 && 0 <= col < 3 ==> grid[row][col] == SquareCode(b[3 * row + col])
  {
  }

  /**
   * The path from the client's board to the policy's input: the board as
   * the client writes it into the request body, given to the encoder. A
   * nine-square board never hits the reshape error, and the grid holds the
   * reference code of square 3*row+col at (row, col).
   */
  method EncodeRequestBoard(b: Board) returns (grid: seq<seq<int>>)
    requires |b| == 9
    ensures |grid| == 3 && forall row :: 0 <= row < 3 ==> |grid[row]| == 3
    ensures forall row, col :: 0 <= row < 3 && 0 <= col < 3 ==> grid[row][col] == SquareCode(b[3 * row + col])
  {
    var sent := seq(9, i requires 0 <= i < 9 => Serialize(b[i]));
    var r := ConvertBoardToArray(sent);
    grid := r.value;
    SentBoardLayout(b, grid);
  }
}
