/**
 * The rules of the game as the browser client judges them: a board of nine
 * squares in row-major order, the eight winning lines, and the judge that
 * reports the mark of the first completed line, a draw, or nothing yet.
 */
module TicTacToe {
  import opened Wrappers

  /** One square; `Empty` is the `null` of a square nobody has marked. */
  datatype Cell = Empty | X | O

  /** A non-null verdict: the mark that holds a line, or a draw. */
  datatype Outcome = Win(mark: Cell) | Draw

  /** A board is a sequence of squares; the game only ever holds nine. */
  type Board = seq<Cell>

  /** The board a game starts from and returns to on reset. */
  function EmptyBoard(): (b: Board)
    ensures |b| == 9
    ensures forall i :: 0 <= i < 9 ==> b[i] == Empty
  {
    seq(9, _ => Empty)
  }

  /** The k-th winning line, in the order the judge scans them: rows, columns, diagonals. */
  function Line(k: nat): (t: (nat, nat, nat))
    requires k < 8
    ensures t.0 < 9 && t.1 < 9 && t.2 < 9
    ensures t.0 != t.1 && t.1 != t.2 && t.0 != t.2
  {
    match k
    case 0 => (0, 1, 2)
    case 1 => (3, 4, 5)
    case 2 => (6, 7, 8)
    case 3 => (0, 3, 6)
    case 4 => (1, 4, 7)
    case 5 => (2, 5, 8)
    case 6 => (0, 4, 8)
    case _ => (2, 4, 6)
  }

  /**
   * The client's own test for line k: its first square is marked and the
   * other two agree with it. It is `HeldBy(b, k, b[Line(k).0])`, written the
   * way the scan evaluates it; `HeldBy` is the form the contracts use.
   */
  predicate LineHeld(b: Board, k: nat)
    requires |b| == 9 && k < 8
  {
    var (p, q, r) := Line(k);
    b[p] != Empty && b[p] == b[q] && b[p] == b[r]
  }

  /** Line k carries the mark m in all three of its squares (an empty square never wins). */
  predicate HeldBy(b: Board, k: nat, m: Cell)
    requires |b| == 9 && k < 8
  {
    var (p, q, r) := Line(k);
    m != Empty && b[p] == m && b[q] == m && b[r] == m
  }

  /** Some line is held by the mark m. */
  predicate WonBy(b: Board, m: Cell)
    requires |b| == 9
  {
    exists k :: 0 <= k < 8 && HeldBy(b, k, m)
  }

  /** The first line, in scan order, that is held at all is held by m. */
  predicate FirstLineHeldBy(b: Board, m: Cell)
    requires |b| == 9
  {
    exists k :: 0 <= k < 8 && HeldBy(b, k, m) && forall j :: 0 <= j < k ==> !LineHeld(b, j)
  }

  /** No line is held by anyone. */
  predicate NoLineHeld(b: Board)
    requires |b| == 9
  {
    forall k :: 0 <= k < 8 ==> !LineHeld(b, k)
  }

  /** Every square is marked. */
  predicate Full(b: Board)
    requires |b| == 9
  {
    forall i :: 0 <= i < 9 ==> b[i] != Empty
  }

  /** The other player's mark. */
  function Opponent(m: Cell): (o: Cell)
    requires m != Empty
    ensures o != Empty && o != m
  {
    if m == X then O else X
  }

  /**
   * The scan over lines i..7: the mark of the first held line, or None
   * when none of those lines is held.
   */
  function ScanLines(b: Board, i: nat): (r: Option<Cell>)
    requires |b| == 9 && i <= 8
    ensures r == None <==> forall k :: i <= k < 8 ==> !LineHeld(b, k)
    ensures r.Some? ==>
      exists k :: i <= k < 8 && HeldBy(b, k, r.value) && forall j :: i <= j < k ==> !LineHeld(b, j)
    decreases 8 - i
  {
    if i == 8 then None
    else if LineHeld(b, i) then
      assert HeldBy(b, i, b[Line(i).0]);
      Some(b[Line(i).0])
    else ScanLines(b, i + 1)
  }

  /**
   * The verdict on a board: the mark of the first held line; failing that,
   * a draw when every square is marked; otherwise no verdict yet.
   */
  function Judge(b: Board): (r: Option<Outcome>)
    requires |b| == 9
    ensures r == None <==> NoLineHeld(b) && !Full(b)
    ensures r == Some(Draw) <==> NoLineHeld(b) && Full(b)
    ensures (r.Some? && r.value.Win?) <==> !NoLineHeld(b)
    ensures r.Some? && r.value.Win? ==> r.value.mark != Empty && FirstLineHeldBy(b, r.value.mark)
  {
    match ScanLines(b, 0)
    case Some(m) => Some(Win(m))
    case None => if Full(b) then Some(Draw) else None
  }

  /**
   * On a board where only one player holds a line (every board reached by
   * alternating play), the verdict names that player.
   */
  lemma JudgeNamesSoleWinner(b: Board, m: Cell)
    requires |b| == 9 && m != Empty
    requires WonBy(b, m) && !WonBy(b, Opponent(m))
    ensures Judge(b) == Some(Win(m))
  {
  }

  /**
   * The client's judge as written: a loop over the line table with an early
   * return, then a pass checking that no square is empty.
   */
  method CheckWinner(squares: Board) returns (r: Option<Outcome>)
    requires |squares| == 9
    ensures r == Judge(squares)
  {
    var i := 0;
    while i < 8
      invariant 0 <= i <= 8
      invariant ScanLines(squares, i) == ScanLines(squares, 0)
    {
      var (a, b, c) := Line(i);
      if squares[a] != Empty && squares[a] == squares[b] && squares[a] == squares[c] {
        return Some(Win(squares[a]));
      }
      i := i + 1;
    }
    var j := 0;
    while j < 9
      invariant 0 <= j <= 9
      invariant forall k :: 0 <= k < j ==> squares[k] != Empty
    {
      if squares[j] == Empty {
        return None;
      }
      j := j + 1;
    }
    return Some(Draw);
  }
}
