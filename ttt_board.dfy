/**
 * The tic-tac-toe board the Monte Carlo player works on.
 *
 * The board class of poc_ttt_provided is not part of this model; this
 * module is a stand-in with the interface week3_tic_tac_toe.py uses:
 * `get_dim`, `square`, `get_empty_squares` (row-major), `move` (which only
 * fills an empty square), `check_win` (a full row, column or diagonal wins,
 * a full board without a winner is a draw, otherwise the game goes on) and
 * `clone`.
 */
module TicTacToe {
  import opened Wrappers

  datatype Player = PlayerX | PlayerO

  datatype Cell = Empty | Mark(owner: Player)

  /** A finished game: a winner, or a draw. `check_win` returns `None` while the game goes on. */
  datatype Outcome = Win(winner: Player) | Draw

  /** `switch_player` */
  function SwitchPlayer(p: Player): (q: Player)
    ensures q != p
  {
    if p == PlayerX then PlayerO else PlayerX
  }

  type Cells = seq<seq<Cell>>

  /** `b` is an `n` by `n` board. */
  predicate IsBoard(b: Cells, n: nat)
  {
    |b| == n && forall r :: 0 <= r < n ==> |b[r]| == n
  }

  /** `player` takes square (`r`, `c`). */
  function Place(b: Cells, r: int, c: int, player: Player): (b': Cells)
    requires 0 <= r < |b| && 0 <= c < |b[r]|
  {
    b[r := b[r][c := Mark(player)]]
  }

  // ---------------------------------------------------------------------------
  // Empty squares, in row-major order.

  /** The empty squares of row `r` from column `c` on. */
  function EmptyInRow(row: seq<Cell>, r: int, c: nat): (e: seq<(int, int)>)
    requires c <= |row|
    ensures forall k :: 0 <= k < |e| ==> e[k].0 == r && c <= e[k].1 < |row| && row[e[k].1] == Empty
    decreases |row| - c
  {
    if c == |row| then []
    else (if row[c] == Empty then [(r, c)] else []) + EmptyInRow(row, r, c + 1)
  }

  /** The empty squares of rows `r` to `n - 1`. */
  function EmptyFrom(b: Cells, n: nat, r: nat): (e: seq<(int, int)>)
    requires IsBoard(b, n) && r <= n
    ensures forall k :: 0 <= k < |e| ==>
      r <= e[k].0 < n && 0 <= e[k].1 < n && b[e[k].0][e[k].1] == Empty
    decreases n - r
  {
    if r == n then [] else EmptyInRow(b[r], r, 0) + EmptyFrom(b, n, r + 1)
  }

  /** `get_empty_squares` */
  function EmptySquares(b: Cells, n: nat): (e: seq<(int, int)>)
    requires IsBoard(b, n)
    ensures forall k :: 0 <= k < |e| ==> 0 <= e[k].0 < n && 0 <= e[k].1 < n && b[e[k].0][e[k].1] == Empty
  {
    EmptyFrom(b, n, 0)
  }

  lemma {:induction false} EmptyInRowComplete(row: seq<Cell>, r: int, c: nat, j: int)
    requires c <= j < |row| && row[j] == Empty
    ensures (r, j) in EmptyInRow(row, r, c)
    decreases |row| - c
  {
    if c < j {
      EmptyInRowComplete(row, r, c + 1, j);
    }
  }

  lemma {:induction false} EmptyFromComplete(b: Cells, n: nat, r: nat, i: int, j: int)
    requires IsBoard(b, n) && r <= i < n && 0 <= j < n && b[i][j] == Empty
    ensures (i, j) in EmptyFrom(b, n, r)
    decreases n - r
  {
    if r < i {
      EmptyFromComplete(b, n, r + 1, i, j);
    } else {
      EmptyInRowComplete(b[i], i, 0, j);
    }
  }

  /** A square is listed by `get_empty_squares` exactly when it is on the board and empty. */
  lemma EmptySquaresExactly(b: Cells, n: nat, i: int, j: int)
    requires IsBoard(b, n)
    ensures (i, j) in EmptySquares(b, n) <==> 0 <= i < n && 0 <= j < n && b[i][j] == Empty
  {
    if 0 <= i < n && 0 <= j < n && b[i][j] == Empty {
      EmptyFromComplete(b, n, 0, i, j);
    }
  }

  lemma {:induction false} EmptyInRowPlace(row: seq<Cell>, r: int, c: nat, j: int, m: Cell)
    requires c <= |row| && 0 <= j < |row| && row[j] == Empty && m != Empty
    ensures |EmptyInRow(row[j := m], r, c)| == |EmptyInRow(row, r, c)| - (if c <= j then 1 else 0)
    decreases |row| - c
  {
    if c < |row| {
      EmptyInRowPlace(row, r, c + 1, j, m);
    }
  }

  lemma {:induction false} EmptyFromPlace(b: Cells, n: nat, r: nat, i: int, j: int, p: Player)
    requires IsBoard(b, n) && r <= n && 0 <= i < n && 0 <= j < n && b[i][j] == Empty
    ensures IsBoard(Place(b, i, j, p), n)
    ensures |EmptyFrom(Place(b, i, j, p), n, r)| == |EmptyFrom(b, n, r)| - (if r <= i then 1 else 0)
    decreases n - r
  {
    var b' := Place(b, i, j, p);
    if r < n {
      EmptyFromPlace(b, n, r + 1, i, j, p);
      if r == i {
        EmptyInRowPlace(b[i], r, 0, j, Mark(p));
      } else {
        assert b'[r] == b[r];
      }
    }
  }

  /** Filling an empty square leaves one empty square fewer. */
  lemma PlaceFillsOneSquare(b: Cells, n: nat, i: int, j: int, p: Player)
    requires IsBoard(b, n) && 0 <= i < n && 0 <= j < n && b[i][j] == Empty
    ensures IsBoard(Place(b, i, j, p), n)
    ensures |EmptySquares(Place(b, i, j, p), n)| == |EmptySquares(b, n)| - 1
  {
    EmptyFromPlace(b, n, 0, i, j, p);
  }

  // ---------------------------------------------------------------------------
  // `check_win`

  /**
   * Cell `j` of line `l`: lines 0 to n - 1 are the rows, n to 2n - 1 the
   * columns, 2n the diagonal and 2n + 1 the anti-diagonal.
   */
  function LineCell(b: Cells, n: nat, l: int, j: int): Cell
    requires IsBoard(b, n) && 0 <= l < 2 * n + 2 && 0 <= j < n
  {
    if l < n then b[l][j]
    else if l < 2 * n then b[j][l - n]
    else if l == 2 * n then b[j][j]
    else b[j][n - 1 - j]
  }

  /** Every cell of line `l` holds `p`'s mark. */
  predicate LineHeldBy(b: Cells, n: nat, l: int, p: Player)
    requires IsBoard(b, n) && 0 <= l < 2 * n + 2
  {
    forall j :: 0 <= j < n ==> LineCell(b, n, l, j) == Mark(p)
  }

  /** The owner of the first full line from line `l` on, if any. */
  function FindWinner(b: Cells, n: nat, l: nat): Option<Player>
    requires IsBoard(b, n) && l <= 2 * n + 2
    decreases 2 * n + 2 - l
  {
    if l == 2 * n + 2 then None
    else if n > 0 && LineCell(b, n, l, 0).Mark? && LineHeldBy(b, n, l, LineCell(b, n, l, 0).owner) then
      Some(LineCell(b, n, l, 0).owner)
    else FindWinner(b, n, l + 1)
  }

  /** `check_win`: the winner, a draw on a full board, `None` while the game goes on. */
  function GameResult(b: Cells, n: nat): (res: Option<Outcome>)
    requires IsBoard(b, n)
    ensures res == None ==> EmptySquares(b, n) != []
  {
    match FindWinner(b, n, 0)
    case Some(p) => Some(Win(p))
    case None => if EmptySquares(b, n) == [] then Some(Draw) else None
  }

  lemma {:induction false} FindWinnerExactly(b: Cells, n: nat, l: nat, p: Player)
    requires IsBoard(b, n) && n > 0 && l <= 2 * n + 2
    ensures FindWinner(b, n, l) == Some(p) ==> exists l' :: l <= l' < 2 * n + 2 && LineHeldBy(b, n, l', p)
    ensures FindWinner(b, n, l) == None ==> forall l' :: l <= l' < 2 * n + 2 ==> !LineHeldBy(b, n, l', p)
    decreases 2 * n + 2 - l
  {
    if l < 2 * n + 2 {
      FindWinnerExactly(b, n, l + 1, p);
      if LineHeldBy(b, n, l, p) {
        assert LineCell(b, n, l, 0) == Mark(p);
      }
    }
  }

  /**
   * On a non-empty board, `check_win` names a player exactly when that
   * player holds some full line, and only a full line-free board can be a draw.
   */
  lemma GameResultMeaning(b: Cells, n: nat, p: Player)
    requires IsBoard(b, n) && n > 0
    ensures GameResult(b, n) == Some(Win(p)) ==> exists l :: 0 <= l < 2 * n + 2 && LineHeldBy(b, n, l, p)
    ensures GameResult(b, n) == Some(Draw) ==>
      EmptySquares(b, n) == [] && forall l :: 0 <= l < 2 * n + 2 ==> !LineHeldBy(b, n, l, p)
    ensures GameResult(b, n) == None ==>
      EmptySquares(b, n) != [] && forall l :: 0 <= l < 2 * n + 2 ==> !LineHeldBy(b, n, l, p)
  {
    FindWinnerExactly(b, n, 0, p);
  }

  // ---------------------------------------------------------------------------
  // The board object.

  class Board {
    const dim: nat
    var cells: Cells

    ghost predicate Valid()
      reads this
    {
      IsBoard(cells, dim)
    }

    /** A `dim` by `dim` board with every square empty. */
    constructor (d: nat)
      ensures Valid() && dim == d
      ensures forall r, c :: 0 <= r < d && 0 <= c < d ==> cells[r][c] == Empty
    {
      dim := d;
      cells := seq(d, _ => seq(d, _ => Empty));
    }

    function GetDim(): nat
    {
      dim
    }

    function Square(row: int, col: int): Cell
      reads this
      requires Valid() && 0 <= row < dim && 0 <= col < dim
    {
      cells[row][col]
    }

    function GetEmptySquares(): seq<(int, int)>
      reads this
      requires Valid()
    {
      EmptySquares(cells, dim)
    }

    function CheckWin(): Option<Outcome>
      reads this
      requires Valid()
    {
      GameResult(cells, dim)
    }

    /** `move`: an empty square takes `player`'s mark; an occupied one is left alone. */
    method Move(row: int, col: int, player: Player)
      requires Valid() && 0 <= row < dim && 0 <= col < dim
      modifies this
      ensures Valid()
      ensures cells == if old(cells)[row][col] == Empty then Place(old(cells), row, col, player) else old(cells)
    {
      if cells[row][col] == Empty {
        cells := Place(cells, row, col, player);
      }
    }

    /** `clone`: a new board with the same squares. */
    method Clone() returns (b: Board)
      requires Valid()
      ensures fresh(b) && b.Valid() && b.dim == dim && b.cells == cells
    {
      b := new Board(dim);
      b.cells := cells;
    }
  }
}
