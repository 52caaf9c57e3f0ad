/**
 * The Rust board helpers of the capture engine: a piece found at a pixel
 * is written into the 8-by-8 character board, and the move between two
 * boards is read off the cells that were vacated and filled. The image
 * module carries copies of the same three helpers, which delegate here.
 */
module Tracker {
  import opened Wrappers
  import opened Text
  import Numeric
  import Board

  const Empty: char := ' '

  const DivideByZero: string := "attempt to divide by zero"

  /** A `[[char; 8]; 8]` given by value. */
  predicate IsBoard(b: seq<seq<char>>)
  {
    |b| == 8 && forall r :: 0 <= r < 8 ==> |b[r]| == 8
  }

  // ----- placing a piece -----

  /**
   * The (row, column) a piece at `point` is written to: the tile the point
   * falls in, rows counted from the bottom, clamped to the board. A board
   * narrower or lower than 8 pixels has tiles of size 0 and panics.
   */
  function CellOf(point: (int, int), boardSize: (int, int)): Result<(int, int), string>
  {
    var tileWidth := if boardSize.0 == 0 then 0 else Numeric.TDiv(boardSize.0, 8);
    var tileHeight := if boardSize.1 == 0 then 0 else Numeric.TDiv(boardSize.1, 8);
    if tileWidth == 0 || tileHeight == 0 then Failure(DivideByZero)
    else
      var col := Numeric.Clamp(Numeric.TDiv(point.0, tileWidth), 0, 7);
      var row := Numeric.Clamp(7 - Numeric.TDiv(point.1, tileHeight), 0, 7);
      Success((row, col))
  }

  /** `register_piece`: one cell of the board is overwritten, or the division panics and nothing changes. */
  method RegisterPiece(point: (int, int), boardSize: (int, int), piece: char, board: array2<char>) returns (status: Outcome<string>)
    requires board.Length0 == 8 && board.Length1 == 8
    modifies board
    ensures CellOf(point, boardSize).Failure? ==> status == Fail(CellOf(point, boardSize).error) && unchanged(board)
    ensures CellOf(point, boardSize).Success? ==>
      var (row, col) := CellOf(point, boardSize).value;
      status == Pass && 0 <= row < 8 && 0 <= col < 8 && board[row, col] == piece
      && forall i, j :: 0 <= i < 8 && 0 <= j < 8 && (i != row || j != col) ==> board[i, j] == old(board[i, j])
  {
    var cell := CellOf(point, boardSize);
    if cell.Failure? {
      return Fail(cell.error);
    }
    CellInRange(point, boardSize);
    var (row, col) := cell.value;
    board[row, col] := piece;
    return Pass;
  }

  /** `pixels_to_board` of the image module: the same placement. */
  method PixelsToBoard(point: (int, int), size: (int, int), piece: char, board: array2<char>) returns (status: Outcome<string>)
    requires board.Length0 == 8 && board.Length1 == 8
    modifies board
    ensures CellOf(point, size).Failure? ==> status == Fail(CellOf(point, size).error) && unchanged(board)
    ensures CellOf(point, size).Success? ==>
      var (row, col) := CellOf(point, size).value;
      status == Pass && 0 <= row < 8 && 0 <= col < 8 && board[row, col] == piece
      && forall i, j :: 0 <= i < 8 && 0 <= j < 8 && (i != row || j != col) ==> board[i, j] == old(board[i, j])
  {
    status := RegisterPiece(point, size, piece, board);
  }

  /** Whatever the point, a placed cell is on the board. */
  lemma CellInRange(point: (int, int), boardSize: (int, int))
    ensures CellOf(point, boardSize).Success? ==> 0 <= CellOf(point, boardSize).value.0 < 8 && 0 <= CellOf(point, boardSize).value.1 < 8
  {
  }

  /** A cell is found exactly when both sides of the board are at least 8 pixels long. */
  lemma CellDefined(point: (int, int), boardSize: (int, int))
    ensures CellOf(point, boardSize).Success? <==> Numeric.Abs(boardSize.0) >= 8 && Numeric.Abs(boardSize.1) >= 8
  {
    if boardSize.0 != 0 {
      TDivByEight(boardSize.0);
    }
    if boardSize.1 != 0 {
      TDivByEight(boardSize.1);
    }
  }

  lemma TDivByEight(a: int)
    ensures Numeric.TDiv(a, 8) == 0 <==> Numeric.Abs(a) < 8
  {
  }

  /**
   * On a board of positive size, a point inside the board lands in the tile
   * it falls in: column x / tile width, row 7 - y / tile height, clamped.
   */
  lemma CellOfInside(point: (int, int), boardSize: (int, int))
    requires boardSize.0 >= 8 && boardSize.1 >= 8 && point.0 >= 0 && point.1 >= 0
    ensures CellOf(point, boardSize) == Success((Numeric.Clamp(7 - point.1 / (boardSize.1 / 8), 0, 7), Numeric.Clamp(point.0 / (boardSize.0 / 8), 0, 7)))
    ensures point.0 < 8 * (boardSize.0 / 8) ==> CellOf(point, boardSize).value.1 == point.0 / (boardSize.0 / 8)
    ensures point.1 < 8 * (boardSize.1 / 8) ==> CellOf(point, boardSize).value.0 == 7 - point.1 / (boardSize.1 / 8)
  {
    var tw := boardSize.0 / 8;
    var th := boardSize.1 / 8;
    TDivNatural(boardSize.0, 8);
    TDivNatural(boardSize.1, 8);
    assert tw >= 1 && th >= 1;
    TDivNatural(point.0, tw);
    TDivNatural(point.1, th);
    if point.0 < 8 * tw {
      DivBelow(point.0, tw);
    }
    if point.1 < 8 * th {
      DivBelow(point.1, th);
    }
  }

  /** On natural numbers Rust's division is Dafny's. */
  lemma TDivNatural(a: int, b: int)
    requires a >= 0 && b > 0
    ensures Numeric.TDiv(a, b) == a / b
  {
  }

  lemma DivBelow(x: nat, t: nat)
    requires t > 0 && x < 8 * t
    ensures x / t < 8
  {
  }

  // ----- naming a cell -----

  /** `pos_to_algebraic`: the file letter of the column and the rank 8 - row. */
  function PosToAlgebraic(row: nat, col: nat): (name: string)
    requires row <= 8 && col < 159
    ensures |name| == 2 && name[0] as int == 'a' as int + col
    ensures IsDigit(name[1]) && DigitValue(name[1]) == 8 - row
  {
    [('a' as int + col) as char] + NatToString(8 - row)
  }

  /** A cell of the board is named like the square it shows, two characters long. */
  lemma PosToAlgebraicSquare(row: nat, col: nat)
    requires row < 8 && col < 8
    ensures var sq := Board.Square(('a' as int + col) as char, 8 - row);
      Board.OnBoard(sq) && PosToAlgebraic(row, col) == Board.SquareName(sq)
      && PosToAlgebraic(row, col) == [('a' as int + col) as char, DigitChar(8 - row)]
  {
    Board.SquareNameOnBoard(Board.Square(('a' as int + col) as char, 8 - row));
  }

  /** Different cells have different names, and every square of the board names a cell. */
  lemma PosToAlgebraicBijection(r1: nat, c1: nat, r2: nat, c2: nat, sq: Board.Square)
    requires r1 < 8 && c1 < 8 && r2 < 8 && c2 < 8
    ensures PosToAlgebraic(r1, c1) == PosToAlgebraic(r2, c2) ==> r1 == r2 && c1 == c2
    ensures Board.OnBoard(sq) ==> (0 <= 8 - sq.rank < 8 && 0 <= sq.file as int - 'a' as int < 8
                                   && PosToAlgebraic(8 - sq.rank, sq.file as int - 'a' as int) == Board.SquareName(sq))
  {
    PosToAlgebraicSquare(r1, c1);
    PosToAlgebraicSquare(r2, c2);
    if PosToAlgebraic(r1, c1) == PosToAlgebraic(r2, c2) {
      assert DigitValue(DigitChar(8 - r1)) == DigitValue(DigitChar(8 - r2));
    }
    if Board.OnBoard(sq) {
      PosToAlgebraicSquare(8 - sq.rank, sq.file as int - 'a' as int);
    }
  }

  // ----- the move between two boards -----

  /** A piece left this cell. */
  predicate Vacated(before: seq<seq<char>>, after: seq<seq<char>>, r: nat, c: nat)
    requires IsBoard(before) && IsBoard(after) && r < 8 && c < 8
  {
    before[r][c] != after[r][c] && before[r][c] != Empty && after[r][c] == Empty
  }

  /** A piece arrived on this empty cell. */
  predicate Filled(before: seq<seq<char>>, after: seq<seq<char>>, r: nat, c: nat)
    requires IsBoard(before) && IsBoard(after) && r < 8 && c < 8
  {
    before[r][c] != after[r][c] && before[r][c] == Empty && after[r][c] != Empty
  }

  predicate Marked(before: seq<seq<char>>, after: seq<seq<char>>, k: nat, vacated: bool)
    requires IsBoard(before) && IsBoard(after) && k < 64
  {
    if vacated then Vacated(before, after, k / 8, k % 8) else Filled(before, after, k / 8, k % 8)
  }

  /** The last of the first `n` cells, in row-major order, that was vacated (or filled). */
  function LastMarked(before: seq<seq<char>>, after: seq<seq<char>>, n: nat, vacated: bool): (r: Option<nat>)
    requires IsBoard(before) && IsBoard(after) && n <= 64
    ensures r.Some? ==> r.value < n
  {
    if n == 0 then None
    else if Marked(before, after, n - 1, vacated) then Some(n - 1)
    else LastMarked(before, after, n - 1, vacated)
  }

  /** The cell found is marked and no later one is; when none is found, no cell is marked. */
  lemma {:induction false} LastMarkedMeaning(before: seq<seq<char>>, after: seq<seq<char>>, n: nat, vacated: bool)
    requires IsBoard(before) && IsBoard(after) && n <= 64
    ensures var r := LastMarked(before, after, n, vacated);
      (r.Some? ==> (Marked(before, after, r.value, vacated) && forall k :: r.value < k < n ==> !Marked(before, after, k, vacated)))
      && (r.None? ==> forall k :: 0 <= k < n ==> !Marked(before, after, k, vacated))
  {
    if n > 0 && !Marked(before, after, n - 1, vacated) {
      LastMarkedMeaning(before, after, n - 1, vacated);
    }
  }

  function CellName(k: nat): string
    requires k < 64
  {
    PosToAlgebraic(k / 8, k % 8)
  }

  /** `detect_move`: the last vacated cell's name and the last filled cell's, when both exist. */
  function MoveBetween(before: seq<seq<char>>, after: seq<seq<char>>): Option<string>
    requires IsBoard(before) && IsBoard(after)
  {
    var from := LastMarked(before, after, 64, true);
    var to := LastMarked(before, after, 64, false);
    if from.Some? && to.Some? then Some(CellName(from.value) + CellName(to.value)) else None
  }

  function AsCell(k: Option<nat>): Option<(nat, nat)>
  {
    match k
    case None => None
    case Some(k) => Some((k / 8, k % 8))
  }

  /** One more cell of a row scanned: the cell at `base + col`, where `base` starts the row. */
  lemma ScanStep(before: seq<seq<char>>, after: seq<seq<char>>, base: nat, row: nat, col: nat)
    requires IsBoard(before) && IsBoard(after) && row < 8 && col < 8 && base == 8 * row
    ensures AsCell(LastMarked(before, after, base + col + 1, true))
      == if Vacated(before, after, row, col) then Some((row, col)) else AsCell(LastMarked(before, after, base + col, true))
    ensures AsCell(LastMarked(before, after, base + col + 1, false))
      == if Filled(before, after, row, col) then Some((row, col)) else AsCell(LastMarked(before, after, base + col, false))
  {
    var k := base + col;
    assert k / 8 == row && k % 8 == col;
  }

  /** The inner loop of `detect_move`: the cells of one row, left to right. */
  method ScanRow(before: seq<seq<char>>, after: seq<seq<char>>, row: nat, from0: Option<(nat, nat)>, to0: Option<(nat, nat)>)
    returns (from: Option<(nat, nat)>, to: Option<(nat, nat)>)
    requires IsBoard(before) && IsBoard(after) && row < 8
    requires from0 == AsCell(LastMarked(before, after, 8 * row, true))
    requires to0 == AsCell(LastMarked(before, after, 8 * row, false))
    ensures from == AsCell(LastMarked(before, after, 8 * row + 8, true))
    ensures to == AsCell(LastMarked(before, after, 8 * row + 8, false))
  {
    ghost var base := 8 * row;
    from, to := from0, to0;
    for col := 0 to 8
      invariant from == AsCell(LastMarked(before, after, base + col, true))
      invariant to == AsCell(LastMarked(before, after, base + col, false))
    {
      ScanStep(before, after, base, row, col);
      var b := before[row][col];
      var a := after[row][col];
      if b != a {
        if b != Empty && a == Empty {
          from := Some((row, col));
        }
        if b == Empty && a != Empty {
          to := Some((row, col));
        }
      }
    }
  }

  /** `detect_move`, with its two loops. */
  method DetectMove(before: seq<seq<char>>, after: seq<seq<char>>) returns (m: Option<string>)
    requires IsBoard(before) && IsBoard(after)
    ensures m == MoveBetween(before, after)
  {
    var from: Option<(nat, nat)> := None;
    var to: Option<(nat, nat)> := None;
    for row := 0 to 8
      invariant from == AsCell(LastMarked(before, after, 8 * row, true))
      invariant to == AsCell(LastMarked(before, after, 8 * row, false))
    {
      from, to := ScanRow(before, after, row, from, to);
    }
    if from.Some? && to.Some? {
      m := Some(PosToAlgebraic(from.value.0, from.value.1) + PosToAlgebraic(to.value.0, to.value.1));
    } else {
      m := None;
    }
  }

  /** `find_move` of the image module: the same detection. */
  method FindMove(before: seq<seq<char>>, after: seq<seq<char>>) returns (m: Option<string>)
    requires IsBoard(before) && IsBoard(after)
    ensures m == MoveBetween(before, after)
  {
    m := DetectMove(before, after);
  }

  // ----- what the detection promises -----

  /**
   * When exactly one cell was vacated and exactly one filled, the move is
   * the vacated cell's name followed by the filled one's: four characters.
   */
  lemma SimpleMove(before: seq<seq<char>>, after: seq<seq<char>>, s: nat, t: nat)
    requires IsBoard(before) && IsBoard(after) && s < 64 && t < 64
    requires Marked(before, after, s, true) && Marked(before, after, t, false)
    requires forall k :: 0 <= k < 64 && k != s ==> !Marked(before, after, k, true)
    requires forall k :: 0 <= k < 64 && k != t ==> !Marked(before, after, k, false)
    ensures MoveBetween(before, after) == Some(CellName(s) + CellName(t))
    ensures |MoveBetween(before, after).value| == 4
  {
    LastMarkedMeaning(before, after, 64, true);
    LastMarkedMeaning(before, after, 64, false);
    PosToAlgebraicSquare(s / 8, s % 8);
    PosToAlgebraicSquare(t / 8, t % 8);
  }

  /** Without a vacated cell or without a filled one there is no move: a capture fills no empty cell. */
  lemma NoMoveWithoutBoth(before: seq<seq<char>>, after: seq<seq<char>>)
    requires IsBoard(before) && IsBoard(after)
    ensures MoveBetween(before, after).None? <==>
      (forall k :: 0 <= k < 64 ==> !Marked(before, after, k, true)) || (forall k :: 0 <= k < 64 ==> !Marked(before, after, k, false))
  {
    LastMarkedMeaning(before, after, 64, true);
    LastMarkedMeaning(before, after, 64, false);
  }

  /** A capture: the piece leaves `s` and replaces the piece on `t`; if nothing else changed, no move is found. */
  lemma CaptureYieldsNone(before: seq<seq<char>>, after: seq<seq<char>>, s: nat, t: nat)
    requires IsBoard(before) && IsBoard(after) && s < 64 && t < 64 && s != t
    requires after[s / 8][s % 8] == Empty
    requires before[t / 8][t % 8] != Empty && after[t / 8][t % 8] != Empty
    requires forall k :: 0 <= k < 64 && k != s && k != t ==> before[k / 8][k % 8] == after[k / 8][k % 8]
    ensures MoveBetween(before, after) == None
  {
    assert forall k :: 0 <= k < 64 ==> !Marked(before, after, k, false);
    NoMoveWithoutBoth(before, after);
  }

  /** Identical boards have no move. */
  lemma NoChangeNoMove(b: seq<seq<char>>)
    requires IsBoard(b)
    ensures MoveBetween(b, b) == None
  {
    NoMoveWithoutBoth(b, b);
  }
}
