/**
 * The overlay drawn over the board screenshot: a circle in the 50-pixel
 * cell of the square a piece moves from and of the square it should move to.
 * Only the cell arithmetic is modelled; the drawing itself is not.
 */
module Overlay {
  import opened Wrappers
  import opened Text
  import Board

  const SquareSize: int := 50

  /** `WHITE_BOARD` and `BLACK_BOARD`: the 1-based screen column of each file. */
  const WhiteBoard: map<char, int> := map['a' := 1, 'b' := 2, 'c' := 3, 'd' := 4, 'e' := 5, 'f' := 6, 'g' := 7, 'h' := 8]
  const BlackBoard: map<char, int> := map['h' := 1, 'g' := 2, 'f' := 3, 'e' := 4, 'd' := 5, 'c' := 6, 'b' := 7, 'a' := 8]

  /** An ellipse's bounding box: the top-left and bottom-right pixel. */
  datatype Box = Box(left: int, top: int, right: int, bottom: int)

  /** The 1-based (column, row) of a square's cell on the screenshot, or the exception the lookup raises. */
  function CircleCell(square: string, whiteOnMove: bool): Result<(int, int), string>
  {
    var board := if whiteOnMove then WhiteBoard else BlackBoard;
    if |square| == 0 then Failure("IndexError")
    else if square[0] !in board then Failure("KeyError")
    else if |square| < 2 then Failure("IndexError")
    else if !IsDigit(square[1]) then Failure("ValueError")
    else
      var rank := DigitValue(square[1]);
      Success((board[square[0]], if whiteOnMove then 9 - rank else rank))
  }

  /** The bounding box of the circle drawn in cell (column, row). */
  function CellBox(cell: (int, int)): Box
  {
    Box((cell.0 - 1) * SquareSize, (cell.1 - 1) * SquareSize, cell.0 * SquareSize, cell.1 * SquareSize)
  }

  /** A 50-by-50 box aligned to the cell grid, in one of the eight columns. */
  predicate IsCellBox(b: Box)
  {
    b.right == b.left + SquareSize && b.bottom == b.top + SquareSize
    && b.left % SquareSize == 0 && b.top % SquareSize == 0 && 0 <= b.left <= 7 * SquareSize
  }

  /**
   * `draw`: the two boxes, the origin's first. It fails iff one of the two
   * lookups does, and the origin's exception comes first.
   */
  function Draw(from: string, to: string, whiteOnMove: bool): (r: Result<(Box, Box), string>)
    ensures r.Success? <==> CircleCell(from, whiteOnMove).Success? && CircleCell(to, whiteOnMove).Success?
    ensures r.Failure? ==>
      r.error == (if CircleCell(from, whiteOnMove).Failure? then CircleCell(from, whiteOnMove).error else CircleCell(to, whiteOnMove).error)
    ensures r.Success? ==> IsCellBox(r.value.0) && IsCellBox(r.value.1)
  {
    match CircleCell(from, whiteOnMove)
    case Failure(e) => Failure(e)
    case Success(a) =>
      match CircleCell(to, whiteOnMove)
      case Failure(e) => Failure(e)
      case Success(b) => Success((CellBox(a), CellBox(b)))
  }

  /** White counts columns from file a and rows from rank 8; Black from file h and rank 1. */
  lemma {:induction false} CellOfSquare(sq: Board.Square, whiteOnMove: bool)
    requires Board.OnBoard(sq)
    ensures CircleCell(Board.SquareName(sq), whiteOnMove).Success?
    ensures var cell := CircleCell(Board.SquareName(sq), whiteOnMove).value;
      (whiteOnMove ==> cell == (sq.file as int - 'a' as int + 1, 9 - sq.rank))
      && (!whiteOnMove ==> cell == ('h' as int - sq.file as int + 1, sq.rank))
  {
    Board.SquareNameOnBoard(sq);
    var name := Board.SquareName(sq);
    assert name[1] == DigitChar(sq.rank);
    FileColumn(sq.file);
  }

  /** The column tables, as arithmetic on the file letter. */
  lemma FileColumn(f: char)
    requires 'a' <= f <= 'h'
    ensures f in WhiteBoard && WhiteBoard[f] == f as int - 'a' as int + 1
    ensures f in BlackBoard && BlackBoard[f] == 'h' as int - f as int + 1
  {
  }

  /**
   * The square a snapshot index decodes to is circled in column idx % 8 + 1
   * and row idx / 8 + 1 from either side, so its box starts at
   * ((idx % 8) * 50, (idx / 8) * 50).
   */
  lemma IndexCell(idx: nat, whiteOnMove: bool)
    requires idx < 64
    ensures var name := Board.SquareName(Board.PositionFromIdx(idx, whiteOnMove));
      CircleCell(name, whiteOnMove) == Success((idx % 8 + 1, idx / 8 + 1))
      && CellBox((idx % 8 + 1, idx / 8 + 1)) == Box((idx % 8) * 50, (idx / 8) * 50, (idx % 8 + 1) * 50, (idx / 8 + 1) * 50)
  {
    CellOfSquare(Board.PositionFromIdx(idx, whiteOnMove), whiteOnMove);
  }

  /** Every circle drawn for a square of the board stays inside the 400-by-400 screenshot. */
  lemma BoxInside(sq: Board.Square, whiteOnMove: bool)
    requires Board.OnBoard(sq)
    ensures var b := CellBox(CircleCell(Board.SquareName(sq), whiteOnMove).value);
      0 <= b.left < b.right <= 400 && 0 <= b.top < b.bottom <= 400 && b.right - b.left == 50 && b.bottom - b.top == 50
  {
    CellOfSquare(sq, whiteOnMove);
  }

  /** Different squares are circled in different cells. */
  lemma CellsDistinct(s1: Board.Square, s2: Board.Square, whiteOnMove: bool)
    requires Board.OnBoard(s1) && Board.OnBoard(s2) && s1 != s2
    ensures CircleCell(Board.SquareName(s1), whiteOnMove) != CircleCell(Board.SquareName(s2), whiteOnMove)
  {
    CellOfSquare(s1, whiteOnMove);
    CellOfSquare(s2, whiteOnMove);
  }

  /** A square name the decoder never produces is refused with the exception the lookup raises. */
  lemma BadSquares(whiteOnMove: bool)
    ensures CircleCell("", whiteOnMove) == Failure("IndexError")
    ensures CircleCell("z1", whiteOnMove) == Failure("KeyError")
    ensures CircleCell("e", whiteOnMove) == Failure("IndexError")
    ensures CircleCell("ex", whiteOnMove) == Failure("ValueError")
  {
  }
}
