/**
 * The occupancy side of the capture engine: which of the 64 cells of a
 * thresholded board image hold a piece, which cell a piece left and which
 * it reached between two such boards, whether exactly two cells changed,
 * and the square name of a cell. A board is `board[row][col]`, row 0 at
 * the top of the image.
 */
module Occupancy {
  import opened Wrappers
  import opened Text
  import Numeric
  import Board

  const IndexOutOfBounds: string := "index out of bounds"
  const DivideByZero: string := "attempt to divide by zero"
  const AddOverflow: string := "attempt to add with overflow"
  const SubtractOverflow: string := "attempt to subtract with overflow"
  const NoStart: string := "Not found start piece position"
  const NoEnd: string := "Not found end piece position"

  /** A `[[bool; 8]; 8]`. */
  predicate IsBoard(b: seq<seq<bool>>)
  {
    |b| == 8 && forall r :: 0 <= r < 8 ==> |b[r]| == 8
  }

  // ----- occupancy of a thresholded image -----

  /** Where row `y` of the one-byte-per-pixel buffer starts. */
  function RowStart(width: nat, y: nat): nat
  {
    y * width
  }

  /** The number of zero bytes among `vec[start + x0 .. start + x0 + n]`. */
  function Zeros(vec: seq<Numeric.u8>, start: nat, n: nat): (z: nat)
    requires n > 0 ==> start + n <= |vec|
    ensures z <= n
  {
    if n == 0 then 0 else Zeros(vec, start, n - 1) + (if vec[start + n - 1] == 0 then 1 else 0)
  }

  /** Rows `y0 .. y0 + k` of the column band `x0 .. x0 + w` lie inside the buffer. */
  predicate RowsInside(vec: seq<Numeric.u8>, width: nat, x0: nat, w: nat, y0: nat, k: nat)
  {
    forall y: nat :: y0 <= y < y0 + k ==> RowStart(width, y) + x0 + w <= |vec|
  }

  /** The zero bytes of the first `k` rows of a block. */
  function BlockZeros(vec: seq<Numeric.u8>, width: nat, x0: nat, w: nat, y0: nat, k: nat): (z: nat)
    requires RowsInside(vec, width, x0, w, y0, k)
    ensures z <= k * w
  {
    if k == 0 then 0
    else BlockZeros(vec, width, x0, w, y0, k - 1) + Zeros(vec, RowStart(width, y0 + k - 1) + x0, w)
  }

  /** The index of the last pixel of cell (row, col), whose square is `sw` by `sh` pixels. */
  function LastIndex(width: nat, sw: nat, sh: nat, row: nat, col: nat): int
    requires sw > 0 && sh > 0
  {
    RowStart(width, row * sh + sh - 1) + col * sw + sw - 1
  }

  predicate BlockInside(vec: seq<Numeric.u8>, width: nat, sw: nat, sh: nat, row: nat, col: nat)
  {
    sw > 0 && sh > 0 && LastIndex(width, sw, sh, row, col) < |vec|
  }

  lemma RowStartMono(width: nat, y: nat, y': nat)
    requires y <= y'
    ensures RowStart(width, y) <= RowStart(width, y')
  {
  }

  /** Every row of a cell ends at or before the cell's last pixel. */
  lemma RowInCell(width: nat, sw: nat, sh: nat, row: nat, col: nat, y: nat)
    requires sw > 0 && sh > 0 && row * sh <= y < row * sh + sh
    ensures RowStart(width, y) + col * sw + sw - 1 <= LastIndex(width, sw, sh, row, col)
  {
    RowStartMono(width, y, row * sh + sh - 1);
  }

  lemma BlockRowsInside(vec: seq<Numeric.u8>, width: nat, sw: nat, sh: nat, row: nat, col: nat)
    requires BlockInside(vec, width, sw, sh, row, col)
    ensures RowsInside(vec, width, col * sw, sw, row * sh, sh)
  {
    forall y: nat | row * sh <= y < row * sh + sh
      ensures RowStart(width, y) + col * sw + sw <= |vec|
    {
      RowInCell(width, sw, sh, row, col, y);
    }
  }

  /** Cells further down or to the right end further into the buffer. */
  lemma LastIndexMono(width: nat, sw: nat, sh: nat, row: nat, col: nat)
    requires sw > 0 && sh > 0 && row < 8 && col < 8
    ensures LastIndex(width, sw, sh, row, col) <= LastIndex(width, sw, sh, 7, 7)
  {
    assert row * sh <= 7 * sh && col * sw <= 7 * sw;
    RowStartMono(width, row * sh + sh - 1, 7 * sh + sh - 1);
  }

  /** The black pixels of cell (row, col). */
  function CellBlack(vec: seq<Numeric.u8>, width: nat, sw: nat, sh: nat, row: nat, col: nat): nat
    requires BlockInside(vec, width, sw, sh, row, col)
  {
    BlockRowsInside(vec, width, sw, sh, row, col);
    BlockZeros(vec, width, col * sw, sw, row * sh, sh)
  }

  /** `(black * 100 / all) as f32 > 0.05`: the integer percentage is at least 1. */
  function Occupied(black: nat, all: nat): bool
    requires all > 0
  {
    black * 100 / all >= 1
  }

  /**
   * `extract_board_state`: a cell is occupied when its integer share of
   * black pixels is at least one percent. With squares of width or height
   * 0 the first cell divides by zero; a buffer too short for the last cell
   * is indexed out of bounds.
   */
  function BoardState(vec: seq<Numeric.u8>, width: nat, height: nat): Result<seq<seq<bool>>, string>
  {
    var sw := width / 8;
    var sh := height / 8;
    if sw == 0 || sh == 0 then Failure(DivideByZero)
    else if LastIndex(width, sw, sh, 7, 7) >= |vec| then Failure(IndexOutOfBounds)
    else Success(seq(8, r requires 0 <= r < 8 =>
      seq(8, c requires 0 <= c < 8 =>
        LastIndexMono(width, sw, sh, r, c);
        Occupied(CellBlack(vec, width, sw, sh, r, c), sw * sh))))
  }

  /** The innermost loop: one row of a cell, with the bounds check of each index. */
  method CountRow(vec: seq<Numeric.u8>, start: nat, x0: nat, n: nat) returns (r: Result<nat, string>)
    ensures n == 0 || start + x0 + n <= |vec| ==> r == Success(Zeros(vec, start + x0, n))
    ensures n > 0 && start + x0 + n > |vec| ==> r == Failure(IndexOutOfBounds)
  {
    var black := 0;
    for x := x0 to x0 + n
      invariant x > x0 ==> start + x <= |vec|
      invariant black == Zeros(vec, start + x0, x - x0)
    {
      var pixelIndex := start + x;
      if pixelIndex >= |vec| {
        return Failure(IndexOutOfBounds);
      }
      if vec[pixelIndex] == 0 {
        black := black + 1;
      }
    }
    r := Success(black);
  }

  /** The two inner loops: the black pixels of one cell and the number of pixels looked at. */
  method CountCell(vec: seq<Numeric.u8>, width: nat, sw: nat, sh: nat, row: nat, col: nat) returns (r: Result<(nat, nat), string>)
    ensures sw == 0 || sh == 0 ==> r == Success((0, 0))
    ensures sw > 0 && sh > 0 && !BlockInside(vec, width, sw, sh, row, col) ==> r == Failure(IndexOutOfBounds)
    ensures BlockInside(vec, width, sw, sh, row, col) ==> r == Success((CellBlack(vec, width, sw, sh, row, col), sh * sw))
  {
    if sw == 0 || sh == 0 {
      return Success((0, 0));
    }
    var x0 := col * sw;
    var y0 := row * sh;
    var black, all := 0, 0;
    for y := y0 to y0 + sh
      invariant RowsInside(vec, width, x0, sw, y0, y - y0)
      invariant black == BlockZeros(vec, width, x0, sw, y0, y - y0)
      invariant all == (y - y0) * sw
      invariant y > y0 ==> RowStart(width, y - 1) + x0 + sw - 1 < |vec|
    {
      var counted := CountRow(vec, RowStart(width, y), x0, sw);
      if counted.Failure? {
        RowInCell(width, sw, sh, row, col, y);
        return Failure(IndexOutOfBounds);
      }
      black := black + counted.value;
      all := all + sw;
    }
    assert RowStart(width, y0 + sh - 1) + x0 + sw - 1 == LastIndex(width, sw, sh, row, col);
    if BlockInside(vec, width, sw, sh, row, col) {
      BlockRowsInside(vec, width, sw, sh, row, col);
    }
    r := Success((black, all));
  }

  /** One cell of `extract_board_state`: its pixel counts, then the share of black ones. */
  method CellAt(vec: seq<Numeric.u8>, width: nat, sw: nat, sh: nat, row: nat, col: nat) returns (r: Result<bool, string>)
    ensures sw == 0 || sh == 0 ==> r == Failure(DivideByZero)
    ensures sw > 0 && sh > 0 && !BlockInside(vec, width, sw, sh, row, col) ==> r == Failure(IndexOutOfBounds)
    ensures BlockInside(vec, width, sw, sh, row, col) ==> r == Success(Occupied(CellBlack(vec, width, sw, sh, row, col), sw * sh))
  {
    var counted := CountCell(vec, width, sw, sh, row, col);
    if counted.Failure? {
      return Failure(IndexOutOfBounds);
    }
    var black, all := counted.value.0, counted.value.1;
    CellArea(sw, sh);
    if all == 0 {
      return Failure(DivideByZero);
    }
    r := Success(Occupied(black, all));
  }

  /** The row loop of `extract_board_state`'s cells: the eight cells of one row. */
  method ExtractRow(vec: seq<Numeric.u8>, width: nat, sw: nat, sh: nat, row: nat) returns (r: Result<seq<bool>, string>)
    requires row < 8
    ensures sw == 0 || sh == 0 ==> r == Failure(DivideByZero)
    ensures sw > 0 && sh > 0 && !BlockInside(vec, width, sw, sh, row, 7) ==> r == Failure(IndexOutOfBounds)
    ensures BlockInside(vec, width, sw, sh, row, 7) ==> (r.Success? && |r.value| == 8
      && forall c :: 0 <= c < 8 ==> BlockInside(vec, width, sw, sh, row, c) && r.value[c] == Occupied(CellBlack(vec, width, sw, sh, row, c), sw * sh))
  {
    var cells: seq<bool> := [];
    for col := 0 to 8
      invariant |cells| == col
      invariant col > 0 ==> BlockInside(vec, width, sw, sh, row, col - 1)
      invariant forall c :: 0 <= c < col ==> BlockInside(vec, width, sw, sh, row, c) && cells[c] == Occupied(CellBlack(vec, width, sw, sh, row, c), sw * sh)
    {
      var cell := CellAt(vec, width, sw, sh, row, col);
      if cell.Failure? {
        if sw > 0 && sh > 0 {
          CellOrder(width, sw, sh, row, col);
        }
        return Failure(cell.error);
      }
      cells := cells + [cell.value];
    }
    r := Success(cells);
  }

  lemma CellArea(sw: nat, sh: nat)
    ensures sh * sw == sw * sh
    ensures sw > 0 && sh > 0 ==> sw * sh > 0
  {
  }

  /** Along a row, later cells end further into the buffer. */
  lemma CellOrder(width: nat, sw: nat, sh: nat, row: nat, col: nat)
    requires sw > 0 && sh > 0 && col < 8
    ensures LastIndex(width, sw, sh, row, col) <= LastIndex(width, sw, sh, row, 7)
  {
    assert col * sw <= 7 * sw;
  }

  /** Down the board, the last cell of a later row ends further into the buffer. */
  lemma RowOrder(width: nat, sw: nat, sh: nat, row: nat)
    requires sw > 0 && sh > 0 && row < 8
    ensures LastIndex(width, sw, sh, row, 7) <= LastIndex(width, sw, sh, 7, 7)
  {
    LastIndexMono(width, sw, sh, row, 7);
  }

  /** `extract_board_state`, with its four loops. */
  method ExtractBoardState(vec: seq<Numeric.u8>, width: nat, height: nat) returns (r: Result<seq<seq<bool>>, string>)
    ensures r == BoardState(vec, width, height)
  {
    var sw := width / 8;
    var sh := height / 8;
    var board: seq<seq<bool>> := [];
    for row := 0 to 8
      invariant |board| == row
      invariant row > 0 ==> BlockInside(vec, width, sw, sh, row - 1, 7)
      invariant forall i :: 0 <= i < row ==> |board[i]| == 8
      invariant forall i, c :: 0 <= i < row && 0 <= c < 8 ==>
        BlockInside(vec, width, sw, sh, i, c) && board[i][c] == Occupied(CellBlack(vec, width, sw, sh, i, c), sw * sh)
    {
      var cells := ExtractRow(vec, width, sw, sh, row);
      if cells.Failure? {
        if sw > 0 && sh > 0 {
          RowOrder(width, sw, sh, row);
        }
        return Failure(cells.error);
      }
      board := board + [cells.value];
    }
    r := Success(board);
    SameBoard(vec, width, height, board);
  }

  lemma SameBoard(vec: seq<Numeric.u8>, width: nat, height: nat, board: seq<seq<bool>>)
    requires width / 8 > 0 && height / 8 > 0 && BlockInside(vec, width, width / 8, height / 8, 7, 7)
    requires IsBoard(board)
    requires forall i, c :: 0 <= i < 8 && 0 <= c < 8 ==>
      BlockInside(vec, width, width / 8, height / 8, i, c) && board[i][c] == Occupied(CellBlack(vec, width, width / 8, height / 8, i, c), (width / 8) * (height / 8))
    ensures BoardState(vec, width, height) == Success(board)
  {
    var sw, sh := width / 8, height / 8;
    LastIndexMono(width, sw, sh, 7, 7);
    assert BoardState(vec, width, height).Success?;
    var b := BoardState(vec, width, height).value;
    assert |b| == 8;
    forall i | 0 <= i < 8
      ensures b[i] == board[i]
    {
      assert |b[i]| == 8;
      assert forall c :: 0 <= c < 8 ==> b[i][c] == board[i][c];
    }
    assert b == board;
  }

  /** A cell is occupied exactly when at least one percent of its pixels are black. */
  lemma OccupiedMeaning(black: nat, all: nat)
    requires all > 0
    ensures Occupied(black, all) <==> 100 * black >= all
  {
  }

  /**
   * The board is read exactly when the image is at least 8 pixels each way
   * and the buffer reaches the last pixel of the bottom-right cell; a
   * buffer of width times height bytes always does.
   */
  lemma BoardStateDefined(vec: seq<Numeric.u8>, width: nat, height: nat)
    ensures BoardState(vec, width, height).Success? <==>
      width >= 8 && height >= 8 && LastIndex(width, width / 8, height / 8, 7, 7) < |vec|
    ensures width >= 8 && height >= 8 && |vec| >= width * height ==> BoardState(vec, width, height).Success?
    ensures (width < 8 || height < 8) ==> BoardState(vec, width, height) == Failure(DivideByZero)
  {
    if width >= 8 && height >= 8 {
      var sw, sh := width / 8, height / 8;
      assert 8 * sh <= height && 8 * sw <= width;
      RowStartMono(width, 7 * sh + sh - 1, height - 1);
      assert RowStart(width, height - 1) + width == RowStart(width, height);
    }
  }

  // ----- the move between two boards -----

  predicate Left(before: seq<seq<bool>>, after: seq<seq<bool>>, k: nat)
    requires IsBoard(before) && IsBoard(after) && k < 64
  {
    before[k / 8][k % 8] && !after[k / 8][k % 8]
  }

  predicate Arrived(before: seq<seq<bool>>, after: seq<seq<bool>>, k: nat)
    requires IsBoard(before) && IsBoard(after) && k < 64
  {
    !before[k / 8][k % 8] && after[k / 8][k % 8]
  }

  predicate Marked(before: seq<seq<bool>>, after: seq<seq<bool>>, k: nat, leaving: bool)
    requires IsBoard(before) && IsBoard(after) && k < 64
  {
    if leaving then Left(before, after, k) else Arrived(before, after, k)
  }

  /** The last of the first `n` cells, in row-major order, that was left (or reached). */
  function LastMarked(before: seq<seq<bool>>, after: seq<seq<bool>>, n: nat, leaving: bool): (r: Option<nat>)
    requires IsBoard(before) && IsBoard(after) && n <= 64
    ensures r.Some? ==> r.value < n
  {
    if n == 0 then None
    else if Marked(before, after, n - 1, leaving) then Some(n - 1)
    else LastMarked(before, after, n - 1, leaving)
  }

  /** The cell found is marked and no later one is; when none is found, no cell is marked. */
  lemma {:induction false} LastMarkedMeaning(before: seq<seq<bool>>, after: seq<seq<bool>>, n: nat, leaving: bool)
    requires IsBoard(before) && IsBoard(after) && n <= 64
    ensures var r := LastMarked(before, after, n, leaving);
      (r.Some? ==> (Marked(before, after, r.value, leaving) && forall k :: r.value < k < n ==> !Marked(before, after, k, leaving)))
      && (r.None? ==> forall k :: 0 <= k < n ==> !Marked(before, after, k, leaving))
  {
    if n > 0 && !Marked(before, after, n - 1, leaving) {
      LastMarkedMeaning(before, after, n - 1, leaving);
    }
  }

  /** Cell `k` as `(col, row)`. */
  function ColRow(k: Option<nat>): Option<(nat, nat)>
  {
    match k
    case None => None
    case Some(k) => Some((k % 8, k / 8))
  }

  /** `detect_move`: the cells left and reached last, or the `expect` that fails, the start's first. */
  function MoveCells(before: seq<seq<bool>>, after: seq<seq<bool>>): Result<((nat, nat), (nat, nat)), string>
    requires IsBoard(before) && IsBoard(after)
  {
    var start := ColRow(LastMarked(before, after, 64, true));
    var end := ColRow(LastMarked(before, after, 64, false));
    if start.None? then Failure(NoStart)
    else if end.None? then Failure(NoEnd)
    else Success((start.value, end.value))
  }

  /** One more cell of a row scanned: the cell at `base + col`, where `base` starts the row. */
  lemma ScanStep(before: seq<seq<bool>>, after: seq<seq<bool>>, base: nat, row: nat, col: nat)
    requires IsBoard(before) && IsBoard(after) && row < 8 && col < 8 && base == 8 * row
    ensures ColRow(LastMarked(before, after, base + col + 1, true))
      == if before[row][col] && !after[row][col] then Some((col, row)) else ColRow(LastMarked(before, after, base + col, true))
    ensures ColRow(LastMarked(before, after, base + col + 1, false))
      == if !before[row][col] && after[row][col] then Some((col, row)) else ColRow(LastMarked(before, after, base + col, false))
  {
    var k := base + col;
    assert k / 8 == row && k % 8 == col;
  }

  /** The inner loop of `detect_move`: the cells of one row, left to right. */
  method ScanRow(before: seq<seq<bool>>, after: seq<seq<bool>>, row: nat, start0: Option<(nat, nat)>, end0: Option<(nat, nat)>)
    returns (start: Option<(nat, nat)>, end: Option<(nat, nat)>)
    requires IsBoard(before) && IsBoard(after) && row < 8
    requires start0 == ColRow(LastMarked(before, after, 8 * row, true))
    requires end0 == ColRow(LastMarked(before, after, 8 * row, false))
    ensures start == ColRow(LastMarked(before, after, 8 * row + 8, true))
    ensures end == ColRow(LastMarked(before, after, 8 * row + 8, false))
  {
    ghost var base := 8 * row;
    start, end := start0, end0;
    for col := 0 to 8
      invariant start == ColRow(LastMarked(before, after, base + col, true))
      invariant end == ColRow(LastMarked(before, after, base + col, false))
    {
      ScanStep(before, after, base, row, col);
      if before[row][col] && !after[row][col] {
        start := Some((col, row));
      }
      if !before[row][col] && after[row][col] {
        end := Some((col, row));
      }
    }
  }

  /** `detect_move`, with its two loops. */
  method DetectMove(before: seq<seq<bool>>, after: seq<seq<bool>>) returns (r: Result<((nat, nat), (nat, nat)), string>)
    requires IsBoard(before) && IsBoard(after)
    ensures r == MoveCells(before, after)
  {
    var start: Option<(nat, nat)> := None;
    var end: Option<(nat, nat)> := None;
    for row := 0 to 8
      invariant start == ColRow(LastMarked(before, after, 8 * row, true))
      invariant end == ColRow(LastMarked(before, after, 8 * row, false))
    {
      start, end := ScanRow(before, after, row, start, end);
    }
    if start.None? {
      return Failure(NoStart);
    }
    if end.None? {
      return Failure(NoEnd);
    }
    r := Success((start.value, end.value));
  }

  /**
   * When one piece leaves cell s and one arrives on cell t, `detect_move`
   * returns them as (col, row).
   */
  lemma SimpleMoveCells(before: seq<seq<bool>>, after: seq<seq<bool>>, s: nat, t: nat)
    requires IsBoard(before) && IsBoard(after) && s < 64 && t < 64
    requires Left(before, after, s) && Arrived(before, after, t)
    requires forall k :: 0 <= k < 64 && k != s && k != t ==> before[k / 8][k % 8] == after[k / 8][k % 8]
    ensures MoveCells(before, after) == Success(((s % 8, s / 8), (t % 8, t / 8)))
  {
    LastMarkedMeaning(before, after, 64, true);
    LastMarkedMeaning(before, after, 64, false);
    assert Marked(before, after, s, true) && Marked(before, after, t, false);
    assert forall k :: 0 <= k < 64 && k != s ==> !Marked(before, after, k, true);
    assert forall k :: 0 <= k < 64 && k != t ==> !Marked(before, after, k, false);
  }

  /** `detect_move` fails exactly when no cell was left, or when one was but none was reached. */
  lemma MoveCellsFailure(before: seq<seq<bool>>, after: seq<seq<bool>>)
    requires IsBoard(before) && IsBoard(after)
    ensures MoveCells(before, after) == Failure(NoStart) <==> forall k :: 0 <= k < 64 ==> !Left(before, after, k)
    ensures MoveCells(before, after) == Failure(NoEnd) <==>
      (exists k :: 0 <= k < 64 && Left(before, after, k)) && forall k :: 0 <= k < 64 ==> !Arrived(before, after, k)
  {
    LastMarkedMeaning(before, after, 64, true);
    LastMarkedMeaning(before, after, 64, false);
    assert forall k :: 0 <= k < 64 ==> ((Marked(before, after, k, true) <==> Left(before, after, k))
      && (Marked(before, after, k, false) <==> Arrived(before, after, k)));
  }

  // ----- did exactly two cells change -----

  predicate Differs(previous: seq<seq<bool>>, current: seq<seq<bool>>, k: nat)
    requires IsBoard(previous) && IsBoard(current) && k < 64
  {
    previous[k / 8][k % 8] != current[k / 8][k % 8]
  }

  /** How many of the first `n` cells differ. */
  function DiffCount(previous: seq<seq<bool>>, current: seq<seq<bool>>, n: nat): nat
    requires IsBoard(previous) && IsBoard(current) && n <= 64
  {
    if n == 0 then 0 else DiffCount(previous, current, n - 1) + (if Differs(previous, current, n - 1) then 1 else 0)
  }

  /** The cells that differ. */
  function Changed(previous: seq<seq<bool>>, current: seq<seq<bool>>, n: nat): set<nat>
    requires IsBoard(previous) && IsBoard(current) && n <= 64
  {
    set k: nat | k < n && Differs(previous, current, k)
  }

  /** The counter counts the cells that differ. */
  lemma {:induction false} DiffCountIsSize(previous: seq<seq<bool>>, current: seq<seq<bool>>, n: nat)
    requires IsBoard(previous) && IsBoard(current) && n <= 64
    ensures DiffCount(previous, current, n) == |Changed(previous, current, n)|
  {
    if n > 0 {
      DiffCountIsSize(previous, current, n - 1);
      if Differs(previous, current, n - 1) {
        assert Changed(previous, current, n) == Changed(previous, current, n - 1) + {n - 1};
      } else {
        assert Changed(previous, current, n) == Changed(previous, current, n - 1);
      }
    }
  }

  /** The inner loop of `check_if_board_was_changed`. */
  method CountRowChanges(previous: seq<seq<bool>>, current: seq<seq<bool>>, row: nat, counter0: nat) returns (counter: nat)
    requires IsBoard(previous) && IsBoard(current) && row < 8
    requires counter0 == DiffCount(previous, current, 8 * row)
    ensures counter == DiffCount(previous, current, 8 * row + 8)
  {
    ghost var base := 8 * row;
    counter := counter0;
    for col := 0 to 8
      invariant counter == DiffCount(previous, current, base + col)
    {
      assert (base + col) / 8 == row && (base + col) % 8 == col;
      if previous[row][col] != current[row][col] {
        counter := counter + 1;
      }
    }
  }

  /** `check_if_board_was_changed`, with its two loops. */
  method CheckIfBoardWasChanged(previous: seq<seq<bool>>, current: seq<seq<bool>>) returns (changed: bool)
    requires IsBoard(previous) && IsBoard(current)
    ensures changed <==> |Changed(previous, current, 64)| == 2
  {
    var counter := 0;
    for row := 0 to 8
      invariant counter == DiffCount(previous, current, 8 * row)
    {
      counter := CountRowChanges(previous, current, row, counter);
    }
    DiffCountIsSize(previous, current, 64);
    changed := counter == 2;
  }

  /** Exactly two cells differ: the set of changed cells is a pair. */
  lemma TwoChanges(previous: seq<seq<bool>>, current: seq<seq<bool>>, s: nat, t: nat)
    requires IsBoard(previous) && IsBoard(current) && s < 64 && t < 64 && s != t
    ensures (Differs(previous, current, s) && Differs(previous, current, t)
      && forall k :: 0 <= k < 64 && k != s && k != t ==> !Differs(previous, current, k))
      <==> Changed(previous, current, 64) == {s, t}
  {
    var c := Changed(previous, current, 64);
    if Changed(previous, current, 64) == {s, t} {
      assert s in c && t in c;
      forall k | 0 <= k < 64 && k != s && k != t
        ensures !Differs(previous, current, k)
      {
        assert k !in c;
      }
    }
  }

  /**
   * A plain move changes exactly two cells; a capture, where the
   * destination stays occupied, changes only one and is not seen as a change.
   */
  lemma MoveAndCapture(before: seq<seq<bool>>, after: seq<seq<bool>>, s: nat, t: nat)
    requires IsBoard(before) && IsBoard(after) && s < 64 && t < 64 && s != t
    requires Left(before, after, s)
    requires forall k :: 0 <= k < 64 && k != s && k != t ==> before[k / 8][k % 8] == after[k / 8][k % 8]
    ensures Arrived(before, after, t) ==> |Changed(before, after, 64)| == 2
    ensures before[t / 8][t % 8] && after[t / 8][t % 8] ==> |Changed(before, after, 64)| == 1
  {
    if Arrived(before, after, t) {
      assert Changed(before, after, 64) == {s, t};
    }
    if before[t / 8][t % 8] && after[t / 8][t % 8] {
      assert Changed(before, after, 64) == {s};
    }
  }

  // ----- square names -----

  /**
   * `pixel_to_chess_coord`: the file letter is 'a' plus the low byte of x,
   * the rank is the board height minus y; the board width is not used.
   */
  function PixelToChessCoord(x: nat, y: nat, boardWidth: nat, boardHeight: nat): (r: Result<string, string>)
    ensures r.Success? <==> x % 256 < 159 && y <= boardHeight
    ensures r.Failure? ==> r.error == (if x % 256 >= 159 then AddOverflow else SubtractOverflow)
    ensures r.Success? ==>
      |r.value| >= 2 && r.value[0] as int == 'a' as int + x % 256
      && AllDigits(r.value[1..]) && DigitsValue(r.value[1..]) == boardHeight - y
  {
    var low := x % 256;
    if 'a' as int + low > 255 then Failure(AddOverflow)
    else if y > boardHeight then Failure(SubtractOverflow)
    else
      var text := [('a' as int + low) as char] + NatToString(boardHeight - y);
      NatToStringValue(boardHeight - y);
      assert text[1..] == NatToString(boardHeight - y);
      Success(text)
  }

  /** On an 8-row board, cell (x, y) is the square of file x and rank 8 - y, whatever the width. */
  lemma PixelToChessCoordSquare(x: nat, y: nat, boardWidth: nat)
    requires x < 8 && y < 8
    ensures var sq := Board.Square(('a' as int + x) as char, 8 - y);
      Board.OnBoard(sq) && PixelToChessCoord(x, y, boardWidth, 8) == Success(Board.SquareName(sq))
  {
  }

  /**
   * The file wraps around every 256 columns, a column whose low byte is
   * 159 or more overflows, and a y below the board underflows.
   */
  lemma PixelToChessCoordLimits(x: nat, y: nat, boardWidth: nat, boardHeight: nat)
    ensures PixelToChessCoord(x + 256, y, boardWidth, boardHeight) == PixelToChessCoord(x, y, boardWidth, boardHeight)
    ensures x % 256 >= 159 ==> PixelToChessCoord(x, y, boardWidth, boardHeight) == Failure(AddOverflow)
    ensures x % 256 < 159 && y > boardHeight ==> PixelToChessCoord(x, y, boardWidth, boardHeight) == Failure(SubtractOverflow)
    ensures x % 256 < 159 && y <= boardHeight ==> PixelToChessCoord(x, y, boardWidth, boardHeight).Success?
  {
  }
}
