/**
 * How the Rust front end shows a board: a 128-entry table from ASCII piece
 * letters to chess glyphs, two piece printers, two views that choose the
 * order of rows and columns, and the plain-text dump of an 8-by-8 board.
 */
module Printer {
  import opened Wrappers

  const PieceLetters: string := "rnbqkpRNBQKP"

  /** Entry `i` of `PIECE_TABLE`: the glyph of piece letter `i`, or "". */
  function TableEntry(i: int): string
  {
    if i == 'r' as int then "\U{265C}"
    else if i == 'n' as int then "\U{265E}"
    else if i == 'b' as int then "\U{265D}"
    else if i == 'q' as int then "\U{265B}"
    else if i == 'k' as int then "\U{265A}"
    else if i == 'p' as int then "\U{265F}"
    else if i == 'R' as int then "\U{2656}"
    else if i == 'N' as int then "\U{2658}"
    else if i == 'B' as int then "\U{2657}"
    else if i == 'Q' as int then "\U{2655}"
    else if i == 'K' as int then "\U{2654}"
    else if i == 'P' as int then "\U{2659}"
    else ""
  }

  /** `PIECE_TABLE`: one chess glyph at each of the twelve piece letters, "" everywhere else. */
  function PieceTable(): (t: seq<string>)
    ensures |t| == 128
    ensures forall i :: 0 <= i < 128 ==> (t[i] != "" <==> (i as char) in PieceLetters)
    ensures forall i :: 0 <= i < 128 && t[i] != "" ==> |t[i]| == 1 && '\U{2654}' <= t[i][0] <= '\U{265F}'
  {
    seq(128, i => TableEntry(i))
  }

  /** `get_piece`: the table entry of an ASCII character, None beyond. */
  function GetPiece(c: char): (r: Option<string>)
    ensures r.Some? <==> (c as int) < 128
    ensures r.Some? ==> (r.value != "" <==> c in PieceLetters)
  {
    if (c as int) < 128 then Some(PieceTable()[c as int]) else None
  }

  /** `DefaultPrinter::print_piece`. */
  function DefaultPrint(piece: char): (r: string)
    ensures |r| == 1 && r[0] == piece
  {
    [piece]
  }

  /** `PrettyPrinter::print_piece`: "" for a non-piece ASCII character, " " outside ASCII. */
  function PrettyPrint(piece: char): (r: string)
    ensures piece in PieceLetters ==> |r| == 1 && '\U{2654}' <= r[0] <= '\U{265F}'
    ensures (piece as int) < 128 && piece !in PieceLetters ==> r == ""
    ensures (piece as int) >= 128 ==> r == " "
  {
    GetPiece(piece).UnwrapOr(" ")
  }

  function WhiteRow(i: nat): nat { i }
  function WhiteCol(i: nat): nat { i }

  /** `BlackView`: rows and columns counted from the other side; None is the `usize` subtraction overflow panic above 7. */
  function BlackRow(i: nat): Option<nat>
  {
    if i <= 7 then Some(7 - i) else None
  }

  function BlackCol(i: nat): Option<nat>
  {
    if i <= 7 then Some(7 - i) else None
  }

  /** A `[[char; 8]; 8]`. */
  predicate IsBoard(board: seq<seq<char>>)
  {
    |board| == 8 && forall r :: 0 <= r < 8 ==> |board[r]| == 8
  }

  /** Each cell followed by a space. */
  function CellsText(cells: seq<char>): (t: string)
    ensures |t| == 2 * |cells|
    ensures forall c :: 0 <= c < |cells| ==> t[2 * c] == cells[c] && t[2 * c + 1] == ' '
  {
    if cells == [] then []
    else CellsText(cells[..|cells| - 1]) + [cells[|cells| - 1], ' ']
  }

  function RowText(row: seq<char>): string
  {
    CellsText(row) + "\n"
  }

  /** The rows in order, each with its cells and a newline. */
  function RowsText(rows: seq<seq<char>>): string
  {
    if rows == [] then []
    else RowsText(rows[..|rows| - 1]) + RowText(rows[|rows| - 1])
  }

  /** `raw_board_to_string`. */
  function BoardText(board: seq<seq<char>>): string
  {
    "\n" + RowsText(board)
  }

  // ----- what the printers promise -----

  /** The table holds a glyph exactly at the twelve piece letters, and different letters have different glyphs. */
  lemma TableMeaning(i: nat)
    requires i < 128
    ensures PieceTable()[i] != "" <==> (exists k :: 0 <= k < |PieceLetters| && PieceLetters[k] as int == i)
    ensures forall j :: 0 <= j < 128 && j != i && PieceTable()[i] != "" ==> PieceTable()[j] != PieceTable()[i]
  {
    if PieceTable()[i] != "" {
      var k := LetterIndex(i);
      assert PieceLetters[k] as int == i;
    }
  }

  /** The position of a piece letter in `PieceLetters`. */
  function LetterIndex(i: nat): (k: nat)
    requires i < 128 && PieceTable()[i] != ""
    ensures k < |PieceLetters| && PieceLetters[k] as int == i
  {
    if i == 'r' as int then 0 else if i == 'n' as int then 1 else if i == 'b' as int then 2
    else if i == 'q' as int then 3 else if i == 'k' as int then 4 else if i == 'p' as int then 5
    else if i == 'R' as int then 6 else if i == 'N' as int then 7 else if i == 'B' as int then 8
    else if i == 'Q' as int then 9 else if i == 'K' as int then 10 else 11
  }

  /** `get_piece` answers exactly for ASCII. */
  lemma GetPieceDefined(c: char)
    ensures GetPiece(c).Some? <==> (c as int) < 128
    ensures GetPiece(c).Some? ==> GetPiece(c).value == TableEntry(c as int)
  {
  }

  /** The pretty printer: a glyph for a piece letter, "" for other ASCII (the space included), " " beyond. */
  lemma PrettyPrintCases(c: char)
    ensures c in PieceLetters ==> |PrettyPrint(c)| == 1 && PrettyPrint(c)[0] as int >= 0x2654 && PrettyPrint(c)[0] as int <= 0x265F
    ensures (c as int) < 128 && c !in PieceLetters ==> PrettyPrint(c) == ""
    ensures (c as int) >= 128 ==> PrettyPrint(c) == " "
    ensures PrettyPrint(' ') == ""
  {
  }

  /** The default printer shows the character itself. */
  lemma DefaultPrintIdentity(c: char)
    ensures |DefaultPrint(c)| == 1 && DefaultPrint(c)[0] == c
  {
  }

  /**
   * The white view keeps the order. The black view is defined on 0..7
   * only, where it reverses the order and undoes itself; above 7 it panics.
   */
  lemma ViewsAreBijections(i: nat)
    ensures WhiteRow(i) == i && WhiteCol(i) == i
    ensures BlackRow(i).Some? <==> i <= 7
    ensures BlackCol(i) == BlackRow(i)
    ensures i <= 7 ==> BlackRow(i).value <= 7 && BlackRow(BlackRow(i).value) == Some(i)
    ensures i <= 7 ==> forall j :: 0 <= j <= 7 && j != i ==> BlackRow(j) != BlackRow(i)
  {
  }

  lemma {:induction false} RowsTextLength(rows: seq<seq<char>>)
    requires forall r :: 0 <= r < |rows| ==> |rows[r]| == 8
    ensures |RowsText(rows)| == 17 * |rows|
  {
    if rows != [] {
      RowsTextLength(rows[..|rows| - 1]);
    }
  }

  /** Character `k` of row `r`'s text sits at offset 17 r + k. */
  lemma {:induction false} RowsTextAt(rows: seq<seq<char>>, r: nat, k: nat)
    requires forall i :: 0 <= i < |rows| ==> |rows[i]| == 8
    requires r < |rows| && k < 17
    ensures |RowsText(rows)| == 17 * |rows|
    ensures RowsText(rows)[17 * r + k] == RowText(rows[r])[k]
  {
    RowsTextLength(rows);
    var init := rows[..|rows| - 1];
    RowsTextLength(init);
    if r < |rows| - 1 {
      RowsTextAt(init, r, k);
    }
  }

  /**
   * The dump starts with a newline; row r occupies the 17 characters from
   * 1 + 17 r: each cell followed by a space, then a newline.
   */
  lemma BoardTextLayout(board: seq<seq<char>>, r: nat, c: nat)
    requires IsBoard(board) && r < 8 && c < 8
    ensures |BoardText(board)| == 137 && BoardText(board)[0] == '\n'
    ensures BoardText(board)[1 + 17 * r + 2 * c] == board[r][c]
    ensures BoardText(board)[1 + 17 * r + 2 * c + 1] == ' '
    ensures BoardText(board)[1 + 17 * r + 16] == '\n'
  {
    RowsTextAt(board, r, 2 * c);
    RowsTextAt(board, r, 2 * c + 1);
    RowsTextAt(board, r, 16);
  }

  /** `raw_board_to_string`, with its two loops. */
  method RawBoardToString(board: seq<seq<char>>) returns (result: string)
    requires IsBoard(board)
    ensures result == BoardText(board)
  {
    result := "\n";
    for r := 0 to 8
      invariant result == "\n" + RowsText(board[..r])
    {
      RowsTextSnoc(board, r);
      result := AppendRow(result, board[r]);
    }
    assert board[..8] == board;
  }

  /** One pass of the outer loop: each cell of the row and a space, then a newline. */
  method AppendRow(prefix: string, row: seq<char>) returns (result: string)
    requires |row| == 8
    ensures result == prefix + RowText(row)
  {
    result := prefix;
    for c := 0 to 8
      invariant result == prefix + CellsText(row[..c])
    {
      CellsTextSnoc(row, c);
      result := result + [row[c], ' '];
    }
    assert row[..8] == row;
    result := result + "\n";
  }

  lemma CellsTextSnoc(row: seq<char>, c: nat)
    requires c < |row|
    ensures CellsText(row[..c + 1]) == CellsText(row[..c]) + [row[c], ' ']
  {
    assert row[..c + 1][..c] == row[..c];
  }

  lemma RowsTextSnoc(board: seq<seq<char>>, r: nat)
    requires r < |board|
    ensures RowsText(board[..r + 1]) == RowsText(board[..r]) + RowText(board[r])
  {
    assert board[..r + 1][..r] == board[..r];
  }
}
