/**
 * The move decoder of the Python client: placement strings become 64-cell
 * snapshots, and two snapshots taken before and after one move become the
 * move in coordinate notation ("e2e4").
 */
module Board {
  import opened Wrappers
  import opened Text

  /** One square of a snapshot: "" when empty, otherwise the piece letter as a string. */
  type Cell = string
  type Snapshot = seq<Cell>

  /** The exceptions the decoder raises. */
  datatype DecodeError =
    | InvalidMove       // fewer than two squares changed
    | NotPlacementOnly  // the placement string is not a single whitespace-free token
    | IndexError        // fewer than two pawn (or king) squares among the changes
    | UnboundLocal      // five or more squares changed, so no move was ever assigned

  /** `str(exc)` of each exception. */
  function Message(e: DecodeError): string
  {
    match e
    case InvalidMove => ""
    case NotPlacementOnly => "FEN has to have only pieces representation!"
    case IndexError => "list index out of range"
    case UnboundLocal => "cannot access local variable 'moved_from_to_save' where it is not associated with a value"
  }

  // ----- placement string to snapshot -----

  function EmptyCells(n: nat): (cells: seq<Cell>)
    ensures |cells| == n && forall i :: 0 <= i < n ==> cells[i] == ""
  {
    seq(n, _ => "")
  }

  /** The cells one placement character stands for: '/' none, a digit that many empty cells, anything else itself. */
  function CharCells(c: char): seq<Cell>
  {
    if c == '/' then [] else if IsDigit(c) then EmptyCells(DigitValue(c)) else [[c]]
  }

  /** The cells of a whole placement string, character by character from the left. */
  function Expand(fen: string): seq<Cell>
  {
    if fen == [] then [] else Expand(fen[..|fen| - 1]) + CharCells(fen[|fen| - 1])
  }

  /** `len(fen.split()) == 1`. */
  predicate IsSingleToken(fen: string)
  {
    |Words(fen, PyIsSpace)| == 1
  }

  function FenToListSpec(fen: string): Result<Snapshot, DecodeError>
  {
    if IsSingleToken(fen) then Success(Expand(fen)) else Failure(NotPlacementOnly)
  }

  /** `fen_to_list`. */
  method FenToList(fen: string) returns (r: Result<Snapshot, DecodeError>)
    ensures r == FenToListSpec(fen)
  {
    if |Words(fen, PyIsSpace)| != 1 {
      return Failure(NotPlacementOnly);
    }
    var cells: seq<Cell> := [];
    for i := 0 to |fen|
      invariant cells == Expand(fen[..i])
    {
      var sign := fen[i];
      assert fen[..i + 1][..i] == fen[..i];
      if sign == '/' {
      } else if IsDigit(sign) {
        var k := 0;
        while k < DigitValue(sign)
          invariant k <= DigitValue(sign)
          invariant cells == Expand(fen[..i]) + EmptyCells(k)
        {
          cells := cells + [""];
          k := k + 1;
          assert EmptyCells(k) == EmptyCells(k - 1) + [""];
        }
      } else {
        cells := cells + [[sign]];
      }
    }
    assert fen[..|fen|] == fen;
    return Success(cells);
  }

  /** Expansion works piece by piece: the cells of a concatenation are the concatenated cells. */
  lemma {:induction false} ExpandConcat(a: string, b: string)
    ensures Expand(a + b) == Expand(a) + Expand(b)
    decreases |b|
  {
    if b == [] {
      assert a + b == a;
    } else {
      var b' := b[..|b| - 1];
      assert (a + b)[..|a + b| - 1] == a + b';
      assert (a + b)[|a + b| - 1] == b[|b| - 1];
      assert Expand(a + b) == Expand(a + b') + CharCells(b[|b| - 1]);
      ExpandConcat(a, b');
      assert Expand(b) == Expand(b') + CharCells(b[|b| - 1]);
    }
  }

  /** One character expands to its own cells. */
  lemma ExpandSingle(c: char)
    ensures Expand([c]) == CharCells(c)
  {
    assert [c][..0] == [];
  }

  /** A '/' contributes nothing, so separators can be dropped or added freely. */
  lemma {:induction false} ExpandSlash(a: string, b: string)
    ensures Expand(a + "/" + b) == Expand(a) + Expand(b)
  {
    ExpandConcat(a + "/", b);
    ExpandConcat(a, "/");
    ExpandSingle('/');
  }

  /** Every cell is empty or the one-character name of a non-digit, non-'/' character. */
  lemma {:induction false} ExpandCells(fen: string)
    ensures forall c :: c in Expand(fen) ==>
      c == "" || (|c| == 1 && c[0] != '/' && !IsDigit(c[0]) && c[0] in fen)
  {
    if fen != [] {
      ExpandCells(fen[..|fen| - 1]);
      forall c | c in Expand(fen)
        ensures c == "" || (|c| == 1 && c[0] != '/' && !IsDigit(c[0]) && c[0] in fen)
      {
        if c in Expand(fen[..|fen| - 1]) {
          assert forall x :: x in fen[..|fen| - 1] ==> x in fen;
        }
      }
    }
  }

  // ----- squares -----

  const IdxToSign: seq<char> := "abcdefgh"
  const BlackIdxToSign: seq<char> := "hgfedcba"

  /** A square as (file letter, rank number). */
  datatype Square = Square(file: char, rank: int)

  predicate OnBoard(sq: Square)
  {
    'a' <= sq.file <= 'h' && 1 <= sq.rank <= 8
  }

  /** f"{file}{rank}". */
  function SquareName(sq: Square): string
  {
    [sq.file] + IntToString(sq.rank)
  }

  /** `math.ceil(a / b)` for natural numbers. */
  function CeilDiv(a: nat, b: nat): nat
    requires b > 0
  {
    (a + b - 1) / b
  }

  /**
   * `get_position_from_idx`: the square of a snapshot index. From White's side
   * index 0 is a8 and 63 is h1; from Black's side index 0 is h1 and 63 is a8.
   */
  function PositionFromIdx(idx: nat, whiteOnMove: bool): (sq: Square)
    ensures whiteOnMove ==> sq.file as int == 'a' as int + idx % 8 && sq.rank == 8 - idx / 8
    ensures !whiteOnMove ==> sq.file as int == 'h' as int - idx % 8 && sq.rank == idx / 8 + 1
    ensures idx < 64 ==> OnBoard(sq)
  {
    if whiteOnMove then Square(IdxToSign[idx % 8], 9 - CeilDiv(idx + 1, 8))
    else Square(BlackIdxToSign[idx % 8], idx / 8 + 1)
  }

  /** The index a square has from the given side: the inverse of PositionFromIdx. */
  function IdxOfSquare(sq: Square, whiteOnMove: bool): int
  {
    if whiteOnMove then (8 - sq.rank) * 8 + (sq.file as int - 'a' as int)
    else (sq.rank - 1) * 8 + ('h' as int - sq.file as int)
  }

  /** The 64 indices and the 64 squares correspond one to one, from either side. */
  lemma {:induction false} PositionBijection(whiteOnMove: bool)
    ensures forall idx: nat :: idx < 64 ==> IdxOfSquare(PositionFromIdx(idx, whiteOnMove), whiteOnMove) == idx
    ensures forall sq :: OnBoard(sq) ==>
      0 <= IdxOfSquare(sq, whiteOnMove) < 64 && PositionFromIdx(IdxOfSquare(sq, whiteOnMove), whiteOnMove) == sq
  {
  }

  /** The black view is the white view turned half a turn: index i from Black is index 63 - i from White. */
  lemma {:induction false} PositionMirror(idx: nat)
    requires idx < 64
    ensures PositionFromIdx(idx, false) == PositionFromIdx(63 - idx, true)
  {
  }

  /** A square on the board is named by exactly two characters. */
  lemma {:induction false} SquareNameOnBoard(sq: Square)
    requires OnBoard(sq)
    ensures SquareName(sq) == [sq.file, DigitChar(sq.rank)]
  {
  }

  // ----- changed squares -----

  datatype MovedPiece = MovedPiece(idx: nat, piece: Cell)

  /** A changed square is labelled by what stood there before, or by what stands there now if it was empty. */
  function Label(p1: Cell, p2: Cell): Cell
  {
    if p1 != "" then p1 else p2
  }

  function Min(a: nat, b: nat): nat
  {
    if a < b then a else b
  }

  predicate IsAscending(d: seq<MovedPiece>)
  {
    forall i, j :: 0 <= i < j < |d| ==> d[i].idx < d[j].idx
  }

  /** The changed squares among the first `n`, in index order. */
  function DeltasUpTo(b1: Snapshot, b2: Snapshot, n: nat): (d: seq<MovedPiece>)
    requires n <= |b1| && n <= |b2|
    ensures forall m :: m in d ==> m.idx < n && b1[m.idx] != b2[m.idx] && m.piece == Label(b1[m.idx], b2[m.idx])
    ensures IsAscending(d)
  {
    if n == 0 then []
    else
      var step := if b1[n - 1] != b2[n - 1] then [MovedPiece(n - 1, Label(b1[n - 1], b2[n - 1]))] else [];
      DeltasUpTo(b1, b2, n - 1) + step
  }

  /** The changed squares of the two snapshots, compared as far as the shorter one goes. */
  function Deltas(b1: Snapshot, b2: Snapshot): seq<MovedPiece>
  {
    DeltasUpTo(b1, b2, Min(|b1|, |b2|))
  }

  /** The indices below `n` at which the snapshots differ. */
  function DiffSet(b1: Snapshot, b2: Snapshot, n: nat): set<nat>
    requires n <= |b1| && n <= |b2|
  {
    set i: nat | i < n && b1[i] != b2[i]
  }

  function IdxSet(d: seq<MovedPiece>): set<nat>
  {
    set m | m in d :: m.idx
  }

  /** Exactly the differing squares are recorded. */
  lemma DeltasAreDiffSet(b1: Snapshot, b2: Snapshot, n: nat)
    requires n <= |b1| && n <= |b2|
    ensures IdxSet(DeltasUpTo(b1, b2, n)) == DiffSet(b1, b2, n)
  {
    var d := DeltasUpTo(b1, b2, n);
    forall x | x in DiffSet(b1, b2, n)
      ensures x in IdxSet(d)
    {
      DeltasComplete(b1, b2, n, x);
    }
  }

  /** Every differing square below `n` is recorded. */
  lemma {:induction false} DeltasComplete(b1: Snapshot, b2: Snapshot, n: nat, i: nat)
    requires n <= |b1| && n <= |b2| && i < n && b1[i] != b2[i]
    ensures MovedPiece(i, Label(b1[i], b2[i])) in DeltasUpTo(b1, b2, n)
  {
    var m := MovedPiece(i, Label(b1[i], b2[i]));
    var prev := DeltasUpTo(b1, b2, n - 1);
    var step := if b1[n - 1] != b2[n - 1] then [MovedPiece(n - 1, Label(b1[n - 1], b2[n - 1]))] else [];
    DeltasUpToStep(b1, b2, n);
    if i < n - 1 {
      assert m in prev by {
        DeltasComplete(b1, b2, n - 1, i);
      }
      InPrefix(m, prev, step);
    } else {
      assert step == [m];
      InPrefix(m, step, prev);
    }
  }

  lemma DeltasUpToStep(b1: Snapshot, b2: Snapshot, n: nat)
    requires 0 < n <= |b1| && n <= |b2|
    ensures DeltasUpTo(b1, b2, n) == DeltasUpTo(b1, b2, n - 1) + if b1[n - 1] != b2[n - 1] then [MovedPiece(n - 1, Label(b1[n - 1], b2[n - 1]))] else []
  {
  }

  /** What is in one operand of a concatenation is in the concatenation. */
  lemma InPrefix<T>(x: T, a: seq<T>, b: seq<T>)
    requires x in a
    ensures x in a + b && x in b + a
  {
    var k :| 0 <= k < |a| && a[k] == x;
    assert (a + b)[k] == x;
    assert (b + a)[|b| + k] == x;
  }

  lemma IdxSetAppend(d: seq<MovedPiece>, e: seq<MovedPiece>)
    ensures IdxSet(d + e) == IdxSet(d) + IdxSet(e)
  {
    forall x | x in IdxSet(d + e)
      ensures x in IdxSet(d) + IdxSet(e)
    {
      var m :| m in d + e && m.idx == x;
      assert m in d || m in e;
    }
    forall x | x in IdxSet(d) + IdxSet(e)
      ensures x in IdxSet(d + e)
    {
      if x in IdxSet(d) {
        var m :| m in d && m.idx == x;
        assert m in d + e;
      } else {
        var m :| m in e && m.idx == x;
        assert m in d + e;
      }
    }
  }

  lemma DiffSetStep(b1: Snapshot, b2: Snapshot, n: nat)
    requires 0 < n <= |b1| && n <= |b2|
    ensures DiffSet(b1, b2, n) == DiffSet(b1, b2, n - 1) + if b1[n - 1] != b2[n - 1] then {n - 1} else {}
  {
  }

  /** The indices of the changed squares whose label is in `names`, in the order of `d`. */
  function IndicesNamed(d: seq<MovedPiece>, names: set<Cell>): (xs: seq<nat>)
    ensures forall x :: x in xs ==> x in IdxSet(d)
  {
    if d == [] then []
    else IndicesNamed(d[..|d| - 1], names) + (if d[|d| - 1].piece in names then [d[|d| - 1].idx] else [])
  }

  /** How many changed squares carry the label `name`. */
  function Count(d: seq<MovedPiece>, name: Cell): nat
  {
    if d == [] then 0
    else Count(d[..|d| - 1], name) + (if d[|d| - 1].piece == name then 1 else 0)
  }

  predicate IsAscendingNats(xs: seq<nat>)
  {
    forall i, j :: 0 <= i < j < |xs| ==> xs[i] < xs[j]
  }

  function Reverse(xs: seq<nat>): (r: seq<nat>)
    ensures |r| == |xs| && forall i :: 0 <= i < |xs| ==> r[i] == xs[|xs| - 1 - i]
  {
    if xs == [] then [] else [xs[|xs| - 1]] + Reverse(xs[..|xs| - 1])
  }

  /** The indices of the changed squares labelled with one of `names`. */
  function NamedIdxSet(d: seq<MovedPiece>, names: set<Cell>): set<nat>
  {
    set m | m in d && m.piece in names :: m.idx
  }

  /** The filtered indices keep the order of the changes, so they are already sorted. */
  lemma {:induction false} IndicesNamedAscending(d: seq<MovedPiece>, names: set<Cell>)
    requires IsAscending(d)
    ensures IsAscendingNats(IndicesNamed(d, names))
    ensures Elems(IndicesNamed(d, names)) == NamedIdxSet(d, names)
  {
    if d != [] {
      var d' := d[..|d| - 1];
      var last := d[|d| - 1];
      IndicesNamedAscending(d', names);
      var xs' := IndicesNamed(d', names);
      var tail: seq<nat> := if last.piece in names then [last.idx] else [];
      assert IndicesNamed(d, names) == xs' + tail;
      AppendAscending(xs', tail, last.idx) by {
        forall x | x in xs' ensures x < last.idx {
          assert x in IdxSet(d');
          var m :| m in d' && m.idx == x;
          assert m in d;
        }
      }
      assert Elems(xs' + tail) == Elems(xs') + Elems(tail);
      assert d == d' + [last];
      assert NamedIdxSet(d, names) == NamedIdxSet(d', names) + (if last.piece in names then {last.idx} else {});
    }
  }

  lemma {:induction false} AppendAscending(xs: seq<nat>, tail: seq<nat>, bound: nat)
    requires IsAscendingNats(xs) && (forall x :: x in xs ==> x < bound)
    requires tail == [] || tail == [bound]
    ensures IsAscendingNats(xs + tail)
  {
    assert forall i :: 0 <= i < |xs| ==> xs[i] in xs;
  }

  lemma {:induction false} CountIsIndices(d: seq<MovedPiece>, name: Cell)
    ensures Count(d, name) == |IndicesNamed(d, {name})|
  {
    if d != [] {
      CountIsIndices(d[..|d| - 1], name);
    }
  }

  /** `determine_move`: the piece that left an emptied square is the one moving. */
  function DetermineMove(movedFrom: MovedPiece, movedTo: MovedPiece, b1: Snapshot, b2: Snapshot, whiteOnMove: bool): (Square, Square)
    requires movedFrom.idx < |b1| && movedFrom.idx < |b2| && movedTo.idx < |b2|
  {
    if b1[movedFrom.idx] == movedFrom.piece && b2[movedTo.idx] == movedFrom.piece && b2[movedFrom.idx] == "" then
      (PositionFromIdx(movedFrom.idx, whiteOnMove), PositionFromIdx(movedTo.idx, whiteOnMove))
    else
      (PositionFromIdx(movedTo.idx, whiteOnMove), PositionFromIdx(movedFrom.idx, whiteOnMove))
  }

  /** The first two entries of `xs` as squares, or the IndexError of a shorter list. */
  function FirstTwo(xs: seq<nat>, whiteOnMove: bool): Result<(Square, Square), DecodeError>
  {
    if |xs| < 2 then Failure(IndexError)
    else Success((PositionFromIdx(xs[0], whiteOnMove), PositionFromIdx(xs[1], whiteOnMove)))
  }

  const KingNames: set<Cell> := {"K", "k"}

  /** The squares of the move decoded from two snapshots (everything `get_diff_move` does but the final formatting). */
  function DiffSquares(b1: Snapshot, b2: Snapshot, whiteOnMove: bool): Result<(Square, Square), DecodeError>
  {
    var d := Deltas(b1, b2);
    if |d| <= 1 then Failure(InvalidMove) else SquaresOf(d, b1, b2, whiteOnMove)
  }

  predicate WithinBoth(d: seq<MovedPiece>, b1: Snapshot, b2: Snapshot)
  {
    forall m :: m in d ==> m.idx < |b1| && m.idx < |b2|
  }

  /** The move read off two or more changed squares `d`. */
  function SquaresOf(d: seq<MovedPiece>, b1: Snapshot, b2: Snapshot, whiteOnMove: bool): Result<(Square, Square), DecodeError>
    requires |d| >= 2 && WithinBoth(d, b1, b2)
  {
    if |d| == 2 then
      assert d[0] in d && d[1] in d;
      Success(DetermineMove(d[0], d[1], b1, b2, whiteOnMove))
    else if |d| == 3 then
      // en passant: the pawns of the side with more changed squares
      var pawns := if Count(d, "P") < Count(d, "p") then IndicesNamed(d, {"p"}) else Reverse(IndicesNamed(d, {"P"}));
      match FirstTwo(pawns, whiteOnMove)
      case Failure(e) => Failure(e)
      case Success(ft) => Success(if whiteOnMove then ft else (ft.1, ft.0))
    else if |d| == 4 then
      // castling: the king squares, highest first unless a king square comes first
      var kings := IndicesNamed(d, KingNames);
      FirstTwo(if d[0].piece in KingNames then kings else Reverse(kings), whiteOnMove)
    else Failure(UnboundLocal)
  }

  /** `get_diff_move`: the move as f"{file}{rank}{file}{rank}". */
  function DiffMove(b1: Snapshot, b2: Snapshot, whiteOnMove: bool): Result<string, DecodeError>
  {
    match DiffSquares(b1, b2, whiteOnMove)
    case Failure(e) => Failure(e)
    case Success(ft) => Success(SquareName(ft.0) + SquareName(ft.1))
  }

  /** `get_diff_move`, with its scan over the paired cells and its pawn counting loop. */
  method GetDiffMove(b1: Snapshot, b2: Snapshot, whiteOnMove: bool) returns (r: Result<string, DecodeError>)
    ensures r == DiffMove(b1, b2, whiteOnMove)
  {
    var moved: seq<MovedPiece> := [];
    var n := if |b1| < |b2| then |b1| else |b2|;
    for idx := 0 to n
      invariant moved == DeltasUpTo(b1, b2, idx)
    {
      var p1, p2 := b1[idx], b2[idx];
      if p1 != p2 {
        moved := moved + [if p1 != "" then MovedPiece(idx, p1) else MovedPiece(idx, p2)];
      }
    }
    if |moved| <= 1 {
      return Failure(InvalidMove);
    }
    var squares := DecideSquares(moved, b1, b2, whiteOnMove);
    if squares.Failure? {
      return Failure(squares.error);
    }
    var (from, to) := squares.value;
    r := Success(SquareName(from) + SquareName(to));
  }

  /** The branches of `get_diff_move` after the scan, for two or more changed squares. */
  method DecideSquares(moved: seq<MovedPiece>, b1: Snapshot, b2: Snapshot, whiteOnMove: bool)
    returns (squares: Result<(Square, Square), DecodeError>)
    requires |moved| >= 2 && WithinBoth(moved, b1, b2)
    ensures squares == SquaresOf(moved, b1, b2, whiteOnMove)
  {
    if |moved| == 2 {
      assert moved[0] in moved && moved[1] in moved;
      squares := Success(DetermineMove(moved[0], moved[1], b1, b2, whiteOnMove));
    } else if |moved| == 3 {
      var whitePawns, blackPawns := 0, 0;
      for k := 0 to 3
        invariant whitePawns == Count(moved[..k], "P") && blackPawns == Count(moved[..k], "p")
      {
        assert moved[..k + 1][..k] == moved[..k];
        if moved[k].piece == "P" {
          whitePawns := whitePawns + 1;
        }
        if moved[k].piece == "p" {
          blackPawns := blackPawns + 1;
        }
      }
      assert moved[..3] == moved;
      var pawnIdxes := if whitePawns < blackPawns then IndicesNamed(moved, {"p"}) else Reverse(IndicesNamed(moved, {"P"}));
      squares := FirstTwo(pawnIdxes, whiteOnMove);
      if squares.Success? && !whiteOnMove {
        squares := Success((squares.value.1, squares.value.0));
      }
    } else if |moved| == 4 {
      var kingIdxes := IndicesNamed(moved, KingNames);
      if moved[0].piece !in KingNames {
        kingIdxes := Reverse(kingIdxes);
      }
      squares := FirstTwo(kingIdxes, whiteOnMove);
    } else {
      squares := Failure(UnboundLocal);
    }
  }

  // ----- properties of the decoder -----

  /** The numbers a list holds. */
  function Elems(xs: seq<nat>): set<nat>
  {
    set x | x in xs
  }

  lemma {:induction false} AscendingCard(xs: seq<nat>)
    requires IsAscendingNats(xs)
    ensures |Elems(xs)| == |xs|
  {
    if xs != [] {
      var xs' := xs[..|xs| - 1];
      var last := xs[|xs| - 1];
      AscendingCard(xs');
      assert last !in xs';
      assert Elems(xs) == Elems(xs') + {last};
    }
  }

  /** A sorted list holding exactly the two numbers a < b is [a, b]. */
  lemma {:induction false} AscendingPair(xs: seq<nat>, a: nat, b: nat)
    requires IsAscendingNats(xs) && Elems(xs) == {a, b} && a < b
    ensures xs == [a, b]
  {
    AscendingCard(xs);
    assert |{a, b}| == 2;
    assert xs[0] in {a, b} && xs[1] in {a, b};
  }

  /** The changed squares, listed: ascending, and their indices are the differing ones. */
  lemma {:induction false} DeltasShape(b1: Snapshot, b2: Snapshot)
    ensures var d := Deltas(b1, b2);
      IsAscending(d) && IdxSet(d) == DiffSet(b1, b2, Min(|b1|, |b2|))
      && |d| == |DiffSet(b1, b2, Min(|b1|, |b2|))|
  {
    var d := Deltas(b1, b2);
    DeltasAreDiffSet(b1, b2, Min(|b1|, |b2|));
    var all := IndicesNamed(d, set m | m in d :: m.piece);
    IndicesNamedAscending(d, set m | m in d :: m.piece);
    AscendingCard(all);
    assert |all| <= |d| by { IndicesLength(d, set m | m in d :: m.piece); }
    IdxSetCard(d);
  }

  lemma {:induction false} IndicesLength(d: seq<MovedPiece>, names: set<Cell>)
    ensures |IndicesNamed(d, names)| <= |d|
    ensures (forall m :: m in d ==> m.piece in names) ==> |IndicesNamed(d, names)| == |d|
  {
    if d != [] {
      IndicesLength(d[..|d| - 1], names);
      assert forall m :: m in d[..|d| - 1] ==> m in d;
    }
  }

  lemma {:induction false} IdxSetCard(d: seq<MovedPiece>)
    requires IsAscending(d)
    ensures |IdxSet(d)| == |d|
  {
    if d != [] {
      var d' := d[..|d| - 1];
      IdxSetCard(d');
      assert IdxSet(d) == IdxSet(d') + {d[|d| - 1].idx};
      assert forall m :: m in d' ==> m.idx < d[|d| - 1].idx;
    }
  }

  /** Two identical snapshots never decode to a move. */
  lemma {:induction false} NoChangeIsInvalid(b: Snapshot, whiteOnMove: bool)
    ensures DiffMove(b, b, whiteOnMove) == Failure(InvalidMove)
  {
    DeltasShape(b, b);
    assert DiffSet(b, b, |b|) == {};
  }

  /** A single changed square (a piece vanished or appeared) is not a move. */
  lemma {:induction false} OneChangeIsInvalid(b1: Snapshot, b2: Snapshot, whiteOnMove: bool, s: nat)
    requires |b1| == |b2| && DiffSet(b1, b2, |b1|) == {s}
    ensures DiffMove(b1, b2, whiteOnMove) == Failure(InvalidMove)
  {
    DeltasShape(b1, b2);
  }

  /** Five or more changed squares end in the UnboundLocalError. */
  lemma {:induction false} ManyChangesUnbound(b1: Snapshot, b2: Snapshot, whiteOnMove: bool)
    requires |DiffSet(b1, b2, Min(|b1|, |b2|))| >= 5
    ensures DiffMove(b1, b2, whiteOnMove) == Failure(UnboundLocal)
  {
    DeltasShape(b1, b2);
  }

  /**
   * Three changed squares without two squares of the pawn the code picks (the
   * black pawn when fewer changes are labelled "P" than "p", otherwise the
   * white one) end in the IndexError of the pawn list.
   */
  lemma {:induction false} FewPawnsIndexError(b1: Snapshot, b2: Snapshot, whiteOnMove: bool)
    requires |Deltas(b1, b2)| == 3
    requires var d := Deltas(b1, b2);
      |IndicesNamed(d, if Count(d, "P") < Count(d, "p") then {"p"} else {"P"})| < 2
    ensures DiffMove(b1, b2, whiteOnMove) == Failure(IndexError)
  {
    var d := Deltas(b1, b2);
    DeltasWithin(b1, b2);
    if Count(d, "P") >= Count(d, "p") {
      assert |Reverse(IndicesNamed(d, {"P"}))| < 2;
    }
  }

  /** Four changed squares with fewer than two king squares among them end in the IndexError of the king list. */
  lemma {:induction false} FewKingsIndexError(b1: Snapshot, b2: Snapshot, whiteOnMove: bool)
    requires |Deltas(b1, b2)| == 4
    requires |IndicesNamed(Deltas(b1, b2), KingNames)| < 2
    ensures DiffMove(b1, b2, whiteOnMove) == Failure(IndexError)
  {
    var d := Deltas(b1, b2);
    DeltasWithin(b1, b2);
    assert |Reverse(IndicesNamed(d, KingNames))| < 2;
  }

  /**
   * An ordinary move or capture: the piece X leaves square s and stands on t
   * afterwards, and nothing else changes. It decodes to s then t, whichever
   * of s and t comes first in the snapshot.
   */
  lemma {:induction false} OrdinaryMove(b1: Snapshot, b2: Snapshot, whiteOnMove: bool, s: nat, t: nat)
    requires |b1| == |b2| && s < |b1| && t < |b1| && s != t
    requires DiffSet(b1, b2, |b1|) == {s, t}
    requires b1[s] != "" && b2[t] == b1[s] && b2[s] == ""
    ensures DiffSquares(b1, b2, whiteOnMove) == Success((PositionFromIdx(s, whiteOnMove), PositionFromIdx(t, whiteOnMove)))
  {
    var d := Deltas(b1, b2);
    DeltasShape(b1, b2);
    assert |{s, t}| == 2;
    assert d[0].idx < d[1].idx && d[0].idx in {s, t} && d[1].idx in {s, t};
  }

  /** The filtered changed indices are exactly those whose label is among `names`. */
  lemma {:induction false} LabelledIndices(b1: Snapshot, b2: Snapshot, names: set<Cell>, expected: set<nat>)
    requires expected <= DiffSet(b1, b2, Min(|b1|, |b2|))
    requires forall i :: 0 <= i < Min(|b1|, |b2|) && b1[i] != b2[i] ==> (Label(b1[i], b2[i]) in names <==> i in expected)
    ensures IsAscendingNats(IndicesNamed(Deltas(b1, b2), names))
    ensures Elems(IndicesNamed(Deltas(b1, b2), names)) == expected
  {
    var d := Deltas(b1, b2);
    IndicesNamedAscending(d, names);
    DeltasAreDiffSet(b1, b2, Min(|b1|, |b2|));
    forall i | i in expected ensures i in NamedIdxSet(d, names) {
      assert i in IdxSet(d);
      var x :| x in d && x.idx == i;
    }
  }

  /** The other side's pawn. */
  function OtherPawn(m: Cell): Cell
  {
    if m == "P" then "p" else "P"
  }

  /**
   * The snapshots of an en passant capture: pawn m goes from s to the empty
   * square t, taking the opposing pawn on c; nothing else changes.
   */
  predicate IsEnPassant(b1: Snapshot, b2: Snapshot, m: Cell, s: nat, c: nat, t: nat)
  {
    |b1| == |b2| && s < |b1| && c < |b1| && t < |b1| && s != c && c != t && s != t
    && m in {"P", "p"} && DiffSet(b1, b2, |b1|) == {s, c, t}
    && b1[s] == m && b1[c] == OtherPawn(m) && b1[t] == ""
    && b2[s] == "" && b2[c] == "" && b2[t] == m
  }

  /**
   * En passant decodes to s then t when the pawn advances the way the code
   * expects: toward index 0 for the side the board is shown from.
   */
  lemma {:induction false} EnPassant(b1: Snapshot, b2: Snapshot, whiteOnMove: bool, m: Cell, s: nat, c: nat, t: nat)
    requires IsEnPassant(b1, b2, m, s, c, t)
    requires if (m == "P") == whiteOnMove then t < s else s < t
    ensures DiffSquares(b1, b2, whiteOnMove) == Success((PositionFromIdx(s, whiteOnMove), PositionFromIdx(t, whiteOnMove)))
  {
    var d := Deltas(b1, b2);
    assert |d| == 3 by {
      DeltasShape(b1, b2);
      ThreeDistinct(s, c, t);
    }
    EnPassantMover(b1, b2, m, s, c, t);
    EnPassantVictim(b1, b2, m, s, c, t);
    CountIsIndices(d, m);
    CountIsIndices(d, OtherPawn(m));
    DeltasWithin(b1, b2);
    EnPassantDecision(d, b1, b2, whiteOnMove, m, s, t);
  }

  lemma ThreeDistinct(a: nat, b: nat, c: nat)
    requires a != b && b != c && a != c
    ensures |{a, b, c}| == 3
  {
    assert {a, b, c} == {a, b} + {c};
  }

  lemma FourDistinct(a: nat, b: nat, c: nat, d: nat)
    requires a != b && a != c && a != d && b != c && b != d && c != d
    ensures |{a, b, c, d}| == 4
  {
    ThreeDistinct(a, b, c);
    assert {a, b, c, d} == {a, b, c} + {d};
  }

  lemma {:induction false} DeltasWithin(b1: Snapshot, b2: Snapshot)
    ensures WithinBoth(Deltas(b1, b2), b1, b2)
  {
  }

  lemma {:induction false} EnPassantChanges(b1: Snapshot, b2: Snapshot, m: Cell, s: nat, c: nat, t: nat)
    requires IsEnPassant(b1, b2, m, s, c, t)
    ensures forall i :: 0 <= i < |b1| && b1[i] != b2[i] ==> i == s || i == c || i == t
    ensures m != OtherPawn(m) && m != "" && OtherPawn(m) != ""
  {
    forall i | 0 <= i < |b1| && b1[i] != b2[i] ensures i == s || i == c || i == t {
      assert i in DiffSet(b1, b2, |b1|);
    }
    assert m[0] != OtherPawn(m)[0];
  }

  lemma {:induction false} EnPassantMover(b1: Snapshot, b2: Snapshot, m: Cell, s: nat, c: nat, t: nat)
    requires IsEnPassant(b1, b2, m, s, c, t)
    ensures IndicesNamed(Deltas(b1, b2), {m}) == (if s < t then [s, t] else [t, s])
  {
    EnPassantChanges(b1, b2, m, s, c, t);
    forall i | 0 <= i < |b1| && b1[i] != b2[i] ensures Label(b1[i], b2[i]) in {m} <==> i in {s, t} {
      assert i == s || i == t || i == c;
    }
    LabelledIndices(b1, b2, {m}, {s, t});
    if s < t {
      AscendingPair(IndicesNamed(Deltas(b1, b2), {m}), s, t);
    } else {
      AscendingPair(IndicesNamed(Deltas(b1, b2), {m}), t, s);
    }
  }

  lemma {:induction false} EnPassantVictim(b1: Snapshot, b2: Snapshot, m: Cell, s: nat, c: nat, t: nat)
    requires IsEnPassant(b1, b2, m, s, c, t)
    ensures |IndicesNamed(Deltas(b1, b2), {OtherPawn(m)})| == 1
  {
    EnPassantChanges(b1, b2, m, s, c, t);
    forall i | 0 <= i < |b1| && b1[i] != b2[i] ensures Label(b1[i], b2[i]) in {OtherPawn(m)} <==> i in {c} {
      assert i == s || i == t || i == c;
    }
    LabelledIndices(b1, b2, {OtherPawn(m)}, {c});
    AscendingCard(IndicesNamed(Deltas(b1, b2), {OtherPawn(m)}));
  }

  lemma {:induction false} EnPassantDecision(d: seq<MovedPiece>, b1: Snapshot, b2: Snapshot, whiteOnMove: bool, m: Cell, s: nat, t: nat)
    requires |d| == 3 && WithinBoth(d, b1, b2) && m in {"P", "p"}
    requires Count(d, m) == 2 && Count(d, OtherPawn(m)) == 1
    requires IndicesNamed(d, {m}) == (if s < t then [s, t] else [t, s])
    requires if (m == "P") == whiteOnMove then t < s else s < t
    ensures SquaresOf(d, b1, b2, whiteOnMove) == Success((PositionFromIdx(s, whiteOnMove), PositionFromIdx(t, whiteOnMove)))
  {
  }

  /**
   * The snapshots of castling: the king k goes from kf to kt and the rook (any
   * other piece) from rf to rt, the rook starting beyond the king's target and
   * landing between the king's two squares; nothing else changes.
   */
  predicate IsCastling(b1: Snapshot, b2: Snapshot, k: Cell, kf: nat, kt: nat, rf: nat, rt: nat)
  {
    |b1| == |b2| && kf < |b1| && kt < |b1| && rf < |b1| && rt < |b1|
    && ((kf < rt < kt < rf) || (rf < kt < rt < kf))
    && k in KingNames && DiffSet(b1, b2, |b1|) == {kf, kt, rf, rt}
    && b1[kf] == k && b2[kt] == k && b1[kt] == "" && b2[kf] == ""
    && b1[rf] !in KingNames && b1[rf] != "" && b2[rf] == "" && b1[rt] == "" && b2[rt] == b1[rf]
  }

  /** Castling decodes to the king's two squares, kf then kt, from either side. */
  lemma {:induction false} Castling(b1: Snapshot, b2: Snapshot, whiteOnMove: bool, k: Cell, kf: nat, kt: nat, rf: nat, rt: nat)
    requires IsCastling(b1, b2, k, kf, kt, rf, rt)
    ensures DiffSquares(b1, b2, whiteOnMove) == Success((PositionFromIdx(kf, whiteOnMove), PositionFromIdx(kt, whiteOnMove)))
  {
    var d := Deltas(b1, b2);
    assert |d| == 4 by {
      DeltasShape(b1, b2);
      FourDistinct(kf, kt, rf, rt);
    }
    CastlingKings(b1, b2, k, kf, kt, rf, rt);
    CastlingFirst(b1, b2, k, kf, kt, rf, rt);
    DeltasWithin(b1, b2);
    CastlingDecision(d, b1, b2, whiteOnMove, kf, kt);
  }

  lemma {:induction false} CastlingDecision(d: seq<MovedPiece>, b1: Snapshot, b2: Snapshot, whiteOnMove: bool, kf: nat, kt: nat)
    requires |d| == 4 && WithinBoth(d, b1, b2)
    requires IndicesNamed(d, KingNames) == (if kf < kt then [kf, kt] else [kt, kf])
    requires (d[0].piece in KingNames) == (kf < kt)
    ensures SquaresOf(d, b1, b2, whiteOnMove) == Success((PositionFromIdx(kf, whiteOnMove), PositionFromIdx(kt, whiteOnMove)))
  {
  }

  lemma {:induction false} CastlingChanges(b1: Snapshot, b2: Snapshot, k: Cell, kf: nat, kt: nat, rf: nat, rt: nat)
    requires IsCastling(b1, b2, k, kf, kt, rf, rt)
    ensures forall i :: 0 <= i < |b1| && b1[i] != b2[i] ==> i == kf || i == kt || i == rf || i == rt
  {
    forall i | 0 <= i < |b1| && b1[i] != b2[i] ensures i == kf || i == kt || i == rf || i == rt {
      assert i in DiffSet(b1, b2, |b1|);
    }
  }

  lemma {:induction false} CastlingKings(b1: Snapshot, b2: Snapshot, k: Cell, kf: nat, kt: nat, rf: nat, rt: nat)
    requires IsCastling(b1, b2, k, kf, kt, rf, rt)
    ensures IndicesNamed(Deltas(b1, b2), KingNames) == (if kf < kt then [kf, kt] else [kt, kf])
  {
    CastlingChanges(b1, b2, k, kf, kt, rf, rt);
    forall i | 0 <= i < |b1| && b1[i] != b2[i] ensures Label(b1[i], b2[i]) in KingNames <==> i in {kf, kt} {
      assert i == kf || i == kt || i == rf || i == rt;
    }
    LabelledIndices(b1, b2, KingNames, {kf, kt});
    if kf < kt {
      AscendingPair(IndicesNamed(Deltas(b1, b2), KingNames), kf, kt);
    } else {
      AscendingPair(IndicesNamed(Deltas(b1, b2), KingNames), kt, kf);
    }
  }

  /** The first change is the king's origin when castling toward higher indices, the rook's origin otherwise. */
  lemma {:induction false} CastlingFirst(b1: Snapshot, b2: Snapshot, k: Cell, kf: nat, kt: nat, rf: nat, rt: nat)
    requires IsCastling(b1, b2, k, kf, kt, rf, rt)
    ensures |Deltas(b1, b2)| > 0
    ensures Deltas(b1, b2)[0] == (if kf < kt then MovedPiece(kf, k) else MovedPiece(rf, b1[rf]))
  {
    var d := Deltas(b1, b2);
    var lo := if kf < kt then kf else rf;
    DeltasAreDiffSet(b1, b2, |b1|);
    assert lo in DiffSet(b1, b2, |b1|);
    assert lo in IdxSet(d);
    var x :| x in d && x.idx == lo;
    CastlingChanges(b1, b2, k, kf, kt, rf, rt);
    assert d[0] in d;
    assert d[0].idx in DiffSet(b1, b2, |b1|);
    assert d[0].idx <= x.idx by {
      var j :| 0 <= j < |d| && d[j] == x;
    }
  }

  /** With the board shown from the other side, the same changes decode to the mirrored squares (two or four changes). */
  lemma {:induction false} SideMirror(b1: Snapshot, b2: Snapshot)
    requires |Deltas(b1, b2)| != 3
    ensures DiffSquares(b1, b2, false).Failure? <==> DiffSquares(b1, b2, true).Failure?
    ensures DiffSquares(b1, b2, false).Success? ==>
      DiffSquares(b1, b2, false).value == (Reflect(DiffSquares(b1, b2, true).value.0), Reflect(DiffSquares(b1, b2, true).value.1))
  {
    var d := Deltas(b1, b2);
    DeltasWithin(b1, b2);
    if |d| >= 2 {
      SquaresMirror(d, b1, b2);
    }
  }

  lemma SquaresMirror(d: seq<MovedPiece>, b1: Snapshot, b2: Snapshot)
    requires |d| >= 2 && |d| != 3 && WithinBoth(d, b1, b2)
    ensures SquaresOf(d, b1, b2, false).Failure? <==> SquaresOf(d, b1, b2, true).Failure?
    ensures SquaresOf(d, b1, b2, false).Success? ==>
      SquaresOf(d, b1, b2, false).value == (Reflect(SquaresOf(d, b1, b2, true).value.0), Reflect(SquaresOf(d, b1, b2, true).value.1))
  {
    if |d| == 2 {
      ReflectIdx(d[0].idx);
      ReflectIdx(d[1].idx);
    } else if |d| == 4 {
      var kings := IndicesNamed(d, KingNames);
      var xs := if d[0].piece in KingNames then kings else Reverse(kings);
      if |xs| >= 2 {
        ReflectIdx(xs[0]);
        ReflectIdx(xs[1]);
      }
    }
  }

  /** The square of an index seen from Black is the reflection of the one seen from White. */
  lemma ReflectIdx(idx: nat)
    ensures PositionFromIdx(idx, false) == Reflect(PositionFromIdx(idx, true))
  {
  }

  /** Half-turn reflection of a square: a1 and h8 swap, e1 and d8 swap. */
  function Reflect(sq: Square): Square
    requires 'a' <= sq.file <= 'h'
  {
    Square(('a' as int + 'h' as int - sq.file as int) as char, 9 - sq.rank)
  }

  /** A decoded move on snapshots of at most 64 squares names two squares of the board in four characters. */
  lemma {:induction false} MoveIsFourChars(b1: Snapshot, b2: Snapshot, whiteOnMove: bool)
    requires |b1| <= 64 || |b2| <= 64
    requires DiffMove(b1, b2, whiteOnMove).Success?
    ensures var mv := DiffMove(b1, b2, whiteOnMove).value;
      |mv| == 4 && 'a' <= mv[0] <= 'h' && '1' <= mv[1] <= '8' && 'a' <= mv[2] <= 'h' && '1' <= mv[3] <= '8'
  {
    var d := Deltas(b1, b2);
    DeltasWithin(b1, b2);
    var ft := DiffSquares(b1, b2, whiteOnMove).value;
    var i, j := SquaresFromChanges(d, b1, b2, whiteOnMove);
    assert OnBoard(ft.0) && OnBoard(ft.1) by {
      var x :| x in d && x.idx == i;
      var y :| y in d && y.idx == j;
    }
    MoveTextOnBoard(ft.0, ft.1);
  }

  /** Two squares of the board are written in four characters, file and rank each. */
  lemma MoveTextOnBoard(a: Square, b: Square)
    requires OnBoard(a) && OnBoard(b)
    ensures var mv := SquareName(a) + SquareName(b);
      |mv| == 4 && 'a' <= mv[0] <= 'h' && '1' <= mv[1] <= '8' && 'a' <= mv[2] <= 'h' && '1' <= mv[3] <= '8'
  {
    SquareNameOnBoard(a);
    SquareNameOnBoard(b);
  }

  /** Whatever the branch, both squares of a decoded move are squares that changed. */
  lemma {:induction false} SquaresFromChanges(d: seq<MovedPiece>, b1: Snapshot, b2: Snapshot, whiteOnMove: bool) returns (i: nat, j: nat)
    requires |d| >= 2 && WithinBoth(d, b1, b2) && SquaresOf(d, b1, b2, whiteOnMove).Success?
    ensures i in IdxSet(d) && j in IdxSet(d)
    ensures SquaresOf(d, b1, b2, whiteOnMove).value == (PositionFromIdx(i, whiteOnMove), PositionFromIdx(j, whiteOnMove))
  {
    assert d[0] in d && d[1] in d;
    if |d| == 2 {
      if b1[d[0].idx] == d[0].piece && b2[d[1].idx] == d[0].piece && b2[d[0].idx] == "" {
        i, j := d[0].idx, d[1].idx;
      } else {
        i, j := d[1].idx, d[0].idx;
      }
    } else if |d| == 3 {
      var pawns := if Count(d, "P") < Count(d, "p") then IndicesNamed(d, {"p"}) else Reverse(IndicesNamed(d, {"P"}));
      assert pawns[0] in IdxSet(d) && pawns[1] in IdxSet(d) by {
        assert pawns[0] in IndicesNamed(d, {"p"}) + IndicesNamed(d, {"P"});
        assert pawns[1] in IndicesNamed(d, {"p"}) + IndicesNamed(d, {"P"});
      }
      if whiteOnMove {
        i, j := pawns[0], pawns[1];
      } else {
        i, j := pawns[1], pawns[0];
      }
    } else {
      var kings := IndicesNamed(d, KingNames);
      var ks := if d[0].piece in KingNames then kings else Reverse(kings);
      assert ks[0] in kings && ks[1] in kings;
      i, j := ks[0], ks[1];
    }
  }

  // ----- worked examples -----

  /** `name` is the two-character name of a square on the board. */
  lemma NameIs(sq: Square, name: string)
    requires OnBoard(sq) && |name| == 2 && name[0] == sq.file && name[1] == DigitChar(sq.rank)
    ensures SquareName(sq) == name
  {
    SquareNameOnBoard(sq);
  }

  /** Board `after` equals board `before` except at the listed indices: the changed set is exactly those where they differ. */
  lemma DiffSetOf(b1: Snapshot, b2: Snapshot, changed: set<nat>)
    requires |b1| == 64 && |b2| == 64 && forall i :: i in changed ==> i < 64
    requires forall i: nat :: i < 64 ==> (b1[i] != b2[i] <==> i in changed)
    ensures DiffSet(b1, b2, 64) == changed
  {
  }

  /** The squares of a move, written as the two names. */
  lemma MoveName(b1: Snapshot, b2: Snapshot, whiteOnMove: bool, s: nat, t: nat, from: string, to: string)
    requires s < 64 && t < 64
    requires DiffSquares(b1, b2, whiteOnMove) == Success((PositionFromIdx(s, whiteOnMove), PositionFromIdx(t, whiteOnMove)))
    requires |from| == 2 && from[0] == PositionFromIdx(s, whiteOnMove).file && from[1] == DigitChar(PositionFromIdx(s, whiteOnMove).rank)
    requires |to| == 2 && to[0] == PositionFromIdx(t, whiteOnMove).file && to[1] == DigitChar(PositionFromIdx(t, whiteOnMove).rank)
    ensures DiffMove(b1, b2, whiteOnMove) == Success(from + to)
  {
    NameIs(PositionFromIdx(s, whiteOnMove), from);
    NameIs(PositionFromIdx(t, whiteOnMove), to);
  }

  /** An en passant capture on a 64-square board, written out as the move's text. */
  lemma EnPassantText(b1: Snapshot, b2: Snapshot, whiteOnMove: bool, m: Cell, s: nat, c: nat, t: nat, from: string, to: string)
    requires IsEnPassant(b1, b2, m, s, c, t) && |b1| == 64
    requires if (m == "P") == whiteOnMove then t < s else s < t
    requires |from| == 2 && from[0] == PositionFromIdx(s, whiteOnMove).file && from[1] == DigitChar(PositionFromIdx(s, whiteOnMove).rank)
    requires |to| == 2 && to[0] == PositionFromIdx(t, whiteOnMove).file && to[1] == DigitChar(PositionFromIdx(t, whiteOnMove).rank)
    ensures DiffMove(b1, b2, whiteOnMove) == Success(from + to)
  {
    EnPassant(b1, b2, whiteOnMove, m, s, c, t);
    MoveName(b1, b2, whiteOnMove, s, t, from, to);
  }

  /** Castling on a 64-square board, written out as the king's move. */
  lemma CastlingText(b1: Snapshot, b2: Snapshot, whiteOnMove: bool, k: Cell, kf: nat, kt: nat, rf: nat, rt: nat, from: string, to: string)
    requires IsCastling(b1, b2, k, kf, kt, rf, rt) && |b1| == 64
    requires |from| == 2 && from[0] == PositionFromIdx(kf, whiteOnMove).file && from[1] == DigitChar(PositionFromIdx(kf, whiteOnMove).rank)
    requires |to| == 2 && to[0] == PositionFromIdx(kt, whiteOnMove).file && to[1] == DigitChar(PositionFromIdx(kt, whiteOnMove).rank)
    ensures DiffMove(b1, b2, whiteOnMove) == Success(from + to)
  {
    Castling(b1, b2, whiteOnMove, k, kf, kt, rf, rt);
    MoveName(b1, b2, whiteOnMove, kf, kt, from, to);
  }

  /** White's pawn on e5 takes the black pawn on d5 en passant, seen from White: changes 19, 27 and 28 decode to "e5d6". */
  lemma WhiteEnPassantExample()
    ensures DiffMove(EmptyCells(64)[27 := "p"][28 := "P"], EmptyCells(64)[19 := "P"], true) == Success("e5d6")
  {
    var b1 := EmptyCells(64)[27 := "p"][28 := "P"];
    var b2 := EmptyCells(64)[19 := "P"];
    DiffSetOf(b1, b2, {19, 27, 28});
    EnPassantText(b1, b2, true, "P", 28, 27, 19, "e5", "d6");
    assert "e5" + "d6" == "e5d6";
  }

  /** White castles king-side, seen from White: changes 60 to 63 decode to the king's move "e1g1". */
  lemma WhiteShortCastlingExample()
    ensures DiffMove(EmptyCells(64)[60 := "K"][63 := "R"], EmptyCells(64)[61 := "R"][62 := "K"], true) == Success("e1g1")
  {
    var b1 := EmptyCells(64)[60 := "K"][63 := "R"];
    var b2 := EmptyCells(64)[61 := "R"][62 := "K"];
    assert IsCastling(b1, b2, "K", 60, 62, 63, 61) by {
      DiffSetOf(b1, b2, {60, 61, 62, 63});
    }
    CastlingText(b1, b2, true, "K", 60, 62, 63, 61, "e1", "g1");
    assert "e1" + "g1" == "e1g1";
  }

  /** Black castles queen-side, seen from White: changes 0, 2, 3 and 4 decode to the king's move "e8c8". */
  lemma BlackLongCastlingExample()
    ensures DiffMove(EmptyCells(64)[0 := "r"][4 := "k"], EmptyCells(64)[2 := "k"][3 := "r"], true) == Success("e8c8")
  {
    var b1 := EmptyCells(64)[0 := "r"][4 := "k"];
    var b2 := EmptyCells(64)[2 := "k"][3 := "r"];
    assert IsCastling(b1, b2, "k", 4, 2, 0, 3) by {
      DiffSetOf(b1, b2, {0, 2, 3, 4});
    }
    CastlingText(b1, b2, true, "k", 4, 2, 0, 3, "e8", "c8");
    assert "e8" + "c8" == "e8c8";
  }

  /** A white pawn, a black pawn and a knight vanish: only one change is labelled "P", so decoding raises the IndexError. */
  lemma ThreeChangesOnePawnExample()
    ensures DiffMove(EmptyCells(64)[10 := "P"][20 := "p"][30 := "N"], EmptyCells(64), true) == Failure(IndexError)
  {
    var b1 := EmptyCells(64)[10 := "P"][20 := "p"][30 := "N"];
    var b2 := EmptyCells(64);
    var d := Deltas(b1, b2);
    DiffSetOf(b1, b2, {10, 20, 30});
    assert |d| == 3 by {
      DeltasShape(b1, b2);
      ThreeDistinct(10, 20, 30);
    }
    LabelledIndices(b1, b2, {"P"}, {10});
    AscendingCard(IndicesNamed(d, {"P"}));
    LabelledIndices(b1, b2, {"p"}, {20});
    AscendingCard(IndicesNamed(d, {"p"}));
    CountIsIndices(d, "P");
    CountIsIndices(d, "p");
    FewPawnsIndexError(b1, b2, true);
  }

  /** Two rooks swap places with two knights: four changes and no king, so decoding raises the IndexError. */
  lemma FourChangesNoKingExample()
    ensures DiffMove(EmptyCells(64)[0 := "R"][1 := "N"], EmptyCells(64)[2 := "R"][3 := "N"], false) == Failure(IndexError)
  {
    var b1 := EmptyCells(64)[0 := "R"][1 := "N"];
    var b2 := EmptyCells(64)[2 := "R"][3 := "N"];
    var d := Deltas(b1, b2);
    DiffSetOf(b1, b2, {0, 1, 2, 3});
    assert |d| == 4 by {
      DeltasShape(b1, b2);
      FourDistinct(0, 1, 2, 3);
    }
    LabelledIndices(b1, b2, KingNames, {});
    AscendingCard(IndicesNamed(d, KingNames));
    FewKingsIndexError(b1, b2, false);
  }
}
