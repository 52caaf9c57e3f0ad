/**
 * The classifier's placement codec: an 8x8 grid of square classes (0..11 a
 * piece of "prbnkqPRBNKQ", 12 an empty square) becomes a run-length
 * placement string with rows joined by '-', and placement strings become
 * class sequences again for training.
 */
module Placement {
  import opened Wrappers
  import opened Text
  import Board

  const PieceSymbols: string := "prbnkqPRBNKQ"
  const EmptyClass: int := 12

  predicate IsRow(row: seq<int>)
  {
    forall i :: 0 <= i < |row| ==> 0 <= row[i] <= 12
  }

  /** The grid the classifier yields: eight rows of eight classes in 0..12. */
  predicate IsGrid(g: seq<seq<int>>)
  {
    |g| == 8 && forall j :: 0 <= j < 8 ==> |g[j]| == 8 && IsRow(g[j])
  }

  /** The character a class is written as before run-length coding. */
  function ClassChar(v: int): char
    requires 0 <= v <= 12
  {
    if v == EmptyClass then ' ' else PieceSymbols[v]
  }

  /** A row written one character per square. */
  function RawRow(row: seq<int>): (s: string)
    requires IsRow(row)
    ensures |s| == |row|
  {
    seq(|row|, i requires 0 <= i < |row| => ClassChar(row[i]))
  }

  /** The first `j` rows written out, each followed by '-' except the eighth. */
  function RawUpTo(g: seq<seq<int>>, j: nat): string
    requires IsGrid(g) && j <= 8
  {
    if j == 0 then "" else RawUpTo(g, j - 1) + RawRow(g[j - 1]) + SepText(j - 1)
  }

  /** What follows row `j`: a '-' after every row but the last. */
  function SepText(j: int): string
  {
    if j != 7 then "-" else ""
  }

  function SepToks(j: int): seq<Tok>
  {
    if j != 7 then [Ch('-')] else []
  }

  // ----- run-length tokens -----

  /** A placement string as tokens: a character, or a run of n empty squares. */
  datatype Tok = Ch(c: char) | Sp(n: nat)

  /** A row's tokens: neighbouring empty squares merge into one run. */
  function RowToks(row: seq<int>): (toks: seq<Tok>)
    requires IsRow(row)
    ensures forall t :: t in toks ==> (t.Sp? ==> 1 <= t.n <= |row|) && (t.Ch? ==> t.c in PieceSymbols)
    ensures forall i :: 0 <= i < |toks| - 1 ==> !(toks[i].Sp? && toks[i + 1].Sp?)
    ensures row != [] && row[0] == EmptyClass ==> |toks| > 0 && toks[0].Sp?
  {
    if row == [] then []
    else
      var rest := RowToks(row[1..]);
      if row[0] == EmptyClass then
        if rest != [] && rest[0].Sp? then [Sp(rest[0].n + 1)] + rest[1..] else [Sp(1)] + rest
      else [Ch(ClassChar(row[0]))] + rest
  }

  /** The tokens of the first `j` rows, joined by '-'. */
  function GridToks(g: seq<seq<int>>, j: nat): seq<Tok>
    requires IsGrid(g) && j <= 8
  {
    if j == 0 then [] else GridToks(g, j - 1) + RowToks(g[j - 1]) + SepToks(j - 1)
  }

  /** Tokens in the shape the coder produces: no space characters, runs of 1..8, never two runs side by side. */
  predicate WellFormed(toks: seq<Tok>)
  {
    TokensOk(toks) && NoAdjacentRuns(toks)
  }

  predicate TokensOk(toks: seq<Tok>)
  {
    forall t :: t in toks ==> (t.Ch? ==> t.c != ' ') && (t.Sp? ==> 1 <= t.n <= 8)
  }

  predicate NoAdjacentRuns(toks: seq<Tok>)
  {
    forall i :: 0 <= i < |toks| - 1 ==> !(toks[i].Sp? && toks[i + 1].Sp?)
  }

  /** A token written once every run of at least `k` squares has been replaced by its length. */
  function RenderTok(t: Tok, k: nat): string
  {
    match t
    case Ch(c) => [c]
    case Sp(n) => if n >= k then NatToString(n) else Spaces(n)
  }

  function Render(toks: seq<Tok>, k: nat): string
  {
    if toks == [] then "" else RenderTok(toks[0], k) + Render(toks[1..], k)
  }

  /** The run-length placement string of a grid: every run of empty squares written as its length. */
  function RunLength(g: seq<seq<int>>): string
    requires IsGrid(g)
  {
    Render(GridToks(g, 8), 1)
  }

  /** Python's `str.replace`: every non-overlapping occurrence of `p`, left to right, becomes `r`. */
  function Replace(s: string, p: string, r: string): string
    requires |p| > 0
    decreases |s|
  {
    if |s| < |p| then s
    else if s[..|p|] == p then r + Replace(s[|p|..], p, r)
    else [s[0]] + Replace(s[1..], p, r)
  }

  /** `fen_from_onehot`: the squares written row by row, then the space runs replaced longest first. */
  method FenFromOnehot(oneHot: seq<seq<int>>) returns (output: string)
    requires IsGrid(oneHot)
    ensures output == RunLength(oneHot)
  {
    output := "";
    for j := 0 to 8
      invariant output == RawUpTo(oneHot, j)
    {
      for i := 0 to 8
        invariant output == RawUpTo(oneHot, j) + RawRow(oneHot[j][..i])
      {
        assert RawRow(oneHot[j][..i + 1]) == RawRow(oneHot[j][..i]) + [ClassChar(oneHot[j][i])];
        if oneHot[j][i] == EmptyClass {
          output := output + " ";
        } else {
          output := output + [PieceSymbols[oneHot[j][i]]];
        }
      }
      assert oneHot[j][..8] == oneHot[j];
      if j != 7 {
        output := output + "-";
      }
    }
    GridRaw(oneHot, 8);
    GridWellFormed(oneHot, 8);
    var i := 8;
    while i > 0
      invariant 0 <= i <= 8
      invariant output == Render(GridToks(oneHot, 8), i + 1)
    {
      ReplaceLongestRun(GridToks(oneHot, 8), i);
      output := Replace(output, Spaces(i), NatToString(i));
      i := i - 1;
    }
  }

  // ----- the replacement loop -----

  lemma {:induction false} RenderConcat(a: seq<Tok>, b: seq<Tok>, k: nat)
    ensures Render(a + b, k) == Render(a, k) + Render(b, k)
  {
    if a != [] {
      assert (a + b)[0] == a[0] && (a + b)[1..] == a[1..] + b;
      RenderConcat(a[1..], b, k);
    } else {
      assert a + b == b;
    }
  }

  /** A character other than a space at the front never starts a match of a run of spaces. */
  lemma ReplaceNonSpaceHead(c: char, s: string, k: nat)
    requires k >= 1 && c != ' '
    ensures Replace([c] + s, Spaces(k), NatToString(k)) == [c] + Replace(s, Spaces(k), NatToString(k))
  {
    var cs := [c] + s;
    if |cs| >= k {
      assert cs[..k][0] != Spaces(k)[0];
      assert cs[1..] == s;
    }
  }

  /** A run shorter than the pattern, followed by a non-space, is left alone. */
  lemma {:induction false} ReplaceShortRun(n: nat, s: string, k: nat)
    requires n < k && |s| > 0 && s[0] != ' '
    ensures Replace(Spaces(n) + s, Spaces(k), NatToString(k)) == Spaces(n) + Replace(s, Spaces(k), NatToString(k))
  {
    if n == 0 {
      assert Spaces(n) + s == s;
    } else {
      ShortRunHead(n, s, k);
      ReplaceShortRun(n - 1, s, k);
      SpaceAssoc(Spaces(n - 1), Replace(s, Spaces(k), NatToString(k)));
    }
  }

  lemma SpaceAssoc(a: string, b: string)
    ensures " " + (a + b) == (" " + a) + b
  {
  }

  lemma ShortRunHead(n: nat, s: string, k: nat)
    requires 0 < n < k && |s| > 0 && s[0] != ' '
    ensures Replace(Spaces(n) + s, Spaces(k), NatToString(k)) == " " + Replace(Spaces(n - 1) + s, Spaces(k), NatToString(k))
  {
    var full := Spaces(n) + s;
    assert full[1..] == Spaces(n - 1) + s;
    assert full[0] == ' ';
    if |full| >= k {
      assert full[..k][n] == s[0];
      assert full[..k] != Spaces(k);
    } else {
      assert |Spaces(n - 1) + s| < k;
      assert full == " " + (Spaces(n - 1) + s);
    }
  }

  /**
   * One pass of the replacement loop: replacing the runs of exactly `k` spaces
   * turns the string with runs of `k + 1` and more already replaced into the
   * one with runs of `k` and more replaced.
   */
  lemma {:induction false} ReplaceLongestRun(toks: seq<Tok>, k: nat)
    requires 1 <= k <= 8 && WellFormed(toks)
    ensures Replace(Render(toks, k + 1), Spaces(k), NatToString(k)) == Render(toks, k)
    decreases |toks|
  {
    var p, r := Spaces(k), NatToString(k);
    if toks == [] {
    } else {
      var rest := toks[1..];
      assert WellFormed(rest) by {
        assert forall t :: t in rest ==> t in toks;
        forall i | 0 <= i < |rest| - 1 ensures !(rest[i].Sp? && rest[i + 1].Sp?) {
          assert rest[i] == toks[i + 1] && rest[i + 1] == toks[i + 2];
        }
      }
      ReplaceLongestRun(rest, k);
      assert toks[0] in toks;
      match toks[0]
      case Ch(c) =>
        ReplaceNonSpaceHead(c, Render(rest, k + 1), k);
      case Sp(n) =>
        if n > k {
          NatToStringIsDigit(n);
          ReplaceNonSpaceHead(NatToString(n)[0], Render(rest, k + 1), k);
        } else if n == k {
          var s := Spaces(k) + Render(rest, k + 1);
          assert s[..k] == p && s[k..] == Render(rest, k + 1);
        } else if rest == [] {
          assert Render(toks, k + 1) == Spaces(n) + "";
        } else {
          assert rest[0].Ch? by { assert !(toks[0].Sp? && toks[1].Sp?); }
          assert rest[0] in toks;
          var tail := Render(rest, k + 1);
          assert tail == [rest[0].c] + Render(rest[1..], k + 1);
          ReplaceShortRun(n, tail, k);
        }
    }
  }

  lemma NatToStringIsDigit(n: nat)
    requires 1 <= n <= 9
    ensures NatToString(n) == [DigitChar(n)] && DigitChar(n) != ' '
  {
  }

  /** Before any replacement the tokens render as the raw string. */
  lemma {:induction false} RowRaw(row: seq<int>)
    requires IsRow(row) && |row| <= 8
    ensures Render(RowToks(row), 9) == RawRow(row)
  {
    if row != [] {
      var rest := RowToks(row[1..]);
      RowRaw(row[1..]);
      RawRowCons(row);
      if row[0] != EmptyClass {
        RenderCons(Ch(ClassChar(row[0])), rest, 9);
      } else if rest != [] && rest[0].Sp? {
        var n := rest[0].n;
        assert rest[0] in rest;
        assert rest == [Sp(n)] + rest[1..];
        RunGrowsRaw(n, rest[1..]);
      } else {
        RenderCons(Sp(1), rest, 9);
      }
    }
  }

  lemma RawRowCons(row: seq<int>)
    requires IsRow(row) && |row| > 0
    ensures RawRow(row) == [ClassChar(row[0])] + RawRow(row[1..])
  {
  }

  lemma RenderCons(t: Tok, toks: seq<Tok>, k: nat)
    ensures Render([t] + toks, k) == RenderTok(t, k) + Render(toks, k)
  {
    assert ([t] + toks)[1..] == toks;
  }

  /** Below the run threshold, a run one square longer renders with one more space in front. */
  lemma RunGrowsRaw(n: nat, tail: seq<Tok>)
    requires n < 8
    ensures Render([Sp(n + 1)] + tail, 9) == " " + Render([Sp(n)] + tail, 9)
  {
    RenderCons(Sp(n + 1), tail, 9);
    RenderCons(Sp(n), tail, 9);
  }

  /** Rendering the tokens of `j` rows: those of `j - 1` rows, then row `j`, then its separator. */
  lemma RenderGridStep(g: seq<seq<int>>, j: nat, k: nat)
    requires IsGrid(g) && 0 < j <= 8
    ensures Render(GridToks(g, j), k) == Render(GridToks(g, j - 1), k) + Render(RowToks(g[j - 1]), k) + SepText(j - 1)
  {
    var prev, row := GridToks(g, j - 1), RowToks(g[j - 1]);
    RenderConcat(prev, row, k);
    RenderConcat(prev + row, SepToks(j - 1), k);
    assert Render(SepToks(j - 1), k) == SepText(j - 1);
  }

  lemma {:induction false} GridRaw(g: seq<seq<int>>, j: nat)
    requires IsGrid(g) && j <= 8
    ensures Render(GridToks(g, j), 9) == RawUpTo(g, j)
  {
    if j > 0 {
      GridRaw(g, j - 1);
      RowRaw(g[j - 1]);
      RenderGridStep(g, j, 9);
    }
  }

  lemma {:induction false} GridWellFormed(g: seq<seq<int>>, j: nat)
    requires IsGrid(g) && j <= 8
    ensures WellFormed(GridToks(g, j))
    ensures j > 0 && j - 1 != 7 ==> GridToks(g, j)[|GridToks(g, j)| - 1] == Ch('-')
  {
    if j > 0 {
      GridWellFormed(g, j - 1);
      var prev, row, sep := GridToks(g, j - 1), RowToks(g[j - 1]), SepToks(j - 1);
      RowTokensOk(g[j - 1]);
      NoAdjacentConcat(prev, row);
      NoAdjacentConcat(prev + row, sep);
      assert forall t :: t in prev + row + sep ==> t in prev || t in row || t in sep;
    }
  }

  lemma RowTokensOk(row: seq<int>)
    requires IsRow(row) && |row| <= 8
    ensures TokensOk(RowToks(row)) && NoAdjacentRuns(RowToks(row))
  {
    forall t | t in RowToks(row) && t.Ch? ensures t.c != ' ' {
      var i :| 0 <= i < |PieceSymbols| && PieceSymbols[i] == t.c;
    }
  }

  /** Joining two token sequences creates no neighbouring runs unless the seam does. */
  lemma NoAdjacentConcat(a: seq<Tok>, b: seq<Tok>)
    requires NoAdjacentRuns(a) && NoAdjacentRuns(b)
    requires a == [] || b == [] || !(a[|a| - 1].Sp? && b[0].Sp?)
    ensures NoAdjacentRuns(a + b)
  {
    var ab := a + b;
    forall i | 0 <= i < |ab| - 1 ensures !(ab[i].Sp? && ab[i + 1].Sp?) {
      if i < |a| - 1 {
        assert ab[i] == a[i] && ab[i + 1] == a[i + 1];
      } else if i == |a| - 1 {
        assert ab[i] == a[|a| - 1] && ab[i + 1] == b[0];
      } else {
        assert ab[i] == b[i - |a|] && ab[i + 1] == b[i - |a| + 1];
      }
    }
  }

  // ----- reading placement strings back -----

  /** The classes one character of a dash-free placement string stands for, or the ValueError of `index`. */
  function CharClasses(c: char): Option<seq<int>>
  {
    if '1' <= c <= '8' then Some(Empties(DigitValue(c)))
    else if c in PieceSymbols then Some([IndexOf(PieceSymbols, c)])
    else None
  }

  /** `n` empty squares. */
  function Empties(n: nat): (r: seq<int>)
    ensures |r| == n && forall i :: 0 <= i < n ==> r[i] == EmptyClass
  {
    if n == 0 then [] else Empties(n - 1) + [EmptyClass]
  }

  /** The class of every square of a dash-free placement string, left to right; None is the ValueError. */
  function ClassesOf(s: string): Option<seq<int>>
  {
    if s == [] then Some([]) else Combine(CharClasses(s[0]), ClassesOf(s[1..]))
  }

  /** `_onehot_from_fen`, one class index per output row (the row itself is the class's one-hot vector). */
  function OnehotFromFenSpec(fen: string): Option<seq<int>>
  {
    ClassesOf(Without(fen, '-'))
  }

  /** `_onehot_from_fen`: drops the dashes, then appends one block of rows per character. */
  method OnehotFromFen(fen: string) returns (output: Option<seq<int>>)
    ensures output == OnehotFromFenSpec(fen)
  {
    var s := Without(fen, '-');
    var rows: seq<int> := [];
    for i := 0 to |s|
      invariant ClassesOf(s[..i]) == Some(rows)
    {
      var c := s[i];
      ClassesSnoc(s, i);
      if '1' <= c <= '8' {
        rows := rows + Empties(DigitValue(c));
      } else if c in PieceSymbols {
        rows := rows + [IndexOf(PieceSymbols, c)];
      } else {
        ClassesConcat(s[..i + 1], s[i + 1..]);
        assert s[..i + 1] + s[i + 1..] == s;
        return None;
      }
    }
    assert s[..|s|] == s;
    return Some(rows);
  }

  /** Reading one more character of a prefix. */
  lemma ClassesSnoc(s: string, i: nat)
    requires i < |s|
    ensures ClassesOf(s[..i + 1]) == Combine(ClassesOf(s[..i]), CharClasses(s[i]))
  {
    ClassesConcat(s[..i], [s[i]]);
    assert s[..i + 1] == s[..i] + [s[i]];
    assert ClassesOf([s[i]]) == Combine(CharClasses(s[i]), Some([]));
    if CharClasses(s[i]).Some? {
      assert CharClasses(s[i]).value + [] == CharClasses(s[i]).value;
    }
  }

  function Combine(a: Option<seq<int>>, b: Option<seq<int>>): Option<seq<int>>
  {
    if a.Some? && b.Some? then Some(a.value + b.value) else None
  }

  lemma {:induction false} ClassesConcat(a: string, b: string)
    ensures ClassesOf(a + b) == Combine(ClassesOf(a), ClassesOf(b))
  {
    if a == [] {
      assert a + b == b;
      if ClassesOf(b).Some? {
        assert [] + ClassesOf(b).value == ClassesOf(b).value;
      }
    } else {
      assert (a + b)[0] == a[0] && (a + b)[1..] == a[1..] + b;
      ClassesConcat(a[1..], b);
      CombineAssoc(CharClasses(a[0]), ClassesOf(a[1..]), ClassesOf(b));
    }
  }

  lemma CombineAssoc(x: Option<seq<int>>, y: Option<seq<int>>, z: Option<seq<int>>)
    ensures Combine(Combine(x, y), z) == Combine(x, Combine(y, z))
  {
    if x.Some? && y.Some? && z.Some? {
      assert x.value + y.value + z.value == x.value + (y.value + z.value);
    }
  }

  /** Reading a string with one more character in front. */
  lemma ClassesCons(c: char, t: string)
    ensures ClassesOf([c] + t) == Combine(CharClasses(c), ClassesOf(t))
  {
    assert ([c] + t)[0] == c && ([c] + t)[1..] == t;
  }

  /** No piece letter is written twice, so `index` finds a letter's own class. */
  lemma SymbolIndex(v: int)
    requires 0 <= v < 12
    ensures !('1' <= PieceSymbols[v] <= '8') && PieceSymbols[v] in PieceSymbols
    ensures IndexOf(PieceSymbols, PieceSymbols[v]) == v
  {
    var i := IndexOf(PieceSymbols, PieceSymbols[v]);
    if i < v {
      DistinctSymbols(i, v);
    } else if i > v {
      DistinctSymbols(v, i);
    }
  }

  lemma DistinctSymbols(i: int, j: int)
    requires 0 <= i < j < 12
    ensures PieceSymbols[i] != PieceSymbols[j]
  {
  }

  lemma DigitClasses(m: nat)
    requires 1 <= m <= 8
    ensures NatToString(m) == [DigitChar(m)] && CharClasses(DigitChar(m)) == Some(Empties(m))
  {
  }

  lemma {:induction false} RowClasses(row: seq<int>)
    requires IsRow(row) && |row| <= 8
    ensures ClassesOf(Render(RowToks(row), 1)) == Some(row)
  {
    if row != [] {
      RowClasses(row[1..]);
      var rest := RowToks(row[1..]);
      if row[0] != EmptyClass {
        PieceHeadClasses(row);
      } else if rest != [] && rest[0].Sp? {
        MergedRunClasses(row);
      } else {
        NewRunClasses(row);
      }
    }
  }

  lemma PieceHeadClasses(row: seq<int>)
    requires IsRow(row) && 0 < |row| <= 8 && row[0] != EmptyClass
    requires ClassesOf(Render(RowToks(row[1..]), 1)) == Some(row[1..])
    ensures ClassesOf(Render(RowToks(row), 1)) == Some(row)
  {
    var rest := Render(RowToks(row[1..]), 1);
    assert Render(RowToks(row), 1) == [PieceSymbols[row[0]]] + rest;
    PieceClasses(row[0], rest, row[1..]);
    HeadTail(row);
  }

  lemma PieceClasses(v: int, tail: string, classes: seq<int>)
    requires 0 <= v < 12 && ClassesOf(tail) == Some(classes)
    ensures ClassesOf([PieceSymbols[v]] + tail) == Some([v] + classes)
  {
    SymbolIndex(v);
    ClassesCons(PieceSymbols[v], tail);
  }

  lemma NewRunClasses(row: seq<int>)
    requires IsRow(row) && 0 < |row| <= 8 && row[0] == EmptyClass
    requires var rest := RowToks(row[1..]); !(rest != [] && rest[0].Sp?)
    requires ClassesOf(Render(RowToks(row[1..]), 1)) == Some(row[1..])
    ensures ClassesOf(Render(RowToks(row), 1)) == Some(row)
  {
    var rest := Render(RowToks(row[1..]), 1);
    assert RowToks(row) == [Sp(1)] + RowToks(row[1..]);
    assert Render(RowToks(row), 1) == NatToString(1) + rest;
    DigitClasses(1);
    ClassesCons(DigitChar(1), rest);
    HeadTail(row);
    assert Empties(1) == [EmptyClass];
  }

  lemma MergedRunClasses(row: seq<int>)
    requires IsRow(row) && 0 < |row| <= 8 && row[0] == EmptyClass
    requires var rest := RowToks(row[1..]); rest != [] && rest[0].Sp?
    requires ClassesOf(Render(RowToks(row[1..]), 1)) == Some(row[1..])
    ensures ClassesOf(Render(RowToks(row), 1)) == Some(row)
  {
    var m, tail := MergedRunText(row);
    RunClasses(m, tail, row[1..]);
    HeadTail(row);
  }

  lemma HeadTail(row: seq<int>)
    requires |row| > 0
    ensures [row[0]] + row[1..] == row
  {
  }

  /** A run that grows by one square at the front: its digit goes up by one. */
  lemma MergedRunText(row: seq<int>) returns (m: nat, tail: string)
    requires IsRow(row) && 0 < |row| <= 8 && row[0] == EmptyClass
    requires var rest := RowToks(row[1..]); rest != [] && rest[0].Sp?
    ensures 1 <= m < 8
    ensures Render(RowToks(row[1..]), 1) == [DigitChar(m)] + tail
    ensures Render(RowToks(row), 1) == [DigitChar(m + 1)] + tail
  {
    var rest := RowToks(row[1..]);
    m := rest[0].n;
    assert rest[0] in rest;
    tail := Render(rest[1..], 1);
    NatToStringIsDigit(m);
    NatToStringIsDigit(m + 1);
    assert RowToks(row) == [Sp(m + 1)] + rest[1..];
  }

  lemma RunClasses(m: nat, tail: string, classes: seq<int>)
    requires 1 <= m < 8 && ClassesOf([DigitChar(m)] + tail) == Some(classes)
    ensures ClassesOf([DigitChar(m + 1)] + tail) == Some([EmptyClass] + classes)
  {
    DigitHead(m, tail);
    DigitHead(m + 1, tail);
    var tailClasses := ClassesOf(tail).value;
    EmptiesCons(m);
    ConsAssoc(EmptyClass, Empties(m), tailClasses);
  }

  lemma ConsAssoc(x: int, a: seq<int>, b: seq<int>)
    ensures ([x] + a) + b == [x] + (a + b)
  {
  }

  /** A run digit in front reads as that many empty squares. */
  lemma DigitHead(m: nat, tail: string)
    requires 1 <= m <= 8
    ensures ClassesOf([DigitChar(m)] + tail) == Combine(Some(Empties(m)), ClassesOf(tail))
  {
    DigitClasses(m);
    ClassesCons(DigitChar(m), tail);
  }

  lemma EmptiesCons(m: nat)
    ensures Empties(m + 1) == [EmptyClass] + Empties(m)
  {
    var a, b := Empties(m + 1), [EmptyClass] + Empties(m);
    assert forall i :: 0 <= i < |a| ==> a[i] == b[i];
  }

  lemma {:induction false} WithoutConcat(a: string, b: string, c: char)
    ensures Without(a + b, c) == Without(a, c) + Without(b, c)
  {
    if a != [] {
      assert (a + b)[0] == a[0] && (a + b)[1..] == a[1..] + b;
      WithoutConcat(a[1..], b, c);
    } else {
      assert a + b == b;
    }
  }

  lemma {:induction false} WithoutAbsent(s: string, c: char)
    requires c !in s
    ensures Without(s, c) == s
  {
    if s != [] {
      WithoutAbsent(s[1..], c);
    }
  }

  /** The characters a row is written with once every run is replaced: piece letters and the digits 1..8. */
  lemma {:induction false} RowChars(row: seq<int>)
    requires IsRow(row) && |row| <= 8
    ensures forall c :: c in Render(RowToks(row), 1) ==> c in PieceSymbols || '1' <= c <= '8'
  {
    RowCharsOf(RowToks(row), |row|);
  }

  lemma {:induction false} RowCharsOf(toks: seq<Tok>, bound: nat)
    requires bound <= 8
    requires forall t :: t in toks ==> (t.Sp? ==> 1 <= t.n <= bound) && (t.Ch? ==> t.c in PieceSymbols)
    ensures forall c :: c in Render(toks, 1) ==> c in PieceSymbols || '1' <= c <= '8'
  {
    if toks != [] {
      assert toks[0] in toks;
      assert forall t :: t in toks[1..] ==> t in toks;
      RowCharsOf(toks[1..], bound);
      if toks[0].Sp? {
        NatToStringIsDigit(toks[0].n);
      }
    }
  }

  lemma {:induction false} GridClasses(g: seq<seq<int>>, j: nat)
    requires IsGrid(g) && j <= 8
    ensures ClassesOf(Without(Render(GridToks(g, j), 1), '-')) == Some(Flatten(g[..j]))
  {
    if j > 0 {
      GridClasses(g, j - 1);
      var row := g[j - 1];
      var prevText := Render(GridToks(g, j - 1), 1);
      RenderGridStep(g, j, 1);
      RowWithoutDash(row, prevText, SepText(j - 1));
      ClassesConcat(Without(prevText, '-'), Render(RowToks(row), 1));
      RowClasses(row);
      FlattenPrefix(g, j);
    }
  }

  /** Dropping the dashes keeps a coded row whole and drops its separator. */
  lemma RowWithoutDash(row: seq<int>, prevText: string, sep: string)
    requires IsRow(row) && |row| <= 8 && (sep == "-" || sep == "")
    ensures Without(prevText + Render(RowToks(row), 1) + sep, '-') == Without(prevText, '-') + Render(RowToks(row), 1)
  {
    var rowText := Render(RowToks(row), 1);
    RowChars(row);
    assert '-' !in rowText;
    WithoutAround(prevText, rowText, sep, '-');
    assert Without(sep, '-') == [];
  }

  lemma WithoutAround(a: string, m: string, c: string, x: char)
    requires x !in m
    ensures Without(a + m + c, x) == Without(a, x) + m + Without(c, x)
  {
    WithoutConcat(a, m, x);
    WithoutConcat(a + m, c, x);
    WithoutAbsent(m, x);
  }

  /** The rows one after another. */
  function Flatten(rows: seq<seq<int>>): seq<int>
  {
    if rows == [] then [] else Flatten(rows[..|rows| - 1]) + rows[|rows| - 1]
  }

  lemma FlattenPrefix(rows: seq<seq<int>>, j: nat)
    requires 0 < j <= |rows|
    ensures Flatten(rows[..j]) == Flatten(rows[..j - 1]) + rows[j - 1]
  {
    assert rows[..j][..j - 1] == rows[..j - 1];
  }

  /** Reading a coded grid back gives every square's class, row after row. */
  lemma RoundTrip(g: seq<seq<int>>)
    requires IsGrid(g)
    ensures OnehotFromFenSpec(RunLength(g)) == Some(Flatten(g))
  {
    GridClasses(g, 8);
    assert g[..8] == g;
  }

  // ----- the placement handed to the move decoder -----

  /** `predict_fen_from_image` after classification: the coded grid with '-' turned into '/'. */
  function PredictedPlacement(g: seq<seq<int>>): string
    requires IsGrid(g)
  {
    ReplaceChar(RunLength(g), '-', '/')
  }

  /** The decoder's cell for a class: "" for an empty square, else the piece letter. */
  function SquareCell(v: int): Board.Cell
    requires 0 <= v <= 12
  {
    if v == EmptyClass then "" else [PieceSymbols[v]]
  }

  function RowCells(row: seq<int>): (cells: seq<Board.Cell>)
    requires IsRow(row)
    ensures |cells| == |row|
  {
    seq(|row|, i requires 0 <= i < |row| => SquareCell(row[i]))
  }

  /** The cells of the first `j` rows, row after row. */
  function GridCells(g: seq<seq<int>>, j: nat): (cells: seq<Board.Cell>)
    requires IsGrid(g) && j <= 8
    ensures |cells| == 8 * j
  {
    if j == 0 then [] else GridCells(g, j - 1) + RowCells(g[j - 1])
  }

  lemma {:induction false} ReplaceCharConcat(a: string, b: string, x: char, y: char)
    ensures ReplaceChar(a + b, x, y) == ReplaceChar(a, x, y) + ReplaceChar(b, x, y)
  {
    var l, r := ReplaceChar(a + b, x, y), ReplaceChar(a, x, y) + ReplaceChar(b, x, y);
    assert forall i :: 0 <= i < |l| ==> l[i] == r[i] by {
      forall i | 0 <= i < |l| ensures l[i] == r[i] {
        if i < |a| {
          assert (a + b)[i] == a[i];
        } else {
          assert (a + b)[i] == b[i - |a|];
        }
      }
    }
  }

  lemma {:induction false} ReplaceCharAbsent(s: string, x: char, y: char)
    requires x !in s
    ensures ReplaceChar(s, x, y) == s
  {
    var r := ReplaceChar(s, x, y);
    assert forall i :: 0 <= i < |s| ==> r[i] == s[i] by {
      forall i | 0 <= i < |s| ensures r[i] == s[i] {
        assert s[i] in s;
      }
    }
  }

  /** The decoder reads a coded row as its classes' cells. */
  lemma {:induction false} RowExpand(row: seq<int>)
    requires IsRow(row) && |row| <= 8
    ensures Board.Expand(Render(RowToks(row), 1)) == RowCells(row)
  {
    if row != [] {
      RowExpand(row[1..]);
      var rest := RowToks(row[1..]);
      if row[0] != EmptyClass {
        PieceHeadExpand(row);
      } else if rest != [] && rest[0].Sp? {
        var m, tail := MergedRunText(row);
        RunExpand(m, tail, RowCells(row[1..]));
        RowCellsCons(row);
      } else {
        NewRunExpand(row);
      }
    }
  }

  lemma ExpandCons(c: char, t: string)
    ensures Board.Expand([c] + t) == Board.CharCells(c) + Board.Expand(t)
  {
    Board.ExpandConcat([c], t);
    assert [c][..0] == [];
  }

  lemma PieceHeadExpand(row: seq<int>)
    requires IsRow(row) && 0 < |row| <= 8 && row[0] != EmptyClass
    requires Board.Expand(Render(RowToks(row[1..]), 1)) == RowCells(row[1..])
    ensures Board.Expand(Render(RowToks(row), 1)) == RowCells(row)
  {
    var rest := Render(RowToks(row[1..]), 1);
    assert Render(RowToks(row), 1) == [PieceSymbols[row[0]]] + rest;
    PieceExpand(row[0], rest, RowCells(row[1..]));
    RowCellsCons(row);
  }

  lemma PieceExpand(v: int, tail: string, cells: seq<Board.Cell>)
    requires 0 <= v < 12 && Board.Expand(tail) == cells
    ensures Board.Expand([PieceSymbols[v]] + tail) == [SquareCell(v)] + cells
  {
    PieceCharCells(v);
    ExpandCons(PieceSymbols[v], tail);
  }

  lemma PieceCharCells(v: int)
    requires 0 <= v < 12
    ensures Board.CharCells(PieceSymbols[v]) == [[PieceSymbols[v]]]
  {
    SymbolIsLetter(v);
  }

  lemma SymbolIsLetter(v: int)
    requires 0 <= v < 12
    ensures 'a' <= PieceSymbols[v] <= 'z' || 'A' <= PieceSymbols[v] <= 'Z'
  {
  }

  lemma RowCellsCons(row: seq<int>)
    requires IsRow(row) && |row| > 0
    ensures RowCells(row) == [SquareCell(row[0])] + RowCells(row[1..])
  {
  }

  lemma NewRunExpand(row: seq<int>)
    requires IsRow(row) && 0 < |row| <= 8 && row[0] == EmptyClass
    requires var rest := RowToks(row[1..]); !(rest != [] && rest[0].Sp?)
    requires Board.Expand(Render(RowToks(row[1..]), 1)) == RowCells(row[1..])
    ensures Board.Expand(Render(RowToks(row), 1)) == RowCells(row)
  {
    var rest := Render(RowToks(row[1..]), 1);
    assert RowToks(row) == [Sp(1)] + RowToks(row[1..]);
    assert Render(RowToks(row), 1) == NatToString(1) + rest;
    NatToStringIsDigit(1);
    OneRunExpand(rest, RowCells(row[1..]));
    RowCellsCons(row);
  }

  lemma OneRunExpand(tail: string, cells: seq<Board.Cell>)
    requires Board.Expand(tail) == cells
    ensures Board.Expand([DigitChar(1)] + tail) == [""] + cells
  {
    ExpandCons(DigitChar(1), tail);
    assert Board.EmptyCells(1) == [""];
  }

  lemma RunExpand(m: nat, tail: string, cells: seq<Board.Cell>)
    requires 1 <= m < 8 && Board.Expand([DigitChar(m)] + tail) == cells
    ensures Board.Expand([DigitChar(m + 1)] + tail) == [""] + cells
  {
    ExpandCons(DigitChar(m), tail);
    ExpandCons(DigitChar(m + 1), tail);
    assert Board.EmptyCells(m + 1) == [""] + Board.EmptyCells(m);
  }

  /** The decoder reads the first `j` coded rows, dashes turned into '/', as their cells. */
  lemma {:induction false} GridExpand(g: seq<seq<int>>, j: nat)
    requires IsGrid(g) && j <= 8
    ensures Board.Expand(ReplaceChar(Render(GridToks(g, j), 1), '-', '/')) == GridCells(g, j)
  {
    if j > 0 {
      GridExpand(g, j - 1);
      var row := g[j - 1];
      var prevText, rowText := Render(GridToks(g, j - 1), 1), Render(RowToks(row), 1);
      RenderGridStep(g, j, 1);
      RowSlashes(prevText, row, SepText(j - 1));
      var slashed := ReplaceChar(SepText(j - 1), '-', '/');
      Board.ExpandConcat(ReplaceChar(prevText, '-', '/'), rowText);
      Board.ExpandConcat(ReplaceChar(prevText, '-', '/') + rowText, slashed);
      assert Board.Expand(slashed) == [] by {
        if j - 1 != 7 {
          assert slashed == "/";
          assert "/"[..0] == [];
        }
      }
      RowExpand(row);
    }
  }

  lemma RowSlashes(prevText: string, row: seq<int>, sep: string)
    requires IsRow(row) && |row| <= 8
    ensures ReplaceChar(prevText + Render(RowToks(row), 1) + sep, '-', '/')
      == ReplaceChar(prevText, '-', '/') + Render(RowToks(row), 1) + ReplaceChar(sep, '-', '/')
  {
    var rowText := Render(RowToks(row), 1);
    RowChars(row);
    assert '-' !in rowText;
    ReplaceAround(prevText, rowText, sep, '-', '/');
  }

  lemma ReplaceAround(a: string, m: string, c: string, x: char, y: char)
    requires x !in m
    ensures ReplaceChar(a + m + c, x, y) == ReplaceChar(a, x, y) + m + ReplaceChar(c, x, y)
  {
    ReplaceCharConcat(a + m, c, x, y);
    ReplaceCharConcat(a, m, x, y);
    ReplaceCharAbsent(m, x, y);
  }

  /** The coded grid holds only piece letters, run digits 1..8 and row separators. */
  lemma {:induction false} GridChars(g: seq<seq<int>>, j: nat)
    requires IsGrid(g) && j <= 8
    ensures forall c :: c in Render(GridToks(g, j), 1) ==> c in PieceSymbols || '1' <= c <= '8' || c == '-'
  {
    if j > 0 {
      GridChars(g, j - 1);
      RenderGridStep(g, j, 1);
      RowChars(g[j - 1]);
    }
  }

  /**
   * The placement the recognizer hands on is read by the move decoder as
   * 64 cells, cell 8j+i holding the class of row j, column i.
   */
  lemma PredictedBoard(g: seq<seq<int>>)
    requires IsGrid(g)
    ensures Board.FenToListSpec(PredictedPlacement(g)) == Success(GridCells(g, 8))
    ensures forall j, i :: 0 <= j < 8 && 0 <= i < 8 ==> GridCells(g, 8)[8 * j + i] == SquareCell(g[j][i])
  {
    GridExpand(g, 8);
    PredictedSingleToken(g);
    GridCellsAt(g, 8);
  }

  /** The placement is one whitespace-free word, so the decoder's single-field check passes. */
  lemma PredictedSingleToken(g: seq<seq<int>>)
    requires IsGrid(g)
    ensures Board.IsSingleToken(PredictedPlacement(g))
  {
    var fen := PredictedPlacement(g);
    GridExpand(g, 8);
    assert |Board.Expand(fen)| == 64;
    GridChars(g, 8);
    forall k | 0 <= k < |fen| ensures !PyIsSpace(fen[k]) {
      assert RunLength(g)[k] in RunLength(g);
      PlacementCharNotSpace(fen[k]);
    }
    WordsOfSeparatorFree(fen, PyIsSpace);
  }

  lemma PlacementCharNotSpace(c: char)
    requires c in PieceSymbols || '1' <= c <= '8' || c == '/'
    ensures !PyIsSpace(c)
  {
    if c in PieceSymbols {
      var v :| 0 <= v < 12 && PieceSymbols[v] == c;
      SymbolIsLetter(v);
    }
  }

  lemma {:induction false} GridCellsAt(g: seq<seq<int>>, j: nat)
    requires IsGrid(g) && j <= 8
    ensures forall r, i :: 0 <= r < j && 0 <= i < 8 ==> GridCells(g, j)[8 * r + i] == SquareCell(g[r][i])
  {
    if j > 0 {
      GridCellsAt(g, j - 1);
      forall r, i | 0 <= r < j && 0 <= i < 8 ensures GridCells(g, j)[8 * r + i] == SquareCell(g[r][i]) {
        if r < j - 1 {
          assert GridCells(g, j)[8 * r + i] == GridCells(g, j - 1)[8 * r + i];
        } else {
          assert GridCells(g, j)[8 * r + i] == RowCells(g[j - 1])[i];
        }
      }
    }
  }

  /** Every square is written exactly once: the coded grid, read by the decoder, has 64 cells. */
  lemma PredictedLength(g: seq<seq<int>>)
    requires IsGrid(g)
    ensures Board.FenToListSpec(PredictedPlacement(g)).Success?
    ensures |Board.FenToListSpec(PredictedPlacement(g)).value| == 64
  {
    PredictedBoard(g);
  }

  // ----- row separators -----

  function CountChar(s: string, c: char): nat
  {
    if s == [] then 0 else (if s[0] == c then 1 else 0) + CountChar(s[1..], c)
  }

  lemma {:induction false} CountConcat(a: string, b: string, c: char)
    ensures CountChar(a + b, c) == CountChar(a, c) + CountChar(b, c)
  {
    if a == [] {
      assert a + b == b;
    } else {
      assert (a + b)[0] == a[0] && (a + b)[1..] == a[1..] + b;
      CountConcat(a[1..], b, c);
    }
  }

  lemma {:induction false} CountAbsent(s: string, c: char)
    requires c !in s
    ensures CountChar(s, c) == 0
  {
    if s != [] {
      assert s[0] in s;
      assert forall x :: x in s[1..] ==> x in s;
      CountAbsent(s[1..], c);
    }
  }

  lemma {:induction false} GridDashes(g: seq<seq<int>>, j: nat)
    requires IsGrid(g) && j <= 8
    ensures CountChar(Render(GridToks(g, j), 1), '-') == if j == 8 then 7 else j
  {
    if j > 0 {
      GridDashes(g, j - 1);
      RenderGridStep(g, j, 1);
      RowDashes(Render(GridToks(g, j - 1), 1), g[j - 1], SepText(j - 1));
      assert CountChar(SepText(j - 1), '-') == if j - 1 != 7 then 1 else 0;
    }
  }

  lemma RowDashes(prevText: string, row: seq<int>, sep: string)
    requires IsRow(row) && |row| <= 8
    ensures CountChar(prevText + Render(RowToks(row), 1) + sep, '-') == CountChar(prevText, '-') + CountChar(sep, '-')
  {
    var rowText := Render(RowToks(row), 1);
    RowChars(row);
    assert '-' !in rowText;
    CountAround(prevText, rowText, sep, '-');
  }

  lemma CountAround(a: string, m: string, c: string, x: char)
    requires x !in m
    ensures CountChar(a + m + c, x) == CountChar(a, x) + CountChar(c, x)
  {
    CountConcat(a + m, c, x);
    CountConcat(a, m, x);
    CountAbsent(m, x);
  }

  /** The eight coded rows are joined by exactly seven '-' separators. */
  lemma SevenSeparators(g: seq<seq<int>>)
    requires IsGrid(g)
    ensures CountChar(RunLength(g), '-') == 7
  {
    GridDashes(g, 8);
  }

  /** Every space run has been replaced: the coded grid holds no space. */
  lemma NoSpacesLeft(g: seq<seq<int>>)
    requires IsGrid(g)
    ensures ' ' !in RunLength(g)
  {
    GridChars(g, 8);
  }
}
