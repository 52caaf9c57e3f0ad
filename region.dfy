/**
 * The capture rectangle on the screen and its parser from text such as
 * "(440, 219, 758, 759)". Rust's integer parsing is written out: an
 * optional sign, ASCII digits read left to right, and the first problem
 * met decides the error.
 */
module Region {
  import opened Wrappers
  import opened Text
  import Numeric

  const EmptyText: string := "cannot parse integer from empty string"
  const InvalidDigit: string := "invalid digit found in string"
  const PosOverflow: string := "number too large to fit in target type"
  const NegOverflow: string := "number too small to fit in target type"

  datatype ScreenRegion = ScreenRegion(x: Numeric.i32, y: Numeric.i32, width: Numeric.u32, height: Numeric.u32)

  /** `ScreenRegion::new`. */
  function New(x: Numeric.i32, y: Numeric.i32, width: Numeric.u32, height: Numeric.u32): (r: ScreenRegion)
    ensures Values(r) == (x, y, width, height)
  {
    ScreenRegion(x, y, width, height)
  }

  /** `values`. */
  function Values(r: ScreenRegion): (Numeric.i32, Numeric.i32, Numeric.u32, Numeric.u32)
  {
    (r.x, r.y, r.width, r.height)
  }

  // ----- integer parsing -----

  /** One more digit read into `acc`, or the error it causes. */
  function DigitStep(acc: nat, c: char, limit: nat, overflow: string): Result<nat, string>
  {
    if !IsDigit(c) then Failure(InvalidDigit)
    else if acc * 10 + DigitValue(c) > limit then Failure(overflow)
    else Success(acc * 10 + DigitValue(c))
  }

  /** The digits of `s` read left to right into `acc`; a magnitude above `limit` is an overflow. */
  function Digits(s: string, acc: nat, limit: nat, overflow: string): Result<nat, string>
    decreases |s|
  {
    if s == [] then Success(acc)
    else
      var next := DigitStep(acc, s[0], limit, overflow);
      if next.Failure? then next else Digits(s[1..], next.value, limit, overflow)
  }

  /**
   * `str::parse` for an integer type whose values run from `-negLimit` to
   * `posLimit`; a '-' is a digit error for an unsigned type.
   */
  function ParseInteger(s: string, signed: bool, posLimit: nat, negLimit: nat): Result<int, string>
  {
    if s == [] then Failure(EmptyText)
    else if (s[0] == '+' || s[0] == '-') && |s| == 1 then Failure(InvalidDigit)
    else if s[0] == '-' && signed then
      var m := Digits(s[1..], 0, negLimit, NegOverflow);
      if m.Failure? then Failure(m.error) else Success(-(m.value as int))
    else
      var m := Digits(if s[0] == '+' then s[1..] else s, 0, posLimit, PosOverflow);
      if m.Failure? then Failure(m.error) else Success(m.value)
  }

  function ParseI32(s: string): (r: Result<int, string>)
    ensures r.Success? ==> Numeric.I32_MIN <= r.value <= Numeric.I32_MAX
  {
    ParseIntegerRange(s, true, Numeric.I32_MAX, -Numeric.I32_MIN);
    ParseInteger(s, true, Numeric.I32_MAX, -Numeric.I32_MIN)
  }

  function ParseU32(s: string): (r: Result<int, string>)
    ensures r.Success? ==> 0 <= r.value <= Numeric.U32_MAX
  {
    ParseIntegerRange(s, false, Numeric.U32_MAX, 0);
    ParseInteger(s, false, Numeric.U32_MAX, 0)
  }

  lemma {:induction false} DigitsBelow(s: string, acc: nat, limit: nat, overflow: string)
    requires acc <= limit
    ensures Digits(s, acc, limit, overflow).Success? ==> Digits(s, acc, limit, overflow).value <= limit
    decreases |s|
  {
    if s != [] {
      var next := DigitStep(acc, s[0], limit, overflow);
      if next.Success? {
        DigitsBelow(s[1..], next.value, limit, overflow);
      }
    }
  }

  /** A parsed value lies in the type's range. */
  lemma ParseIntegerRange(s: string, signed: bool, posLimit: nat, negLimit: nat)
    ensures ParseInteger(s, signed, posLimit, negLimit).Success? ==>
      -(negLimit as int) <= ParseInteger(s, signed, posLimit, negLimit).value <= posLimit
    ensures !signed && ParseInteger(s, signed, posLimit, negLimit).Success? ==> ParseInteger(s, signed, posLimit, negLimit).value >= 0
  {
    if s != [] {
      DigitsBelow(s[1..], 0, negLimit, NegOverflow);
      DigitsBelow(s[1..], 0, posLimit, PosOverflow);
      DigitsBelow(s, 0, posLimit, PosOverflow);
    }
  }

  /** Reading one more character at the end. */
  lemma {:induction false} DigitsSnoc(s: string, c: char, acc: nat, limit: nat, overflow: string)
    ensures Digits(s + [c], acc, limit, overflow) ==
      (var m := Digits(s, acc, limit, overflow); if m.Failure? then m else DigitStep(m.value, c, limit, overflow))
    decreases |s|
  {
    if s == [] {
      assert [c][1..] == [];
    } else {
      assert (s + [c])[1..] == s[1..] + [c];
      var next := DigitStep(acc, s[0], limit, overflow);
      if next.Success? {
        DigitsSnoc(s[1..], c, next.value, limit, overflow);
      }
    }
  }

  /** A digit string whose value fits is read as that value. */
  lemma {:induction false} DigitsValueRead(s: string, limit: nat, overflow: string)
    requires AllDigits(s) && DigitsValue(s) <= limit
    ensures Digits(s, 0, limit, overflow) == Success(DigitsValue(s))
    decreases |s|
  {
    if s != [] {
      var init := s[..|s| - 1];
      var c := s[|s| - 1];
      assert init + [c] == s;
      assert AllDigits(init);
      DigitsValueRead(init, limit, overflow);
      DigitsSnoc(init, c, 0, limit, overflow);
    }
  }

  /** Rust renders an i32 so that parsing gives it back. */
  lemma I32RoundTrip(v: Numeric.i32)
    ensures ParseI32(IntToString(v)) == Success(v)
  {
    var n: nat := if v < 0 then -(v as int) else v;
    NatToStringValue(n);
    DigitsValueRead(NatToString(n), if v < 0 then -Numeric.I32_MIN else Numeric.I32_MAX, if v < 0 then NegOverflow else PosOverflow);
    if v < 0 {
      assert IntToString(v)[1..] == NatToString(n);
    }
  }

  lemma U32RoundTrip(v: Numeric.u32)
    ensures ParseU32(NatToString(v)) == Success(v)
  {
    NatToStringValue(v);
    DigitsValueRead(NatToString(v), Numeric.U32_MAX, PosOverflow);
  }

  /** A lone sign, a stray character and a '-' for an unsigned type are digit errors. */
  lemma ParseDigitErrors()
    ensures ParseI32("") == Failure(EmptyText) && ParseI32("-") == Failure(InvalidDigit)
    ensures ParseU32("-5") == Failure(InvalidDigit) && ParseI32("1x") == Failure(InvalidDigit)
    ensures ParseI32(" 1") == Failure(InvalidDigit)
  {
  }

  /** A digit string whose value does not fit overflows. */
  lemma {:induction false} DigitsValueOverflow(s: string, limit: nat, overflow: string)
    requires AllDigits(s) && DigitsValue(s) > limit
    ensures Digits(s, 0, limit, overflow) == Failure(overflow)
    decreases |s|
  {
    var init := s[..|s| - 1];
    var c := s[|s| - 1];
    assert init + [c] == s;
    assert AllDigits(init);
    DigitsSnoc(init, c, 0, limit, overflow);
    if DigitsValue(init) > limit {
      DigitsValueOverflow(init, limit, overflow);
    } else {
      DigitsValueRead(init, limit, overflow);
    }
  }

  /**
   * A rendered integer outside the type's range is refused: above it with
   * "too large", below it with "too small".
   */
  lemma OutOfRangeRefused(v: int)
    ensures v > Numeric.I32_MAX ==> ParseI32(IntToString(v)) == Failure(PosOverflow)
    ensures v < Numeric.I32_MIN ==> ParseI32(IntToString(v)) == Failure(NegOverflow)
    ensures v > Numeric.U32_MAX ==> ParseU32(IntToString(v)) == Failure(PosOverflow)
  {
    if v > Numeric.I32_MAX {
      PositiveOverflow(v, true, Numeric.I32_MAX, -Numeric.I32_MIN);
    }
    if v > Numeric.U32_MAX {
      PositiveOverflow(v, false, Numeric.U32_MAX, 0);
    }
    if v < Numeric.I32_MIN {
      NegativeOverflow(-v, Numeric.I32_MAX, -Numeric.I32_MIN);
    }
  }

  /** A rendered magnitude above the positive limit overflows upward. */
  lemma PositiveOverflow(n: nat, signed: bool, posLimit: nat, negLimit: nat)
    requires n > posLimit
    ensures ParseInteger(NatToString(n), signed, posLimit, negLimit) == Failure(PosOverflow)
  {
    var t := NatToString(n);
    NatToStringValue(n);
    assert IsDigit(t[0]);
    DigitsValueOverflow(t, posLimit, PosOverflow);
  }

  /** A rendered negative number beyond the negative limit overflows downward. */
  lemma NegativeOverflow(n: nat, posLimit: nat, negLimit: nat)
    requires n > negLimit && n > 0
    ensures ParseInteger("-" + NatToString(n), true, posLimit, negLimit) == Failure(NegOverflow)
  {
    var t := NatToString(n);
    NatToStringValue(n);
    assert ("-" + t)[1..] == t;
    DigitsValueOverflow(t, negLimit, NegOverflow);
  }

  // ----- the region parser -----

  predicate IsParen(c: char)
  {
    c == '(' || c == ')'
  }

  /** `TryFrom<String>`: parentheses stripped, four comma-separated parts, each trimmed and parsed. */
  function TryFrom(s: string): (r: Result<ScreenRegion, string>)
    ensures var parts := Split(TrimEnds(s, IsParen), ',');
      (|parts| != 4 ==> r == Failure("Invalid input: expected 4 elements, got " + NatToString(|parts|)))
      && (r.Success? ==>
            |parts| == 4
            && ParseI32(TrimEnds(parts[0], RustIsWhitespace)) == Success(r.value.x as int)
            && ParseI32(TrimEnds(parts[1], RustIsWhitespace)) == Success(r.value.y as int)
            && ParseU32(TrimEnds(parts[2], RustIsWhitespace)) == Success(r.value.width as int)
            && ParseU32(TrimEnds(parts[3], RustIsWhitespace)) == Success(r.value.height as int))
  {
    var parts := Split(TrimEnds(s, IsParen), ',');
    if |parts| != 4 then Failure("Invalid input: expected 4 elements, got " + NatToString(|parts|))
    else FromParts(parts[0], parts[1], parts[2], parts[3])
  }

  /** The four parts, trimmed and parsed in order; the first error wins. */
  function FromParts(p0: string, p1: string, p2: string, p3: string): (r: Result<ScreenRegion, string>)
    ensures r.Success? <==>
      ParseI32(TrimEnds(p0, RustIsWhitespace)).Success? && ParseI32(TrimEnds(p1, RustIsWhitespace)).Success?
      && ParseU32(TrimEnds(p2, RustIsWhitespace)).Success? && ParseU32(TrimEnds(p3, RustIsWhitespace)).Success?
    ensures r.Success? ==>
      ParseI32(TrimEnds(p0, RustIsWhitespace)) == Success(r.value.x as int)
      && ParseI32(TrimEnds(p1, RustIsWhitespace)) == Success(r.value.y as int)
      && ParseU32(TrimEnds(p2, RustIsWhitespace)) == Success(r.value.width as int)
      && ParseU32(TrimEnds(p3, RustIsWhitespace)) == Success(r.value.height as int)
  {
    var x := ParseI32(TrimEnds(p0, RustIsWhitespace));
    var y := ParseI32(TrimEnds(p1, RustIsWhitespace));
    var w := ParseU32(TrimEnds(p2, RustIsWhitespace));
    var h := ParseU32(TrimEnds(p3, RustIsWhitespace));
    if x.Failure? then Failure(x.error)
    else if y.Failure? then Failure(y.error)
    else if w.Failure? then Failure(w.error)
    else if h.Failure? then Failure(h.error)
    else Success(ScreenRegion(x.value, y.value, w.value, h.value))
  }

  /** The parts joined by commas. */
  function Join(parts: seq<string>): string
    requires |parts| >= 1
  {
    if |parts| == 1 then parts[0] else parts[0] + "," + Join(parts[1..])
  }

  /** The text "(x, y, width, height)". */
  function Format(r: ScreenRegion): string
  {
    "(" + Join([IntToString(r.x), " " + IntToString(r.y), " " + NatToString(r.width), " " + NatToString(r.height)]) + ")"
  }

  /** The characters of a rendered integer: a leading '-' at most, then digits. */
  predicate Numeral(t: string)
  {
    |t| >= 1 && IsDigit(t[|t| - 1]) && (t[0] == '-' || IsDigit(t[0]))
    && forall k :: 0 <= k < |t| ==> NumeralChar(t[k])
  }

  predicate NumeralChar(c: char)
  {
    c == '-' || IsDigit(c)
  }

  /** No character of a numeral is a separator, a space or a parenthesis. */
  lemma NumeralCharIsPlain(c: char)
    requires NumeralChar(c)
    ensures c != ',' && !RustIsWhitespace(c) && !IsParen(c)
  {
  }

  lemma IntNumeral(i: int)
    ensures Numeral(IntToString(i))
  {
    var t := IntToString(i);
    if i < 0 {
      var d := NatToString(-i);
      assert t == "-" + d;
      assert forall k :: 1 <= k < |t| ==> t[k] == d[k - 1];
    }
  }

  lemma NumeralNoComma(t: string)
    requires Numeral(t)
    ensures ',' !in t && ',' !in " " + t
  {
    forall k | 0 <= k < |t|
      ensures t[k] != ','
    {
      NumeralCharIsPlain(t[k]);
    }
    assert forall k :: 1 <= k < |" " + t| ==> (" " + t)[k] == t[k - 1];
  }

  /** Splitting at the first comma. */
  lemma SplitAtComma(p: string, q: string)
    requires ',' !in p
    ensures Split(p + "," + q, ',') == [p] + Split(q, ',')
  {
    var s := p + "," + q;
    assert s[|p|] == ',';
    assert s[..|p|] == p;
    assert IndexOf(s, ',') == |p|;
    assert s[|p| + 1..] == q;
  }

  /** Splitting parts joined by commas, none of which holds a comma, gives the parts back. */
  lemma {:induction false} SplitJoin(parts: seq<string>)
    requires |parts| >= 1 && forall i :: 0 <= i < |parts| ==> ',' !in parts[i]
    ensures Split(Join(parts), ',') == parts
    decreases |parts|
  {
    if |parts| == 1 {
      SplitNoComma(parts[0]);
    } else {
      SplitJoin(parts[1..]);
      SplitAtComma(parts[0], Join(parts[1..]));
    }
  }

  lemma SplitNoComma(p: string)
    requires ',' !in p
    ensures Split(p, ',') == [p]
  {
  }

  /** A numeral after one space trims back to itself. */
  lemma TrimSpaced(t: string)
    requires Numeral(t)
    ensures TrimEnds(" " + t, RustIsWhitespace) == t
  {
    NumeralCharIsPlain(t[0]);
    NumeralCharIsPlain(t[|t| - 1]);
    TrimEndsAfter(' ', t, RustIsWhitespace);
  }

  lemma TrimBare(t: string)
    requires Numeral(t)
    ensures TrimEnds(t, RustIsWhitespace) == t
  {
    NumeralCharIsPlain(t[0]);
    NumeralCharIsPlain(t[|t| - 1]);
    TrimEndsUnchanged(t, RustIsWhitespace);
  }

  lemma StripParens(body: string)
    requires |body| >= 1 && !IsParen(body[0]) && !IsParen(body[|body| - 1])
    ensures TrimEnds("(" + body + ")", IsParen) == body
  {
    var s := "(" + body + ")";
    assert s[1..] == body + ")";
    assert TrimStart(s, IsParen) == body + ")";
    assert (body + ")")[..|body|] == body;
  }

  /** The rendered region, stripped of its parentheses, splits into the four rendered numbers. */
  lemma FormatSplits(r: ScreenRegion)
    ensures Split(TrimEnds(Format(r), IsParen), ',')
      == [IntToString(r.x), " " + IntToString(r.y), " " + NatToString(r.width), " " + NatToString(r.height)]
  {
    IntNumeral(r.x);
    IntNumeral(r.y);
    IntNumeral(r.width);
    IntNumeral(r.height);
    NumeralsSplit(IntToString(r.x), IntToString(r.y), NatToString(r.width), NatToString(r.height));
  }

  /** Four numerals, joined by ", " and parenthesized, split back into the joined parts. */
  lemma NumeralsSplit(a: string, b: string, c: string, d: string)
    requires Numeral(a) && Numeral(b) && Numeral(c) && Numeral(d)
    ensures Split(TrimEnds("(" + Join([a, " " + b, " " + c, " " + d]) + ")", IsParen), ',') == [a, " " + b, " " + c, " " + d]
  {
    var parts := [a, " " + b, " " + c, " " + d];
    JoinFirst(parts);
    JoinLast(parts);
    assert parts[3][|parts[3]| - 1] == d[|d| - 1];
    NumeralCharIsPlain(a[0]);
    NumeralCharIsPlain(d[|d| - 1]);
    StripParens(Join(parts));
    NumeralNoComma(a);
    NumeralNoComma(b);
    NumeralNoComma(c);
    NumeralNoComma(d);
    assert forall i :: 0 <= i < |parts| ==> ',' !in parts[i];
    SplitJoin(parts);
  }

  /** The four rendered numbers parse back to the region. */
  lemma PartsParse(r: ScreenRegion)
    ensures FromParts(IntToString(r.x), " " + IntToString(r.y), " " + NatToString(r.width), " " + NatToString(r.height)) == Success(r)
  {
    IntNumeral(r.x);
    IntNumeral(r.y);
    IntNumeral(r.width);
    IntNumeral(r.height);
    TrimBare(IntToString(r.x));
    TrimSpaced(IntToString(r.y));
    TrimSpaced(NatToString(r.width));
    TrimSpaced(NatToString(r.height));
    I32RoundTrip(r.x);
    I32RoundTrip(r.y);
    U32RoundTrip(r.width);
    U32RoundTrip(r.height);
  }

  /**
   * Round trip: the text "(x, y, width, height)" parses back to the
   * region it was made from, and `values` returns the four numbers in order.
   */
  lemma TryFromFormat(r: ScreenRegion)
    ensures TryFrom(Format(r)) == Success(r)
    ensures Values(TryFrom(Format(r)).value) == (r.x, r.y, r.width, r.height)
  {
    var parts := [IntToString(r.x), " " + IntToString(r.y), " " + NatToString(r.width), " " + NatToString(r.height)];
    FormatSplits(r);
    PartsParse(r);
    TryFromParts(Format(r), parts);
  }

  /** Text that splits into four parts parses as those parts do. */
  lemma TryFromParts(s: string, parts: seq<string>)
    requires Split(TrimEnds(s, IsParen), ',') == parts && |parts| == 4
    ensures TryFrom(s) == FromParts(parts[0], parts[1], parts[2], parts[3])
  {
  }

  /** The joined text starts with the first part. */
  lemma JoinFirst(parts: seq<string>)
    requires |parts| >= 1 && |parts[0]| >= 1
    ensures |Join(parts)| >= 1 && Join(parts)[0] == parts[0][0]
  {
  }

  /** The joined text ends with the last part. */
  lemma {:induction false} JoinLast(parts: seq<string>)
    requires |parts| >= 1 && |parts[|parts| - 1]| >= 1
    ensures |Join(parts)| >= 1
    ensures Join(parts)[|Join(parts)| - 1] == parts[|parts| - 1][|parts[|parts| - 1]| - 1]
    decreases |parts|
  {
    if |parts| > 1 {
      var rest := parts[1..];
      assert rest[|rest| - 1] == parts[|parts| - 1];
      JoinLast(rest);
    }
  }

  /**
   * Any number of comma-free parts other than four, inside parentheses, is
   * refused with the count.
   */
  lemma WrongCount(parts: seq<string>)
    requires |parts| >= 1 && |parts| != 4
    requires forall i :: 0 <= i < |parts| ==> ',' !in parts[i]
    requires |parts[0]| >= 1 && !IsParen(parts[0][0])
    requires |parts[|parts| - 1]| >= 1 && !IsParen(parts[|parts| - 1][|parts[|parts| - 1]| - 1])
    ensures TryFrom("(" + Join(parts) + ")") == Failure("Invalid input: expected 4 elements, got " + NatToString(|parts|))
  {
    var body := Join(parts);
    JoinFirst(parts);
    JoinLast(parts);
    StripParens(body);
    SplitJoin(parts);
  }
}
