/**
 * The pixel-buffer helpers of the capture engine: the tight box around
 * the bright pixels of a grey image, the crop to that box, and the
 * thresholding of a colour image to black and white. Pixel (x, y) is
 * `rows[y][x]`; the buffer layout of the image crate is not modelled.
 */
module Imaging {
  import opened Wrappers
  import Numeric

  const BrightLevel: int := 220
  const SubtractOverflow: string := "attempt to subtract with overflow"

  /** A one-channel 8-bit image. */
  datatype Gray = Gray(width: nat, height: nat, rows: seq<seq<Numeric.u8>>)
  {
    predicate Valid()
    {
      |rows| == height && forall y :: 0 <= y < height ==> |rows[y]| == width
    }
  }

  /** An RGBA pixel. */
  datatype Rgba = Rgba(r: Numeric.u8, g: Numeric.u8, b: Numeric.u8, a: Numeric.u8)

  datatype Color = Color(width: nat, height: nat, rows: seq<seq<Rgba>>)
  {
    predicate Valid()
    {
      |rows| == height && forall y :: 0 <= y < height ==> |rows[y]| == width
    }
  }

  /** `(x_min, x_max, y_min, y_max)`. */
  datatype Edges = Edges(xMin: int, xMax: int, yMin: int, yMax: int)

  // ----- the box around the bright pixels -----

  predicate Bright(img: Gray, x: nat, y: nat)
    requires img.Valid() && x < img.width && y < img.height
  {
    img.rows[y][x] > BrightLevel
  }

  /** Pixel (x', y') comes before pixel (x, y) in row-major order. */
  predicate Before(xp: nat, yp: nat, x: nat, y: nat)
  {
    yp < y || (yp == y && xp < x)
  }

  /** The loop body of `detect_white_edges` at pixel (x, y). */
  function EdgeStep(e: Edges, x: nat, y: nat, bright: bool): Edges
  {
    if !bright then e
    else Edges(if x < e.xMin then x else e.xMin, if x > e.xMax then x else e.xMax,
               if y < e.yMin then y else e.yMin, if y > e.yMax then y else e.yMax)
  }

  function NoEdges(img: Gray): Edges
  {
    Edges(img.width, 0, img.height, 0)
  }

  /** The four variables once every pixel before (x, y) was looked at. */
  function EdgesUpTo(img: Gray, x: nat, y: nat): (e: Edges)
    requires img.Valid() && x <= img.width && y <= img.height && (x > 0 ==> y < img.height)
    ensures e.xMin >= 0 && e.xMax >= 0 && e.yMin >= 0 && e.yMax >= 0
    decreases y, x
  {
    if x == 0 then (if y == 0 then NoEdges(img) else EdgesUpTo(img, img.width, y - 1))
    else EdgeStep(EdgesUpTo(img, x - 1, y), x - 1, y, Bright(img, x - 1, y))
  }

  /** `detect_white_edges`, as a function of the image. */
  function WhiteEdges(img: Gray): Edges
    requires img.Valid()
  {
    EdgesUpTo(img, 0, img.height)
  }

  /** The inner loop of `detect_white_edges`: one row, left to right. */
  method ScanEdgesRow(img: Gray, y: nat, e0: Edges) returns (e: Edges)
    requires img.Valid() && y < img.height && e0 == EdgesUpTo(img, 0, y)
    ensures e == EdgesUpTo(img, 0, y + 1)
  {
    e := e0;
    for x := 0 to img.width
      invariant e == EdgesUpTo(img, x, y)
    {
      var pixel := img.rows[y][x];
      var xMin, xMax, yMin, yMax := e.xMin, e.xMax, e.yMin, e.yMax;
      if pixel > BrightLevel {
        if x < xMin {
          xMin := x;
        }
        if x > xMax {
          xMax := x;
        }
        if y < yMin {
          yMin := y;
        }
        if y > yMax {
          yMax := y;
        }
      }
      e := Edges(xMin, xMax, yMin, yMax);
    }
  }

  /** `detect_white_edges`, with its two loops. */
  method DetectWhiteEdges(img: Gray) returns (e: Edges)
    requires img.Valid()
    ensures e == WhiteEdges(img)
  {
    e := NoEdges(img);
    for y := 0 to img.height
      invariant e == EdgesUpTo(img, 0, y)
    {
      e := ScanEdgesRow(img, y, e);
    }
  }

  /** Some pixel before (x, y) is bright. */
  predicate SeenBright(img: Gray, x: nat, y: nat)
    requires img.Valid()
  {
    exists yp: nat, xp: nat :: yp < img.height && xp < img.width && Before(xp, yp, x, y) && Bright(img, xp, yp)
  }

  /** Every bright pixel before (x, y) lies in the box. */
  predicate Bounded(img: Gray, x: nat, y: nat, e: Edges)
    requires img.Valid()
  {
    forall yp: nat, xp: nat :: yp < img.height && xp < img.width && Before(xp, yp, x, y) && Bright(img, xp, yp) ==>
      e.xMin <= xp <= e.xMax && e.yMin <= yp <= e.yMax
  }

  /** A bright pixel before (x, y). */
  predicate SeenAt(img: Gray, x: nat, y: nat, p: (nat, nat))
    requires img.Valid()
  {
    p.1 < img.height && p.0 < img.width && Before(p.0, p.1, x, y) && Bright(img, p.0, p.1)
  }

  /** Each side of the box touches a bright pixel before (x, y). */
  predicate Attained(img: Gray, x: nat, y: nat, e: Edges, left: (nat, nat), right: (nat, nat), top: (nat, nat), bottom: (nat, nat))
    requires img.Valid()
  {
    SeenAt(img, x, y, left) && left.0 == e.xMin && SeenAt(img, x, y, right) && right.0 == e.xMax
    && SeenAt(img, x, y, top) && top.1 == e.yMin && SeenAt(img, x, y, bottom) && bottom.1 == e.yMax
  }

  /** What the four variables say about the pixels before (x, y). */
  predicate Summarizes(img: Gray, x: nat, y: nat, e: Edges, left: (nat, nat), right: (nat, nat), top: (nat, nat), bottom: (nat, nat))
    requires img.Valid()
  {
    Bounded(img, x, y, e)
    && (!SeenBright(img, x, y) ==> e == NoEdges(img))
    && (SeenBright(img, x, y) ==> Attained(img, x, y, e, left, right, top, bottom))
  }

  /**
   * After any prefix of the pixels: every bright pixel seen is inside the
   * box, each side of the box is attained by one of them, and without any
   * the box is still (width, 0, height, 0).
   */
  lemma {:induction false} EdgesUpToMeaning(img: Gray, x: nat, y: nat) returns (left: (nat, nat), right: (nat, nat), top: (nat, nat), bottom: (nat, nat))
    requires img.Valid() && x <= img.width && y <= img.height && (x > 0 ==> y < img.height)
    ensures Summarizes(img, x, y, EdgesUpTo(img, x, y), left, right, top, bottom)
    decreases y, x
  {
    if x == 0 && y == 0 {
      left, right, top, bottom := (0, 0), (0, 0), (0, 0), (0, 0);
    } else if x == 0 {
      left, right, top, bottom := EdgesUpToMeaning(img, img.width, y - 1);
      WrapMeaning(img, y, left, right, top, bottom);
    } else {
      var l, r, t, b := EdgesUpToMeaning(img, x - 1, y);
      left, right, top, bottom := StepMeaning(img, x, y, l, r, t, b);
    }
  }

  /** Having looked at a whole row is having reached the start of the next one. */
  lemma WrapMeaning(img: Gray, y: nat, left: (nat, nat), right: (nat, nat), top: (nat, nat), bottom: (nat, nat))
    requires img.Valid() && 0 < y <= img.height
    requires Summarizes(img, img.width, y - 1, EdgesUpTo(img, img.width, y - 1), left, right, top, bottom)
    ensures Summarizes(img, 0, y, EdgesUpTo(img, 0, y), left, right, top, bottom)
  {
    assert forall yp: nat, xp: nat :: yp < img.height && xp < img.width ==> (Before(xp, yp, img.width, y - 1) <==> Before(xp, yp, 0, y));
    assert SeenBright(img, img.width, y - 1) == SeenBright(img, 0, y);
  }

  /** One more pixel looked at. */
  lemma StepMeaning(img: Gray, x1: nat, y: nat, l: (nat, nat), r: (nat, nat), t: (nat, nat), b: (nat, nat))
    returns (left: (nat, nat), right: (nat, nat), top: (nat, nat), bottom: (nat, nat))
    requires img.Valid() && 0 < x1 <= img.width && y < img.height
    requires Summarizes(img, x1 - 1, y, EdgesUpTo(img, x1 - 1, y), l, r, t, b)
    ensures Summarizes(img, x1, y, EdgesUpTo(img, x1, y), left, right, top, bottom)
  {
    if Bright(img, x1 - 1, y) {
      left, right, top, bottom := BrightStep(img, x1, y, EdgesUpTo(img, x1 - 1, y), EdgesUpTo(img, x1, y), l, r, t, b);
    } else {
      DarkStep(img, x1, y, EdgesUpTo(img, x1 - 1, y), EdgesUpTo(img, x1, y), l, r, t, b);
      left, right, top, bottom := l, r, t, b;
    }
  }

  /** A bright pixel widens the box to take it in. */
  lemma BrightStep(img: Gray, x1: nat, y: nat, e: Edges, e': Edges, l: (nat, nat), r: (nat, nat), t: (nat, nat), b: (nat, nat))
    returns (left: (nat, nat), right: (nat, nat), top: (nat, nat), bottom: (nat, nat))
    requires img.Valid() && 0 < x1 <= img.width && y < img.height && Bright(img, x1 - 1, y)
    requires Summarizes(img, x1 - 1, y, e, l, r, t, b) && e' == EdgeStep(e, x1 - 1, y, true)
    ensures Summarizes(img, x1, y, e', left, right, top, bottom)
  {
    var x := x1 - 1;
    assert forall yp: nat, xp: nat :: Before(xp, yp, x1, y) <==> Before(xp, yp, x, y) || (xp == x && yp == y);
    assert SeenAt(img, x1, y, (x, y));
    left, right, top, bottom := l, r, t, b;
    if SeenBright(img, x, y) {
      if x < e.xMin { left := (x, y); }
      if x > e.xMax { right := (x, y); }
      if y > e.yMax { bottom := (x, y); }
    } else {
      left, right, top, bottom := (x, y), (x, y), (x, y), (x, y);
    }
  }

  /** A dark pixel leaves the box alone. */
  lemma DarkStep(img: Gray, x1: nat, y: nat, e: Edges, e': Edges, l: (nat, nat), r: (nat, nat), t: (nat, nat), b: (nat, nat))
    requires img.Valid() && 0 < x1 <= img.width && y < img.height && !Bright(img, x1 - 1, y)
    requires Summarizes(img, x1 - 1, y, e, l, r, t, b) && e' == e
    ensures Summarizes(img, x1, y, e', l, r, t, b)
  {
    var x := x1 - 1;
    assert forall yp: nat, xp: nat :: Before(xp, yp, x1, y) <==> Before(xp, yp, x, y) || (xp == x && yp == y);
    if SeenBright(img, x1, y) {
      var yp: nat, xp: nat :| yp < img.height && xp < img.width && Before(xp, yp, x1, y) && Bright(img, xp, yp);
      assert Before(xp, yp, x, y);
    }
  }

  /**
   * With a bright pixel, `detect_white_edges` returns the tight box: every
   * bright pixel inside, each side touched by one. Without, it returns
   * (width, 0, height, 0).
   */
  lemma WhiteEdgesMeaning(img: Gray) returns (left: (nat, nat), right: (nat, nat), top: (nat, nat), bottom: (nat, nat))
    requires img.Valid()
    ensures forall yp: nat, xp: nat :: yp < img.height && xp < img.width && Bright(img, xp, yp) ==>
      WhiteEdges(img).xMin <= xp <= WhiteEdges(img).xMax && WhiteEdges(img).yMin <= yp <= WhiteEdges(img).yMax
    ensures !SeenBright(img, 0, img.height) ==> WhiteEdges(img) == NoEdges(img)
    ensures SeenBright(img, 0, img.height) ==> Attained(img, 0, img.height, WhiteEdges(img), left, right, top, bottom)
  {
    left, right, top, bottom := EdgesUpToMeaning(img, 0, img.height);
    assert Summarizes(img, 0, img.height, WhiteEdges(img), left, right, top, bottom);
    assert forall yp: nat, xp: nat :: yp < img.height ==> Before(xp, yp, 0, img.height);
  }

  // ----- cropping -----

  function Min(a: int, b: int): int
  {
    if a <= b then a else b
  }

  /** `crop_imm`: the rectangle, cut back to the image. */
  function Crop(img: Gray, x: nat, y: nat, w: nat, h: nat): (r: Gray)
    requires img.Valid()
    ensures r.Valid()
  {
    var x' := Min(x, img.width);
    var y' := Min(y, img.height);
    var w' := Min(w, img.width - x');
    var h' := Min(h, img.height - y');
    Gray(w', h', seq(h', j requires 0 <= j < h' => img.rows[y' + j][x'..x' + w']))
  }

  /**
   * `trimm`: the crop to the box of bright pixels. With a bright pixel, the
   * trimmed image starts at the box's top-left corner and stops short of its
   * last column and row; without one, a non-empty image makes the size
   * computation underflow.
   */
  function Trimm(img: Gray): (r: Result<Gray, string>)
    requires img.Valid()
    ensures SeenBright(img, 0, img.height) ==>
      var e := WhiteEdges(img);
      e.xMin <= e.xMax < img.width && e.yMin <= e.yMax < img.height
      && r.Success? && r.value.Valid() && r.value.width == e.xMax - e.xMin && r.value.height == e.yMax - e.yMin
      && forall j, i :: 0 <= j < e.yMax - e.yMin && 0 <= i < e.xMax - e.xMin ==> r.value.rows[j][i] == img.rows[e.yMin + j][e.xMin + i]
    ensures !SeenBright(img, 0, img.height) && (img.width > 0 || img.height > 0) ==> r == Failure(SubtractOverflow)
  {
    EdgesBox(img);
    var e := WhiteEdges(img);
    if e.xMax < e.xMin || e.yMax < e.yMin then Failure(SubtractOverflow)
    else Success(Crop(img, e.xMin, e.yMin, e.xMax - e.xMin, e.yMax - e.yMin))
  }

  /** The box of bright pixels lies inside the image, or is the initial box when nothing is bright. */
  lemma EdgesBox(img: Gray)
    requires img.Valid()
    ensures SeenBright(img, 0, img.height) ==>
      var e := WhiteEdges(img);
      e.xMin <= e.xMax < img.width && e.yMin <= e.yMax < img.height
    ensures !SeenBright(img, 0, img.height) ==> WhiteEdges(img) == NoEdges(img)
  {
    var left, right, top, bottom := WhiteEdgesMeaning(img);
  }

  // ----- thresholding -----

  /** The mean of the three colour channels, rounded down; alpha is not used. */
  function Intensity(p: Rgba): int
  {
    (p.r + p.g + p.b) / 3
  }

  function BinaryValue(p: Rgba, threshold: nat): Numeric.u8
  {
    if Intensity(p) > threshold then 255 else 0
  }

  /** `to_binary`: every pixel, in order, put into a new image of the same size. */
  method ToBinary(img: Color, threshold: nat) returns (out: Gray)
    requires img.Valid()
    ensures out.Valid() && out.width == img.width && out.height == img.height
    ensures forall y, x :: 0 <= y < img.height && 0 <= x < img.width ==>
      out.rows[y][x] == (if (img.rows[y][x].r + img.rows[y][x].g + img.rows[y][x].b) / 3 > threshold then 255 else 0)
  {
    var rows: seq<seq<Numeric.u8>> := [];
    for y := 0 to img.height
      invariant |rows| == y
      invariant forall j :: 0 <= j < y ==> |rows[j]| == img.width
      invariant forall j, x :: 0 <= j < y && 0 <= x < img.width ==> rows[j][x] == BinaryValue(img.rows[j][x], threshold)
    {
      var row: seq<Numeric.u8> := [];
      for x := 0 to img.width
        invariant |row| == x
        invariant forall i :: 0 <= i < x ==> row[i] == BinaryValue(img.rows[y][i], threshold)
      {
        var pixel := img.rows[y][x];
        var intensity := (pixel.r + pixel.g + pixel.b) / 3;
        var binaryValue: Numeric.u8 := if intensity > threshold then 255 else 0;
        row := row + [binaryValue];
      }
      rows := rows + [row];
    }
    out := Gray(img.width, img.height, rows);
  }

  /** A thresholded image is black and white only. */
  lemma BinaryIsTwoLevel(p: Rgba, threshold: nat)
    ensures BinaryValue(p, threshold) == 0 || BinaryValue(p, threshold) == 255
    ensures BinaryValue(p, threshold) == 255 <==> p.r + p.g + p.b >= 3 * (threshold + 1)
  {
  }
}
