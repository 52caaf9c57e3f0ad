/**
 * The selection rectangle the user drags over the screen to mark the board:
 * a start corner where the drag began and the current corner, normalised to
 * a top-left corner with a width and a height.
 */
module Snippet {
  import opened Wrappers
  import Numeric

  /** The four coordinates, None until the mouse events set them. */
  datatype SnippetMachine = SnippetMachine(startX: Option<int>, startY: Option<int>, currentX: Option<int>, currentY: Option<int>)

  /** `(x, y, width, height)`. */
  datatype Frame = Frame(x: int, y: int, width: int, height: int)

  function Min(a: int, b: int): int
  {
    if a <= b then a else b
  }

  /** `get_frame` once all four coordinates are numbers: the four orderings of the corners, tried in turn. */
  function FrameOf(sx: int, sy: int, cx: int, cy: int): (f: Frame)
  {
    if sx <= cx && sy <= cy then Frame(sx, sy, cx - sx, cy - sy)
    else if sx >= cx && sy <= cy then Frame(cx, sy, sx - cx, cy - sy)
    else if sx <= cx && sy >= cy then Frame(sx, cy, cx - sx, sy - cy)
    else Frame(cx, cy, sx - cx, sy - cy)
  }

  /** `get_frame`: comparing an unset coordinate raises a TypeError. */
  function GetFrame(m: SnippetMachine): (r: Result<Frame, string>)
    ensures r.Success? <==> (m.startX.Some? && m.startY.Some? && m.currentX.Some? && m.currentY.Some?)
    ensures r.Failure? ==> r.error == "TypeError"
    ensures r.Success? ==>
      var (sx, sy, cx, cy) := (m.startX.value, m.startY.value, m.currentX.value, m.currentY.value);
      r.value == Frame(Min(sx, cx), Min(sy, cy), Numeric.Abs(cx - sx), Numeric.Abs(cy - sy))
  {
    if m.startX.None? || m.startY.None? || m.currentX.None? || m.currentY.None? then Failure("TypeError")
    else Success(FrameOf(m.startX.value, m.startY.value, m.currentX.value, m.currentY.value))
  }

  /** `is_frame_set`: every coordinate is set and non-zero, so a coordinate 0 counts as unset. */
  predicate IsFrameSet(m: SnippetMachine)
  {
    m.startX.Some? && m.startX.value != 0 && m.startY.Some? && m.startY.value != 0
    && m.currentX.Some? && m.currentX.value != 0 && m.currentY.Some? && m.currentY.value != 0
  }

  /** The frame is the top-left corner and the distances between the two corners, whatever their order. */
  lemma {:induction false} FrameIsNormalised(sx: int, sy: int, cx: int, cy: int)
    ensures FrameOf(sx, sy, cx, cy) == Frame(Min(sx, cx), Min(sy, cy), Numeric.Abs(cx - sx), Numeric.Abs(cy - sy))
    ensures FrameOf(sx, sy, cx, cy).width >= 0 && FrameOf(sx, sy, cx, cy).height >= 0
  {
  }

  /** Dragging from either corner to the other selects the same frame. */
  lemma FrameSymmetric(sx: int, sy: int, cx: int, cy: int)
    ensures FrameOf(sx, sy, cx, cy) == FrameOf(cx, cy, sx, sy)
  {
    FrameIsNormalised(sx, sy, cx, cy);
    FrameIsNormalised(cx, cy, sx, sy);
  }

  /** The frame covers exactly the rectangle spanned by the two corners. */
  lemma FrameSpansCorners(sx: int, sy: int, cx: int, cy: int)
    ensures var f := FrameOf(sx, sy, cx, cy);
      {f.x, f.x + f.width} == {sx, cx} && {f.y, f.y + f.height} == {sy, cy}
  {
    FrameIsNormalised(sx, sy, cx, cy);
  }

  /** A frame is produced exactly when the four coordinates are set. */
  lemma GetFrameDefined(m: SnippetMachine)
    ensures GetFrame(m).Success? <==> (m.startX.Some? && m.startY.Some? && m.currentX.Some? && m.currentY.Some?)
    ensures IsFrameSet(m) ==> GetFrame(m).Success?
  {
  }

  /** A coordinate 0 is a set coordinate for `get_frame` but an unset one for `is_frame_set`. */
  lemma ZeroIsUnset(m: SnippetMachine)
    requires m.startX.Some? && m.startY.Some? && m.currentX.Some? && m.currentY.Some?
    requires m.startX.value == 0 || m.startY.value == 0 || m.currentX.value == 0 || m.currentY.value == 0
    ensures GetFrame(m).Success? && !IsFrameSet(m)
  {
  }
}
