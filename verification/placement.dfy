/**
 * Where the caption goes: horizontally centred over the box, and above the
 * box unless that would cross the top edge of the frame, in which case
 * below it. Positions are OpenCV text origins, i.e. the caption's
 * bottom-left corner; the rendered text size is an input (it comes from
 * the font renderer).
 */
module Placement {

  /** Gap in pixels between the box and the caption. */
  const Margin: int := 10

  /** Python's int() on a float: truncation toward zero. */
  function TruncateToInt(v: real): (r: int)
    ensures v >= 0.0 ==> r as real <= v < r as real + 1.0
    ensures v < 0.0 ==> r as real - 1.0 < v <= r as real
  {
    if v >= 0.0 then v.Floor else -((-v).Floor)
  }

  /**
   * Horizontal origin of the caption: x1 plus half the slack (x2 - x1 -
   * textWidth) computed in floating point, then truncated toward zero.
   * The slack left of the caption and the slack right of it differ by at
   * most one pixel, and the rounding goes toward zero.
   */
  function TextX(x1: int, x2: int, textWidth: nat): (r: int)
    ensures var twice := x1 + x2 - textWidth;
            (twice >= 0 ==> 2 * r <= twice <= 2 * r + 1)
            && (twice < 0 ==> 2 * r - 1 <= twice <= 2 * r)
    ensures -1 <= (x2 - (r + textWidth)) - (r - x1) <= 1
  {
    TruncateToInt(x1 as real + (x2 - x1 - textWidth) as real / 2.0)
  }

  /** Integer reference for TextX: halve x1 + x2 - textWidth, rounding toward zero. */
  function HalfTowardZero(n: int): int {
    if n >= 0 then n / 2 else -((-n) / 2)
  }

  lemma TextXIsHalfTowardZero(x1: int, x2: int, textWidth: nat)
    ensures TextX(x1, x2, textWidth) == HalfTowardZero(x1 + x2 - textWidth)
  {
  }

  /**
   * Vertical origin (baseline) of the caption: Margin above the box when the
   * whole caption then stays inside the frame, otherwise with its top
   * Margin below the box.
   */
  function TextY(y1: int, y2: int, textHeight: nat): (r: int)
    ensures y1 - Margin - textHeight >= 0 ==> r == y1 - Margin
    ensures || (r == y1 - Margin && r - textHeight >= 0)
            || (y1 - Margin - textHeight < 0 && r - textHeight == y2 + Margin)
  {
    var above := y1 - Margin;
    if above - textHeight < 0 then y2 + textHeight + Margin else above
  }

  /** Whenever the box's bottom is at most Margin above the frame, the caption's top is inside the frame. */
  lemma CaptionTopInFrame(y1: int, y2: int, textHeight: nat)
    requires y2 + Margin >= 0
    ensures TextY(y1, y2, textHeight) - textHeight >= 0
  {
  }
}
