/** Constants of the playing field and the menu buttons' rectangles, and the
    inclusive point-in-rectangle test that decides whether a button is hovered. */
module Geometry {

  const WIDTH: int := 800
  const HEIGHT: int := 600
  const MAX_SPEED: int := 4
  const NUM_DRONES: nat := 20

  /** An SDL rectangle: top-left corner and size, in pixels. */
  datatype Rect = Rect(x: int, y: int, w: int, h: int)

  // The three menu buttons, stacked in the middle of the window.
  const PlayRect: Rect := Rect(WIDTH / 2 - 50, 200, 100, 40)
  const HelpRect: Rect := Rect(WIDTH / 2 - 50, 250, 100, 40)
  const ExitRect: Rect := Rect(WIDTH / 2 - 50, 300, 100, 40)

  /** The hover test: both edges of the rectangle count as inside. */
  predicate Contains(r: Rect, px: int, py: int)
  {
    r.x <= px <= r.x + r.w && r.y <= py <= r.y + r.h
  }

  /** Number of menu buttons whose rectangle holds the cursor. */
  function HoverCount(px: int, py: int): nat
  {
    (if Contains(PlayRect, px, py) then 1 else 0)
    + (if Contains(HelpRect, px, py) then 1 else 0)
    + (if Contains(ExitRect, px, py) then 1 else 0)
  }

  /** The constant rectangles are disjoint, even with inclusive edges, so at
      most one button is hovered at any cursor position; and the hover test
      is exactly the two inclusive interval tests. */
  lemma AtMostOneHovered(px: int, py: int)
    ensures HoverCount(px, py) <= 1
    ensures Contains(PlayRect, px, py) <==> 350 <= px <= 450 && 200 <= py <= 240
    ensures Contains(HelpRect, px, py) <==> 350 <= px <= 450 && 250 <= py <= 290
    ensures Contains(ExitRect, px, py) <==> 350 <= px <= 450 && 300 <= py <= 340
  {
  }
}
