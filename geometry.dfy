/**
 * Axis-aligned integer rectangles, as the game uses pygame's Rect:
 * the overlap test of `colliderect` and the clamping of `clamp_ip`.
 */
module Geometry {

  /** The window, 800 by 480 pixels. */
  const WIDTH: int := 800
  const HEIGHT: int := 480

  datatype Rect = Rect(x: int, y: int, w: int, h: int) {
    /** The x coordinate just past the right edge (pygame's `right`). */
    function Right(): int { x + w }
    /** The y coordinate just past the bottom edge (pygame's `bottom`). */
    function Bottom(): int { y + h }
  }

  /**
   * `a.colliderect(b)` for rectangles of positive size: the open intervals
   * overlap on both axes, so rectangles that only touch do not collide.
   */
  predicate Overlaps(a: Rect, b: Rect) {
    && a.x < b.Right() && b.x < a.Right()
    && a.y < b.Bottom() && b.y < a.Bottom()
  }

  /** Overlap does not depend on the order of the rectangles, and touching edges do not overlap. */
  lemma OverlapsSymmetric(a: Rect, b: Rect)
    ensures Overlaps(a, b) <==> Overlaps(b, a)
    ensures a.Right() == b.x || a.Bottom() == b.y ==> !Overlaps(a, b)
  {
  }

  function Dist(a: int, b: int): nat {
    if a <= b then b - a else a - b
  }

  /**
   * One axis of `clamp_ip`: moves the segment [pos, pos + size) inside
   * [0, extent). A segment at least as long as the bounds is centred,
   * as pygame does.
   */
  function ClampAxis(pos: int, size: int, extent: nat): (r: int)
    ensures 0 <= size <= extent ==> 0 <= r <= extent - size
    ensures 0 <= pos <= extent - size ==> r == pos
    ensures size < extent ==>
      forall q :: 0 <= q <= extent - size ==> Dist(r, pos) <= Dist(q, pos)
  {
    if size >= extent then extent / 2 - size / 2
    else if pos < 0 then 0
    else if pos + size > extent then extent - size
    else pos
  }

  /** `r.clamp_ip(screen.get_rect())`: both axes clamped to the window. */
  function ClampToScreen(r: Rect): (c: Rect)
    ensures c.w == r.w && c.h == r.h
    ensures 0 <= r.h <= HEIGHT ==> 0 <= c.y <= HEIGHT - r.h
    ensures 0 <= r.w <= WIDTH ==> 0 <= c.x <= WIDTH - r.w
    ensures 0 <= r.x <= WIDTH - r.w && 0 <= r.y <= HEIGHT - r.h ==> c == r
  {
    r.(x := ClampAxis(r.x, r.w, WIDTH), y := ClampAxis(r.y, r.h, HEIGHT))
  }
}
