/**
 Axis-aligned geometry used by the game: 2D vectors, rectangles, and the
 rectangle intersection that every collision test starts from.

 Coordinates are mathematical reals standing in for the game's 32-bit floats;
 y grows downwards, as on the screen.
 */
module Geometry {

  datatype Option<T> = None | Some(value: T)

  datatype Vec2 = Vec2(x: real, y: real)

  /** A rectangle by its top-left corner and its size. */
  datatype Rect = Rect(x: real, y: real, w: real, h: real) {

    function Right(): real { x + w }

    function Bottom(): real { y + h }

    /** The top-left corner. */
    function Point(): Vec2 { Vec2(x, y) }

    function Center(): (c: Vec2)
      ensures x <= c.x <= Right() || Right() <= c.x <= x
      ensures y <= c.y <= Bottom() || Bottom() <= c.y <= y
    {
      Vec2(x + w * 0.5, y + h * 0.5)
    }
  }

  function Add(p: Vec2, q: Vec2): Vec2 {
    Vec2(p.x + q.x, p.y + q.y)
  }

  function Sub(p: Vec2, q: Vec2): Vec2 {
    Vec2(p.x - q.x, p.y - q.y)
  }

  function Abs(v: real): (r: real)
    ensures r >= 0.0
    ensures r == v || r == -v
  {
    if v < 0.0 then -v else v
  }

  function Max(a: real, b: real): real { if a < b then b else a }

  function Min(a: real, b: real): real { if a < b then a else b }

  /**
   The sign of a float as the game's math library computes it: a zero input
   (the game only ever produces positive zero here) yields +1, never 0.
   */
  function Sign(v: real): (s: real)
    ensures s == 1.0 || s == -1.0
    ensures s * v == Abs(v)
  {
    if v < 0.0 then -1.0 else 1.0
  }

  function Signum(v: Vec2): Vec2 {
    Vec2(Sign(v.x), Sign(v.y))
  }

  /** Squared length of a vector. */
  function Norm2(v: Vec2): real {
    v.x * v.x + v.y * v.y
  }

  /** `p` lies in the closed box of `r` (its edges included). */
  predicate Contains(r: Rect, p: Vec2) {
    r.x <= p.x <= r.Right() && r.y <= p.y <= r.Bottom()
  }

  /**
   The overlap of two rectangles: the box from the larger left/top edge to the
   smaller right/bottom edge, or None when that box would have a negative
   extent. Rectangles that only share an edge therefore DO intersect, in a box
   of zero width or height.
   */
  function Intersect(a: Rect, b: Rect): (r: Option<Rect>)
    ensures r.Some? ==> r.value.w >= 0.0 && r.value.h >= 0.0
    ensures r.Some? ==> forall p :: Contains(r.value, p) <==> Contains(a, p) && Contains(b, p)
    ensures r.None? ==> forall p :: !(Contains(a, p) && Contains(b, p))
  {
    var left := Max(a.x, b.x);
    var top := Max(a.y, b.y);
    var right := Min(a.Right(), b.Right());
    var bottom := Min(a.Bottom(), b.Bottom());
    if right < left || bottom < top then None
    else Some(Rect(left, top, right - left, bottom - top))
  }

  /** The two rectangles have at least one point in common. */
  predicate Overlaps(a: Rect, b: Rect) {
    Intersect(a, b).Some?
  }

  /**
   Edge contact counts: a rectangle whose right edge sits exactly on the left
   edge of another, with some vertical overlap, intersects it in a box of
   width zero.
   */
  lemma IntersectAtSharedEdge(a: Rect, b: Rect)
    requires a.w >= 0.0 && b.w >= 0.0 && a.h >= 0.0 && b.h >= 0.0
    requires a.Right() == b.x
    requires a.y <= b.Bottom() && b.y <= a.Bottom()
    ensures Intersect(a, b).Some? && Intersect(a, b).value.w == 0.0
  {
  }
}
