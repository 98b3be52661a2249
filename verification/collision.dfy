/**
 The bounce resolver: a moving rectangle with a velocity against a static
 rectangle. On contact exactly one axis is corrected, the one along which the
 overlap is thinner.
 */
module Collision {
  import opened Geometry

  /** The outcome of one resolution: whether contact occurred, and the moving body's new box and velocity. */
  datatype Bounce = Bounce(hit: bool, rect: Rect, vel: Vec2)

  /**
   Resolves the moving rectangle `a` (velocity `vel`) against the static `b`.
   Without overlap nothing changes. With overlap, if the overlap is wider than
   it is tall the bounce is vertical, otherwise horizontal: the position moves
   away from `b`'s centre by the overlap's extent on that axis, and the velocity
   component on that axis keeps its magnitude but points away from `b`'s centre
   (a tie of the centres counts as `b` lying further along the axis).
   */
  function ResolveCollision(a: Rect, vel: Vec2, b: Rect): (r: Bounce)
    ensures r.hit <==> Overlaps(a, b)
    ensures !r.hit ==> r.rect == a && r.vel == vel
    ensures r.rect.w == a.w && r.rect.h == a.h
    ensures r.hit && Intersect(a, b).value.w > Intersect(a, b).value.h ==>
      var i := Intersect(a, b).value;
      var to := Sub(b.Center(), a.Center());
      && r.rect.x == a.x && r.vel.x == vel.x
      && Abs(r.rect.y - a.y) == i.h && Abs(r.vel.y) == Abs(vel.y)
      && (to.y >= 0.0 ==> r.rect.y <= a.y && r.vel.y <= 0.0)
      && (to.y < 0.0 ==> r.rect.y >= a.y && r.vel.y >= 0.0)
    ensures r.hit && Intersect(a, b).value.w <= Intersect(a, b).value.h ==>
      var i := Intersect(a, b).value;
      var to := Sub(b.Center(), a.Center());
      && r.rect.y == a.y && r.vel.y == vel.y
      && Abs(r.rect.x - a.x) == i.w && Abs(r.vel.x) == Abs(vel.x)
      && (to.x >= 0.0 ==> r.rect.x <= a.x && r.vel.x <= 0.0)
      && (to.x < 0.0 ==> r.rect.x >= a.x && r.vel.x >= 0.0)
  {
    match Intersect(a, b)
    case None => Bounce(false, a, vel)
    case Some(i) =>
      var toSign := Signum(Sub(b.Center(), a.Center()));
      if i.w > i.h then
        var (y, vy) := AxisBounce(a.y, vel.y, toSign.y, i.h);
        Bounce(true, a.(y := y), vel.(y := vy))
      else
        var (x, vx) := AxisBounce(a.x, vel.x, toSign.x, i.w);
        Bounce(true, a.(x := x), vel.(x := vx))
  }

  /**
   The correction on one axis, given the sign `s` of the direction towards the
   static body: the position backs off by `overlap` against that direction, and
   the velocity component turns against it with its magnitude kept.
   */
  function AxisBounce(pos: real, v: real, s: real, overlap: real): (r: (real, real))
    requires s == 1.0 || s == -1.0
    requires overlap >= 0.0
    ensures Abs(r.0 - pos) == overlap && Abs(r.1) == Abs(v)
    ensures s == 1.0 ==> r.0 <= pos && r.1 <= 0.0
    ensures s == -1.0 ==> r.0 >= pos && r.1 >= 0.0
  {
    (pos - s * overlap, -s * Abs(v))
  }

  /**
   A bounce never changes the speed: only one velocity component changes, and
   it keeps its magnitude.
   */
  lemma ResolveKeepsSpeed(a: Rect, vel: Vec2, b: Rect)
    ensures Norm2(ResolveCollision(a, vel, b).vel) == Norm2(vel)
  {
    var v := ResolveCollision(a, vel, b).vel;
    NormOfAbs(v, vel);
  }

  /** Vectors whose components agree up to sign have the same length. */
  lemma NormOfAbs(u: Vec2, v: Vec2)
    requires Abs(u.x) == Abs(v.x) && Abs(u.y) == Abs(v.y)
    ensures Norm2(u) == Norm2(v)
  {
    SquareOfAbs(u.x, v.x);
    SquareOfAbs(u.y, v.y);
  }

  lemma SquareOfAbs(u: real, v: real)
    requires Abs(u) == Abs(v)
    ensures u * u == v * v
  {
    if u == -v {
      calc {
        u * u;
        (-v) * (-v);
        v * v;
      }
    }
  }

  /**
   When, on the corrected axis, neither rectangle's extent sticks out of the
   other's on both sides (the usual case of a body entering another through
   one face, such as a ball landing on the paddle), the correction leaves the
   moving rectangle flush against the static one on that axis: they still
   touch, but no longer overlap there. The other axis is unconstrained.
   */
  lemma ResolveMakesFlush(a: Rect, vel: Vec2, b: Rect)
    requires a.w >= 0.0 && a.h >= 0.0 && b.w >= 0.0 && b.h >= 0.0
    requires Overlaps(a, b)
    requires Intersect(a, b).value.w <= Intersect(a, b).value.h ==>
      (a.x <= b.x && a.Right() <= b.Right()) || (b.x <= a.x && b.Right() <= a.Right())
    requires Intersect(a, b).value.w > Intersect(a, b).value.h ==>
      (a.y <= b.y && a.Bottom() <= b.Bottom()) || (b.y <= a.y && b.Bottom() <= a.Bottom())
    ensures var r := ResolveCollision(a, vel, b);
      if Intersect(a, b).value.w > Intersect(a, b).value.h
      then r.rect.Bottom() == b.y || r.rect.y == b.Bottom()
      else r.rect.Right() == b.x || r.rect.x == b.Right()
  {
  }

  /** A ball landing inside the paddle's width is corrected upwards, to rest exactly on the paddle. */
  lemma BallLandsOnPaddle()
    ensures ResolveCollision(Rect(50.0, 455.0, 50.0, 50.0), Vec2(0.0, 1.0), Rect(0.0, 500.0, 150.0, 40.0))
         == Bounce(true, Rect(50.0, 450.0, 50.0, 50.0), Vec2(0.0, -1.0))
  {
    ResolveMakesFlush(Rect(50.0, 455.0, 50.0, 50.0), Vec2(0.0, 1.0), Rect(0.0, 500.0, 150.0, 40.0));
  }
}
