/**
 The game's entities (paddle, block, ball), their fixed sizes and speeds, and
 the self-movement each performs once per frame.
 */
module Entities {
  import opened Geometry

  const BallSize: real := 50.0
  /** Ball speed in pixels per second; a ball's velocity only carries its direction. */
  const BallSpeed: real := 400.0
  const BlockWidth: real := 100.0
  const BlockHeight: real := 40.0
  const PlayerWidth: real := 150.0
  const PlayerHeight: real := 40.0
  const PlayerSpeed: real := 700.0

  datatype Player = Player(rect: Rect)

  datatype BlockKind = Regular | SpawnBallOnDeath

  datatype Block = Block(rect: Rect, lives: int, kind: BlockKind)

  datatype Ball = Ball(rect: Rect, vel: Vec2)

  /** The paddle, centred horizontally and 100 pixels above the bottom of a screen of the given size. */
  function NewPlayer(screenWidth: real, screenHeight: real): (p: Player)
    ensures p.rect.w == PlayerWidth && p.rect.h == PlayerHeight
    ensures p.rect.Center().x == screenWidth * 0.5
    ensures p.rect.y == screenHeight - 100.0
  {
    Player(Rect(screenWidth * 0.5 - PlayerWidth * 0.5, screenHeight - 100.0, PlayerWidth, PlayerHeight))
  }

  /** A one-life block of the standard size with its top-left corner at `pos`. */
  function NewBlock(pos: Vec2, kind: BlockKind): (b: Block)
    ensures b.rect.Point() == pos && b.rect.w == BlockWidth && b.rect.h == BlockHeight
    ensures b.lives == 1 && b.kind == kind
  {
    Block(Rect(pos.x, pos.y, BlockWidth, BlockHeight), 1, kind)
  }

  /**
   A ball of the standard size with its top-left corner at `pos`. Its direction
   is drawn at random and normalised by the game; here it is the argument `dir`.
   */
  function NewBall(pos: Vec2, dir: Vec2): (b: Ball)
    ensures b.rect.Point() == pos && b.rect.w == BallSize && b.rect.h == BallSize
    ensures b.vel == dir
  {
    Ball(Rect(pos.x, pos.y, BallSize, BallSize), dir)
  }

  /** Horizontal direction chosen by the two arrow keys: one key alone moves that way, both or neither stand still. */
  function Direction(left: bool, right: bool): (d: real)
    ensures d == -1.0 <==> left && !right
    ensures d == 1.0 <==> !left && right
    ensures d == 0.0 <==> left == right
  {
    match (left, right)
    case (true, false) => -1.0
    case (false, true) => 1.0
    case _ => 0.0
  }

  /**
   One frame of paddle movement: the paddle moves horizontally by the key
   direction times `dt` times its speed, then is clamped to the screen's
   horizontal extent. Nothing but its x coordinate changes.
   */
  function PlayerUpdate(p: Player, left: bool, right: bool, dt: real, screenWidth: real): (r: Player)
    ensures r.rect == p.rect.(x := r.rect.x)
    ensures screenWidth >= p.rect.w ==> 0.0 <= r.rect.x <= screenWidth - p.rect.w
    ensures var target := p.rect.x + Direction(left, right) * dt * PlayerSpeed;
      && (target < 0.0 ==> r.rect.x == 0.0)
      && (0.0 <= target <= screenWidth - p.rect.w ==> r.rect.x == target)
      && (0.0 <= target && screenWidth - p.rect.w < target ==> r.rect.x == screenWidth - p.rect.w)
  {
    var x := p.rect.x + Direction(left, right) * dt * PlayerSpeed;
    var clamped :=
      if x < 0.0 then 0.0
      else if x > screenWidth - p.rect.w then screenWidth - p.rect.w
      else x;
    p.(rect := p.rect.(x := clamped))
  }

  /**
   With time moving forward and a paddle that starts on screen, the paddle
   never moves against the held key, and stays put when both or neither key
   is held.
   */
  lemma PlayerMovesWithKeys(p: Player, left: bool, right: bool, dt: real, screenWidth: real)
    requires dt >= 0.0
    requires 0.0 <= p.rect.x <= screenWidth - p.rect.w
    ensures var r := PlayerUpdate(p, left, right, dt, screenWidth);
      && (left && !right ==> r.rect.x <= p.rect.x)
      && (!left && right ==> r.rect.x >= p.rect.x)
      && (left == right ==> r == p)
  {
    var d := Direction(left, right);
    if left && !right {
      assert d * dt * PlayerSpeed <= 0.0;
    } else if !left && right {
      assert d * dt * PlayerSpeed >= 0.0;
    } else {
      assert d * dt * PlayerSpeed == 0.0;
    }
  }

  /**
   One frame of ball movement: the ball advances by its direction times `dt`
   times the ball speed, and is never clamped. Then the first matching wall
   rule overwrites one velocity component: past the left edge it heads right
   (x := 1), else past the right edge it heads left (x := -1), else above the
   top edge it heads down (y := 1). There is no rule for the bottom edge.
   */
  function BallUpdate(b: Ball, dt: real, screenWidth: real): (r: Ball)
    ensures r.rect.w == b.rect.w && r.rect.h == b.rect.h
    ensures r.rect.x - b.rect.x == b.vel.x * dt * BallSpeed
    ensures r.rect.y - b.rect.y == b.vel.y * dt * BallSpeed
    ensures r.rect.x < 0.0 ==> r.vel == b.vel.(x := 1.0)
    ensures 0.0 <= r.rect.x && screenWidth - r.rect.w < r.rect.x ==> r.vel == b.vel.(x := -1.0)
    ensures 0.0 <= r.rect.x <= screenWidth - r.rect.w && r.rect.y < 0.0 ==> r.vel == b.vel.(y := 1.0)
    ensures 0.0 <= r.rect.x <= screenWidth - r.rect.w && r.rect.y >= 0.0 ==> r.vel == b.vel
  {
    var rect := b.rect.(x := b.rect.x + b.vel.x * dt * BallSpeed, y := b.rect.y + b.vel.y * dt * BallSpeed);
    var vel :=
      if rect.x < 0.0 then b.vel.(x := 1.0)
      else if rect.x > screenWidth - rect.w then b.vel.(x := -1.0)
      else if rect.y < 0.0 then b.vel.(y := 1.0)
      else b.vel;
    Ball(rect, vel)
  }

  /**
   Away from the walls a ball moves uniformly: when a frame leaves its
   direction alone, that frame followed by another is the same as one frame
   lasting both.
   */
  lemma BallUpdateSplits(b: Ball, dt1: real, dt2: real, screenWidth: real)
    requires BallUpdate(b, dt1, screenWidth).vel == b.vel
    ensures BallUpdate(BallUpdate(b, dt1, screenWidth), dt2, screenWidth) == BallUpdate(b, dt1 + dt2, screenWidth)
  {
    assert b.vel.x * dt1 * BallSpeed + b.vel.x * dt2 * BallSpeed == b.vel.x * (dt1 + dt2) * BallSpeed;
    assert b.vel.y * dt1 * BallSpeed + b.vel.y * dt2 * BallSpeed == b.vel.y * (dt1 + dt2) * BallSpeed;
  }

  /**
   The wall rules set a component to 1 instead of reflecting it, so a ball
   whose direction had unit length can leave a wall faster than it arrived.
   */
  lemma WallRuleChangesSpeed()
    ensures var b := Ball(Rect(-1.0, 100.0, BallSize, BallSize), Vec2(-0.6, 0.8));
      && Norm2(b.vel) == 1.0
      && Norm2(BallUpdate(b, 0.0, 800.0).vel) == 1.64
  {
  }
}
