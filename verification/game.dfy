/**
 The game session and its per-frame state machine: Menu -> Game ->
 (LevelCompleted | Dead) -> Menu. Everything the game reads from its
 environment in a frame (frame time, keys, screen size) arrives as a `Frame`;
 random draws arrive as `newVel` (the direction of the k-th ball created in the
 frame) and `picks` (the block indices drawn when a level is built).
 */
module Game {
  import opened Geometry
  import opened Collision
  import opened Entities
  import opened Seqs
  import opened Level
  import opened Collide

  const StartLives: int := 3
  /** Distance from the bottom of the screen of the paddle's row, below which a ball is lost. */
  const BottomMargin: real := 100.0
  /** How far above the paddle a replacement ball appears. */
  const RespawnHeight: real := 50.0

  datatype GameState = Menu | Game | LevelCompleted | Dead

  datatype Session = Session(
    state: GameState,
    score: int,
    lives: int,
    player: Player,
    blocks: seq<Block>,
    balls: seq<Ball>)

  /** What the environment supplies for one frame. */
  datatype Frame = Frame(dt: real, left: bool, right: bool, space: bool, width: real, height: real)

  /** Three draws of a block index below the size of a fresh level. */
  predicate ValidPicks(picks: seq<int>) {
    |picks| == SpecialDraws && forall k :: 0 <= k < |picks| ==> 0 <= picks[k] < Columns * Rows
  }

  predicate Alive(b: Block) {
    b.lives > 0
  }

  /** Balls strictly above `limit` stay in play. */
  function InPlay(limit: real): Ball -> bool {
    (b: Ball) => b.rect.y < limit
  }

  /** Where a replacement ball appears: horizontally centred on the paddle, just above it. */
  function RespawnPoint(p: Player): (pos: Vec2)
    ensures pos.x + BallSize * 0.5 == p.rect.Center().x
    ensures pos.y == p.rect.y - RespawnHeight
  {
    Add(p.rect.Point(), Vec2((p.rect.w - BallSize) * 0.5, -RespawnHeight))
  }

  /** The state a new game opens in: the menu, a fresh level and one ball below the screen's centre. */
  function InitialSession(width: real, height: real, picks: seq<int>, dir: Vec2): (s: Session)
    requires ValidPicks(picks)
    ensures s.state == Menu && s.score == 0 && s.lives == StartLives
    ensures |s.blocks| == Columns * Rows && |s.balls| == 1
    ensures s.balls[0].rect.Center().x == width * 0.5
    ensures s.balls[0].rect.y == height * 0.5 + 100.0 && s.balls[0].vel == dir
    ensures s.blocks == InitBlocks([], width, picks) && s.player == NewPlayer(width, height)
  {
    Session(Menu, 0, StartLives, NewPlayer(width, height), InitBlocks([], width, picks),
            [NewBall(Vec2((width - BallSize) * 0.5, height * 0.5 + 100.0), dir)])
  }

  /**
   Clears the session for a new round: a centred paddle, no score, full lives,
   no balls and a freshly built level. The state is left as it was.
   */
  function ResetGame(s: Session, width: real, height: real, picks: seq<int>): (r: Session)
    requires ValidPicks(picks)
    ensures r.state == s.state && r.score == 0 && r.lives == StartLives && r.balls == []
    ensures r.player.rect.Center().x == width * 0.5 && r.player.rect.y == height - 100.0
    ensures |r.blocks| == Columns * Rows
    ensures forall b :: b in r.blocks ==> b.lives == 1 && b.rect.w == BlockWidth && b.rect.h == BlockHeight
    ensures 1 <= |SpecialIndices(r.blocks)| <= SpecialDraws
    ensures r.blocks == InitBlocks([], width, picks) && r.player == NewPlayer(width, height)
  {
    FreshLevelSpecialCount(width, picks);
    var blocks := InitBlocks([], width, picks);
    assert forall b :: b in blocks ==> b.lives == 1 && b.rect.w == BlockWidth && b.rect.h == BlockHeight by {
      forall b | b in blocks ensures b.lives == 1 && b.rect.w == BlockWidth && b.rect.h == BlockHeight {
        var i :| 0 <= i < |blocks| && blocks[i] == b;
      }
    }
    s.(player := NewPlayer(width, height), score := 0, lives := StartLives, balls := [], blocks := blocks)
  }

  function MoveBalls(balls: seq<Ball>, dt: real, width: real): (r: seq<Ball>)
    ensures |r| == |balls|
    ensures forall i :: 0 <= i < |r| ==> r[i] == BallUpdate(balls[i], dt, width)
  {
    seq(|balls|, i requires 0 <= i < |balls| => BallUpdate(balls[i], dt, width))
  }

  /** The queued spawns as new balls, the k-th taking the k-th random direction of the frame. */
  function SpawnBalls(spawns: seq<Vec2>, newVel: nat -> Vec2): (r: seq<Ball>)
    ensures |r| == |spawns|
    ensures forall k :: 0 <= k < |r| ==> r[k] == NewBall(spawns[k], newVel(k))
  {
    seq(|spawns|, k requires 0 <= k < |spawns| => NewBall(spawns[k], newVel(k)))
  }

  /** Movement and the collision pass of a game frame: the paddle moves, then every ball, then they collide. */
  function CollisionPhase(s: Session, f: Frame): Pass {
    CollideAll(MoveBalls(s.balls, f.dt, f.width),
               PlayerUpdate(s.player, f.left, f.right, f.dt, f.width).rect,
               s.blocks)
  }

  /** The balls of a frame before pruning: those in play after the collision pass, then the spawned ones. */
  function AllBalls(s: Session, f: Frame, newVel: nat -> Vec2): seq<Ball> {
    var pass := CollisionPhase(s, f);
    pass.balls + SpawnBalls(pass.spawns, newVel)
  }

  /** The balls left after pruning, and whether the last ball was just lost. */
  datatype Pruned = Pruned(balls: seq<Ball>, lost: bool)

  /**
   Drops every ball at or below `limit`. When that drops at least one ball and
   leaves none, the last ball is lost and `respawn` is the only ball left.
   */
  function PruneBalls(all: seq<Ball>, limit: real, respawn: Ball): (r: Pruned)
    ensures r.lost <==> |all| > 0 && forall i :: 0 <= i < |all| ==> all[i].rect.y >= limit
    ensures r.lost ==> r.balls == [respawn]
    ensures !r.lost ==> r.balls == Retain(all, InPlay(limit))
    ensures !r.lost ==> forall b :: b in r.balls ==> b.rect.y < limit
    ensures |all| > 0 ==> |r.balls| > 0
  {
    var kept := Retain(all, InPlay(limit));
    assert |kept| == 0 <==> forall i :: 0 <= i < |all| ==> all[i].rect.y >= limit by {
      if |kept| > 0 {
        assert kept[0] in kept;
      } else {
        forall i | 0 <= i < |all| ensures all[i].rect.y >= limit {
          assert all[i] in all;
        }
      }
    }
    if |all| > |kept| && |kept| == 0 then Pruned([respawn], true) else Pruned(kept, false)
  }

  /**
   One frame of play. After the collision pass the queued balls join the
   collection and every ball at or below the paddle's row is dropped. If that
   dropped at least one ball and left none, a life is lost and one ball
   appears above the paddle; the session is Dead when no lives remain. Dead
   blocks are then pruned, and a level without blocks is completed, even in a
   frame that also lost the last life.
   */
  function FrameStep(s: Session, f: Frame, newVel: nat -> Vec2): (r: Session)
    ensures r.player == PlayerUpdate(s.player, f.left, f.right, f.dt, f.width)
    ensures forall b :: b in r.blocks ==> Alive(b)
    ensures |r.blocks| <= |s.blocks|
    ensures r.score == s.score + BlockScore * Destroyed(s.blocks, CollisionPhase(s, f).blocks)
    ensures r.lives == s.lives || r.lives == s.lives - 1
    ensures r.lives == s.lives - 1 <==>
      |AllBalls(s, f, newVel)| > 0
      && forall i :: 0 <= i < |AllBalls(s, f, newVel)| ==> AllBalls(s, f, newVel)[i].rect.y >= f.height - BottomMargin
    ensures r.lives == s.lives - 1 ==>
      |r.balls| == 1 && r.balls[0].rect.Point() == RespawnPoint(r.player) && r.balls[0].rect.w == BallSize
    ensures r.lives == s.lives ==> forall b :: b in r.balls ==> b.rect.y < f.height - BottomMargin
    ensures |s.balls| > 0 ==> |r.balls| > 0
    ensures |r.blocks| == 0 ==> r.state == LevelCompleted
    ensures |r.blocks| > 0 && r.lives < s.lives && r.lives <= 0 ==> r.state == Dead
    ensures |r.blocks| > 0 && !(r.lives < s.lives && r.lives <= 0) ==> r.state == s.state
    ensures r.blocks == Retain(CollisionPhase(s, f).blocks, Alive)
    ensures r.lives == s.lives ==> r.balls == Retain(AllBalls(s, f, newVel), InPlay(f.height - BottomMargin))
  {
    var player := PlayerUpdate(s.player, f.left, f.right, f.dt, f.width);
    var pass := CollisionPhase(s, f);
    var all := AllBalls(s, f, newVel);
    var pruned := PruneBalls(all, f.height - BottomMargin, NewBall(RespawnPoint(player), newVel(|pass.spawns|)));
    var lives := if pruned.lost then s.lives - 1 else s.lives;
    var blocks := Retain(pass.blocks, Alive);
    var state :=
      if |blocks| == 0 then LevelCompleted
      else if pruned.lost && lives <= 0 then Dead
      else s.state;
    Session(state, s.score + pass.gained, lives, player, blocks, pruned.balls)
  }

  /**
   The state machine. The menu waits for Space and then starts play without
   touching anything else; the game runs one frame; the end screens wait for
   Space and then reset the session, back to the menu, with one ball above the
   paddle. No other transition exists.
   */
  function Step(s: Session, f: Frame, newVel: nat -> Vec2, picks: seq<int>): (r: Session)
    requires ValidPicks(picks)
    ensures s.state == Menu ==> r == (if f.space then s.(state := Game) else s)
    ensures s.state == Game ==> r == FrameStep(s, f, newVel) && r.state != Menu
    ensures (s.state == LevelCompleted || s.state == Dead) && !f.space ==> r == s
    ensures (s.state == LevelCompleted || s.state == Dead) && f.space ==>
      && r.state == Menu && r.score == 0 && r.lives == StartLives
      && |r.blocks| == Columns * Rows && 1 <= |SpecialIndices(r.blocks)| <= SpecialDraws
      && |r.balls| == 1 && r.balls[0].rect.Point() == RespawnPoint(r.player)
      && r.player.rect.Center().x == f.width * 0.5
      && r.blocks == InitBlocks([], f.width, picks) && r.player == NewPlayer(f.width, f.height)
  {
    match s.state
    case Menu => if f.space then s.(state := Game) else s
    case Game => FrameStep(s, f, newVel)
    case _ =>
      if f.space then
        var reset := ResetGame(s.(state := Menu), f.width, f.height, picks);
        reset.(balls := reset.balls + [NewBall(RespawnPoint(reset.player), newVel(0))])
      else s
  }
}

/**
 Properties of whole sessions: an invariant every reachable session keeps, and
 the frame's score and ball accounting.
 */
module Play {
  import opened Geometry
  import opened Entities
  import opened Seqs
  import opened Level
  import opened Collide
  import opened Game

  /**
   What holds of every session the game can reach: entities keep their fixed
   sizes, every block on the board has its single life, at least one ball is
   in play, the score is a non-negative multiple of 10, lives stay within
   0..3, and the menu and the game always have lives and blocks left.
   */
  ghost predicate Inv(s: Session) {
    && s.player.rect.w == PlayerWidth && s.player.rect.h == PlayerHeight
    && (forall b :: b in s.blocks ==> b.lives == 1 && b.rect.w == BlockWidth && b.rect.h == BlockHeight)
    && (forall b :: b in s.balls ==> b.rect.w == BallSize && b.rect.h == BallSize)
    && |s.balls| >= 1
    && 0 <= s.score && s.score % BlockScore == 0
    && 0 <= s.lives <= StartLives
    && ((s.state == Menu || s.state == Game) ==> s.lives >= 1 && |s.blocks| >= 1)
  }

  lemma InitialSessionValid(width: real, height: real, picks: seq<int>, dir: Vec2)
    requires ValidPicks(picks)
    ensures Inv(InitialSession(width, height, picks, dir))
  {
    var s := InitialSession(width, height, picks, dir);
    forall b | b in s.blocks ensures b.lives == 1 && b.rect.w == BlockWidth && b.rect.h == BlockHeight {
      var i :| 0 <= i < |s.blocks| && s.blocks[i] == b;
    }
  }

  /** Blocks left on the board after a collision pass are the ones that began with a life and were not hit. */
  lemma {:induction false} SurvivorsKeepLayout(before: seq<Block>, after: seq<Block>)
    requires SameLayout(before, after)
    requires forall b :: b in before ==> b.lives == 1 && b.rect.w == BlockWidth && b.rect.h == BlockHeight
    ensures forall b :: b in Retain(after, Alive) ==> b.lives == 1 && b.rect.w == BlockWidth && b.rect.h == BlockHeight
  {
    forall b | b in Retain(after, Alive) ensures b.lives == 1 && b.rect.w == BlockWidth && b.rect.h == BlockHeight {
      var j :| 0 <= j < |after| && after[j] == b;
      assert before[j] in before;
    }
  }

  /** Every ball taking part in a frame has the standard size. */
  lemma FrameBallsSized(s: Session, f: Frame, newVel: nat -> Vec2)
    requires forall b :: b in s.balls ==> b.rect.w == BallSize && b.rect.h == BallSize
    ensures var pass := CollisionPhase(s, f);
      forall b :: b in pass.balls + SpawnBalls(pass.spawns, newVel) ==> b.rect.w == BallSize && b.rect.h == BallSize
  {
    var pass := CollisionPhase(s, f);
    var moved := MoveBalls(s.balls, f.dt, f.width);
    var all := pass.balls + SpawnBalls(pass.spawns, newVel);
    forall b | b in all ensures b.rect.w == BallSize && b.rect.h == BallSize {
      var i :| 0 <= i < |all| && all[i] == b;
      if i < |pass.balls| {
        assert s.balls[i] in s.balls;
        assert moved[i].rect.w == s.balls[i].rect.w;
      }
    }
  }

  /** The invariant holds after every step of the state machine. */
  lemma StepPreservesInv(s: Session, f: Frame, newVel: nat -> Vec2, picks: seq<int>)
    requires Inv(s) && ValidPicks(picks)
    ensures Inv(Step(s, f, newVel, picks))
  {
    if s.state == Game {
      FrameStepPreservesInv(s, f, newVel);
    }
  }

  lemma FrameStepPreservesInv(s: Session, f: Frame, newVel: nat -> Vec2)
    requires Inv(s) && s.state == Game
    ensures Inv(FrameStep(s, f, newVel))
  {
    FrameKeepsBlocks(s, f, newVel);
    FrameKeepsBalls(s, f, newVel);
    FrameKeepsCounters(s, f, newVel);
    FrameKeepsScore(s, f, newVel);
  }

  lemma FrameKeepsCounters(s: Session, f: Frame, newVel: nat -> Vec2)
    requires s.player.rect.w == PlayerWidth && s.player.rect.h == PlayerHeight
    requires |s.balls| >= 1 && 0 <= s.score && s.score % BlockScore == 0
    requires 1 <= s.lives <= StartLives && s.state == Game
    ensures var r := FrameStep(s, f, newVel);
      && r.player.rect.w == PlayerWidth && r.player.rect.h == PlayerHeight
      && |r.balls| >= 1
      && 0 <= r.lives <= StartLives
      && ((r.state == Menu || r.state == Game) ==> r.lives >= 1 && |r.blocks| >= 1)
  {
  }

  lemma FrameKeepsScore(s: Session, f: Frame, newVel: nat -> Vec2)
    requires 0 <= s.score && s.score % BlockScore == 0
    ensures var r := FrameStep(s, f, newVel);
      0 <= r.score && r.score % BlockScore == 0
  {
    var r := FrameStep(s, f, newVel);
    MultipleAdd(s.score, Destroyed(s.blocks, CollisionPhase(s, f).blocks), r.score);
  }

  lemma MultipleAdd(a: int, n: nat, b: int)
    requires a % BlockScore == 0 && b == a + BlockScore * n
    ensures b % BlockScore == 0
  {
    assert b == BlockScore * (a / BlockScore + n);
  }

  lemma FrameKeepsBlocks(s: Session, f: Frame, newVel: nat -> Vec2)
    requires forall b :: b in s.blocks ==> b.lives == 1 && b.rect.w == BlockWidth && b.rect.h == BlockHeight
    ensures forall b :: b in FrameStep(s, f, newVel).blocks ==>
      b.lives == 1 && b.rect.w == BlockWidth && b.rect.h == BlockHeight
  {
    SurvivorsKeepLayout(s.blocks, CollisionPhase(s, f).blocks);
  }

  lemma FrameKeepsBalls(s: Session, f: Frame, newVel: nat -> Vec2)
    requires forall b :: b in s.balls ==> b.rect.w == BallSize && b.rect.h == BallSize
    ensures forall b :: b in FrameStep(s, f, newVel).balls ==> b.rect.w == BallSize && b.rect.h == BallSize
  {
    var pass := CollisionPhase(s, f);
    FrameBallsSized(s, f, newVel);
    assert AllBalls(s, f, newVel) == pass.balls + SpawnBalls(pass.spawns, newVel);
  }

  /**
   Every block a frame removes from a board of one-life blocks was hit at
   least once, so the frame scores at least 10 for each of them. (A block hit
   again in the same frame, while already without lives, scores again.)
   */
  lemma FrameScoresRemovedBlocks(s: Session, f: Frame, newVel: nat -> Vec2)
    requires forall b :: b in s.blocks ==> b.lives == 1
    ensures var r := FrameStep(s, f, newVel);
      r.score - s.score >= BlockScore * (|s.blocks| - |r.blocks|)
  {
    var pass := CollisionPhase(s, f);
    DestroyedCoversRemoved(s.blocks, pass.blocks);
  }

  lemma {:induction false} DestroyedCoversRemoved(before: seq<Block>, after: seq<Block>)
    requires SameLayout(before, after)
    requires forall b :: b in before ==> b.lives == 1
    ensures Destroyed(before, after) >= |before| - |Retain(after, Alive)|
  {
    if |before| > 0 {
      assert before[0] in before;
      assert SameLayout(before[1..], after[1..]);
      assert forall b :: b in before[1..] ==> b in before;
      DestroyedCoversRemoved(before[1..], after[1..]);
    }
  }

  /**
   Balls queued by destroyed ball-spawning blocks: one per scoring contact on
   such a block, each at the position it was queued at.
   */
  lemma FrameSpawnsCounted(s: Session, f: Frame, newVel: nat -> Vec2)
    ensures var pass := CollisionPhase(s, f);
      var spawned := SpawnBalls(pass.spawns, newVel);
      && |spawned| == SpawnsOwed(s.blocks, pass.blocks)
      && (forall k :: 0 <= k < |spawned| ==> spawned[k].rect.Point() == pass.spawns[k])
  {
  }

  /**
   The spawned balls join the collection only after the balls already in
   play, and pruning keeps that order: the survivors of the old balls come
   first, then the surviving new ones.
   */
  lemma FrameSpawnsAppended(s: Session, f: Frame, newVel: nat -> Vec2)
    ensures var pass := CollisionPhase(s, f);
      var r := FrameStep(s, f, newVel);
      r.lives == s.lives ==>
        r.balls == Retain(pass.balls, InPlay(f.height - BottomMargin))
                   + Retain(SpawnBalls(pass.spawns, newVel), InPlay(f.height - BottomMargin))
  {
    var pass := CollisionPhase(s, f);
    RetainAppend(pass.balls, SpawnBalls(pass.spawns, newVel), InPlay(f.height - BottomMargin));
  }
}
