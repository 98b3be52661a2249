/**
 The collision pass of one game frame: every ball in turn bounces off the
 paddle and then off every block in order. A block loses one life per contact;
 every contact that leaves it at zero lives or fewer scores 10 and, on a
 ball-spawning block, queues a new ball at the colliding ball's position.
 */
module Collide {
  import opened Geometry
  import opened Collision
  import opened Entities

  /** Points scored for each contact that leaves a block without lives. */
  const BlockScore: int := 10

  /**
   Of `c` successive one-life decrements applied to a block that starts with
   `lives`, the number that leave it at or below zero (decrement k leaves
   `lives - k`).
   */
  function Kills(lives: int, c: int): nat {
    if c <= 0 then 0
    else if lives <= 0 then c
    else if c < lives then 0
    else c - lives + 1
  }

  /** Two runs of decrements on the same block count their kills separately. */
  lemma KillsAdditive(lives: int, c1: nat, c2: nat)
    ensures Kills(lives, c1 + c2) == Kills(lives, c1) + Kills(lives - c1, c2)
  {
  }

  /** `after` is `before` with only lives changed, and none gained. */
  ghost predicate SameLayout(before: seq<Block>, after: seq<Block>) {
    && |before| == |after|
    && forall j :: 0 <= j < |before| ==>
         after[j].rect == before[j].rect && after[j].kind == before[j].kind && after[j].lives <= before[j].lives
  }

  /** Total scoring contacts over a collection, judged only from each block's lives before and after. */
  ghost function Destroyed(before: seq<Block>, after: seq<Block>): nat
    requires |before| == |after|
  {
    if |before| == 0 then 0
    else Kills(before[0].lives, before[0].lives - after[0].lives) + Destroyed(before[1..], after[1..])
  }

  /** As `Destroyed`, counting only ball-spawning blocks. */
  ghost function SpawnsOwed(before: seq<Block>, after: seq<Block>): nat
    requires |before| == |after|
  {
    if |before| == 0 then 0
    else
      (if before[0].kind == SpawnBallOnDeath then Kills(before[0].lives, before[0].lives - after[0].lives) else 0)
      + SpawnsOwed(before[1..], after[1..])
  }

  /** Counts over two consecutive passes add up to the count over both. */
  lemma {:induction false} DestroyedAdditive(b0: seq<Block>, b1: seq<Block>, b2: seq<Block>)
    requires SameLayout(b0, b1) && SameLayout(b1, b2)
    ensures SameLayout(b0, b2)
    ensures Destroyed(b0, b2) == Destroyed(b0, b1) + Destroyed(b1, b2)
    ensures SpawnsOwed(b0, b2) == SpawnsOwed(b0, b1) + SpawnsOwed(b1, b2)
  {
    if |b0| > 0 {
      var l0, l1, l2 := b0[0].lives, b1[0].lives, b2[0].lives;
      KillsAdditive(l0, l0 - l1, l1 - l2);
      assert SameLayout(b0[1..], b1[1..]);
      assert SameLayout(b1[1..], b2[1..]);
      DestroyedAdditive(b0[1..], b1[1..], b2[1..]);
    }
  }

  /** The ball after `ResolveCollision` against a static rectangle. */
  function BounceOff(ball: Ball, r: Rect): Ball {
    var c := ResolveCollision(ball.rect, ball.vel, r);
    Ball(c.rect, c.vel)
  }

  /** The outcome of one ball against one block. */
  datatype Contact = Contact(ball: Ball, block: Block, gained: int, spawns: seq<Vec2>)

  /**
   One ball against one block: on contact the ball bounces and the block loses
   a life; if that leaves it without lives the contact scores, and a
   ball-spawning block queues a ball at the bounced ball's corner.
   */
  function ContactBlock(ball: Ball, block: Block): (r: Contact)
    ensures r.block == block.(lives := r.block.lives)
    ensures r.block.lives == block.lives - (if Overlaps(ball.rect, block.rect) then 1 else 0)
    ensures r.ball.rect.w == ball.rect.w && r.ball.rect.h == ball.rect.h
    ensures !Overlaps(ball.rect, block.rect) ==> r.ball == ball
    ensures r.gained == BlockScore * Kills(block.lives, block.lives - r.block.lives)
    ensures |r.spawns| == (if block.kind == SpawnBallOnDeath then Kills(block.lives, block.lives - r.block.lives) else 0)
    ensures forall p :: p in r.spawns ==> p == r.ball.rect.Point()
    ensures r.ball == BounceOff(ball, block.rect)
    ensures Norm2(r.ball.vel) == Norm2(ball.vel)
  {
    ResolveKeepsSpeed(ball.rect, ball.vel, block.rect);
    var c := ResolveCollision(ball.rect, ball.vel, block.rect);
    var bounced := Ball(c.rect, c.vel);
    if !c.hit then Contact(bounced, block, 0, [])
    else
      var hurt := block.(lives := block.lives - 1);
      if hurt.lives <= 0 then
        Contact(bounced, hurt, BlockScore, if block.kind == SpawnBallOnDeath then [bounced.rect.Point()] else [])
      else Contact(bounced, hurt, 0, [])
  }

  /** The outcome of one ball against all blocks. */
  datatype BlockPass = BlockPass(ball: Ball, blocks: seq<Block>, gained: int, spawns: seq<Vec2>)

  /**
   One ball against every block in collection order; the ball's bounces carry
   over from one block to the next. The score and the spawn queue are exactly
   what the lives lost by the blocks account for.
   */
  function HitBlocks(ball: Ball, blocks: seq<Block>): (r: BlockPass)
    ensures SameLayout(blocks, r.blocks)
    ensures r.ball.rect.w == ball.rect.w && r.ball.rect.h == ball.rect.h
    ensures r.gained == BlockScore * Destroyed(blocks, r.blocks)
    ensures |r.spawns| == SpawnsOwed(blocks, r.blocks)
    ensures forall j :: 0 <= j < |blocks| ==> r.blocks[j].lives >= blocks[j].lives - 1
    ensures Norm2(r.ball.vel) == Norm2(ball.vel)
    decreases |blocks|
  {
    if |blocks| == 0 then BlockPass(ball, [], 0, [])
    else
      var c := ContactBlock(ball, blocks[0]);
      var rest := HitBlocks(c.ball, blocks[1..]);
      var after := [c.block] + rest.blocks;
      assert after[1..] == rest.blocks;
      BlockPass(rest.ball, after, c.gained + rest.gained, c.spawns + rest.spawns)
  }

  /** The outcome of the whole collision pass of a frame. */
  datatype Pass = Pass(balls: seq<Ball>, blocks: seq<Block>, gained: int, spawns: seq<Vec2>)

  /**
   Every ball in order: first against the paddle (no score), then against the
   blocks as left by the balls before it. Balls are neither added nor removed;
   spawns are only queued.
   */
  function CollideAll(balls: seq<Ball>, paddle: Rect, blocks: seq<Block>): (r: Pass)
    ensures |r.balls| == |balls|
    ensures forall i :: 0 <= i < |balls| ==> r.balls[i].rect.w == balls[i].rect.w && r.balls[i].rect.h == balls[i].rect.h
    ensures SameLayout(blocks, r.blocks)
    ensures r.gained == BlockScore * Destroyed(blocks, r.blocks)
    ensures |r.spawns| == SpawnsOwed(blocks, r.blocks)
    ensures forall j :: 0 <= j < |blocks| ==> r.blocks[j].lives >= blocks[j].lives - |balls|
    ensures forall i :: 0 <= i < |balls| ==> Norm2(r.balls[i].vel) == Norm2(balls[i].vel)
  {
    if |balls| == 0 then
      assert Destroyed(blocks, blocks) == 0 && SpawnsOwed(blocks, blocks) == 0 by {
        NoChangeNoKills(blocks);
      }
      Pass([], blocks, 0, [])
    else
      var b := balls[0];
      ResolveKeepsSpeed(b.rect, b.vel, paddle);
      var hp := HitBlocks(BounceOff(b, paddle), blocks);
      var rest := CollideAll(balls[1..], paddle, hp.blocks);
      DestroyedAdditive(blocks, hp.blocks, rest.blocks);
      assert forall j :: 0 <= j < |blocks| ==> rest.blocks[j].lives >= blocks[j].lives - |balls| by {
        forall j | 0 <= j < |blocks| ensures rest.blocks[j].lives >= blocks[j].lives - |balls| {
          assert rest.blocks[j].lives >= hp.blocks[j].lives - |balls[1..]|;
        }
      }
      var out := [hp.ball] + rest.balls;
      assert forall i :: 0 <= i < |balls| ==>
        out[i].rect.w == balls[i].rect.w && out[i].rect.h == balls[i].rect.h && Norm2(out[i].vel) == Norm2(balls[i].vel) by {
        forall i | 0 < i < |balls|
          ensures out[i].rect.w == balls[i].rect.w && out[i].rect.h == balls[i].rect.h && Norm2(out[i].vel) == Norm2(balls[i].vel)
        {
          assert out[i] == rest.balls[i - 1] && balls[1..][i - 1] == balls[i];
        }
      }
      Pass(out, rest.blocks, hp.gained + rest.gained, hp.spawns + rest.spawns)
  }

  lemma {:induction false} NoChangeNoKills(blocks: seq<Block>)
    ensures Destroyed(blocks, blocks) == 0 && SpawnsOwed(blocks, blocks) == 0
  {
    if |blocks| > 0 {
      NoChangeNoKills(blocks[1..]);
    }
  }

  /** A ball's pass that met a single block. */
  function OneContact(c: Contact): BlockPass {
    BlockPass(c.ball, [c.block], c.gained, c.spawns)
  }

  /** Two block passes one after the other: the second starts with the ball as the first left it. */
  function ThenBlocks(first: BlockPass, second: BlockPass): BlockPass {
    BlockPass(second.ball, first.blocks + second.blocks, first.gained + second.gained, first.spawns + second.spawns)
  }

  /** A pass over a single block is one contact. */
  lemma HitOneBlock(ball: Ball, block: Block)
    ensures HitBlocks(ball, [block]) == OneContact(ContactBlock(ball, block))
  {
    assert [block][1..] == [];
  }

  /**
   A ball's pass over a collection is its pass over a prefix followed, with
   the ball as that left it, by its pass over the rest. With `HitOneBlock`
   this pins `HitBlocks` down as the block-by-block fold of `ContactBlock`.
   */
  lemma {:induction false} HitBlocksAppend(ball: Ball, a: seq<Block>, b: seq<Block>)
    ensures HitBlocks(ball, a + b) == ThenBlocks(HitBlocks(ball, a), HitBlocks(HitBlocks(ball, a).ball, b))
    decreases |a|
  {
    if |a| == 0 {
      assert a == [];
      HitNoBlocks(ball, b);
    } else {
      var c := ContactBlock(ball, a[0]);
      var ra := HitBlocks(c.ball, a[1..]);
      HitBlocksAppend(c.ball, a[1..], b);
      HitBlocksConsAppend(ball, a, b);
      HitBlocksCons(ball, a);
      ThenBlocksAssoc(OneContact(c), ra, HitBlocks(ra.ball, b));
    }
  }

  /** The base case of `HitBlocksAppend`: an empty prefix leaves the ball and the pass over the rest alone. */
  lemma HitNoBlocks(ball: Ball, b: seq<Block>)
    ensures HitBlocks(ball, [] + b) == ThenBlocks(HitBlocks(ball, []), HitBlocks(HitBlocks(ball, []).ball, b))
  {
    assert [] + b == b;
    var rb := HitBlocks(ball, b);
    assert ThenBlocks(BlockPass(ball, [], 0, []), rb) == rb;
  }

  /** One unfolding of `HitBlocks`: the first contact, then the pass over the remaining blocks. */
  lemma HitBlocksCons(ball: Ball, blocks: seq<Block>)
    requires |blocks| > 0
    ensures HitBlocks(ball, blocks)
         == ThenBlocks(OneContact(ContactBlock(ball, blocks[0])), HitBlocks(ContactBlock(ball, blocks[0]).ball, blocks[1..]))
  {
  }

  /** `HitBlocksCons` for a collection split after its first block. */
  lemma HitBlocksConsAppend(ball: Ball, a: seq<Block>, b: seq<Block>)
    requires |a| > 0
    ensures HitBlocks(ball, a + b)
         == ThenBlocks(OneContact(ContactBlock(ball, a[0])), HitBlocks(ContactBlock(ball, a[0]).ball, a[1..] + b))
  {
    DropAppend(a, b);
    HitBlocksCons(ball, a + b);
  }

  lemma ThenBlocksAssoc(x: BlockPass, y: BlockPass, z: BlockPass)
    ensures ThenBlocks(x, ThenBlocks(y, z)) == ThenBlocks(ThenBlocks(x, y), z)
  {
    AppendAssoc(x.blocks, y.blocks, z.blocks);
    AppendAssoc(x.spawns, y.spawns, z.spawns);
  }

  lemma DropAppend<T>(a: seq<T>, b: seq<T>)
    requires |a| > 0
    ensures (a + b)[0] == a[0] && (a + b)[1..] == a[1..] + b
  {
  }

  lemma AppendAssoc<T>(p: seq<T>, q: seq<T>, r: seq<T>)
    ensures p + (q + r) == (p + q) + r
  {
  }

  /** The collision pass of a single ball whose block pass was `hp`. */
  function OneBall(hp: BlockPass): Pass {
    Pass([hp.ball], hp.blocks, hp.gained, hp.spawns)
  }

  /** Two collision passes one after the other: the second starts from the blocks as the first left them. */
  function ThenPasses(first: Pass, second: Pass): Pass {
    Pass(first.balls + second.balls, second.blocks, first.gained + second.gained, first.spawns + second.spawns)
  }

  /** A single ball bounces off the paddle, then meets every block in order. */
  lemma CollideOneBall(ball: Ball, paddle: Rect, blocks: seq<Block>)
    ensures CollideAll([ball], paddle, blocks) == OneBall(HitBlocks(BounceOff(ball, paddle), blocks))
  {
    assert [ball][1..] == [];
  }

  /**
   The pass of a collection of balls is the pass of a prefix followed by the
   pass of the rest over the blocks as the prefix left them. With
   `CollideOneBall` this pins `CollideAll` down as the ball-by-ball fold.
   */
  lemma {:induction false} CollideAllAppend(a: seq<Ball>, b: seq<Ball>, paddle: Rect, blocks: seq<Block>)
    ensures CollideAll(a + b, paddle, blocks)
         == ThenPasses(CollideAll(a, paddle, blocks), CollideAll(b, paddle, CollideAll(a, paddle, blocks).blocks))
    decreases |a|
  {
    if |a| == 0 {
      assert a == [];
      CollideAllNone(b, paddle, blocks);
    } else {
      var hp := HitBlocks(BounceOff(a[0], paddle), blocks);
      var ra := CollideAll(a[1..], paddle, hp.blocks);
      CollideAllAppend(a[1..], b, paddle, hp.blocks);
      CollideAllConsAppend(a, b, paddle, blocks);
      CollideAllCons(a, paddle, blocks);
      ThenPassesAssoc(OneBall(hp), ra, CollideAll(b, paddle, ra.blocks));
    }
  }

  /** The base case of `CollideAllAppend`: no balls leave the blocks to the rest. */
  lemma CollideAllNone(b: seq<Ball>, paddle: Rect, blocks: seq<Block>)
    ensures CollideAll([] + b, paddle, blocks)
         == ThenPasses(CollideAll([], paddle, blocks), CollideAll(b, paddle, CollideAll([], paddle, blocks).blocks))
  {
    assert [] + b == b;
    var rb := CollideAll(b, paddle, blocks);
    assert ThenPasses(Pass([], blocks, 0, []), rb) == rb;
  }

  /** One unfolding of `CollideAll`: the first ball's paddle bounce and block pass, then the remaining balls. */
  lemma CollideAllCons(balls: seq<Ball>, paddle: Rect, blocks: seq<Block>)
    requires |balls| > 0
    ensures CollideAll(balls, paddle, blocks)
         == ThenPasses(OneBall(HitBlocks(BounceOff(balls[0], paddle), blocks)),
                       CollideAll(balls[1..], paddle, HitBlocks(BounceOff(balls[0], paddle), blocks).blocks))
  {
  }

  /** `CollideAllCons` for a collection split after its first ball. */
  lemma CollideAllConsAppend(a: seq<Ball>, b: seq<Ball>, paddle: Rect, blocks: seq<Block>)
    requires |a| > 0
    ensures CollideAll(a + b, paddle, blocks)
         == ThenPasses(OneBall(HitBlocks(BounceOff(a[0], paddle), blocks)),
                       CollideAll(a[1..] + b, paddle, HitBlocks(BounceOff(a[0], paddle), blocks).blocks))
  {
    DropAppend(a, b);
    CollideAllCons(a + b, paddle, blocks);
  }

  lemma ThenPassesAssoc(x: Pass, y: Pass, z: Pass)
    ensures ThenPasses(x, ThenPasses(y, z)) == ThenPasses(ThenPasses(x, y), z)
  {
    AppendAssoc(x.balls, y.balls, z.balls);
    AppendAssoc(x.spawns, y.spawns, z.spawns);
  }
}

/** Worked cases of the collision pass. */
module CollideCases {
  import opened Geometry
  import opened Collision
  import opened Entities
  import opened Collide

  lemma TwoBallPass(b1: Ball, b2: Ball, paddle: Rect, blocks: seq<Block>)
    ensures var h1 := HitBlocks(BounceOff(b1, paddle), blocks);
      CollideAll([b1, b2], paddle, blocks).blocks == HitBlocks(BounceOff(b2, paddle), h1.blocks).blocks
  {
    var h1 := HitBlocks(BounceOff(b1, paddle), blocks);
    var h2 := HitBlocks(BounceOff(b2, paddle), h1.blocks);
    assert [b1, b2][1..] == [b2];
    assert [b2][1..] == [];
    assert CollideAll([b1, b2], paddle, blocks).blocks == CollideAll([b2], paddle, h1.blocks).blocks;
    assert CollideAll([b2], paddle, h1.blocks).blocks == CollideAll([], paddle, h2.blocks).blocks;
  }

  const block0: Block := Block(Rect(0.0, 0.0, BlockWidth, BlockHeight), 1, Regular)
  /** A ball whose top 10 pixels dip into `block0`. */
  const ball0: Ball := Ball(Rect(10.0, 30.0, BallSize, BallSize), Vec2(0.0, -1.0))
  const paddle0: Rect := Rect(0.0, 500.0, PlayerWidth, PlayerHeight)

  lemma Ball0MissesPaddle()
    ensures BounceOff(ball0, paddle0) == ball0
  {
    assert Intersect(ball0.rect, paddle0).None?;
  }

  lemma Ball0HitsBlock0(lives: int)
    ensures ContactBlock(ball0, block0.(lives := lives)).block == block0.(lives := lives - 1)
  {
    assert Intersect(ball0.rect, block0.rect) == Some(Rect(10.0, 30.0, 50.0, 10.0));
  }

  /**
   Two balls overlapping the same one-life block in the same frame both score:
   the second contact finds the block at zero lives, takes it to -1 and scores
   again, so one destroyed block is worth 20 points in that frame.
   */
  lemma DoubleHitScoresTwice()
    ensures var pass := CollideAll([ball0, ball0], paddle0, [block0]);
      pass.blocks == [block0.(lives := -1)] && pass.gained == 2 * BlockScore
  {
    DoubleHitBlocks();
    var pass := CollideAll([ball0, ball0], paddle0, [block0]);
    assert Destroyed([block0], pass.blocks) == Kills(1, 2) + Destroyed([], []);
  }

  lemma DoubleHitBlocks()
    ensures CollideAll([ball0, ball0], paddle0, [block0]).blocks == [block0.(lives := -1)]
  {
    Ball0MissesPaddle();
    var h1 := HitBlocks(ball0, [block0]);
    assert h1.blocks == [block0.(lives := 0)] by {
      Ball0HitsBlock0(1);
      assert block0.(lives := 1) == block0;
      HitOneBlock(ball0, block0);
    }
    var h2 := HitBlocks(ball0, h1.blocks);
    assert h2.blocks == [block0.(lives := -1)] by {
      Ball0HitsBlock0(0);
      HitOneBlock(ball0, block0.(lives := 0));
    }
    TwoBallPass(ball0, ball0, paddle0, [block0]);
  }
}
