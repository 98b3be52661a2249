# Breakout core in Dafny

A model of the simulation core of a small breakout game (paddle, balls, a grid
of blocks): rectangle intersection and the one-axis bounce resolver, the
paddle and ball self-movement, level construction, the per-frame collision
pass with scoring and ball spawning, and the Menu / Game / LevelCompleted /
Dead state machine. The frame is a pure function from a session record to the
next one.

Modules, leaves first:

- `Geometry` (`geometry.dfy`): `Vec2`, `Rect`, `Intersect`, `Sign`.
- `Collision` (`collision.dfy`): `ResolveCollision` and its properties.
- `Entities` (`entities.dfy`): constants, `Player`, `Block`, `Ball`, their constructors, `PlayerUpdate` and `BallUpdate`.
- `Seqs` (`retain.dfy`): `Retain`, the order-keeping filter behind `Vec::retain`.
- `Level` (`level.dfy`): the 6 × 6 grid and the random special blocks.
- `Collide` and `CollideCases` (`collide.dfy`): the ball × block pass of one frame, with the score and spawn accounting.
- `Game` and `Play` (`game.dfy`): the session, the frame step, the state machine and the session invariant.

Some members are plain definitions, stated through the members that use them rather than on their own:

- `Entities.NewBlock` and `Entities.NewBall` are the `Block::new` and `Ball::new` constructors.
- `Level.GridCell` and `Level.Grid` give the fresh grid, whose layout `Level.InitBlocks`, `Level.GridRowMajor`, `Level.GridCentred` and `Level.GridBlocksDisjoint` describe.
- `Game.MoveBalls` applies `Entities.BallUpdate` to every ball before the collision pass.
- `Game.SpawnBalls` turns the queued spawn positions into balls, described by `Play.FrameSpawnsCounted`.
- `Game.CollisionPhase` is the collision part of a frame, the moved balls passed through `Collide.CollideAll`; `Game.FrameStep` and the `Play` lemmas describe it.
- `Game.AllBalls` is the balls after the collision pass followed by the newly spawned ones, the list the lives rule of `Game.FrameStep` inspects.
- `Collide.BounceOff` is a ball after `Collision.ResolveCollision` against one rectangle, described by `Collision.ResolveKeepsSpeed` and `Collision.ResolveMakesFlush`.

Environment inputs are parameters:

- A `Frame` carries the frame time, the Left / Right held states, the Space press, and the screen width and height.
- `newVel: nat -> Vec2` is the random, normalised direction of the k-th ball created in a frame.
- `picks` are the three random block indices drawn when a level is built.

Modelling assumptions:

- Coordinates are `real`, not 32-bit floats.
- `Rect::intersect` comes from the graphics library, whose code is not part of this model. It is modelled as the usual overlap: the larger left/top edge up to the smaller right/bottom edge. It is `None` only when that box has a negative extent. Rectangles that merely share an edge therefore intersect, in a box of zero width or height (`Geometry.IntersectAtSharedEdge`).
- `Vec2::signum` follows the float convention: a zero component gives +1, not 0 (`Geometry.Sign`). So when two centres line up on the corrected axis, the moving body is still pushed, towards negative coordinates, and its velocity turns negative.

Consequences of the code that a reader might not expect:

- The wall rules of `Ball::update` set a velocity component to exactly ±1 rather than reflecting it. So the direction of a ball does not stay a unit vector (`Entities.WallRuleChangesSpeed`). Bounces in `resolve_collision` do keep the speed (`Collision.ResolveKeepsSpeed`).
- The three random draws in `init_blocks` may coincide. A fresh level therefore has between one and three ball-spawning blocks (`Level.FreshLevelSpecialCount`).
- A contact scores whenever it leaves the block at zero lives or fewer. A second ball hitting an already dead block in the same frame therefore scores again (`CollideCases.DoubleHitScoresTwice`). Clearing 36 blocks yields at least 360 points, and more when blocks are hit twice in their last frame (`Play.FrameScoresRemovedBlocks`).

## Model

| member | source | states |
|---|---|---|
| Geometry.Intersect | src/main.rs:135-138 | the intersection is exactly the set of points common to both closed boxes, with non-negative size; None means no common point |
| Geometry.IntersectAtSharedEdge | src/main.rs:135-138 | rectangles meeting only along an edge count as intersecting, with a zero-width overlap |
| Collision.ResolveCollision | src/main.rs:134-159 | contact iff the boxes overlap; no overlap means nothing changes. On overlap exactly one axis is corrected: y when the overlap is wider than tall, else x. The position moves by the overlap's extent on that axis, away from the static body's centre. That velocity component keeps its magnitude and points away from it (a centre tie counts as the static body lying ahead). Sizes never change |
| Collision.ResolveKeepsSpeed | src/main.rs:146-157 | a bounce never changes the squared speed of the velocity |
| Collision.ResolveMakesFlush | src/main.rs:146-157 | when the moving body entered the static one through one face of the corrected axis, the correction leaves it flush against the static body on that axis; nothing is asked of the other axis |
| Collision.BallLandsOnPaddle | src/main.rs:146-157 | a ball sinking 5 px into the paddle, inside its width, is lifted to rest exactly on it and sent upwards |
| Entities.NewPlayer | src/main.rs:36-45 | the paddle is 150 × 40, centred horizontally, 100 pixels above the bottom |
| Entities.Direction | src/main.rs:48-54 | Left alone gives -1, Right alone gives +1, both or neither give 0 |
| Entities.PlayerUpdate | src/main.rs:47-65 | only x changes; x is the moved position clamped to [0, width - w], so it lies in that range whenever the paddle fits the screen |
| Entities.PlayerMovesWithKeys | src/main.rs:47-64 | with time moving forward, the paddle never moves against the held key and stays put with both or neither key held |
| Entities.BallUpdate | src/main.rs:116-128 | position advances by direction × dt × 400 and is never clamped. Then the first matching wall rule fires: past left sets vel.x = 1, else past right sets vel.x = -1, else above the top sets vel.y = 1. Otherwise, including below the bottom, the velocity is unchanged |
| Entities.BallUpdateSplits | src/main.rs:116-128 | when a frame leaves the direction alone, two frames of dt1 and dt2 equal one frame of dt1 + dt2 |
| Entities.WallRuleChangesSpeed | src/main.rs:121-127 | a unit direction hitting the left wall leaves with squared speed 1.64 |
| Seqs.Retain | src/main.rs:249-259 | keeps exactly the elements the predicate accepts and adds none |
| Seqs.RetainAppend | src/main.rs:245-249 | retaining distributes over concatenation, so survivors keep their original order |
| Level.GridRowMajor | src/main.rs:183-191 | the grid fills row by row: each block sits 5 px right of the previous one on the same row, and each row starts under the first block of the row above, 5 px below it |
| Level.GridCentred | src/main.rs:177-181 | the grid starts 50 px from the top and is centred horizontally, counting each block with the 5 px padding to its right |
| Level.MarkSpecial | src/main.rs:192-196 | a block ends up ball-spawning iff it was already or its index was drawn; nothing else about any block changes |
| Level.InitBlocks | src/main.rs:175-197 | appends exactly 36 one-life blocks of block size at their grid cells, leaving earlier blocks' boxes and lives alone. A block is special iff its index was drawn or it already was |
| Level.FreshLevelSpecialCount | src/main.rs:192-196 | a fresh level's special blocks are exactly the drawn indices: between one and three of them |
| Level.GridBlocksDisjoint | src/main.rs:176-191 | no two blocks of a fresh grid touch |
| Collide.DestroyedAdditive | src/main.rs:231-244 | scoring contacts counted over two consecutive passes add up to the count over both |
| Collide.ContactBlock | src/main.rs:234-242 | the ball leaves as `resolve_collision` bounced it, with its speed kept. The block loses one life iff the ball overlaps it, and nothing else about it changes. The score gain is 10 per decrement that leaves it at or below zero. A spawning block queues that many balls, each at the bounced ball's corner |
| Collide.HitBlocks | src/main.rs:233-243 | one ball against all blocks: layout kept, every block loses at most one life, the ball's speed is kept, score = 10 × scoring decrements implied by the lives lost, spawn queue = scoring decrements on spawning blocks |
| Collide.HitOneBlock | src/main.rs:233-243 | the pass over a single block is exactly one contact with it |
| Collide.HitBlocksAppend | src/main.rs:233-243 | the pass over two runs of blocks is the pass over the first run followed, with the ball as it left that run, by the pass over the second; with the single-block case this fixes the pass as contact after contact in collection order |
| Collide.CollideAll | src/main.rs:230-244 | the whole pass: ball count, sizes and each ball's speed kept, every block loses at most one life per ball, and the same score and spawn accounting over the whole pass |
| Collide.CollideOneBall | src/main.rs:231-244 | a single ball first bounces off the paddle, then meets the blocks |
| Collide.CollideAllAppend | src/main.rs:231-244 | the pass over two groups of balls is the pass of the first group followed by that of the second over the blocks as the first left them; with the single-ball case this fixes the pass as ball after ball |
| CollideCases.DoubleHitScoresTwice | src/main.rs:233-241 | two balls hitting one one-life block in a frame take it to -1 lives and score 20 |
| Game.RespawnPoint | src/main.rs:252-254 | a replacement ball is horizontally centred on the paddle, 50 pixels above it |
| Game.InitialSession | src/main.rs:204-216 | the game opens in the menu with score 0, 3 lives, 36 blocks and one ball centred horizontally, 100 px below mid-screen, moving in the given direction. The blocks are the fresh level built by `init_blocks` and the paddle is the new centred one |
| Game.ResetGame | src/main.rs:161-174 | a reset gives score 0, 3 lives, no balls, a centred paddle and a fresh 36-block one-life grid with one to three special blocks. The blocks are exactly the fresh level built by `init_blocks` from the drawn indices and the paddle is exactly the new one; the state is untouched |
| Game.PruneBalls | src/main.rs:248-257 | the last ball is lost iff there were balls and all are at or below the limit; then only the replacement remains, otherwise exactly the balls above the limit remain |
| Game.FrameStep | src/main.rs:225-263 | one frame: blocks left all have lives; the score rises by 10 for every scoring contact implied by the lives the blocks lost; lives drop by at most 1, and they drop exactly when there were balls and every one of them ended at or below the paddle's row; then only the replacement ball remains. Otherwise every ball is above the paddle row. An empty board is LevelCompleted even if the last life was lost; otherwise a lost last life is Dead |
| Game.Step | src/main.rs:219-279 | Menu goes to Game only on Space, changing nothing else. In Game the step is exactly one frame (`Game.FrameStep`) and never goes to Menu. The end screens stay put without Space; with Space they reset to the menu with score 0, 3 lives, 36 blocks (one to three special) and one ball above the recentred paddle; the blocks are exactly the fresh level and the paddle exactly the new one |
| Play.InitialSessionValid | src/main.rs:204-216 | the opening session satisfies the session invariant |
| Play.StepPreservesInv | src/main.rs:219-279 | every step keeps the invariant: fixed entity sizes, one-life blocks, at least one ball, score a non-negative multiple of 10, lives within 0..3, and lives and blocks left in Menu and Game |
| Play.FrameScoresRemovedBlocks | src/main.rs:236-259 | on a board of one-life blocks, a frame scores at least 10 for every block it removes |
| Play.FrameSpawnsCounted | src/main.rs:236-240 | one spawned ball per scoring contact on a ball-spawning block, each at its queued position |
| Play.FrameSpawnsAppended | src/main.rs:245-249 | spawned balls join after the balls already in play, and pruning keeps that order |

## Left out

- Rendering: `draw_title_text`, the `draw` methods and the score and lives text. These are pure output.
- Font loading and the asynchronous frame loop (`next_frame().await`). One loop iteration is `Game.Step`.
- Input, frame time and screen size queries. They arrive as a `Frame` parameter, read once per frame.
- Randomness: `rand::gen_range` is not modelled. New ball directions are the `newVel` parameter. The block draws are `picks`, required to lie below the number of blocks.
- `Vec2::normalize` in `Ball::new`: it needs a square root over floats. The drawn direction is taken as given.
- 32-bit float effects: rounding, NaN, infinities and negative zero. Coordinates are exact reals.
- 32-bit integer overflow of `score`, `lives` and block lives: a round cannot come near those bounds. The model uses unbounded integers.
