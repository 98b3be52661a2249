/**
 Level construction: a 6 by 6 grid of one-life blocks, centred horizontally
 and starting 50 pixels from the top, of which a few randomly drawn ones are
 made to spawn a ball when destroyed.
 */
module Level {
  import opened Geometry
  import opened Entities

  const Columns: int := 6
  const Rows: int := 6
  const Padding: real := 5.0
  /** Horizontal and vertical distance between the corners of neighbouring blocks. */
  const CellWidth: real := BlockWidth + Padding
  const CellHeight: real := BlockHeight + Padding
  const GridTop: real := 50.0
  /** How many random draws mark a block special. */
  const SpecialDraws: int := 3

  /** Left edge of the grid, which centres the 6 cells on a screen of the given width. */
  function BoardLeft(screenWidth: real): real {
    (screenWidth - CellWidth * Columns as real) * 0.5
  }

  /** The cell of grid slot `i`, counted row by row from the top left. */
  function GridCell(i: int, screenWidth: real): (p: Vec2)
    requires 0 <= i
    ensures p.x == BoardLeft(screenWidth) + (i % Columns) as real * CellWidth
    ensures p.y == GridTop + (i / Columns) as real * CellHeight
  {
    Vec2(BoardLeft(screenWidth) + (i % Columns) as real * CellWidth, GridTop + (i / Columns) as real * CellHeight)
  }

  /** The regular blocks of a fresh level, in the order they are laid out. */
  function Grid(screenWidth: real): (g: seq<Block>)
    ensures |g| == Columns * Rows
    ensures forall i :: 0 <= i < |g| ==> g[i] == NewBlock(GridCell(i, screenWidth), Regular)
  {
    seq(Columns * Rows, i requires 0 <= i => NewBlock(GridCell(i, screenWidth), Regular))
  }

  /**
   The grid is filled row by row: each block sits one padding to the right of
   the previous one, and a block that starts a row sits under the first block
   of the row above, one padding below it.
   */
  lemma GridRowMajor(screenWidth: real, i: int)
    requires 0 < i < Columns * Rows
    ensures i % Columns != 0 ==>
      Grid(screenWidth)[i].rect.y == Grid(screenWidth)[i - 1].rect.y
      && Grid(screenWidth)[i].rect.x == Grid(screenWidth)[i - 1].rect.Right() + Padding
    ensures i % Columns == 0 ==>
      Grid(screenWidth)[i].rect.x == Grid(screenWidth)[0].rect.x
      && Grid(screenWidth)[i].rect.y == Grid(screenWidth)[i - Columns].rect.Bottom() + Padding
  {
    if i % Columns != 0 {
      assert (i - 1) % Columns == i % Columns - 1 && (i - 1) / Columns == i / Columns;
    } else {
      assert (i - Columns) % Columns == 0 && (i - Columns) / Columns == i / Columns - 1;
    }
  }

  /**
   The grid is centred: counting each block with the padding to its right, the
   margin left of the first column equals the margin right of the last one.
   */
  lemma GridCentred(screenWidth: real)
    ensures Grid(screenWidth)[0].rect.x == screenWidth - (Grid(screenWidth)[Columns - 1].rect.Right() + Padding)
    ensures Grid(screenWidth)[0].rect.y == GridTop
  {
  }

  /**
   Marks the blocks at the drawn indices as ball spawners, one draw after the
   other; a drawn index may repeat, and an already special block stays so.
   */
  function MarkSpecial(blocks: seq<Block>, picks: seq<int>): (r: seq<Block>)
    requires forall k :: 0 <= k < |picks| ==> 0 <= picks[k] < |blocks|
    ensures |r| == |blocks|
    ensures forall i :: 0 <= i < |r| ==> r[i].rect == blocks[i].rect && r[i].lives == blocks[i].lives
    ensures forall i :: 0 <= i < |r| ==>
      (r[i].kind == SpawnBallOnDeath <==> blocks[i].kind == SpawnBallOnDeath || i in picks)
    decreases |picks|
  {
    if |picks| == 0 then blocks
    else
      var j := picks[0];
      MarkSpecial(blocks[j := blocks[j].(kind := SpawnBallOnDeath)], picks[1..])
  }

  /**
   Appends a fresh grid to `blocks`, then makes the blocks at the three drawn
   indices special. Each draw lies below the length of the whole collection.
   */
  function InitBlocks(blocks: seq<Block>, screenWidth: real, picks: seq<int>): (r: seq<Block>)
    requires |picks| == SpecialDraws
    requires forall k :: 0 <= k < |picks| ==> 0 <= picks[k] < |blocks| + Columns * Rows
    ensures |r| == |blocks| + Columns * Rows
    ensures forall i :: 0 <= i < |blocks| ==> r[i].rect == blocks[i].rect && r[i].lives == blocks[i].lives
    ensures forall i :: |blocks| <= i < |r| ==>
      var cell := i - |blocks|;
      && r[i].rect == Rect(BoardLeft(screenWidth) + (cell % Columns) as real * CellWidth,
                           GridTop + (cell / Columns) as real * CellHeight,
                           BlockWidth, BlockHeight)
      && r[i].lives == 1
    ensures forall i :: 0 <= i < |r| ==>
      (r[i].kind == SpawnBallOnDeath <==> i in picks || (i < |blocks| && blocks[i].kind == SpawnBallOnDeath))
  {
    MarkSpecial(blocks + Grid(screenWidth), picks)
  }

  /** Positions of the ball-spawning blocks. */
  function SpecialIndices(blocks: seq<Block>): set<int> {
    set i | 0 <= i < |blocks| && blocks[i].kind == SpawnBallOnDeath
  }

  /**
   A freshly built level has between one and three ball-spawning blocks: three
   draws are made, but they may coincide.
   */
  lemma FreshLevelSpecialCount(screenWidth: real, picks: seq<int>)
    requires |picks| == SpecialDraws
    requires forall k :: 0 <= k < |picks| ==> 0 <= picks[k] < Columns * Rows
    ensures SpecialIndices(InitBlocks([], screenWidth, picks)) == {picks[0], picks[1], picks[2]}
    ensures 1 <= |SpecialIndices(InitBlocks([], screenWidth, picks))| <= SpecialDraws
  {
    var r := InitBlocks([], screenWidth, picks);
    var s := {picks[0], picks[1], picks[2]};
    forall i | i in SpecialIndices(r) ensures i in s {
      assert i in picks;
    }
    forall i | i in s ensures i in SpecialIndices(r) {
      assert i in picks;
    }
    assert SpecialIndices(r) == s;
    assert picks[0] in s;
    if picks[0] == picks[1] {
      assert s == {picks[0], picks[2]};
    }
  }

  /**
   No two blocks of a fresh grid touch: neighbouring cells are five pixels
   apart both across and down.
   */
  lemma GridBlocksDisjoint(screenWidth: real, i: int, j: int)
    requires 0 <= i < j < Columns * Rows
    ensures !Overlaps(Grid(screenWidth)[i].rect, Grid(screenWidth)[j].rect)
  {
    var a := Grid(screenWidth)[i].rect;
    var b := Grid(screenWidth)[j].rect;
    if i % Columns != j % Columns {
      if i % Columns < j % Columns {
        assert (j % Columns) as real - (i % Columns) as real >= 1.0;
        assert b.x - a.x >= CellWidth;
        assert a.Right() < b.x;
      } else {
        assert (i % Columns) as real - (j % Columns) as real >= 1.0;
        assert a.x - b.x >= CellWidth;
        assert b.Right() < a.x;
      }
      assert Intersect(a, b).None?;
    } else {
      assert i / Columns < j / Columns;
      assert (j / Columns) as real - (i / Columns) as real >= 1.0;
      assert b.y - a.y >= CellHeight;
      assert a.Bottom() < b.y;
      assert Intersect(a, b).None?;
    }
  }
}
