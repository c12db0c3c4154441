/**
 * A single board cell and its collision queries against a collection of
 * other cells. Columns run 1..BoardWidth, rows count upwards from 1 and have
 * no upper bound.
 */
module Blocks {
  import opened Constants
  import opened PieceTypes

  /** Solid cell, or the translucent cell of a ghost piece. */
  datatype Style = Fill | Ghost

  datatype Block = Block(x: int, y: int, color: Color, style: Style) {

    /** The cell one row lower. */
    function Fell(): (b: Block)
      ensures b.x == x && b.y == y - 1 && b.color == color && b.style == style
    {
      this.(y := y - 1)
    }

    /** The cell one column to the right. */
    function MovedRight(): (b: Block)
      ensures b.x == x + 1 && b.y == y && b.color == color && b.style == style
    {
      this.(x := x + 1)
    }

    /** The cell one column to the left. */
    function MovedLeft(): (b: Block)
      ensures b.x == x - 1 && b.y == y && b.color == color && b.style == style
    {
      this.(x := x - 1)
    }

    predicate CanFall(blocks: seq<Block>)
    {
      y > 1 && (x, y - 1) !in Positions(blocks)
    }

    predicate CanMoveRight(blocks: seq<Block>)
    {
      x < 10 && (x + 1, y) !in Positions(blocks)
    }

    predicate CanMoveLeft(blocks: seq<Block>)
    {
      x > 1 && (x - 1, y) !in Positions(blocks)
    }

    /** Legal place for a spawned or rotated cell; there is no upper bound on y. */
    predicate NotCollided(blocks: seq<Block>)
    {
      x > 0 && x <= BoardWidth && y > 0 && (x, y) !in Positions(blocks)
    }
  }

  /** The (x, y) positions of a collection, in order. */
  function Positions(blocks: seq<Block>): seq<(int, int)>
  {
    seq(|blocks|, i requires 0 <= i < |blocks| => (blocks[i].x, blocks[i].y))
  }

  /** Some cell of the collection sits at (x, y). */
  ghost predicate Occupied(blocks: seq<Block>, x: int, y: int)
  {
    exists b :: b in blocks && b.x == x && b.y == y
  }

  lemma PositionsAreOccupied(blocks: seq<Block>, x: int, y: int)
    ensures (x, y) in Positions(blocks) <==> Occupied(blocks, x, y)
  {
    if (x, y) in Positions(blocks) {
      var i :| 0 <= i < |blocks| && Positions(blocks)[i] == (x, y);
      assert blocks[i] in blocks;
    }
    if Occupied(blocks, x, y) {
      var b :| b in blocks && b.x == x && b.y == y;
      var i :| 0 <= i < |blocks| && blocks[i] == b;
      assert Positions(blocks)[i] == (x, y);
    }
  }

  /** A cell can fall iff it is above row 1 and the cell below it is free. */
  lemma CanFallIff(b: Block, blocks: seq<Block>)
    ensures b.CanFall(blocks) <==> b.y > 1 && !Occupied(blocks, b.x, b.y - 1)
  {
    PositionsAreOccupied(blocks, b.x, b.y - 1);
  }

  /** A cell can move right iff it is left of column 10 and its right neighbour is free. */
  lemma CanMoveRightIff(b: Block, blocks: seq<Block>)
    ensures b.CanMoveRight(blocks) <==> b.x < 10 && !Occupied(blocks, b.x + 1, b.y)
  {
    PositionsAreOccupied(blocks, b.x + 1, b.y);
  }

  /** A cell can move left iff it is right of column 1 and its left neighbour is free. */
  lemma CanMoveLeftIff(b: Block, blocks: seq<Block>)
    ensures b.CanMoveLeft(blocks) <==> b.x > 1 && !Occupied(blocks, b.x - 1, b.y)
  {
    PositionsAreOccupied(blocks, b.x - 1, b.y);
  }

  /** A cell is uncollided iff it lies in columns 1..BoardWidth, above row 0, on a free position. */
  lemma NotCollidedIff(b: Block, blocks: seq<Block>)
    ensures b.NotCollided(blocks) <==>
      1 <= b.x <= BoardWidth && b.y >= 1 && !Occupied(blocks, b.x, b.y)
  {
    PositionsAreOccupied(blocks, b.x, b.y);
  }

  /** A permitted move lands on a free position inside the bounds that were tested. */
  lemma PermittedMovesLandFree(b: Block, blocks: seq<Block>)
    ensures b.CanFall(blocks) ==> b.Fell().y >= 1 && !Occupied(blocks, b.Fell().x, b.Fell().y)
    ensures b.CanMoveRight(blocks) ==>
      b.MovedRight().x <= 10 && !Occupied(blocks, b.MovedRight().x, b.MovedRight().y)
    ensures b.CanMoveLeft(blocks) ==>
      b.MovedLeft().x >= 1 && !Occupied(blocks, b.MovedLeft().x, b.MovedLeft().y)
  {
    CanFallIff(b, blocks);
    CanMoveRightIff(b, blocks);
    CanMoveLeftIff(b, blocks);
  }

  /** No two cells of the collection share a position. */
  ghost predicate NoOverlap(s: seq<Block>)
  {
    forall i, j :: 0 <= i < j < |s| ==> (s[i].x, s[i].y) != (s[j].x, s[j].y)
  }

  /** No cell of `a` shares a position with a cell of `b`. */
  ghost predicate Disjoint(a: seq<Block>, b: seq<Block>)
  {
    forall u, v :: u in a && v in b ==> (u.x, u.y) != (v.x, v.y)
  }

  /** Two overlap-free collections with disjoint positions concatenate to an overlap-free one. */
  lemma NoOverlapConcat(a: seq<Block>, b: seq<Block>)
    requires NoOverlap(a) && NoOverlap(b) && Disjoint(a, b)
    ensures NoOverlap(a + b)
  {
    forall i, j | 0 <= i < j < |a + b|
      ensures ((a + b)[i].x, (a + b)[i].y) != ((a + b)[j].x, (a + b)[j].y)
    {
      if j < |a| {
        assert (a + b)[i] == a[i] && (a + b)[j] == a[j];
      } else if i < |a| {
        assert (a + b)[i] == a[i] && a[i] in a;
        assert (a + b)[j] == b[j - |a|] && b[j - |a|] in b;
      } else {
        assert (a + b)[i] == b[i - |a|] && (a + b)[j] == b[j - |a|];
      }
    }
  }
}
