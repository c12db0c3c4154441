/**
 * A piece instance: a type, an anchor (x, y), an orientation, a style and the
 * live cells derived from them. The anchor is the centre of the top-left 3x3
 * square of the mask window: mask entry (r, c) occupies cell
 * (x + c - 1, y - r + 1), so entry (0, 0) sits at (x - 1, y + 1).
 */
module Pieces {
  import opened Constants
  import opened PieceTypes
  import opened Blocks

  const StartX: int := 5
  const StartY: int := 21

  /** Cells of mask row `row` (at index `r`) from column `c` on, for the anchor (px, py). */
  function RowCells(row: seq<int>, r: int, c: nat, px: int, py: int, color: Color, style: Style): seq<Block>
    decreases |row| - c
  {
    if c >= |row| then []
    else (if row[c] != 0 then [Block(px + c - 1, py - r + 1, color, style)] else [])
         + RowCells(row, r, c + 1, px, py, color, style)
  }

  /** Cells of the mask rows from `r` on, row-major, for the anchor (px, py). */
  function MaskCells(m: Mask, r: nat, px: int, py: int, color: Color, style: Style): seq<Block>
    decreases |m| - r
  {
    if r >= |m| then []
    else RowCells(m[r], r, 0, px, py, color, style) + MaskCells(m, r + 1, px, py, color, style)
  }

  /** The cells of a piece of type `t` in orientation `o` anchored at (px, py). */
  function PieceCells(t: PieceType, o: Orientation, px: int, py: int, style: Style): seq<Block>
  {
    MaskCells(MaskOf(t, o), 0, px, py, ColorOf(t), style)
  }

  /** Every cell shifted by (dx, dy). */
  function Translated(s: seq<Block>, dx: int, dy: int): seq<Block>
  {
    seq(|s|, i requires 0 <= i < |s| => s[i].(x := s[i].x + dx, y := s[i].y + dy))
  }

  lemma TranslatedConcat(a: seq<Block>, b: seq<Block>, dx: int, dy: int)
    ensures Translated(a + b, dx, dy) == Translated(a, dx, dy) + Translated(b, dx, dy)
  {
  }

  /** A row contributes exactly one cell per non-zero entry, at the derived position. */
  lemma {:induction false} RowCellsMembership(row: seq<int>, r: int, c: nat, px: int, py: int,
                                              color: Color, style: Style, b: Block)
    ensures b in RowCells(row, r, c, px, py, color, style) <==>
      exists k :: c <= k < |row| && row[k] != 0 && b == Block(px + k - 1, py - r + 1, color, style)
    decreases |row| - c
  {
    if c < |row| {
      RowCellsMembership(row, r, c + 1, px, py, color, style, b);
    }
  }

  lemma {:induction false} MaskCellsMembership(m: Mask, r0: nat, px: int, py: int,
                                               color: Color, style: Style, b: Block)
    ensures b in MaskCells(m, r0, px, py, color, style) <==>
      exists r, k :: r0 <= r < |m| && 0 <= k < |m[r]| && m[r][k] != 0 &&
        b == Block(px + k - 1, py - r + 1, color, style)
    decreases |m| - r0
  {
    if r0 < |m| {
      RowCellsMembership(m[r0], r0, 0, px, py, color, style, b);
      MaskCellsMembership(m, r0 + 1, px, py, color, style, b);
    }
  }

  /** The cells of a piece are exactly {(px + c - 1, py - r + 1) | mask[r][c] = 1}. */
  lemma PieceCellsMembership(t: PieceType, o: Orientation, px: int, py: int, style: Style, b: Block)
    ensures b in PieceCells(t, o, px, py, style) <==>
      exists r, c :: 0 <= r < |MaskOf(t, o)| && 0 <= c < |MaskOf(t, o)[r]| && MaskOf(t, o)[r][c] == 1 &&
        b == Block(px + c - 1, py - r + 1, ColorOf(t), style)
  {
    MaskShape(t, o);
    MaskCellsMembership(MaskOf(t, o), 0, px, py, ColorOf(t), style, b);
  }

  lemma {:induction false} RowCellsTranslated(row: seq<int>, r: int, c: nat, px: int, py: int,
                                              dx: int, dy: int, color: Color, style: Style)
    ensures RowCells(row, r, c, px + dx, py + dy, color, style)
         == Translated(RowCells(row, r, c, px, py, color, style), dx, dy)
    decreases |row| - c
  {
    if c < |row| {
      RowCellsTranslated(row, r, c + 1, px, py, dx, dy, color, style);
      var head := if row[c] != 0 then [Block(px + c - 1, py - r + 1, color, style)] else [];
      var head' := if row[c] != 0 then [Block(px + dx + c - 1, py + dy - r + 1, color, style)] else [];
      assert head' == Translated(head, dx, dy);
      assert RowCells(row, r, c, px + dx, py + dy, color, style)
          == head' + RowCells(row, r, c + 1, px + dx, py + dy, color, style);
      TranslatedConcat(head, RowCells(row, r, c + 1, px, py, color, style), dx, dy);
    }
  }

  lemma {:induction false} MaskCellsTranslated(m: Mask, r: nat, px: int, py: int,
                                               dx: int, dy: int, color: Color, style: Style)
    ensures MaskCells(m, r, px + dx, py + dy, color, style)
         == Translated(MaskCells(m, r, px, py, color, style), dx, dy)
    decreases |m| - r
  {
    if r < |m| {
      RowCellsTranslated(m[r], r, 0, px, py, dx, dy, color, style);
      MaskCellsTranslated(m, r + 1, px, py, dx, dy, color, style);
      TranslatedConcat(RowCells(m[r], r, 0, px, py, color, style),
                       MaskCells(m, r + 1, px, py, color, style), dx, dy);
    }
  }

  /** Moving the anchor by (dx, dy) moves every derived cell by (dx, dy). */
  lemma PieceCellsTranslated(t: PieceType, o: Orientation, px: int, py: int, dx: int, dy: int,
                             px': int, py': int, style: Style)
    requires px' == px + dx && py' == py + dy
    ensures PieceCells(t, o, px', py', style) == Translated(PieceCells(t, o, px, py, style), dx, dy)
  {
    MaskCellsTranslated(MaskOf(t, o), 0, px, py, dx, dy, ColorOf(t), style);
  }

  lemma {:induction false} RowCellsCount(row: seq<int>, r: int, c: nat, px: int, py: int,
                                         color: Color, style: Style)
    ensures |RowCells(row, r, c, px, py, color, style)| == RowCount(row, c)
    decreases |row| - c
  {
    if c < |row| {
      RowCellsCount(row, r, c + 1, px, py, color, style);
    }
  }

  lemma {:induction false} MaskCellsCount(m: Mask, r: nat, px: int, py: int, color: Color, style: Style)
    ensures |MaskCells(m, r, px, py, color, style)| == MaskCount(m, r)
    decreases |m| - r
  {
    if r < |m| {
      RowCellsCount(m[r], r, 0, px, py, color, style);
      MaskCellsCount(m, r + 1, px, py, color, style);
    }
  }

  /** Every piece consists of exactly four cells. */
  lemma PieceCellsCount(t: PieceType, o: Orientation, px: int, py: int, style: Style)
    ensures |PieceCells(t, o, px, py, style)| == 4
  {
    MaskCellsCount(MaskOf(t, o), 0, px, py, ColorOf(t), style);
    MaskHasFourCells(t, o);
  }

  lemma {:induction false} RowCellsDistinct(row: seq<int>, r: int, c: nat, px: int, py: int,
                                            color: Color, style: Style)
    ensures NoOverlap(RowCells(row, r, c, px, py, color, style))
    decreases |row| - c
  {
    if c < |row| {
      var rest := RowCells(row, r, c + 1, px, py, color, style);
      RowCellsDistinct(row, r, c + 1, px, py, color, style);
      if row[c] != 0 {
        var head := [Block(px + c - 1, py - r + 1, color, style)];
        forall u, v | u in head && v in rest ensures (u.x, u.y) != (v.x, v.y) {
          RowCellsMembership(row, r, c + 1, px, py, color, style, v);
        }
        NoOverlapConcat(head, rest);
      }
    }
  }

  lemma {:induction false} MaskCellsDistinct(m: Mask, r: nat, px: int, py: int, color: Color, style: Style)
    ensures NoOverlap(MaskCells(m, r, px, py, color, style))
    decreases |m| - r
  {
    if r < |m| {
      var head := RowCells(m[r], r, 0, px, py, color, style);
      var rest := MaskCells(m, r + 1, px, py, color, style);
      RowCellsDistinct(m[r], r, 0, px, py, color, style);
      MaskCellsDistinct(m, r + 1, px, py, color, style);
      forall u, v | u in head && v in rest ensures (u.x, u.y) != (v.x, v.y) {
        RowCellsMembership(m[r], r, 0, px, py, color, style, u);
        MaskCellsMembership(m, r + 1, px, py, color, style, v);
      }
      NoOverlapConcat(head, rest);
    }
  }

  /** The four cells of a piece sit on four different positions. */
  lemma PieceCellsDistinct(t: PieceType, o: Orientation, px: int, py: int, style: Style)
    ensures NoOverlap(PieceCells(t, o, px, py, style))
  {
    MaskCellsDistinct(MaskOf(t, o), 0, px, py, ColorOf(t), style);
  }

  /** Cells shifted by (dx, dy) onto positions that are free in `settled` do not overlap it. */
  lemma MovedCellsClear(before: seq<Block>, after: seq<Block>, settled: seq<Block>, dx: int, dy: int)
    requires after == Translated(before, dx, dy)
    requires forall b :: b in before ==> (b.x + dx, b.y + dy) !in Positions(settled)
    ensures Disjoint(after, settled)
  {
    forall u, v | u in after && v in settled ensures (u.x, u.y) != (v.x, v.y) {
      var j :| 0 <= j < |after| && after[j] == u;
      assert before[j] in before;
      PositionsAreOccupied(settled, v.x, v.y);
    }
  }

  /** Cells that are all uncollided do not overlap the settled cells. */
  /** Cells that could each fall are still at or above row 1 after falling. */
  lemma FallenCellsAboveFloor(before: seq<Block>, after: seq<Block>, settled: seq<Block>)
    requires after == Translated(before, 0, -1)
    requires forall b :: b in before ==> b.CanFall(settled)
    ensures forall b :: b in after ==> b.y >= 1
  {
    forall b | b in after ensures b.y >= 1 {
      var j :| 0 <= j < |after| && after[j] == b;
      assert before[j] in before;
    }
  }

  lemma UncollidedCellsClear(s: seq<Block>, settled: seq<Block>)
    requires forall b :: b in s ==> b.NotCollided(settled)
    ensures Disjoint(s, settled)
  {
    forall u, v | u in s && v in settled ensures (u.x, u.y) != (v.x, v.y) {
      PositionsAreOccupied(settled, v.x, v.y);
    }
  }

  class Piece {
    var x: int
    var y: int
    const pieceType: PieceType
    const style: Style
    var orientation: Orientation
    var blocks: seq<Block>

    /** The cells are the ones the mask derives from the anchor and orientation. */
    ghost predicate Valid()
      reads this
    {
      blocks == PieceCells(pieceType, orientation, x, y, style)
    }

    constructor (t: PieceType, x0: int := StartX, y0: int := StartY,
                 o: Orientation := North, st: Style := Fill)
      ensures Valid()
      ensures pieceType == t && x == x0 && y == y0 && orientation == o && style == st
    {
      x, y := x0, y0;
      pieceType := t;
      style := st;
      orientation := o;
      blocks := PieceCells(t, o, x0, y0, st);
    }

    predicate CanFall(settled: seq<Block>)
      reads this
    {
      forall b :: b in blocks ==> b.CanFall(settled)
    }

    predicate CanMoveRight(settled: seq<Block>)
      reads this
    {
      forall b :: b in blocks ==> b.CanMoveRight(settled)
    }

    predicate CanMoveLeft(settled: seq<Block>)
      reads this
    {
      forall b :: b in blocks ==> b.CanMoveLeft(settled)
    }

    /** Falls one row if every cell can; otherwise nothing changes. */
    method Fall(settled: seq<Block>) returns (fell: bool)
      modifies this
      ensures fell == old(CanFall(settled))
      ensures fell ==> blocks == Translated(old(blocks), 0, -1) && y == old(y) - 1
      ensures !fell ==> blocks == old(blocks) && y == old(y)
      ensures x == old(x) && orientation == old(orientation)
      ensures old(Valid()) ==> Valid()
      ensures fell ==> Disjoint(blocks, settled) && forall b :: b in blocks ==> b.y >= 1
      ensures old(Disjoint(blocks, settled)) ==> Disjoint(blocks, settled)
    {
      fell := CanFall(settled);
      if fell {
        FallEach();
        y := y - 1;
        PieceCellsTranslated(pieceType, orientation, x, old(y), 0, -1, x, y, style);
        MovedCellsClear(old(blocks), blocks, settled, 0, -1);
        FallenCellsAboveFloor(old(blocks), blocks, settled);
      }
    }

    /** Moves one column right if every cell can; otherwise nothing changes. */
    method MoveRight(settled: seq<Block>)
      modifies this
      ensures old(CanMoveRight(settled)) ==> blocks == Translated(old(blocks), 1, 0) && x == old(x) + 1
      ensures !old(CanMoveRight(settled)) ==> blocks == old(blocks) && x == old(x)
      ensures y == old(y) && orientation == old(orientation)
      ensures old(Valid()) ==> Valid()
      ensures old(CanMoveRight(settled)) ==> Disjoint(blocks, settled)
      ensures old(Disjoint(blocks, settled)) ==> Disjoint(blocks, settled)
    {
      if CanMoveRight(settled) {
        MoveEachRight();
        x := x + 1;
        PieceCellsTranslated(pieceType, orientation, old(x), y, 1, 0, x, y, style);
        MovedCellsClear(old(blocks), blocks, settled, 1, 0);
      }
    }

    /** Moves one column left if every cell can; otherwise nothing changes. */
    method MoveLeft(settled: seq<Block>)
      modifies this
      ensures old(CanMoveLeft(settled)) ==> blocks == Translated(old(blocks), -1, 0) && x == old(x) - 1
      ensures !old(CanMoveLeft(settled)) ==> blocks == old(blocks) && x == old(x)
      ensures y == old(y) && orientation == old(orientation)
      ensures old(Valid()) ==> Valid()
      ensures old(CanMoveLeft(settled)) ==> Disjoint(blocks, settled)
      ensures old(Disjoint(blocks, settled)) ==> Disjoint(blocks, settled)
    {
      if CanMoveLeft(settled) {
        MoveEachLeft();
        x := x - 1;
        PieceCellsTranslated(pieceType, orientation, old(x), y, -1, 0, x, y, style);
        MovedCellsClear(old(blocks), blocks, settled, -1, 0);
      }
    }

    /** Every cell falls one row, one cell at a time. */
    method FallEach()
      modifies this`blocks
      ensures blocks == Translated(old(blocks), 0, -1)
    {
      var i := 0;
      while i < |blocks|
        invariant 0 <= i <= |blocks| == |old(blocks)|
        invariant forall j :: 0 <= j < i ==> blocks[j] == old(blocks)[j].Fell()
        invariant forall j :: i <= j < |blocks| ==> blocks[j] == old(blocks)[j]
      {
        blocks := blocks[i := blocks[i].Fell()];
        i := i + 1;
      }
    }

    /** Every cell moves one column right, one cell at a time. */
    method MoveEachRight()
      modifies this`blocks
      ensures blocks == Translated(old(blocks), 1, 0)
    {
      var i := 0;
      while i < |blocks|
        invariant 0 <= i <= |blocks| == |old(blocks)|
        invariant forall j :: 0 <= j < i ==> blocks[j] == old(blocks)[j].MovedRight()
        invariant forall j :: i <= j < |blocks| ==> blocks[j] == old(blocks)[j]
      {
        blocks := blocks[i := blocks[i].MovedRight()];
        i := i + 1;
      }
    }

    /** Every cell moves one column left, one cell at a time. */
    method MoveEachLeft()
      modifies this`blocks
      ensures blocks == Translated(old(blocks), -1, 0)
    {
      var i := 0;
      while i < |blocks|
        invariant 0 <= i <= |blocks| == |old(blocks)|
        invariant forall j :: 0 <= j < i ==> blocks[j] == old(blocks)[j].MovedLeft()
        invariant forall j :: i <= j < |blocks| ==> blocks[j] == old(blocks)[j]
      {
        blocks := blocks[i := blocks[i].MovedLeft()];
        i := i + 1;
      }
    }

    /** Some cell of the piece is out of bounds or on a settled cell. */
    predicate IsBlocked(settled: seq<Block>)
      reads this
    {
      !(forall b :: b in blocks ==> b.NotCollided(settled))
    }

    /** The cells of `mask` for the anchor shifted by `offset`. */
    function GenerateRotatedBlocks(offset: Offset, mask: Mask): seq<Block>
      reads this
    {
      MaskCells(mask, 0, x + offset.0, y + offset.1, ColorOf(pieceType), style)
    }

    /** Every cell of `mask` at the anchor shifted by `offset` is uncollided. */
    predicate KickFits(offset: Offset, mask: Mask, settled: seq<Block>)
      reads this
    {
      forall b :: b in GenerateRotatedBlocks(offset, mask) ==> b.NotCollided(settled)
    }

    /**
     * Rotates clockwise with the first kick offset, in table order, whose
     * candidate cells are all uncollided; if none is, nothing changes.
     */
    method RotateCw(settled: seq<Block>)
      modifies this
      ensures var offsets := CwRotationOffsets(pieceType, old(orientation));
        (forall k :: 0 <= k < |offsets| ==>
           !RotationFits(pieceType, old(orientation), old(x), old(y), style, offsets[k], settled)) ==>
          blocks == old(blocks) && x == old(x) && y == old(y) && orientation == old(orientation)
      ensures var offsets := CwRotationOffsets(pieceType, old(orientation));
        forall k :: 0 <= k < |offsets| &&
                    IsFirstFit(pieceType, old(orientation), old(x), old(y), style, offsets, k, settled) ==>
          orientation == PieceTypes.RotateCw(old(orientation)) &&
          x == old(x) + offsets[k].0 && y == old(y) + offsets[k].1 &&
          blocks == PieceCells(pieceType, orientation, x, y, style)
      ensures old(Valid()) ==> Valid()
      ensures old(Disjoint(blocks, settled)) ==> Disjoint(blocks, settled)
    {
      var newOrientation := PieceTypes.RotateCw(orientation);
      var mask := MaskOf(pieceType, newOrientation);
      ghost var x0, y0, o0 := x, y, orientation;
      var offsets := CwRotationOffsets(pieceType, orientation);
      forall k | 0 <= k < |offsets|
        ensures KickFits(offsets[k], mask, settled) == RotationFits(pieceType, o0, x0, y0, style, offsets[k], settled)
      {
      }
      var rotated := TryKicks(offsets, newOrientation, mask, settled);
      if rotated {
        UncollidedCellsClear(blocks, settled);
      }
    }

    /**
     * The kick loop of RotateCw: tries `offsets` in order and installs the
     * first candidate whose cells are all uncollided.
     */
    method TryKicks(offsets: seq<Offset>, newOrientation: Orientation, mask: Mask, settled: seq<Block>)
      returns (rotated: bool)
      modifies this
      ensures !rotated <==> forall k :: 0 <= k < |offsets| ==> !old(KickFits(offsets[k], mask, settled))
      ensures !rotated ==>
        blocks == old(blocks) && x == old(x) && y == old(y) && orientation == old(orientation)
      ensures rotated ==>
        orientation == newOrientation && blocks == MaskCells(mask, 0, x, y, ColorOf(pieceType), style)
      ensures rotated ==> forall b :: b in blocks ==> b.NotCollided(settled)
      ensures forall k :: 0 <= k < |offsets| && old(KickFits(offsets[k], mask, settled)) &&
                          (forall j :: 0 <= j < k ==> !old(KickFits(offsets[j], mask, settled))) ==>
        orientation == newOrientation && x == old(x) + offsets[k].0 && y == old(y) + offsets[k].1 &&
        blocks == MaskCells(mask, 0, x, y, ColorOf(pieceType), style)
    {
      var i := 0;
      while i < |offsets|
        invariant 0 <= i <= |offsets|
        invariant forall j :: 0 <= j < i ==> !KickFits(offsets[j], mask, settled)
        invariant blocks == old(blocks) && x == old(x) && y == old(y) && orientation == old(orientation)
      {
        var newBlocks := GenerateRotatedBlocks(offsets[i], mask);
        if forall b :: b in newBlocks ==> b.NotCollided(settled) {
          assert KickFits(offsets[i], mask, settled);
          blocks := newBlocks;
          orientation := newOrientation;
          x := x + offsets[i].0;
          y := y + offsets[i].1;
          return true;
        }
        i := i + 1;
      }
      return false;
    }
  }

  /**
   * Rotating a piece of type `t` clockwise out of `o` with anchor (px, py) and
   * kick `offset` puts every cell on an uncollided position.
   */
  ghost predicate RotationFits(t: PieceType, o: Orientation, px: int, py: int, style: Style,
                               offset: Offset, settled: seq<Block>)
  {
    forall b :: b in PieceCells(t, PieceTypes.RotateCw(o), px + offset.0, py + offset.1, style) ==>
      b.NotCollided(settled)
  }

  /** `offsets[k]` fits and no earlier offset does. */
  ghost predicate IsFirstFit(t: PieceType, o: Orientation, px: int, py: int, style: Style,
                             offsets: seq<Offset>, k: int, settled: seq<Block>)
    requires 0 <= k < |offsets|
  {
    RotationFits(t, o, px, py, style, offsets[k], settled) &&
    forall j :: 0 <= j < k ==> !RotationFits(t, o, px, py, style, offsets[j], settled)
  }

  /**
   * The candidate cells for a clockwise turn with kick `offset` are exactly
   * the occupied entries of the next orientation's mask, placed around the
   * anchor shifted by `offset`; there are four of them.
   */
  lemma GenerateRotatedBlocksMembership(p: Piece, offset: Offset, b: Block)
    ensures var mask := MaskOf(p.pieceType, PieceTypes.RotateCw(p.orientation));
      b in p.GenerateRotatedBlocks(offset, mask) <==>
        exists r, c :: 0 <= r < |mask| && 0 <= c < |mask[r]| && mask[r][c] == 1 &&
          b == Block(p.x + offset.0 + c - 1, p.y + offset.1 - r + 1, ColorOf(p.pieceType), p.style)
    ensures |p.GenerateRotatedBlocks(offset, MaskOf(p.pieceType, PieceTypes.RotateCw(p.orientation)))| == 4
  {
    var o := PieceTypes.RotateCw(p.orientation);
    var px, py := p.x + offset.0, p.y + offset.1;
    assert p.GenerateRotatedBlocks(offset, MaskOf(p.pieceType, o)) == PieceCells(p.pieceType, o, px, py, p.style);
    PieceCellsMembership(p.pieceType, o, px, py, p.style, b);
    PieceCellsCount(p.pieceType, o, px, py, p.style);
  }

  /** A piece is blocked iff one of its cells is off the board sideways, at or below row 0, or on a settled cell. */
  lemma IsBlockedIff(p: Piece, settled: seq<Block>)
    ensures p.IsBlocked(settled) <==>
      exists b :: b in p.blocks && (b.x < 1 || b.x > BoardWidth || b.y < 1 || Occupied(settled, b.x, b.y))
  {
    forall b | b in p.blocks {
      NotCollidedIff(b, settled);
    }
  }
}
