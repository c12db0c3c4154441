/**
 * The seven static piece types: for each orientation an occupancy mask
 * (row-major, 1 = occupied) and the ordered list of kick offsets tried when
 * rotating clockwise out of that orientation.
 */
module PieceTypes {

  datatype Orientation = North | East | South | West

  /** The clockwise successor of an orientation. */
  function RotateCw(o: Orientation): (r: Orientation)
    ensures r != o
  {
    match o
    case North => East
    case East => South
    case South => West
    case West => North
  }

  /** Four clockwise turns bring every orientation back to itself. */
  lemma RotateCwFourTimes(o: Orientation)
    ensures RotateCw(RotateCw(RotateCw(RotateCw(o)))) == o
  {
  }

  /** The successor cycle is North, East, South, West, North. */
  lemma RotateCwCycle()
    ensures RotateCw(North) == East && RotateCw(East) == South
    ensures RotateCw(South) == West && RotateCw(West) == North
  {
  }

  datatype PieceType = OPiece | TPiece | IPiece | LPiece | JPiece | SPiece | ZPiece

  /** A display colour, kept as an opaque RGB tag. */
  datatype Color = Rgb(r: int, g: int, b: int)

  function ColorOf(t: PieceType): Color
  {
    match t
    case OPiece => Rgb(255, 255, 0)
    case TPiece => Rgb(255, 0, 255)
    case IPiece => Rgb(0, 255, 255)
    case LPiece => Rgb(255, 165, 0)
    case JPiece => Rgb(0, 0, 255)
    case SPiece => Rgb(0, 255, 0)
    case ZPiece => Rgb(255, 0, 0)
  }

  type Mask = seq<seq<int>>
  type Offset = (int, int)

  /** The occupancy mask of a piece type in an orientation. */
  function MaskOf(t: PieceType, o: Orientation): Mask
  {
    match t
    case OPiece => [[0, 1, 1], [0, 1, 1], [0, 0, 0]]
    case TPiece =>
      (match o
       case North => [[0, 1, 0], [1, 1, 1], [0, 0, 0]]
       case East => [[0, 1, 0], [0, 1, 1], [0, 1, 0]]
       case South => [[0, 0, 0], [1, 1, 1], [0, 1, 0]]
       case West => [[0, 1, 0], [1, 1, 0], [0, 1, 0]])
    case IPiece =>
      (match o
       case North => [[0, 0, 0, 0], [1, 1, 1, 1], [0, 0, 0, 0], [0, 0, 0, 0]]
       case East => [[0, 0, 1, 0], [0, 0, 1, 0], [0, 0, 1, 0], [0, 0, 1, 0]]
       case South => [[0, 0, 0, 0], [0, 0, 0, 0], [1, 1, 1, 1], [0, 0, 0, 0]]
       case West => [[0, 1, 0, 0], [0, 1, 0, 0], [0, 1, 0, 0], [0, 1, 0, 0]])
    case LPiece =>
      (match o
       case North => [[0, 0, 1], [1, 1, 1], [0, 0, 0]]
       case East => [[0, 1, 0], [0, 1, 0], [0, 1, 1]]
       case South => [[0, 0, 0], [1, 1, 1], [1, 0, 0]]
       case West => [[1, 1, 0], [0, 1, 0], [0, 1, 0]])
    case JPiece =>
      (match o
       case North => [[1, 0, 0], [1, 1, 1], [0, 0, 0]]
       case East => [[0, 1, 1], [0, 1, 0], [0, 1, 0]]
       case South => [[0, 0, 0], [1, 1, 1], [0, 0, 1]]
       case West => [[0, 1, 0], [0, 1, 0], [1, 1, 0]])
    case SPiece =>
      (match o
       case North => [[0, 1, 1], [1, 1, 0], [0, 0, 0]]
       case East => [[0, 1, 0], [0, 1, 1], [0, 0, 1]]
       case South => [[0, 0, 0], [0, 1, 1], [1, 1, 0]]
       case West => [[1, 0, 0], [1, 1, 0], [0, 1, 0]])
    case ZPiece =>
      (match o
       case North => [[1, 1, 0], [0, 1, 1], [0, 0, 0]]
       case East => [[0, 0, 1], [0, 1, 1], [0, 1, 0]]
       case South => [[0, 0, 0], [1, 1, 0], [0, 1, 1]]
       case West => [[0, 1, 0], [1, 1, 0], [1, 0, 0]])
  }

  /** The offsets tried, in order, when rotating clockwise out of `o`. */
  function CwRotationOffsets(t: PieceType, o: Orientation): seq<Offset>
  {
    match t
    case OPiece => [(0, 0)]
    case TPiece =>
      (match o
       case North => [(0, 0), (-1, 0), (-1, 1), (0, 0), (-1, -2)]
       case East => [(0, 0), (1, 0), (1, -1), (0, 2), (1, 2)]
       case South => [(0, 0), (-1, 0), (0, 0), (0, -2), (1, -2)]
       case West => [(0, 0), (-1, 0), (-1, -1), (0, 2), (-1, 2)])
    case IPiece =>
      (match o
       case North => [(0, 0), (-2, 0), (1, 0), (-2, -1), (1, 2)]
       case East => [(0, 0), (-1, 0), (2, 0), (-1, 2), (2, -1)]
       case South => [(0, 0), (2, 0), (-1, 0), (2, 1), (-1, -2)]
       case West => [(0, 0), (1, 0), (-2, 0), (1, -2), (-2, 1)])
    case LPiece =>
      (match o
       case North => [(0, 0), (-1, 0), (-1, 1), (0, -2), (-1, -2)]
       case East => [(0, 0), (1, 0), (1, -1), (0, 2), (1, 2)]
       case South => [(0, 0), (1, 0), (1, 1), (0, -2), (1, -2)]
       case West => [(0, 0), (-1, 0), (-1, -1), (0, 2), (-1, 2)])
    case JPiece =>
      (match o
       case North => [(0, 0), (-1, 0), (-1, 1), (0, -2), (-1, -2)]
       case East => [(0, 0), (1, 0), (1, -1), (0, 2), (1, 2)]
       case South => [(0, 0), (1, 0), (1, 1), (0, -2), (1, -2)]
       case West => [(0, 0), (-1, 0), (-1, -1), (0, 2), (-1, 2)])
    case SPiece =>
      (match o
       case North => [(0, 0), (-1, 0), (-1, 1), (0, -2), (-1, -2)]
       case East => [(0, 0), (1, 0), (1, -1), (0, 2), (1, 2)]
       case South => [(0, 0), (1, 0), (1, 1), (0, -2), (1, -2)]
       case West => [(0, 0), (-1, 0), (-1, -1), (0, 2), (-1, 2)])
    case ZPiece =>
      (match o
       case North => [(0, 0), (-1, 0), (-1, 1), (0, -2), (-1, -2)]
       case East => [(0, 0), (1, 0), (1, -1), (0, 2), (1, 2)]
       case South => [(0, 0), (1, 0), (1, 1), (0, -2), (1, -2)]
       case West => [(0, 0), (-1, 0), (-1, -1), (0, 2), (-1, 2)])
  }

  /** Number of non-zero entries of a row from column `c` on. */
  function RowCount(row: seq<int>, c: nat): nat
    decreases |row| - c
  {
    if c >= |row| then 0 else (if row[c] != 0 then 1 else 0) + RowCount(row, c + 1)
  }

  /** Number of non-zero entries of a mask from row `r` on. */
  function MaskCount(m: Mask, r: nat): nat
    decreases |m| - r
  {
    if r >= |m| then 0 else RowCount(m[r], 0) + MaskCount(m, r + 1)
  }

  /** A square grid of side `n` whose entries are 0 or 1. */
  predicate IsSquare01(m: Mask, n: nat)
  {
    |m| == n && forall r :: 0 <= r < |m| ==> |m[r]| == n && forall c :: 0 <= c < n ==> m[r][c] in {0, 1}
  }

  /** The I piece lives in a 4x4 window, every other piece in a 3x3 one. */
  lemma MaskShape(t: PieceType, o: Orientation)
    ensures IsSquare01(MaskOf(t, o), if t == IPiece then 4 else 3)
  {
  }

  /** Every mask of every piece type has exactly four occupied entries. */
  lemma MaskHasFourCells(t: PieceType, o: Orientation)
    ensures MaskCount(MaskOf(t, o), 0) == 4
  {
    match o
    case North => NorthMasksHaveFourCells(t);
    case East => EastMasksHaveFourCells(t);
    case South => SouthMasksHaveFourCells(t);
    case West => WestMasksHaveFourCells(t);
  }

  lemma NorthMasksHaveFourCells(t: PieceType)
    ensures MaskCount(MaskOf(t, North), 0) == 4
  {
    match t
    case OPiece => assert MaskCount(MaskOf(OPiece, North), 0) == 4;
    case TPiece => assert MaskCount(MaskOf(TPiece, North), 0) == 4;
    case IPiece => assert MaskCount(MaskOf(IPiece, North), 0) == 4;
    case LPiece => assert MaskCount(MaskOf(LPiece, North), 0) == 4;
    case JPiece => assert MaskCount(MaskOf(JPiece, North), 0) == 4;
    case SPiece => assert MaskCount(MaskOf(SPiece, North), 0) == 4;
    case ZPiece => assert MaskCount(MaskOf(ZPiece, North), 0) == 4;
  }

  lemma EastMasksHaveFourCells(t: PieceType)
    ensures MaskCount(MaskOf(t, East), 0) == 4
  {
    match t
    case OPiece => assert MaskCount(MaskOf(OPiece, East), 0) == 4;
    case TPiece => assert MaskCount(MaskOf(TPiece, East), 0) == 4;
    case IPiece => assert MaskCount(MaskOf(IPiece, East), 0) == 4;
    case LPiece => assert MaskCount(MaskOf(LPiece, East), 0) == 4;
    case JPiece => assert MaskCount(MaskOf(JPiece, East), 0) == 4;
    case SPiece => assert MaskCount(MaskOf(SPiece, East), 0) == 4;
    case ZPiece => assert MaskCount(MaskOf(ZPiece, East), 0) == 4;
  }

  lemma SouthMasksHaveFourCells(t: PieceType)
    ensures MaskCount(MaskOf(t, South), 0) == 4
  {
    match t
    case OPiece => assert MaskCount(MaskOf(OPiece, South), 0) == 4;
    case TPiece => assert MaskCount(MaskOf(TPiece, South), 0) == 4;
    case IPiece => assert MaskCount(MaskOf(IPiece, South), 0) == 4;
    case LPiece => assert MaskCount(MaskOf(LPiece, South), 0) == 4;
    case JPiece => assert MaskCount(MaskOf(JPiece, South), 0) == 4;
    case SPiece => assert MaskCount(MaskOf(SPiece, South), 0) == 4;
    case ZPiece => assert MaskCount(MaskOf(ZPiece, South), 0) == 4;
  }

  lemma WestMasksHaveFourCells(t: PieceType)
    ensures MaskCount(MaskOf(t, West), 0) == 4
  {
    match t
    case OPiece => assert MaskCount(MaskOf(OPiece, West), 0) == 4;
    case TPiece => assert MaskCount(MaskOf(TPiece, West), 0) == 4;
    case IPiece => assert MaskCount(MaskOf(IPiece, West), 0) == 4;
    case LPiece => assert MaskCount(MaskOf(LPiece, West), 0) == 4;
    case JPiece => assert MaskCount(MaskOf(JPiece, West), 0) == 4;
    case SPiece => assert MaskCount(MaskOf(SPiece, West), 0) == 4;
    case ZPiece => assert MaskCount(MaskOf(ZPiece, West), 0) == 4;
  }

  /** Every kick list starts with the "no kick" offset (0, 0). */
  lemma OffsetsStartWithNoKick(t: PieceType, o: Orientation)
    ensures |CwRotationOffsets(t, o)| > 0 && CwRotationOffsets(t, o)[0] == (0, 0)
  {
  }

  /** The O piece is rotation invariant and never kicks. */
  lemma OPieceIsRotationInvariant(o: Orientation)
    ensures MaskOf(OPiece, o) == MaskOf(OPiece, North)
    ensures CwRotationOffsets(OPiece, o) == [(0, 0)]
  {
  }

  /** Every other piece has five kick candidates per orientation. */
  lemma NonOPieceHasFiveOffsets(t: PieceType, o: Orientation)
    requires t != OPiece
    ensures |CwRotationOffsets(t, o)| == 5
  {
  }

  /** L, J, S and Z kick identically, and differently from T, whose North and South lists differ. */
  lemma LjszShareOffsets(o: Orientation)
    ensures CwRotationOffsets(LPiece, o) == CwRotationOffsets(JPiece, o)
    ensures CwRotationOffsets(JPiece, o) == CwRotationOffsets(SPiece, o)
    ensures CwRotationOffsets(SPiece, o) == CwRotationOffsets(ZPiece, o)
    ensures CwRotationOffsets(TPiece, North) != CwRotationOffsets(LPiece, North)
    ensures CwRotationOffsets(TPiece, South) != CwRotationOffsets(LPiece, South)
  {
  }
}
