/**
 * The specification side of line clearing in `Game.loop`: which settled cells
 * the PATTERN phase collects, which rows ELIMINATE removes, and where every
 * surviving cell ends up once the rows above the cleared ones have dropped.
 */
module LineClear {
  import opened Constants
  import opened PieceTypes
  import opened Blocks

  /** The cells of `blocks` that sit on row `row`, in collection order. */
  function RowOf(blocks: seq<Block>, row: int): (r: seq<Block>)
    ensures forall b :: b in r <==> b in blocks && b.y == row
    ensures |r| <= |blocks|
  {
    if blocks == [] then []
    else (if blocks[0].y == row then [blocks[0]] else []) + RowOf(blocks[1..], row)
  }

  /** Row `row` holds exactly BoardWidth cells, the clear-eligible count. */
  predicate IsFullRow(blocks: seq<Block>, row: int)
  {
    |RowOf(blocks, row)| == BoardWidth
  }

  /**
   * What the PATTERN scan over rows lo, lo + 1, ..., hi - 1 appends to the
   * hit list: the cells of each full row, rows ascending.
   */
  function FullRowCells(blocks: seq<Block>, lo: int, hi: int): seq<Block>
    decreases hi - lo
  {
    if hi <= lo then []
    else FullRowCells(blocks, lo, hi - 1) + (if IsFullRow(blocks, hi - 1) then RowOf(blocks, hi - 1) else [])
  }

  /** The scan of [lo, hi) collects exactly the cells on full rows in that range. */
  lemma {:induction false} FullRowCellsMembers(blocks: seq<Block>, lo: int, hi: int)
    ensures forall b :: b in FullRowCells(blocks, lo, hi) <==> b in blocks && lo <= b.y < hi && IsFullRow(blocks, b.y)
    decreases hi - lo
  {
    if lo < hi {
      FullRowCellsMembers(blocks, lo, hi - 1);
    }
  }

  /**
   * The PATTERN scan as the loop writes it, over rows 0 .. BoardHeight - 1.
   * Cells live on rows 1 and up, rows 1 .. BoardHeight being the visible
   * board, so row 0 is scanned for nothing and the top visible row,
   * BoardHeight, is never scanned.
   */
  function ScanAsWritten(blocks: seq<Block>): (r: seq<Block>)
    ensures forall b :: b in r <==> b in blocks && 0 <= b.y < BoardHeight && IsFullRow(blocks, b.y)
  {
    FullRowCellsMembers(blocks, 0, BoardHeight);
    FullRowCells(blocks, 0, BoardHeight)
  }

  /** A full top row: BoardWidth cells on row BoardHeight. */
  function FullTopRow(): seq<Block>
  {
    seq(BoardWidth, i => Block(i + 1, BoardHeight, Rgb(0, 255, 255), Fill))
  }

  /** Every cell of `s` on row `row` means the row view of `s` is `s` itself. */
  lemma {:induction false} RowOfSingleRow(s: seq<Block>, row: int)
    requires forall b :: b in s ==> b.y == row
    ensures RowOf(s, row) == s
  {
    if s != [] {
      assert s[0] in s;
      RowOfSingleRow(s[1..], row);
      assert s == [s[0]] + s[1..];
    }
  }

  /** The full top row lies on row BoardHeight and fills it. */
  lemma TopRowIsFull()
    ensures forall b :: b in FullTopRow() ==> b.y == BoardHeight
    ensures IsFullRow(FullTopRow(), BoardHeight)
  {
    var top := FullTopRow();
    forall b | b in top ensures b.y == BoardHeight {
      var i :| 0 <= i < |top| && top[i] == b;
    }
    RowOfSingleRow(top, BoardHeight);
  }

  /**
   * The input that shows the missed row: a full row on the top row of the
   * board is found by the scan of rows 1 .. BoardHeight and missed by the
   * scan as written.
   */
  lemma TopRowNeverCleared()
    ensures |FullTopRow()| == BoardWidth
    ensures forall b :: b in FullTopRow() ==> b !in ScanAsWritten(FullTopRow())
    ensures forall b :: b in FullTopRow() ==> b in FullRowCells(FullTopRow(), 1, BoardHeight + 1)
  {
    TopRowIsFull();
    FullRowCellsMembers(FullTopRow(), 1, BoardHeight + 1);
  }

  /** The distinct rows referenced by a hit list. */
  function RowsOf(hits: seq<Block>): set<int>
  {
    set b | b in hits :: b.y
  }

  /** The cells of `s` that are not in `hits`, in order. */
  function Without(s: seq<Block>, hits: seq<Block>): seq<Block>
  {
    if s == [] then []
    else (if s[0] in hits then [] else [s[0]]) + Without(s[1..], hits)
  }

  /** The survivors are exactly the cells of `s` that are not hits, and no more of them. */
  lemma {:induction false} WithoutMembers(s: seq<Block>, hits: seq<Block>)
    ensures forall b :: b in Without(s, hits) <==> b in s && b !in hits
    ensures |Without(s, hits)| <= |s|
  {
    if s != [] {
      WithoutMembers(s[1..], hits);
      assert s == [s[0]] + s[1..];
    }
  }

  /** Removing no cells changes nothing. */
  lemma {:induction false} WithoutNothing(s: seq<Block>)
    ensures Without(s, []) == s
  {
    if s != [] {
      WithoutNothing(s[1..]);
    }
  }

  /** Removing the hits one at a time removes them all. */
  lemma {:induction false} WithoutStep(s: seq<Block>, hits: seq<Block>, h: Block)
    ensures Without(Without(s, hits), [h]) == Without(s, hits + [h])
  {
    if s != [] {
      WithoutStep(s[1..], hits, h);
      var head := if s[0] in hits then [] else [s[0]];
      var rest := Without(s[1..], hits);
      assert Without(s, hits) == head + rest;
      assert s[0] in hits + [h] <==> s[0] in hits || s[0] == h;
      WithoutConcat(head, rest, [h]);
    }
  }

  /** Filtering distributes over concatenation. */
  lemma {:induction false} WithoutConcat(a: seq<Block>, b: seq<Block>, hits: seq<Block>)
    ensures Without(a + b, hits) == Without(a, hits) + Without(b, hits)
  {
    if a != [] {
      assert (a + b)[1..] == a[1..] + b;
      WithoutConcat(a[1..], b, hits);
    } else {
      assert a + b == b;
    }
  }

  /** Removing cells keeps the remaining ones on distinct positions. */
  lemma {:induction false} WithoutKeepsNoOverlap(s: seq<Block>, hits: seq<Block>)
    requires NoOverlap(s)
    ensures NoOverlap(Without(s, hits))
  {
    if s != [] {
      assert NoOverlap(s[1..]) by {
        forall i, j | 0 <= i < j < |s[1..]|
          ensures (s[1..][i].x, s[1..][i].y) != (s[1..][j].x, s[1..][j].y)
        {
          assert s[1..][i] == s[i + 1] && s[1..][j] == s[j + 1];
        }
      }
      WithoutKeepsNoOverlap(s[1..], hits);
      var head := if s[0] in hits then [] else [s[0]];
      var rest := Without(s[1..], hits);
      WithoutMembers(s[1..], hits);
      forall u, v | u in head && v in rest ensures (u.x, u.y) != (v.x, v.y) {
        var j :| 0 <= j < |s[1..]| && s[1..][j] == v;
        assert s[j + 1] == v;
      }
      NoOverlapConcat(head, rest);
    }
  }

  /** The rows of `rows` strictly below row `y`. */
  function RowsBelow(rows: set<int>, y: int): set<int>
  {
    set r | r in rows && r < y
  }

  /** A cell after compaction: it keeps its column and drops one row per cleared row below it. */
  function Lowered(b: Block, rows: set<int>): Block
  {
    b.(y := b.y - |RowsBelow(rows, b.y)|)
  }

  /** Every cell of `s` lowered for the cleared `rows`. */
  function Compacted(s: seq<Block>, rows: set<int>): (r: seq<Block>)
    ensures |r| == |s|
  {
    seq(|s|, i requires 0 <= i < |s| => Lowered(s[i], rows))
  }

  /** A set of integers inside [lo, hi) has at most hi - lo elements. */
  lemma {:induction false} BoundedSetSize(s: set<int>, lo: int, hi: int)
    requires forall r :: r in s ==> lo <= r < hi
    ensures |s| <= if hi < lo then 0 else hi - lo
    decreases hi - lo
  {
    if hi <= lo {
      assert s == {} by {
        forall r | r in s ensures false { }
      }
    } else {
      BoundedSetSize(s - {hi - 1}, lo, hi - 1);
    }
  }

  /**
   * One pass of the ELIMINATE loop: with every row already processed above
   * `r`, a cell is above `r` now exactly when it was above `r` originally,
   * and processing `r` lowers it by one more row exactly then.
   */
  lemma LoweredStep(b: Block, done: set<int>, r: int)
    requires forall s :: s in done ==> s > r
    ensures Lowered(b, done).y > r <==> b.y > r
    ensures Lowered(b, done + {r}) ==
      if Lowered(b, done).y > r then Lowered(b, done).Fell() else Lowered(b, done)
  {
    var below := RowsBelow(done, b.y);
    if b.y > r {
      BoundedSetSize(below, r + 1, b.y);
      assert RowsBelow(done + {r}, b.y) == below + {r};
      assert r !in below;
    } else {
      assert below == {};
      assert RowsBelow(done + {r}, b.y) == {};
    }
  }

  /** Compaction keeps the relative order of rows that are not cleared. */
  lemma LoweredMonotone(y1: int, y2: int, rows: set<int>)
    requires y1 < y2 && y1 !in rows
    ensures y1 - |RowsBelow(rows, y1)| < y2 - |RowsBelow(rows, y2)|
  {
    var between := set r | r in rows && y1 <= r < y2;
    assert RowsBelow(rows, y2) == RowsBelow(rows, y1) + between;
    assert RowsBelow(rows, y1) * between == {};
    BoundedSetSize(between, y1 + 1, y2);
  }

  /** Compacting cells that are not on a cleared row keeps their positions distinct. */
  lemma CompactionKeepsNoOverlap(s: seq<Block>, rows: set<int>)
    requires NoOverlap(s)
    requires forall b :: b in s ==> b.y !in rows
    ensures NoOverlap(Compacted(s, rows))
  {
    var c := Compacted(s, rows);
    forall i, j | 0 <= i < j < |c| ensures (c[i].x, c[i].y) != (c[j].x, c[j].y) {
      assert s[i] in s && s[j] in s;
      if s[i].y < s[j].y {
        LoweredMonotone(s[i].y, s[j].y, rows);
      } else if s[j].y < s[i].y {
        LoweredMonotone(s[j].y, s[i].y, rows);
      }
    }
  }

  /** The rows a scan of [lo, hi) finds are exactly the full rows in that range. */
  lemma FullRowCellsRows(blocks: seq<Block>, lo: int, hi: int)
    ensures RowsOf(FullRowCells(blocks, lo, hi)) == set y | lo <= y < hi && IsFullRow(blocks, y)
  {
    var hits := FullRowCells(blocks, lo, hi);
    FullRowCellsMembers(blocks, lo, hi);
    forall y | lo <= y < hi && IsFullRow(blocks, y) ensures y in RowsOf(hits) {
      var row := RowOf(blocks, y);
      assert row[0] in row;
    }
  }

  /**
   * ELIMINATE applied to the hits of a scan of [lo, hi): the survivors are
   * exactly the cells off the full rows, and if the settled cells were on
   * distinct positions, so are the compacted ones.
   */
  lemma EliminateKeepsNoOverlap(blocks: seq<Block>, lo: int, hi: int)
    requires NoOverlap(blocks)
    ensures var hits := FullRowCells(blocks, lo, hi);
      NoOverlap(Compacted(Without(blocks, hits), RowsOf(hits)))
  {
    var hits := FullRowCells(blocks, lo, hi);
    var survivors := Without(blocks, hits);
    WithoutKeepsNoOverlap(blocks, hits);
    WithoutMembers(blocks, hits);
    FullRowCellsMembers(blocks, lo, hi);
    FullRowCellsRows(blocks, lo, hi);
    forall b | b in survivors ensures b.y !in RowsOf(hits) {
      assert !(lo <= b.y < hi && IsFullRow(blocks, b.y));
    }
    CompactionKeepsNoOverlap(survivors, RowsOf(hits));
  }

  /**
   * Clearing rows 3 and 5: cells above row 5 drop two rows, cells on rows 4
   * and 5 drop one, cells at or below row 3 stay where they are.
   */
  lemma ClearingRowsThreeAndFive(b: Block)
    ensures Lowered(b, {3, 5}) ==
      b.(y := if b.y > 5 then b.y - 2 else if b.y > 3 then b.y - 1 else b.y)
  {
    if b.y > 5 {
      assert RowsBelow({3, 5}, b.y) == {3, 5};
    } else if b.y > 3 {
      assert RowsBelow({3, 5}, b.y) == {3};
    } else {
      assert RowsBelow({3, 5}, b.y) == {};
    }
  }

  /** Every element is larger than every later one. */
  predicate StrictlyDecreasing(s: seq<int>)
  {
    forall i, j :: 0 <= i < j < |s| ==> s[i] > s[j]
  }

  /** A non-empty set has an element. */
  lemma HasElement(s: set<int>)
    requires s != {}
    ensures exists a :: a in s
  {
    if forall a :: a !in s {
      assert false;
    }
  }

  /** A non-empty finite set of integers has a largest element. */
  lemma {:induction false} MaxExists(s: set<int>)
    requires s != {}
    ensures exists m :: m in s && forall x :: x in s ==> x <= m
    decreases |s|
  {
    HasElement(s);
    var a :| a in s;
    var t := s - {a};
    if t == {} {
      forall x | x in s ensures x <= a {
        assert x !in t;
      }
    } else {
      assert |t| < |s| by { assert s == t + {a}; }
      MaxExists(t);
      var m :| m in t && forall x :: x in t ==> x <= m;
      var best := if a > m then a else m;
      forall x | x in s ensures x <= best {
        if x != a { assert x in t; }
      }
      assert best in s;
    }
  }

  /** The elements of a set in descending order (Python's `sorted(s, reverse=True)`). */
  method SortedDescending(s: set<int>) returns (r: seq<int>)
    ensures StrictlyDecreasing(r)
    ensures forall x :: x in r <==> x in s
  {
    r := [];
    var rest := s;
    while rest != {}
      invariant forall x :: x in s <==> x in rest || x in r
      invariant StrictlyDecreasing(r)
      invariant forall x, i :: x in rest && 0 <= i < |r| ==> x < r[i]
      decreases |rest|
    {
      MaxExists(rest);
      var m :| m in rest && forall x :: x in rest ==> x <= m;
      r := r + [m];
      rest := rest - {m};
    }
  }
}
