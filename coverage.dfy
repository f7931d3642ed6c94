/**
 * What a successful fit means for the grid when the blocks' sizes add up to the grid's area:
 * no cell is left empty.
 */
module Coverage {
  import opened Points
  import opened Blocks
  import opened Solver

  /** The cells (x, y) with 0 <= y < m in column x. */
  function Column(x: int, m: nat): (r: set<Coord>)
    ensures |r| == m
    ensures forall c :: c in r <==> c.x == x && 0 <= c.y < m
  {
    if m == 0 then {} else Column(x, m - 1) + {Coord(x, m - 1)}
  }

  /** The cells (x, y) with 0 <= x < n and 0 <= y < m. */
  function Rectangle(n: nat, m: nat): (r: set<Coord>)
    ensures |r| == n * m
    ensures forall c :: c in r <==> 0 <= c.x < n && 0 <= c.y < m
  {
    if n == 0 then {}
    else
      var r := Rectangle(n - 1, m) + Column(n - 1, m);
      assert Rectangle(n - 1, m) !! Column(n - 1, m);
      r
  }

  /** The coordinates of all the blocks' points. */
  function CoordsUnion(blocks: seq<Block>): (r: set<Coord>)
    reads PointsOf(blocks)
  {
    if blocks == [] then {}
    else
      PointsOfHas(blocks, blocks[0]);
      blocks[0].Coords() + CoordsUnion(blocks[1..])
  }

  /** A coordinate of the union belongs to a point of some block. */
  lemma {:induction false} CoordsUnionHas(blocks: seq<Block>, c: Coord)
    requires c in CoordsUnion(blocks)
    ensures exists b, p :: b in blocks && p in b.points && p.Value() == c
  {
    if c !in blocks[0].Coords() {
      CoordsUnionHas(blocks[1..], c);
      var b, p :| b in blocks[1..] && p in b.points && p.Value() == c;
      assert b in blocks;
    }
  }

  /** A cell of a block in the grid is a cell of none of the blocks it is apart from. */
  lemma {:induction false} OutsideUnion(b: Block, others: seq<Block>, c: Coord)
    requires c in b.Coords() && b.inGrid && b.name != EmptyValue
    requires forall x :: x in others ==> Apart(b, x) && x.inGrid && x.name != EmptyValue
    ensures c !in CoordsUnion(others)
  {
    if others != [] {
      var x := others[0];
      assert x in others && Apart(b, x);
      var p1 :| p1 in b.points && p1.Value() == c;
      assert forall p2 :: p2 in x.points ==> p2.Value() != c;
      assert c !in x.Coords();
      assert forall y :: y in others[1..] ==> y in others;
      OutsideUnion(b, others[1..], c);
    }
  }

  /**
   * Different blocks on cells that no two of them share, each with as many coordinates as
   * point objects: the union has as many coordinates as the blocks have points.
   */
  lemma {:induction false} CoordsUnionSize(blocks: seq<Block>)
    requires forall b1, b2 :: b1 in blocks && b2 in blocks && b1 != b2 ==> Apart(b1, b2)
    requires forall b :: b in blocks ==> b.inGrid && b.name != EmptyValue && b.Distinct()
    requires forall i, j :: 0 <= i < j < |blocks| ==> blocks[i] != blocks[j]
    ensures |CoordsUnion(blocks)| == PointCount(blocks)
  {
    if blocks != [] {
      var b := blocks[0];
      var rest := blocks[1..];
      assert forall x :: x in rest ==> x in blocks;
      forall i, j | 0 <= i < j < |rest|
        ensures rest[i] != rest[j]
      {
        assert rest[i] == blocks[i + 1] && rest[j] == blocks[j + 1];
      }
      CoordsUnionSize(rest);
      forall x | x in rest
        ensures Apart(b, x) && x.inGrid && x.name != EmptyValue
      {
        var k :| 0 <= k < |rest| && rest[k] == x;
        assert blocks[k + 1] == x;
      }
      forall c | c in b.Coords()
        ensures c !in CoordsUnion(rest)
      {
        OutsideUnion(b, rest, c);
      }
      assert b.Coords() * CoordsUnion(rest) == {};
      assert CoordsUnion(blocks) == b.Coords() + CoordsUnion(rest);
      assert b in blocks && b.Distinct();
      assert |b.Coords()| == b.GetSize();
    }
  }

  /**
   * When fitBlocks has put every block into the grid, no block is named '-', no block has
   * two points on one cell, and the sizes add up to the grid's area, no cell holds '-'.
   */
  lemma FullWhenSizesAddUp(fit: FitToGrid, blocks: seq<Block>)
    requires fit.Valid() && fit.Placed(blocks)
    requires forall b :: b in blocks ==> b.inGrid && b.name != EmptyValue && b.Distinct()
    requires forall i, j :: 0 <= i < j < |blocks| ==> blocks[i] != blocks[j]
    requires PointCount(blocks) == fit.sideLength * fit.sideLength
    ensures fit.Full()
  {
    var n := fit.sideLength;
    var union := CoordsUnion(blocks);
    var cells := Rectangle(n, n);
    CoordsUnionSize(blocks);
    forall c | c in union
      ensures c in cells
    {
      CoordsUnionHas(blocks, c);
      var b, p :| b in blocks && p in b.points && p.Value() == c;
      assert fit.Marks(b);
    }
    assert |cells - union| == 0;
    forall c | fit.InRange(c)
      ensures !fit.IsFree(c)
    {
      assert c in union;
      CoordsUnionHas(blocks, c);
      var b, p :| b in blocks && p in b.points && p.Value() == c;
      assert fit.Marks(b);
    }
  }
}
