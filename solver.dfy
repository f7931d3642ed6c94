/**
 * FitToGrid.java: an N x N grid of chars, indexed grid[x, y], with '-' marking an empty
 * cell, and the backtracking search that places the blocks into it.
 */
module Solver {
  import opened Outcomes
  import opened Points
  import opened Blocks
  import opened Sorting
  import opened Results
  import opened Progress

  const EmptyValue: char := '-'

  /** The two exceptions fitBlocks throws before it touches the grid. */
  datatype FitError =
    | NoBlocks       // "No blocks were given."
    | TooManyPoints  // "The blocks are too big to fit the grid."

  /** The sum of the blocks' sizes: the pointCount of fitBlocks. */
  function PointCount(blocks: seq<Block>): (n: nat)
    ensures forall b :: b in blocks ==> b.GetSize() <= n
    ensures blocks == [] ==> n == 0
  {
    if blocks == [] then 0
    else
      assert forall b :: b in blocks ==> b == blocks[0] || b in blocks[1..];
      blocks[0].GetSize() + PointCount(blocks[1..])
  }

  /** Every point object of every block in the list. */
  ghost function PointsOf(blocks: seq<Block>): set<Point> {
    set b, p | b in blocks && p in b.points :: p
  }

  /** No two different blocks share a point object, so moving one block moves no other. */
  ghost predicate Disjoint(blocks: seq<Block>) {
    forall b1, b2 :: b1 in blocks && b2 in blocks && b1 != b2 ==> b1.points !! b2.points
  }

  /** Two blocks in the grid, neither named '-', have no cell in common. */
  ghost predicate Apart(b1: Block, b2: Block)
    reads b1`inGrid, b2`inGrid, b1.points, b2.points
  {
    b1.inGrid && b2.inGrid && b1.name != EmptyValue && b2.name != EmptyValue ==>
      forall p1, p2 :: p1 in b1.points && p2 in b2.points ==> p1.Value() != p2.Value()
  }

  /** Every block has points. */
  predicate AllValid(blocks: seq<Block>) {
    forall b :: b in blocks ==> b.Valid()
  }

  lemma PointsOfHas(blocks: seq<Block>, b: Block)
    requires b in blocks
    ensures b.points <= PointsOf(blocks)
  {
  }

  /** A reordering has the same blocks, so the same points and the same search state. */
  lemma SameMembers(blocks: seq<Block>, ordered: seq<Block>)
    requires multiset(ordered) == multiset(blocks)
    ensures forall b :: b in ordered <==> b in blocks
    ensures PointsOf(ordered) == PointsOf(blocks)
  {
    assert forall b :: b in ordered <==> b in multiset(ordered);
  }

  /** The key that makes Stream.sorted follow Block.compareTo: wider blocks first. */
  function WidthKey(b: Block): int {
    -b.baseWidth
  }

  /** FitToGrid.orderByMaxWidth: the blocks sorted by compareTo, that is by descending base width. */
  function OrderByMaxWidth(blocks: seq<Block>): (r: seq<Block>)
    ensures multiset(r) == multiset(blocks)
    ensures forall i, j :: 0 <= i < j < |r| ==> r[i].baseWidth >= r[j].baseWidth
  {
    SortBySorted(blocks, WidthKey);
    SortBy(blocks, WidthKey)
  }

  /**
   * Along the order, blocks are in compareTo order, and blocks of equal width keep their list
   * order.
   */
  lemma OrderByMaxWidthOrder(blocks: seq<Block>, width: int)
    ensures forall i, j :: 0 <= i < j < |OrderByMaxWidth(blocks)| ==>
              OrderByMaxWidth(blocks)[i].CompareTo(OrderByMaxWidth(blocks)[j]) <= 0
    ensures WithKey(OrderByMaxWidth(blocks), WidthKey, -width) == WithKey(blocks, WidthKey, -width)
  {
    var r := OrderByMaxWidth(blocks);
    SortByStable(blocks, WidthKey, -width);
    forall i, j | 0 <= i < j < |r|
      ensures r[i].CompareTo(r[j]) <= 0
    {
      assert r[i].baseWidth >= r[j].baseWidth;
    }
  }

  /** FitToGrid.notTriedAll: some block is neither in the grid nor has tried the point. */
  function NotTriedAll(blocks: seq<Block>, point: Coord): (r: bool)
    reads blocks
    ensures r <==> exists b :: b in blocks && !b.inGrid && point !in b.tried
  {
    if blocks == [] then false
    else
      assert forall b :: b in blocks ==> b == blocks[0] || b in blocks[1..];
      (!(blocks[0].inGrid || blocks[0].HasTriedStartPointBefore(point))) || NotTriedAll(blocks[1..], point)
  }

  /** FitToGrid.areAllBlocksInTheGrid: no block is outside the grid. */
  function AreAllBlocksInTheGrid(blocks: seq<Block>): (r: bool)
    reads blocks
    ensures r <==> forall b :: b in blocks ==> b.inGrid
  {
    if blocks == [] then true
    else
      assert forall b :: b in blocks ==> b == blocks[0] || b in blocks[1..];
      blocks[0].inGrid && AreAllBlocksInTheGrid(blocks[1..])
  }

  /** FitToGrid.notAllBlocksStarted: some block has not been the starting block. */
  function NotAllBlocksStarted(blocks: seq<Block>): (r: bool)
    reads blocks
    ensures r <==> exists b :: b in blocks && !b.hasBeenFirst
  {
    if blocks == [] then false
    else
      assert forall b :: b in blocks ==> b == blocks[0] || b in blocks[1..];
      !blocks[0].hasBeenFirst || NotAllBlocksStarted(blocks[1..])
  }

  /** Per position of the list, whether the block is in the grid. */
  function InGridOf(blocks: seq<Block>): (r: seq<bool>)
    reads blocks`inGrid
    ensures |r| == |blocks| && forall j :: 0 <= j < |blocks| ==> r[j] == blocks[j].inGrid
  {
    if blocks == [] then [] else [blocks[0].inGrid] + InGridOf(blocks[1..])
  }

  /** Per position of the list, whether the block has been the starting block. */
  function FirstOf(blocks: seq<Block>): (r: seq<bool>)
    reads blocks`hasBeenFirst
    ensures |r| == |blocks| && forall j :: 0 <= j < |blocks| ==> r[j] == blocks[j].hasBeenFirst
  {
    if blocks == [] then [] else [blocks[0].hasBeenFirst] + FirstOf(blocks[1..])
  }

  /** The started flags per position after block b has been marked as started. */
  function Started(firsts: seq<bool>, blocks: seq<Block>, b: Block): (r: seq<bool>)
    requires |firsts| == |blocks|
    ensures |r| == |firsts| && forall j :: 0 <= j < |r| ==> r[j] == (firsts[j] || blocks[j] == b)
  {
    if blocks == [] then [] else [firsts[0] || blocks[0] == b] + Started(firsts[1..], blocks[1..], b)
  }

  /** Marking the block at position next as started keeps every position before it started. */
  lemma StartedUpTo(firsts: seq<bool>, blocks: seq<Block>, next: int)
    requires |firsts| == |blocks| && 0 <= next < |blocks|
    requires forall k :: 0 <= k < next ==> firsts[k]
    ensures forall k :: 0 <= k <= next ==> Started(firsts, blocks, blocks[next])[k]
  {
  }

  /** One more started position extends a started prefix. */
  lemma StartedThrough(started: seq<bool>, next: int)
    requires 0 <= next < |started| && started[next]
    requires forall k :: 0 <= k < next ==> started[k]
    ensures forall k :: 0 <= k <= next ==> started[k]
  {
  }

  /** Per position of the list, the start points the block has tried. */
  function TriedOf(blocks: seq<Block>): (r: seq<seq<Coord>>)
    reads blocks`tried
    ensures |r| == |blocks| && forall j :: 0 <= j < |blocks| ==> r[j] == blocks[j].tried
  {
    if blocks == [] then [] else [blocks[0].tried] + TriedOf(blocks[1..])
  }

  /** notTriedAll, read per position: some position has neither landed nor tried the point. */
  lemma NotTriedAllAt(blocks: seq<Block>, point: Coord)
    ensures NotTriedAll(blocks, point) <==> CanAdvance(InGridOf(blocks), TriedOf(blocks), point)
  {
    if NotTriedAll(blocks, point) {
      var b :| b in blocks && !b.inGrid && point !in b.tried;
      var j :| 0 <= j < |blocks| && blocks[j] == b;
      assert !InGridOf(blocks)[j] && point !in TriedOf(blocks)[j];
    }
  }

  /** The position of a member of the list. */
  ghost function IndexOf(blocks: seq<Block>, b: Block): (j: int)
    requires b in blocks
    ensures 0 <= j < |blocks| && blocks[j] == b
  {
    if blocks[0] == b then 0 else 1 + IndexOf(blocks[1..], b)
  }

  /**
   * (0, 0), (1, 0), ...: one anchor point on the bottom row for every x at which a base row of
   * the given width still ends inside the grid.
   */
  function StartPoints(sideLength: nat, width: int): (r: seq<Coord>)
    ensures forall c :: c in r <==> c.y == 0 && 0 <= c.x && c.x + width <= sideLength
  {
    var count := if sideLength - width + 1 > 0 then sideLength - width + 1 else 0;
    var r := seq(count, i => Coord(i, 0));
    assert forall i :: 0 <= i < count ==> r[i] == Coord(i, 0);
    r
  }

  /** Some of the coordinates lie off an n x n grid. */
  predicate Overhangs(cs: set<Coord>, n: int) {
    exists c :: c in cs && !(0 <= c.x < n && 0 <= c.y < n)
  }

  /**
   * What one start point of a starting block came to in fitBlocks. Refused: doesBlockFit
   * rejected the block where it stood, on the coordinates at, and no search ran. Searched: a
   * search ran from the point, answered allIn, and stopped at the anchor point last, leaving
   * the in-grid flags and tried lists recorded per list position.
   */
  datatype Attempt =
    | Refused(start: Coord, at: set<Coord>)
    | Searched(start: Coord, allIn: bool, last: Coord, inGrid: seq<bool>, tried: seq<seq<Coord>>)

  /**
   * A search over n blocks stopped for one of the two reasons the loop of fitWithStartingBlock
   * allows: every block is in the grid, or no block outside the grid can still try the last
   * anchor point.
   */
  predicate Concluded(a: Attempt, n: nat) {
    a.Searched? ==>
      |a.inGrid| == n && |a.tried| == n &&
      (a.allIn <==> forall j :: 0 <= j < n ==> a.inGrid[j]) &&
      (!a.allIn ==> !CanAdvance(a.inGrid, a.tried, a.last))
  }

  /** A search ran and put every block into the grid. */
  predicate Succeeded(a: Attempt) {
    a.Searched? && a.allIn
  }

  /**
   * The start points were taken in order, every search concluded, and the loop stopped at the
   * first search that put every block into the grid (allFit), or else after the last point.
   * Past the first point the grid was empty, so a refusal there means the block stood partly
   * off the grid.
   */
  predicate RanThrough(attempts: seq<Attempt>, points: seq<Coord>, allFit: bool, n: nat, sideLength: nat) {
    RanUpTo(attempts, points, allFit, n, sideLength) &&
    (!allFit ==> |attempts| == |points|)
  }

  /** RanThrough, with the loop over the start points possibly not yet at its end. */
  predicate RanUpTo(attempts: seq<Attempt>, points: seq<Coord>, allFit: bool, n: nat, sideLength: nat) {
    |attempts| <= |points| &&
    (forall i :: 0 <= i < |attempts| ==> attempts[i].start == points[i] && Concluded(attempts[i], n)) &&
    (forall i :: 0 <= i < |attempts| ==> (Succeeded(attempts[i]) <==> allFit && i == |attempts| - 1)) &&
    (forall i :: 0 < i < |attempts| && attempts[i].Refused? ==>
       Overhangs(attempts[i].at, sideLength)) &&
    (allFit ==> |attempts| > 0)
  }

  /** One more start point, taken after every earlier one failed, extends the record. */
  lemma RanUpToStep(attempts: seq<Attempt>, points: seq<Coord>, a: Attempt, allFit: bool, n: nat, sideLength: nat)
    requires RanUpTo(attempts, points, false, n, sideLength) && |attempts| < |points|
    requires a.start == points[|attempts|] && Concluded(a, n) && (allFit <==> Succeeded(a))
    requires |attempts| > 0 && a.Refused? ==>
               Overhangs(a.at, sideLength)
    ensures RanUpTo(attempts + [a], points, allFit, n, sideLength)
  {
    var next := attempts + [a];
    assert forall i :: 0 <= i < |attempts| ==> next[i] == attempts[i];
  }

  /**
   * coords holds where the starting block stood before each attempt, and one more entry for
   * where it stood after the last. A refusal is recorded with where the block stood and does
   * not move it; past the first attempt the grid is empty, so a start point is refused exactly
   * when the block stands partly off the grid.
   */
  predicate Tracked(attempts: seq<Attempt>, coords: seq<set<Coord>>, sideLength: nat) {
    |coords| == |attempts| + 1 &&
    (forall i :: 0 < i < |attempts| ==>
       (attempts[i].Refused? <==> Overhangs(coords[i], sideLength))) &&
    (forall i :: 0 <= i < |attempts| && attempts[i].Refused? ==> attempts[i].at == coords[i] == coords[i + 1])
  }

  /** One more attempt, made with the block standing where the record last left it. */
  lemma TrackedStep(attempts: seq<Attempt>, coords: seq<set<Coord>>, a: Attempt, next: set<Coord>, sideLength: nat)
    requires Tracked(attempts, coords, sideLength)
    requires |attempts| > 0 ==>
               (a.Refused? <==> Overhangs(coords[|attempts|], sideLength))
    requires a.Refused? ==> a.at == coords[|attempts|] == next
    ensures Tracked(attempts + [a], coords + [next], sideLength)
  {
    var attempts', coords' := attempts + [a], coords + [next];
    assert forall i :: 0 <= i < |attempts| ==> attempts'[i] == attempts[i] && coords'[i] == coords[i];
  }

  /**
   * The record of the loop over the start points so far: it ran as RanUpTo says, coords
   * tracks where the starting block stood, and the first start point was refused exactly
   * when the block could not be placed where it stood at the start (canPlace).
   */
  predicate Recorded(attempts: seq<Attempt>, coords: seq<set<Coord>>, points: seq<Coord>, allFit: bool,
                     n: nat, sideLength: nat, canPlace: bool) {
    RanUpTo(attempts, points, allFit, n, sideLength) && Tracked(attempts, coords, sideLength) &&
    (|attempts| > 0 ==> (attempts[0].Refused? <==> !canPlace))
  }

  /** One more start point extends the record. */
  lemma RecordedStep(attempts: seq<Attempt>, coords: seq<set<Coord>>, points: seq<Coord>, a: Attempt, next: set<Coord>,
                     allFit: bool, n: nat, sideLength: nat, canPlace: bool)
    requires Recorded(attempts, coords, points, false, n, sideLength, canPlace) && |attempts| < |points|
    requires a.start == points[|attempts|] && Concluded(a, n) && (allFit <==> Succeeded(a))
    requires |attempts| == 0 ==> (a.Refused? <==> !canPlace)
    requires |attempts| > 0 ==>
               (a.Refused? <==> Overhangs(coords[|attempts|], sideLength))
    requires a.Refused? ==> a.at == coords[|attempts|] == next
    ensures Recorded(attempts + [a], coords + [next], points, allFit, n, sideLength, canPlace)
  {
    RanUpToStep(attempts, points, a, allFit, n, sideLength);
    TrackedStep(attempts, coords, a, next, sideLength);
    assert |attempts| > 0 ==> (attempts + [a])[0] == attempts[0];
  }

  /**
   * A block that fitBlocks used as the starting block, what its start points came to, and
   * where the block stood before each of them.
   */
  datatype Start = Start(block: Block, attempts: seq<Attempt>, coords: seq<set<Coord>>)

  /**
   * Every starting block ran through its start points, with where it stood tracked, and only
   * the last of them, when allFit holds, stopped at a search that put every block into the grid.
   */
  predicate AllRan(starts: seq<Start>, allFit: bool, n: nat, sideLength: nat) {
    (allFit ==> |starts| > 0) &&
    forall k :: 0 <= k < |starts| ==>
      RanThrough(starts[k].attempts, StartPoints(sideLength, starts[k].block.baseWidth),
                 allFit && k == |starts| - 1, n, sideLength) &&
      Tracked(starts[k].attempts, starts[k].coords, sideLength)
  }

  /** One more starting block, taken after every earlier one failed, extends the record. */
  lemma AllRanStep(starts: seq<Start>, s: Start, allFit: bool, n: nat, sideLength: nat)
    requires AllRan(starts, false, n, sideLength)
    requires RanThrough(s.attempts, StartPoints(sideLength, s.block.baseWidth), allFit, n, sideLength)
    requires Tracked(s.attempts, s.coords, sideLength)
    ensures AllRan(starts + [s], allFit, n, sideLength)
  {
    var next := starts + [s];
    assert forall k :: 0 <= k < |starts| ==> next[k] == starts[k];
  }

  /** The starting blocks, in the order they were tried. */
  function Starters(starts: seq<Start>): (r: seq<Block>)
    ensures |r| == |starts| && forall k :: 0 <= k < |starts| ==> r[k] == starts[k].block
  {
    if starts == [] then [] else [starts[0].block] + Starters(starts[1..])
  }

  /**
   * The starting blocks against the started flags per list position, on entry (started0) and
   * now: flags only get set, each start is the block at list position at[k] whose flag was
   * clear on entry, and each flag set since entry belongs to one of the starting blocks.
   */
  predicate Covers(starts: seq<Start>, at: seq<int>, blocks: seq<Block>, started0: seq<bool>, started: seq<bool>) {
    |started0| == |blocks| && |started| == |blocks| && |at| == |starts| &&
    (forall j :: 0 <= j < |blocks| && started0[j] ==> started[j]) &&
    (forall k :: 0 <= k < |at| ==> 0 <= at[k] < |blocks| && starts[k].block == blocks[at[k]] && !started0[at[k]]) &&
    (forall j :: 0 <= j < |blocks| && started[j] && !started0[j] ==> blocks[j] in Starters(starts))
  }

  /**
   * Every position holding a starting block is started now, and no block has been the starting
   * block twice.
   */
  predicate StartedOnly(starts: seq<Start>, blocks: seq<Block>, started: seq<bool>) {
    |started| == |blocks| &&
    (forall k, j :: 0 <= k < |starts| && 0 <= j < |blocks| && blocks[j] == starts[k].block ==> started[j]) &&
    StartedOnce(starts)
  }

  /** Starting a block whose flag is clear keeps every starting block distinct. */
  lemma StartedOnlyStep(starts: seq<Start>, blocks: seq<Block>, started: seq<bool>, next: int, s: Start)
    requires StartedOnly(starts, blocks, started) && 0 <= next < |blocks| && !started[next] && s.block == blocks[next]
    ensures StartedOnly(starts + [s], blocks, Started(started, blocks, blocks[next]))
  {
    assert forall k :: 0 <= k < |starts| ==> starts[k].block != s.block;
  }

  /** No block is recorded twice as the starting block. */
  predicate StartedOnce(starts: seq<Start>) {
    forall k1, k2 :: 0 <= k1 < k2 < |starts| ==> starts[k1].block != starts[k2].block
  }

  /** Starting the block at a position whose flag is clear keeps the cover. */
  lemma CoversStep(starts: seq<Start>, at: seq<int>, blocks: seq<Block>, started0: seq<bool>, started: seq<bool>,
                   next: int, attempts: seq<Attempt>, coords: seq<set<Coord>>)
    requires Covers(starts, at, blocks, started0, started) && 0 <= next < |blocks| && !started[next]
    ensures Covers(starts + [Start(blocks[next], attempts, coords)], at + [next], blocks, started0,
                   Started(started, blocks, blocks[next]))
  {
    var starts' := starts + [Start(blocks[next], attempts, coords)];
    assert Starters(starts') == Starters(starts) + [blocks[next]];
  }

  /**
   * Over the starting blocks in turn, where only the last may have succeeded: the whole search
   * succeeded exactly when some start point's search put every block into the grid.
   */
  lemma SomeSucceeded(starts: seq<Start>, allFit: bool, n: nat, sideLength: nat)
    requires AllRan(starts, allFit, n, sideLength)
    ensures allFit <==>
              exists k, i :: 0 <= k < |starts| && 0 <= i < |starts[k].attempts| && Succeeded(starts[k].attempts[i])
  {
    if allFit {
      var k := |starts| - 1;
      var i := |starts[k].attempts| - 1;
      assert Succeeded(starts[k].attempts[i]);
    }
  }

  class FitToGrid {
    const sideLength: nat
    const grid: array2<char>

    predicate Valid() {
      grid.Length0 == sideLength && grid.Length1 == sideLength
    }

    predicate InRange(c: Coord) {
      0 <= c.x < sideLength && 0 <= c.y < sideLength
    }

    /** Every cell of the grid. */
    function Cells(): set<Coord> {
      set x, y | 0 <= x < sideLength && 0 <= y < sideLength :: Coord(x, y)
    }

    predicate IsFree(c: Coord)
      requires Valid()
      reads grid
    {
      InRange(c) && grid[c.x, c.y] == EmptyValue
    }

    /** No cell of the grid is free. */
    ghost predicate Full()
      requires Valid()
      reads grid
    {
      forall c :: InRange(c) ==> !IsFree(c)
    }

    /** A free cell that no free cell precedes in the scan order of getNextFreePoint. */
    ghost predicate FirstFree(c: Coord)
      requires Valid()
      reads grid
    {
      IsFree(c) && forall c' :: IsFree(c') ==> AnchorLe(c, c')
    }

    /** Every coordinate is a cell of the grid and holds '-'. */
    predicate CanPlace(cs: set<Coord>)
      requires Valid()
      reads grid
    {
      forall c :: c in cs ==> IsFree(c)
    }

    predicate AllEmpty()
      requires Valid()
      reads grid
    {
      forall x, y :: 0 <= x < sideLength && 0 <= y < sideLength ==> grid[x, y] == EmptyValue
    }

    /** The state fitBlocks leaves after a failed start: an empty grid and blocks with no search state. */
    ghost predicate Cleared(blocks: seq<Block>)
      requires Valid()
      reads grid, blocks`inGrid, blocks`tried
    {
      AllEmpty() && forall b :: b in blocks ==> !b.inGrid && b.tried == []
    }

    /** A block in the grid has its points on cells, and its name in them unless the name is '-'. */
    ghost predicate Marks(b: Block)
      requires Valid()
      reads grid, b`inGrid, b.points
    {
      b.inGrid ==>
        forall p :: p in b.points ==>
          0 <= p.x < sideLength && 0 <= p.y < sideLength && (b.name != EmptyValue ==> grid[p.x, p.y] == b.name)
    }

    /**
     * What the search keeps true of the blocks it has put into the grid: each marks its cells,
     * and two such blocks share no cell. Blocks named '-' leave their cells looking empty, so
     * only their range is kept for them.
     */
    ghost predicate Placed(blocks: seq<Block>)
      requires Valid()
      reads grid, blocks`inGrid, PointsOf(blocks)
    {
      (forall b :: b in blocks ==> Marks(b)) &&
      (forall b1, b2 :: b1 in blocks && b2 in blocks && b1 != b2 ==> Apart(b1, b2))
    }

    lemma InCells(c: Coord)
      requires InRange(c)
      ensures c in Cells()
    {
      assert c == Coord(c.x, c.y);
    }

    /** Placed depends only on which blocks are listed, not on their order. */
    lemma PlacedSame(a: seq<Block>, b: seq<Block>)
      requires Valid() && forall x :: x in a <==> x in b
      ensures Placed(a) <==> Placed(b)
    {
    }

    /** The constructor: an N x N grid filled with '-'. */
    constructor (sideLength0: nat)
      ensures sideLength == sideLength0 && Valid() && AllEmpty()
      ensures fresh(grid)
    {
      sideLength := sideLength0;
      grid := new char[sideLength0, sideLength0];
      new;
      EmptyGrid();
    }

    /** FitToGrid.emptyGrid: every cell back to '-'. */
    method EmptyGrid()
      requires Valid()
      modifies grid
      ensures AllEmpty()
    {
      for i := 0 to sideLength
        invariant forall x, y :: 0 <= x < i && 0 <= y < sideLength ==> grid[x, y] == EmptyValue
      {
        for j := 0 to sideLength
          invariant forall x, y :: 0 <= x < i && 0 <= y < sideLength ==> grid[x, y] == EmptyValue
          invariant forall y :: 0 <= y < j ==> grid[i, y] == EmptyValue
        {
          grid[i, j] := EmptyValue;
        }
      }
    }

    /** FitToGrid.cleanBlocks: cleanTried on every block; whether a block has started is kept. */
    method CleanBlocks(blocks: seq<Block>)
      modifies blocks`inGrid, blocks`tried
      ensures forall b :: b in blocks ==> !b.inGrid && b.tried == []
    {
      for i := 0 to |blocks|
        invariant forall k :: 0 <= k < i ==> !blocks[k].inGrid && blocks[k].tried == []
      {
        blocks[i].CleanTried();
      }
    }

    /**
     * FitToGrid.doesBlockFit: true iff every point of the block, where it is now, is a cell of
     * the grid holding '-'. The point argument plays no part. A point off the grid ends the
     * scan the way the caught index exception does.
     */
    method DoesBlockFit(block: Block, startPoint: Coord) returns (fits: bool)
      requires Valid()
      ensures fits == CanPlace(block.Coords())
    {
      fits := true;
      var rest := block.points;
      while rest != {}
        invariant rest <= block.points
        invariant forall p :: p in block.points - rest ==> IsFree(p.Value())
        decreases rest
      {
        var p :| p in rest;
        if !InRange(p.Value()) || grid[p.x, p.y] != EmptyValue {
          fits := false;
          assert p.Value() in block.Coords();
          return;
        }
        rest := rest - {p};
      }
      assert forall c :: c in block.Coords() ==> exists p :: p in block.points && p.Value() == c;
    }

    /**
     * FitToGrid.shiftBlockToPoint: moves the block's points so that its lowest-left point is on
     * the given point. The result is the block itself when it is already there, otherwise a copy
     * that shares the point objects, so the block itself moves either way.
     */
    method ShiftBlockToPoint(block: Block, point: Coord) returns (shifted: Block)
      requires block.Valid()
      modifies block.points
      ensures shifted.Valid() && (old(block.Distinct()) ==> block.Distinct())
      ensures shifted.name == block.name && shifted.points == block.points && shifted.baseWidth == block.baseWidth
      ensures LowestLeft(block.Coords()) == point && Shape(block.Coords()) == old(Shape(block.Coords()))
      ensures shifted == block <==> old(LowestLeft(block.Coords())) == point
      ensures shifted != block ==> fresh(shifted) && shifted.tried == [] && !shifted.inGrid && !shifted.hasBeenFirst
    {
      ghost var before := block.Coords();
      ghost var shape := Shape(before);
      shifted := block;
      var lowestLeft := block.GetLowestLeftPoint();
      assert lowestLeft == LowestLeft(before);
      var shiftX := point.x - lowestLeft.x;
      var shiftY := point.y - lowestLeft.y;
      assert Anchored(before, point) == Translate(before, shiftX, shiftY);
      TranslateCompose(before, shiftX, 0, 0, shiftY);
      TranslateZero(before);
      if shiftX != 0 || shiftY != 0 {
        shifted := new Block.Copy(block);
        if shiftX != 0 {
          shifted.ShiftXValues(shiftX);
        }
        assert CoordsOf(block.points) == Translate(before, shiftX, 0);
        if shiftY != 0 {
          shifted.ShiftYValues(shiftY);
        }
        assert CoordsOf(block.points) == Translate(before, shiftX, shiftY);
      }
      ghost var after := block.Coords();
      assert after == Anchored(before, point);
      AnchoredLowestLeft(before, point);
      ShapeOfAnchored(before, point);
      assert LowestLeft(after) == point && Shape(after) == shape;
    }

    /**
     * FitToGrid.putBlockToGrid: a block whose base is wider than the room right of the point
     * is refused untouched. Otherwise the block is moved onto the point, and if every moved
     * point is a free cell its name is written into exactly those cells.
     */
    method PutBlockToGrid(block: Block, startPoint: Coord) returns (fits: bool)
      requires Valid() && block.Valid()
      modifies grid, block.points
      ensures old(block.Distinct()) ==> block.Distinct()
      ensures block.baseWidth > sideLength - startPoint.x ==> !fits && unchanged(block.points) && unchanged(grid)
      ensures block.baseWidth <= sideLength - startPoint.x ==>
                LowestLeft(block.Coords()) == startPoint && Shape(block.Coords()) == old(Shape(block.Coords()))
      ensures !fits ==> unchanged(grid)
      ensures fits <==> block.baseWidth <= sideLength - startPoint.x && forall c :: c in block.Coords() ==> old(IsFree(c))
      ensures forall x, y :: 0 <= x < sideLength && 0 <= y < sideLength ==>
                grid[x, y] == if fits && Coord(x, y) in block.Coords() then block.name else old(grid[x, y])
    {
      if block.baseWidth > sideLength - startPoint.x {
        return false;
      }
      ghost var shape := Shape(block.Coords());
      var shiftedBlock := ShiftBlockToPoint(block, startPoint);
      ghost var cs := block.Coords();
      assert LowestLeft(cs) == startPoint && Shape(cs) == shape;
      assert unchanged(grid);
      label shifted:
      fits := PlaceIfFree(shiftedBlock, startPoint);
      assert fits <==> forall c :: c in cs ==> old@shifted(IsFree(c));
      assert fits <==> forall c :: c in cs ==> old(IsFree(c));
      assert block.Coords() == cs;
    }

    /** The rest of putBlockToGrid once the block is in position: test the cells, then write them. */
    method PlaceIfFree(block: Block, startPoint: Coord) returns (fits: bool)
      requires Valid()
      modifies grid
      ensures fits <==> forall c :: c in block.Coords() ==> old(IsFree(c))
      ensures !fits ==> unchanged(grid)
      ensures forall x, y :: 0 <= x < sideLength && 0 <= y < sideLength ==>
                grid[x, y] == if fits && Coord(x, y) in block.Coords() then block.name else old(grid[x, y])
    {
      fits := DoesBlockFit(block, startPoint);
      if fits {
        WriteName(block);
      }
    }

    /** The loop of putBlockToGrid that writes the block's name into the cells of its points. */
    method WriteName(block: Block)
      requires Valid() && CanPlace(block.Coords())
      modifies grid
      ensures forall x, y :: 0 <= x < sideLength && 0 <= y < sideLength ==>
                grid[x, y] == if Coord(x, y) in block.Coords() then block.name else old(grid[x, y])
    {
      ghost var cs := block.Coords();
      var rest := block.points;
      ghost var done: set<Coord> := {};
      while rest != {}
        invariant rest <= block.points && done <= cs
        invariant forall p :: p in block.points && p !in rest ==> p.Value() in done
        invariant forall x, y :: 0 <= x < sideLength && 0 <= y < sideLength ==>
                    grid[x, y] == if Coord(x, y) in done then block.name else old(grid[x, y])
        decreases rest
      {
        var point :| point in rest;
        assert point.Value() in cs;
        grid[point.x, point.y] := block.name;
        done := done + {point.Value()};
        rest := rest - {point};
      }
      assert done == cs by {
        assert forall c :: c in cs ==> exists p :: p in block.points && p.Value() == c;
      }
    }

    /**
     * FitToGrid.getNextFreePoint: scanning rows from y = 0 up and each row from x = 0 right,
     * the first cell holding '-'; None where the Java code throws NoFreePointFoundException.
     */
    method GetNextFreePoint() returns (r: Option<Coord>)
      requires Valid()
      ensures r.Some? ==> IsFree(r.value) && forall c :: IsFree(c) ==> AnchorLe(r.value, c)
      ensures r.None? <==> Full()
    {
      r := None;
      for y := 0 to sideLength
        invariant r.None?
        invariant forall c :: InRange(c) && c.y < y ==> !IsFree(c)
      {
        for x := 0 to sideLength
          invariant r.None?
          invariant forall c :: InRange(c) && (c.y < y || (c.y == y && c.x < x)) ==> !IsFree(c)
        {
          if grid[x, y] == EmptyValue {
            r := Some(Coord(x, y));
            return;
          }
        }
      }
    }

    /**
     * FitToGrid.getAvailableStartingPoints: (i, 0) for i = 0 .. N - baseWidth, in increasing
     * order: exactly the bottom-row points that leave room for the block's base row.
     */
    method GetAvailableStartingPoints(block: Block) returns (points: seq<Coord>)
      ensures |points| == if sideLength - block.baseWidth + 1 > 0 then sideLength - block.baseWidth + 1 else 0
      ensures forall i :: 0 <= i < |points| ==> points[i] == Coord(i, 0)
      ensures forall c :: c in points <==> c.y == 0 && 0 <= c.x && c.x + block.baseWidth <= sideLength
      ensures points == StartPoints(sideLength, block.baseWidth)
    {
      points := [];
      var width := block.baseWidth;
      var i := 0;
      while i <= sideLength - width
        invariant 0 <= i && |points| == i
        invariant i > 0 ==> i <= sideLength - width + 1
        invariant forall k :: 0 <= k < i ==> points[k] == Coord(k, 0)
        decreases sideLength - width - i
      {
        points := points + [Coord(i, 0)];
        i := i + 1;
      }
      assert forall c :: c in points ==> c == Coord(c.x, 0) && 0 <= c.x < |points|;
    }

    /**
     * One turn of the inner loop of fitWithStartingBlock. A block that is neither in the grid
     * nor has tried the point records the point and is put onto it; a block that lands is
     * marked in the grid and the point becomes the next free cell. None is the
     * NoFreePointFoundException of getNextFreePoint, after the block has landed.
     */
    method TryBlock(block: Block, startPoint: Coord) returns (next: Option<Coord>)
      requires Valid() && block.Valid()
      modifies grid, block`inGrid, block`tried, block.points
      ensures block.hasBeenFirst == old(block.hasBeenFirst)
      ensures old(block.inGrid || startPoint in block.tried) ==>
                block.inGrid == old(block.inGrid) && block.tried == old(block.tried) && next == Some(startPoint)
      ensures !old(block.inGrid || startPoint in block.tried) ==> block.tried == old(block.tried) + [startPoint]
      ensures !(block.inGrid && !old(block.inGrid)) ==> next == Some(startPoint) && unchanged(grid)
      ensures old(block.inGrid) ==> unchanged(block.points)
      ensures block.inGrid && !old(block.inGrid) ==>
                (forall c :: c in block.Coords() ==> old(IsFree(c))) &&
                (forall x, y :: 0 <= x < sideLength && 0 <= y < sideLength ==>
                   grid[x, y] == if Coord(x, y) in block.Coords() then block.name else old(grid[x, y]))
      ensures block.inGrid && !old(block.inGrid) ==>
                (next.None? <==> Full()) &&
                (next.Some? ==> IsFree(next.value) && forall c :: IsFree(c) ==> AnchorLe(next.value, c))
    {
      next := Some(startPoint);
      if block.inGrid || block.HasTriedStartPointBefore(startPoint) {
        return;
      }
      block.AddTriedStartPoint(startPoint);
      next := Land(block, startPoint);
    }

    /** The part of a turn after the point is recorded: put the block onto it, and if it lands find the next free cell. */
    method Land(block: Block, startPoint: Coord) returns (next: Option<Coord>)
      requires Valid() && block.Valid() && !block.inGrid
      modifies grid, block`inGrid, block.points
      ensures !block.inGrid ==> next == Some(startPoint) && unchanged(grid)
      ensures block.inGrid ==>
                (forall c :: c in block.Coords() ==> old(IsFree(c))) &&
                (forall x, y :: 0 <= x < sideLength && 0 <= y < sideLength ==>
                   grid[x, y] == if Coord(x, y) in block.Coords() then block.name else old(grid[x, y]))
      ensures block.inGrid ==>
                (next.None? <==> Full()) &&
                (next.Some? ==> IsFree(next.value) && forall c :: IsFree(c) ==> AnchorLe(next.value, c))
    {
      next := Some(startPoint);
      var fits := PutBlockToGrid(block, startPoint);
      if fits {
        ghost var cs := block.Coords();
        block.SetInGrid(true);
        assert block.Coords() == cs;
        next := GetNextFreePoint();
      }
    }

    /**
     * A turn seen from the whole search: the blocks in the grid stay where the grid says they
     * are, since a block lands only on cells that were free, and no block other than the one
     * tried changes.
     */
    method Turn(block: Block, point: Coord, ghost blocks: seq<Block>) returns (next: Option<Coord>)
      requires Valid() && block in blocks && block.Valid() && Disjoint(blocks) && Placed(blocks)
      modifies grid, block`inGrid, block`tried, block.points
      ensures Placed(blocks)
      ensures block.hasBeenFirst == old(block.hasBeenFirst)
      ensures (old(block.inGrid) ==> block.inGrid) && old(block.tried) <= block.tried
      ensures !old(block.inGrid || point in block.tried) ==> block.inGrid || point in block.tried
      ensures next.Some? ==> next.value == point || InRange(next.value)
      ensures next != Some(point) ==> !old(block.inGrid || point in block.tried) && block.inGrid
      ensures next.None? ==> Full()
      ensures (next == Some(point) && unchanged(grid)) || (next.Some? && FirstFree(next.value)) || next.None?
    {
      next := TryBlock(block, point);
      if !old(block.inGrid) && block.inGrid {
        ghost var cs := block.Coords();
        forall b | b in blocks && b != block
          ensures Marks(b)
          ensures b.inGrid && b.name != EmptyValue ==> forall p :: p in b.points ==> p.Value() !in cs
        {
          assert b.points !! block.points;
          assert old(Marks(b));
          if b.inGrid {
            forall p | p in b.points
              ensures 0 <= p.x < sideLength && 0 <= p.y < sideLength
              ensures b.name != EmptyValue ==> p.Value() !in cs && grid[p.x, p.y] == b.name
            {
              assert p.Value() == old(p.Value());
            }
          }
        }
        forall p | p in block.points
          ensures 0 <= p.x < sideLength && 0 <= p.y < sideLength && grid[p.x, p.y] == block.name
        {
          assert p.Value() in cs;
        }
        assert Marks(block);
        forall b1, b2 | b1 in blocks && b2 in blocks && b1 != b2
          ensures Apart(b1, b2)
        {
          if b1 != block && b2 != block {
            assert old(Apart(b1, b2));
            assert b1.points !! block.points && b2.points !! block.points;
          } else if b1.inGrid && b2.inGrid && b1.name != EmptyValue && b2.name != EmptyValue {
            forall p1, p2 | p1 in b1.points && p2 in b2.points
              ensures p1.Value() != p2.Value()
            {
              if b1 == block {
                assert p1.Value() in cs;
              } else {
                assert p2.Value() in cs;
              }
            }
          }
        }
      }
    }

    /** A turn seen as progress of the search: nothing is undone, and a block that tries the point or lands advances it. */
    method Step(block: Block, point: Coord, ghost blocks: seq<Block>, ghost k: int) returns (next: Option<Coord>)
      requires Valid() && 0 <= k < |blocks| && blocks[k] == block && block.Valid() && Disjoint(blocks) && Placed(blocks)
      modifies grid, block`inGrid, block`tried, block.points
      ensures Placed(blocks)
      ensures Grown(old(InGridOf(blocks)), old(TriedOf(blocks)), InGridOf(blocks), TriedOf(blocks))
      ensures !old(block.inGrid || point in block.tried) ==>
                Advanced(old(InGridOf(blocks)), old(TriedOf(blocks)), InGridOf(blocks), TriedOf(blocks), point)
      ensures next.Some? ==> next.value == point || InRange(next.value)
      ensures next != Some(point) ==> !old(block.inGrid || point in block.tried) && block.inGrid
      ensures next.None? ==> Full()
      ensures (next == Some(point) && unchanged(grid)) || (next.Some? && FirstFree(next.value)) || next.None?
    {
      ghost var ig0, tr0 := InGridOf(blocks), TriedOf(blocks);
      next := Turn(block, point, blocks);
      ghost var ig1, tr1 := InGridOf(blocks), TriedOf(blocks);
      forall j | 0 <= j < |blocks|
        ensures (ig0[j] ==> ig1[j]) && tr0[j] <= tr1[j]
      {
        if blocks[j] != block {
          assert blocks[j].inGrid == old(blocks[j].inGrid) && blocks[j].tried == old(blocks[j].tried);
        }
      }
      if !old(block.inGrid || point in block.tried) {
        assert !ig0[k] && point !in tr0[k];
        assert ig1[k] || point in tr1[k];
      }
    }

    /**
     * One turn inside a pass whose start point was c and which began in state (ig0, tr0),
     * taken in state (ig, tr) and ending in state (ig', tr'): the turn keeps the progress of
     * the pass, with what it owes carried from position lo to lo'.
     */
    method Visit(block: Block, point: Coord, blocks: seq<Block>, ghost k: int,
                 ghost ig0: seq<bool>, ghost tr0: seq<seq<Coord>>, ghost ig: seq<bool>, ghost tr: seq<seq<Coord>>,
                 ghost c: Coord, ghost owing: bool, ghost w: int, ghost lo: int, ghost lo': int)
      returns (next: Option<Coord>, ghost ig': seq<bool>, ghost tr': seq<seq<Coord>>)
      requires Valid() && 0 <= k < |blocks| && blocks[k] == block && Disjoint(blocks) && AllValid(blocks) && Placed(blocks)
      requires ig == InGridOf(blocks) && tr == TriedOf(blocks)
      requires point == c || InRange(point)
      requires PassProgress(ig0, tr0, ig, tr, c, Some(point), owing, w, lo)
      requires 0 <= lo' <= lo || (lo == k && lo' == k + 1)
      modifies grid, block`inGrid, block`tried, block.points
      ensures Placed(blocks)
      ensures ig' == InGridOf(blocks) && tr' == TriedOf(blocks)
      ensures next.Some? ==> next.value == c || InRange(next.value)
      ensures PassProgress(ig0, tr0, ig', tr', c, next, owing, w, lo')
      ensures next.None? ==> block.inGrid && Full()
      ensures (next == Some(point) && unchanged(grid)) || (next.Some? && FirstFree(next.value)) || next.None?
    {
      next := Step(block, point, blocks, k);
      ig', tr' := InGridOf(blocks), TriedOf(blocks);
      TurnKeepsProgress(ig0, tr0, ig, tr, ig', tr', c, point, next, k, w, lo, lo', owing);
    }

    /**
     * The try block of fitWithStartingBlock: one pass of the inner loop. It starts with the
     * given block, or with the first block of the list when there is none, and then takes the
     * remaining blocks of the list in order (all of them after a given block), each for one
     * turn at the current start point. It ends normally after the last block of the list, with
     * no block; or, when getNextFreePoint finds the grid full, at once, with the block that has
     * just landed and the start point that was current when it landed.
     */
    method Pass(startBlock: Block?, startPoint: Coord, blocks: seq<Block>) returns (last: Block?, point: Coord, noFreePoint: bool)
      requires Valid() && blocks != [] && (startBlock != null ==> startBlock in blocks)
      requires Disjoint(blocks) && AllValid(blocks) && Placed(blocks)
      modifies grid, blocks`inGrid, blocks`tried, PointsOf(blocks)
      ensures Placed(blocks)
      ensures Grown(old(InGridOf(blocks)), old(TriedOf(blocks)), InGridOf(blocks), TriedOf(blocks))
      ensures point == startPoint || InRange(point)
      ensures !noFreePoint ==> last == null
      ensures noFreePoint ==> last != null && last in blocks && last.inGrid && Full()
      ensures CanAdvance(old(InGridOf(blocks)), old(TriedOf(blocks)), startPoint) ==>
                Advanced(old(InGridOf(blocks)), old(TriedOf(blocks)), InGridOf(blocks), TriedOf(blocks), startPoint)
      ensures !noFreePoint ==> (point == startPoint && unchanged(grid)) || FirstFree(point)
    {
      ghost var ig0, tr0 := InGridOf(blocks), TriedOf(blocks);
      ghost var owing, w := PassStarts(ig0, tr0, startPoint);
      var block := if startBlock == null then blocks[0] else startBlock;
      var from := if startBlock == null then 1 else 0;
      ghost var k := if startBlock == null then 0 else IndexOf(blocks, startBlock);
      PointsOfHas(blocks, block);
      var next, ig, tr := Visit(block, startPoint, blocks, k, ig0, tr0, ig0, tr0, startPoint, owing, w, 0, from);
      if next.None? {
        PassEnds(ig0, tr0, ig, tr, startPoint, next, owing, w, from);
        return block, startPoint, true;
      }
      last, point, noFreePoint := Sweep(blocks, from, next.value, ig0, tr0, startPoint, owing, w);
    }

    /**
     * The rest of a pass that started at c in state (ig0, tr0): the blocks from position
     * from on, in order, each for one turn, beginning at point.
     */
    method Sweep(blocks: seq<Block>, from: nat, point0: Coord,
                 ghost ig0: seq<bool>, ghost tr0: seq<seq<Coord>>, ghost c: Coord, ghost owing: bool, ghost w: int)
      returns (last: Block?, point: Coord, noFreePoint: bool)
      requires Valid() && from <= |blocks| && Disjoint(blocks) && AllValid(blocks) && Placed(blocks)
      requires point0 == c || InRange(point0)
      requires PassProgress(ig0, tr0, InGridOf(blocks), TriedOf(blocks), c, Some(point0), owing, w, from)
      modifies grid, blocks`inGrid, blocks`tried, PointsOf(blocks)
      ensures Placed(blocks)
      ensures Grown(ig0, tr0, InGridOf(blocks), TriedOf(blocks))
      ensures point == c || InRange(point)
      ensures !noFreePoint ==> last == null
      ensures noFreePoint ==> last != null && last in blocks && last.inGrid && Full()
      ensures owing ==> Advanced(ig0, tr0, InGridOf(blocks), TriedOf(blocks), c)
      ensures !noFreePoint ==> (point == point0 && unchanged(grid)) || FirstFree(point)
    {
      var i := from;
      var next := Some(point0);
      point := point0;
      ghost var ig, tr := InGridOf(blocks), TriedOf(blocks);
      last := null;
      while next.Some? && i < |blocks|
        invariant from <= i <= |blocks| && (next.None? ==> last != null && last in blocks && last.inGrid && Full())
        invariant Placed(blocks)
        invariant ig == InGridOf(blocks) && tr == TriedOf(blocks)
        invariant point == c || InRange(point)
        invariant next.Some? ==> next.value == c || InRange(next.value)
        invariant PassProgress(ig0, tr0, ig, tr, c, next, owing, w, i)
        invariant next.Some? ==> (next.value == point0 && unchanged(grid)) || FirstFree(next.value)
        decreases |blocks| - i
      {
        point := next.value;
        last := blocks[i];
        PointsOfHas(blocks, last);
        next, ig, tr := Visit(last, point, blocks, i, ig0, tr0, ig, tr, c, owing, w, i, i + 1);
        i := i + 1;
      }
      PassEnds(ig0, tr0, ig, tr, c, next, owing, w, i);
      if next.Some? {
        return null, next.value, false;
      }
      noFreePoint := true;
    }

    /**
     * FitToGrid.fitWithStartingBlock: passes over the list, the first one starting with the
     * given block at the given point, each later one with the block and point the previous one
     * stopped at, for as long as some block is neither in the grid nor has tried the current
     * point and the last pass did not find the grid full with every block in it. The answer is
     * whether every block is in the grid; when it is not, the loop stopped because no block
     * outside the grid could still try the anchor point last it ended at. Nothing put into the
     * grid is taken out, blocks only land on free cells, and the loop ends because every pass
     * after the first brings a block into the grid or has a block try the current point for
     * the first time.
     */
    method FitWithStartingBlock(startBlock: Block, startPoint: Coord, blocks: seq<Block>) returns (allIn: bool, ghost last: Coord)
      requires Valid() && startBlock in blocks
      requires Disjoint(blocks) && AllValid(blocks) && Placed(blocks)
      modifies grid, blocks`inGrid, blocks`tried, PointsOf(blocks)
      ensures Placed(blocks)
      ensures Grown(old(InGridOf(blocks)), old(TriedOf(blocks)), InGridOf(blocks), TriedOf(blocks))
      ensures allIn <==> forall b :: b in blocks ==> b.inGrid
      ensures !allIn ==> !NotTriedAll(blocks, last)
      ensures last == startPoint || InRange(last)
      ensures (last == startPoint && unchanged(grid)) || FirstFree(last) || Full()
    {
      ghost var ig0, tr0 := InGridOf(blocks), TriedOf(blocks);
      var block: Block?, point, noFreePoint := Pass(startBlock, startPoint, blocks);
      var allFit := noFreePoint && AreAllBlocksInTheGrid(blocks);
      ghost var ig1, tr1 := InGridOf(blocks), TriedOf(blocks);
      label passed:
      last := Retry(block, point, allFit, blocks);
      GrownTransitive(ig0, tr0, ig1, tr1, InGridOf(blocks), TriedOf(blocks));
      allIn := AreAllBlocksInTheGrid(blocks);
      if last == point && unchanged@passed(grid) {
        assert old@passed(FirstFree(point) || Full()) ==> FirstFree(point) || Full();
      }
    }

    /**
     * The do-while of fitWithStartingBlock after its first pass, which ended with the given
     * block and at point0, and with allFit when it found the grid full with every block in it:
     * more passes, each with the block and point the previous one stopped at, while some block
     * outside the grid can still try the current point. It answers the point it stopped at:
     * point0 with the grid as it was, or the first free cell, or any point on a full grid.
     */
    method Retry(block0: Block?, point0: Coord, allFit0: bool, blocks: seq<Block>) returns (point: Coord)
      requires Valid() && blocks != [] && (block0 != null ==> block0 in blocks)
      requires Disjoint(blocks) && AllValid(blocks) && Placed(blocks)
      requires allFit0 ==> forall b :: b in blocks ==> b.inGrid
      modifies grid, blocks`inGrid, blocks`tried, PointsOf(blocks)
      ensures Placed(blocks)
      ensures Grown(old(InGridOf(blocks)), old(TriedOf(blocks)), InGridOf(blocks), TriedOf(blocks))
      ensures !(forall b :: b in blocks ==> b.inGrid) ==> !NotTriedAll(blocks, point)
      ensures point == point0 || InRange(point)
      ensures (point == point0 && unchanged(grid)) || FirstFree(point) || Full()
    {
      ghost var ig0, tr0 := InGridOf(blocks), TriedOf(blocks);
      ghost var universe := Cells() + {point0};
      var block := block0;
      var allFit := allFit0;
      var noFreePoint;
      point := point0;
      while NotTriedAll(blocks, point) && !allFit
        invariant block != null ==> block in blocks
        invariant point in universe
        invariant Placed(blocks)
        invariant Grown(ig0, tr0, InGridOf(blocks), TriedOf(blocks))
        invariant allFit ==> forall b :: b in blocks ==> b.inGrid
        invariant (point == point0 && unchanged(grid)) || FirstFree(point) || Full()
        decreases Unplaced(InGridOf(blocks)), Untried(TriedOf(blocks), universe)
      {
        ghost var ig, tr := InGridOf(blocks), TriedOf(blocks);
        NotTriedAllAt(blocks, point);
        ghost var c := point;
        label before:
        block, point, noFreePoint := Pass(block, point, blocks);
        if !noFreePoint && point == c && unchanged@before(grid) {
          assert old@before(FirstFree(c) || Full()) ==> FirstFree(c) || Full();
        }
        allFit := noFreePoint && AreAllBlocksInTheGrid(blocks);
        AdvancedDecreases(ig, tr, InGridOf(blocks), TriedOf(blocks), c, universe);
        GrownTransitive(ig0, tr0, ig, tr, InGridOf(blocks), TriedOf(blocks));
        if point != c {
          InCells(point);
        }
      }
      if point != point0 {
        assert point in Cells();
      }
    }

    /** block.setHasBeenFirst(true), seen from the list: only that block's flag is set. */
    method MarkStarted(block: Block, ghost blocks: seq<Block>)
      modifies block`hasBeenFirst
      ensures block.hasBeenFirst
      ensures FirstOf(blocks) == Started(old(FirstOf(blocks)), blocks, block)
    {
      block.SetHasBeenFirst(true);
    }

    /**
     * The body of fitBlocks' do-while for a block of the ordered list that has not been the
     * starting block. It is marked as started, and for each start point on the bottom row that
     * leaves room for its base, in order, the search is run with it as the starting block
     * until one run puts every block into the grid. The attempts record what each start point
     * came to.
     */
    method TryStarter(block: Block, blocks: seq<Block>)
      returns (allFit: bool, ghost attempts: seq<Attempt>, ghost coords: seq<set<Coord>>)
      requires Valid() && block in blocks && !block.hasBeenFirst
      requires Disjoint(blocks) && AllValid(blocks) && Placed(blocks)
      modifies grid, blocks`inGrid, blocks`tried, block`hasBeenFirst, PointsOf(blocks)
      ensures Placed(blocks)
      ensures FirstOf(blocks) == Started(old(FirstOf(blocks)), blocks, block)
      ensures RanThrough(attempts, StartPoints(sideLength, block.baseWidth), allFit, |blocks|, sideLength)
      ensures allFit ==> forall b :: b in blocks ==> b.inGrid
      ensures !allFit ==> Cleared(blocks)
      ensures Tracked(attempts, coords, sideLength) && coords[0] == old(block.Coords()) && coords[|attempts|] == block.Coords()
      ensures |attempts| > 0 ==> (attempts[0].Refused? <==> !old(CanPlace(block.Coords())))
    {
      ghost var cs := block.Coords();
      MarkStarted(block, blocks);
      assert block.Coords() == cs;
      allFit, attempts, coords := RunStarter(block, blocks);
    }

    /** The rest of the body once the block is marked: its start points, and the loop over them. */
    method RunStarter(block: Block, blocks: seq<Block>)
      returns (allFit: bool, ghost attempts: seq<Attempt>, ghost coords: seq<set<Coord>>)
      requires Valid() && block in blocks && Disjoint(blocks) && AllValid(blocks) && Placed(blocks)
      modifies grid, blocks`inGrid, blocks`tried, PointsOf(blocks)
      ensures Placed(blocks)
      ensures FirstOf(blocks) == old(FirstOf(blocks))
      ensures RanThrough(attempts, StartPoints(sideLength, block.baseWidth), allFit, |blocks|, sideLength)
      ensures allFit ==> forall b :: b in blocks ==> b.inGrid
      ensures !allFit ==> Cleared(blocks)
      ensures Tracked(attempts, coords, sideLength) && coords[0] == old(block.Coords()) && coords[|attempts|] == block.Coords()
      ensures |attempts| > 0 ==> (attempts[0].Refused? <==> !old(CanPlace(block.Coords())))
    {
      ghost var firsts := FirstOf(blocks);
      var firstBlockStartPoints := GetAvailableStartingPoints(block);
      allFit, attempts, coords := TryStartPoints(block, firstBlockStartPoints, blocks);
      assert FirstOf(blocks) == firsts;
    }

    /**
     * One start point of the loop of fitBlocks: doesBlockFit on the block where it stands,
     * and the search from the point when that holds. A refusal changes nothing; a search is
     * recorded with the in-grid flags and tried lists it leaves and the anchor point it
     * stopped at.
     */
    method TryStartPoint(block: Block, point: Coord, blocks: seq<Block>) returns (allFit: bool, ghost a: Attempt)
      requires Valid() && block in blocks && Disjoint(blocks) && AllValid(blocks) && Placed(blocks)
      modifies grid, blocks`inGrid, blocks`tried, PointsOf(blocks)
      ensures Placed(blocks)
      ensures a.start == point && Concluded(a, |blocks|) && (allFit <==> Succeeded(a))
      ensures a.Refused? <==> !old(CanPlace(block.Coords()))
      ensures a.Refused? ==>
                a.at == old(block.Coords()) && unchanged(grid) && unchanged(PointsOf(blocks)) &&
                InGridOf(blocks) == old(InGridOf(blocks)) && TriedOf(blocks) == old(TriedOf(blocks))
      ensures a.Searched? ==>
                a.inGrid == InGridOf(blocks) && a.tried == TriedOf(blocks) && (a.last == point || InRange(a.last))
      ensures allFit ==> forall b :: b in blocks ==> b.inGrid
      ensures old(AllEmpty()) ==> (a.Refused? <==> Overhangs(old(block.Coords()), sideLength))
    {
      ghost var at := block.Coords();
      if AllEmpty() {
        EmptyPlace(at);
      }
      var fits := DoesBlockFit(block, point);
      allFit := false;
      if fits {
        allFit, a := SearchFrom(block, point, blocks);
      } else {
        a := Refused(point, at);
      }
    }

    /** The search from one start point, and where it stopped. */
    method SearchFrom(block: Block, point: Coord, blocks: seq<Block>) returns (allFit: bool, ghost a: Attempt)
      requires Valid() && block in blocks && Disjoint(blocks) && AllValid(blocks) && Placed(blocks)
      modifies grid, blocks`inGrid, blocks`tried, PointsOf(blocks)
      ensures Placed(blocks)
      ensures a.Searched? && a.start == point && a.allIn == allFit && Concluded(a, |blocks|)
      ensures a.inGrid == InGridOf(blocks) && a.tried == TriedOf(blocks)
      ensures a.last == point || InRange(a.last)
      ensures (a.last == point && unchanged(grid)) || FirstFree(a.last) || Full()
      ensures allFit <==> forall b :: b in blocks ==> b.inGrid
    {
      ghost var last;
      allFit, last := FitWithStartingBlock(block, point, blocks);
      NotTriedAllAt(blocks, last);
      a := Searched(point, allFit, last, InGridOf(blocks), TriedOf(blocks));
      assert forall j :: 0 <= j < |blocks| ==> blocks[j] in blocks;
    }

    /** On an empty grid, coordinates can be placed exactly when they all lie on the grid. */
    lemma EmptyPlace(cs: set<Coord>)
      requires Valid() && AllEmpty()
      ensures !CanPlace(cs) <==> Overhangs(cs, sideLength)
    {
      if !CanPlace(cs) {
        ghost var c :| c in cs && !IsFree(c);
      }
    }

    /**
     * One pass of the loop of fitBlocks over the start points: the start point is tried, and
     * when that did not put every block into the grid, the grid is emptied and the blocks are
     * cleaned.
     */
    method StartAt(block: Block, point: Coord, blocks: seq<Block>, ghost cs: set<Coord>) returns (allFit: bool, ghost a: Attempt)
      requires Valid() && block in blocks && Disjoint(blocks) && AllValid(blocks) && Placed(blocks) && cs == block.Coords()
      modifies grid, blocks`inGrid, blocks`tried, PointsOf(blocks)
      ensures Placed(blocks)
      ensures a.start == point && Concluded(a, |blocks|) && (allFit <==> Succeeded(a))
      ensures allFit ==> forall b :: b in blocks ==> b.inGrid
      ensures !allFit ==> Cleared(blocks)
      ensures a.Refused? <==> !old(CanPlace(cs))
      ensures old(AllEmpty()) ==> (a.Refused? <==> Overhangs(cs, sideLength))
      ensures a.Refused? ==> a.at == cs == block.Coords()
    {
      allFit, a := TryStartPoint(block, point, blocks);
      if !allFit {
        PointsOfHas(blocks, block);
        Reset(blocks);
      }
    }

    /** emptyGrid and cleanBlocks: no block is moved. */
    method Reset(blocks: seq<Block>)
      requires Valid()
      modifies grid, blocks`inGrid, blocks`tried
      ensures Cleared(blocks) && Placed(blocks) && unchanged(PointsOf(blocks))
    {
      EmptyGrid();
      CleanBlocks(blocks);
    }

    /**
     * The loop of fitBlocks over the start points of one starting block. The check made before
     * each run is doesBlockFit, which looks at the block where it stands, not at the start
     * point. After each failed start point, and once more after the last, the grid is emptied
     * and the blocks are cleaned. The first start point is refused exactly when the block
     * cannot be placed where it stands in the grid as it was; coords tracks where the block
     * stood from there on.
     */
    method TryStartPoints(block: Block, firstBlockStartPoints: seq<Coord>, blocks: seq<Block>)
      returns (allFit: bool, ghost attempts: seq<Attempt>, ghost coords: seq<set<Coord>>)
      requires Valid() && block in blocks && Disjoint(blocks) && AllValid(blocks) && Placed(blocks)
      modifies grid, blocks`inGrid, blocks`tried, PointsOf(blocks)
      ensures Placed(blocks)
      ensures RanThrough(attempts, firstBlockStartPoints, allFit, |blocks|, sideLength)
      ensures allFit ==> forall b :: b in blocks ==> b.inGrid
      ensures !allFit ==> Cleared(blocks)
      ensures Tracked(attempts, coords, sideLength) && coords[0] == old(block.Coords()) && coords[|attempts|] == block.Coords()
      ensures |attempts| > 0 ==> (attempts[0].Refused? <==> !old(CanPlace(block.Coords())))
    {
      allFit, attempts, coords := RunStartPoints(block, firstBlockStartPoints, blocks);
      if !allFit {
        PointsOfHas(blocks, block);
        Reset(blocks);
      }
    }

    /** The while loop of TryStartPoints, without the clean-up after it. */
    method RunStartPoints(block: Block, firstBlockStartPoints: seq<Coord>, blocks: seq<Block>)
      returns (allFit: bool, ghost attempts: seq<Attempt>, ghost coords: seq<set<Coord>>)
      requires Valid() && block in blocks && Disjoint(blocks) && AllValid(blocks) && Placed(blocks)
      modifies grid, blocks`inGrid, blocks`tried, PointsOf(blocks)
      ensures Placed(blocks)
      ensures RanThrough(attempts, firstBlockStartPoints, allFit, |blocks|, sideLength)
      ensures allFit ==> forall b :: b in blocks ==> b.inGrid
      ensures !allFit && |attempts| > 0 ==> Cleared(blocks)
      ensures Tracked(attempts, coords, sideLength) && coords[0] == old(block.Coords()) && coords[|attempts|] == block.Coords()
      ensures |attempts| > 0 ==> (attempts[0].Refused? <==> !old(CanPlace(block.Coords())))
    {
      allFit := false;
      attempts := [];
      coords := [block.Coords()];
      ghost var canPlace := CanPlace(block.Coords());
      var j := 0;
      while !allFit && j < |firstBlockStartPoints|
        invariant 0 <= j <= |firstBlockStartPoints| && |attempts| == j
        invariant Placed(blocks)
        invariant allFit ==> forall b :: b in blocks ==> b.inGrid
        invariant !allFit && j > 0 ==> Cleared(blocks)
        invariant Recorded(attempts, coords, firstBlockStartPoints, allFit, |blocks|, sideLength, canPlace)
        invariant coords[0] == old(block.Coords()) && coords[j] == block.Coords()
        invariant j == 0 ==> CanPlace(block.Coords()) == canPlace
        decreases |firstBlockStartPoints| - j
      {
        var firstStartPoint := firstBlockStartPoints[j];
        ghost var a;
        allFit, a := StartAt(block, firstStartPoint, blocks, coords[j]);
        RecordedStep(attempts, coords, firstBlockStartPoints, a, block.Coords(), allFit, |blocks|, sideLength, canPlace);
        attempts := attempts + [a];
        coords := coords + [block.Coords()];
        j := j + 1;
      }
    }

    /**
     * FitToGrid.fitBlocks. An empty list, and blocks with more points in total than the grid
     * has cells, are refused before anything changes. Otherwise the blocks are ordered widest
     * first and the search runs on that list. The result then holds this grid and the ordered
     * list when every block is in the grid, and is None otherwise. The starts record every
     * block tried as the starting block and what each of its start points came to: the result
     * is Some exactly when one of those searches put every block into the grid, and None
     * comes only after every block that had not started was tried.
     */
    method FitBlocks(blocks: seq<Block>) returns (r: Result<Option<FittingResult>, FitError>, ghost starts: seq<Start>)
      requires Valid() && Disjoint(blocks) && AllValid(blocks) && Placed(blocks)
      modifies grid, (set b | b in blocks), PointsOf(blocks)
      ensures blocks == [] ==> r == Failure(NoBlocks)
      ensures blocks != [] && PointCount(blocks) > sideLength * sideLength ==> r == Failure(TooManyPoints)
      ensures r.Failure? ==> unchanged(grid) && unchanged(blocks) && unchanged(PointsOf(blocks))
      ensures blocks != [] && PointCount(blocks) <= sideLength * sideLength ==> r.Success?
      ensures Placed(blocks)
      ensures r.Success? && r.value.Some? ==>
                fresh(r.value.value) && r.value.value.grid == grid && r.value.value.blocks == OrderByMaxWidth(blocks) &&
                forall b :: b in blocks ==> b.inGrid
      ensures r.Success? && r.value.None? ==> forall b :: b in blocks ==> b.hasBeenFirst
      ensures r.Success? && r.value.None? && (exists b :: b in blocks && !old(b.hasBeenFirst)) ==> Cleared(blocks)
      ensures r.Failure? ==> starts == []
      ensures forall k :: 0 <= k < |starts| ==> starts[k].block in blocks && !old(starts[k].block.hasBeenFirst)
      ensures r.Success? ==> AllRan(starts, r.value.Some?, |blocks|, sideLength)
      ensures r.Success? ==>
                (r.value.Some? <==>
                   exists k, i :: 0 <= k < |starts| && 0 <= i < |starts[k].attempts| && Succeeded(starts[k].attempts[i]))
      ensures r.Success? && r.value.None? ==> forall b :: b in blocks && !old(b.hasBeenFirst) ==> b in Starters(starts)
      ensures forall k1, k2 :: 0 <= k1 < k2 < |starts| ==> starts[k1].block != starts[k2].block
    {
      starts := [];
      if |blocks| == 0 {
        return Failure(NoBlocks), starts;
      }
      var pointCount := PointCount(blocks);
      if pointCount > sideLength * sideLength {
        return Failure(TooManyPoints), starts;
      }
      var found;
      found, starts := SearchOrdered(blocks);
      return Success(found), starts;
    }

    /**
     * The part of fitBlocks after the checks: order the blocks, run the starting blocks in
     * turn, and wrap the grid and the ordered list in a result when a search succeeded.
     */
    method SearchOrdered(blocks: seq<Block>) returns (found: Option<FittingResult>, ghost starts: seq<Start>)
      requires Valid() && blocks != [] && Disjoint(blocks) && AllValid(blocks) && Placed(blocks)
      modifies grid, (set b | b in blocks), PointsOf(blocks)
      ensures Placed(blocks)
      ensures found.Some? ==>
                fresh(found.value) && found.value.grid == grid && found.value.blocks == OrderByMaxWidth(blocks) &&
                forall b :: b in blocks ==> b.inGrid
      ensures found.None? ==> forall b :: b in blocks ==> b.hasBeenFirst
      ensures found.None? && (exists b :: b in blocks && !old(b.hasBeenFirst)) ==> Cleared(blocks)
      ensures forall k :: 0 <= k < |starts| ==> starts[k].block in blocks && !old(starts[k].block.hasBeenFirst)
      ensures AllRan(starts, found.Some?, |blocks|, sideLength)
      ensures found.Some? <==>
                exists k, i :: 0 <= k < |starts| && 0 <= i < |starts[k].attempts| && Succeeded(starts[k].attempts[i])
      ensures found.None? ==> forall b :: b in blocks && !old(b.hasBeenFirst) ==> b in Starters(starts)
      ensures forall k1, k2 :: 0 <= k1 < k2 < |starts| ==> starts[k1].block != starts[k2].block
    {
      var orderedBlocks := OrderByMaxWidth(blocks);
      SameMembers(blocks, orderedBlocks);
      PlacedSame(blocks, orderedBlocks);
      assert Disjoint(orderedBlocks) && AllValid(orderedBlocks);
      var allFit;
      allFit, starts := StartEach(orderedBlocks);
      PlacedSame(blocks, orderedBlocks);
      SomeSucceeded(starts, allFit, |blocks|, sideLength);
      if allFit {
        var result := new FittingResult(grid, orderedBlocks);
        return Some(result), starts;
      }
      return None, starts;
    }

    /**
     * The do-while of fitBlocks: the blocks of the ordered list in turn, each that has not been
     * the starting block tried as the starting block, while some block has not started and no
     * search has put every block into the grid. On failure every block has started, and the
     * grid and the blocks are cleared if any search ran. The starts record, in order, every
     * block that was tried as the starting block and what each of its start points came to;
     * only the last of them can have succeeded, and on failure every block that had not
     * started on entry is among them.
     */
    method StartEach(blocks: seq<Block>) returns (allFit: bool, ghost starts: seq<Start>)
      requires Valid() && blocks != [] && Disjoint(blocks) && AllValid(blocks) && Placed(blocks)
      modifies grid, blocks`inGrid, blocks`tried, blocks`hasBeenFirst, PointsOf(blocks)
      ensures Placed(blocks)
      ensures allFit ==> forall b :: b in blocks ==> b.inGrid
      ensures !allFit ==> forall b :: b in blocks ==> b.hasBeenFirst
      ensures !allFit && (exists b :: b in blocks && !old(b.hasBeenFirst)) ==> Cleared(blocks)
      ensures forall k :: 0 <= k < |starts| ==> starts[k].block in blocks && !old(starts[k].block.hasBeenFirst)
      ensures AllRan(starts, allFit, |blocks|, sideLength)
      ensures !allFit ==> forall b :: b in blocks && !old(b.hasBeenFirst) ==> b in Starters(starts)
      ensures StartedOnce(starts)
    {
      ghost var started0 := FirstOf(blocks);
      ghost var started := started0;
      ghost var at := [];
      allFit := false;
      starts := [];
      var next := 0;
      while next == 0 || (NotAllBlocksStarted(blocks) && next < |blocks| && !allFit)
        invariant 0 <= next <= |blocks| && |started| == |blocks|
        invariant next == 0 ==> !allFit
        invariant Placed(blocks)
        invariant FirstOf(blocks) == started
        invariant forall k :: 0 <= k < next ==> started[k]
        invariant allFit ==> forall b :: b in blocks ==> b.inGrid
        invariant !allFit && |starts| > 0 ==> Cleared(blocks)
        invariant |starts| == 0 ==> started == started0
        invariant Covers(starts, at, blocks, started0, started)
        invariant StartedOnly(starts, blocks, started)
        invariant AllRan(starts, allFit, |blocks|, sideLength)
        decreases |blocks| - next
      {
        if !blocks[next].hasBeenFirst {
          allFit, started, starts, at := StartBlock(blocks, next, started0, started, starts, at);
        } else {
          StartedThrough(started, next);
        }
        next := next + 1;
      }
      forall k | 0 <= k < |starts|
        ensures starts[k].block in blocks && !old(starts[k].block.hasBeenFirst)
      {
        assert starts[k].block == blocks[at[k]] && !started0[at[k]];
      }
      if !allFit {
        assert forall k :: 0 <= k < |blocks| ==> started[k];
        assert forall b :: b in blocks ==> b.hasBeenFirst;
      }
    }

    /**
     * One pass of the do-while of fitBlocks on a block that has not been the starting block:
     * the block is tried as the starting block, its flag is set, and the run joins the starts.
     */
    method StartBlock(blocks: seq<Block>, next: int, ghost started0: seq<bool>, ghost started: seq<bool>,
                      ghost starts: seq<Start>, ghost at: seq<int>)
      returns (allFit: bool, ghost started': seq<bool>, ghost starts': seq<Start>, ghost at': seq<int>)
      requires Valid() && 0 <= next < |blocks| && FirstOf(blocks) == started && !started[next]
      requires Disjoint(blocks) && AllValid(blocks) && Placed(blocks)
      requires forall k :: 0 <= k < next ==> started[k]
      requires Covers(starts, at, blocks, started0, started) && AllRan(starts, false, |blocks|, sideLength)
      requires StartedOnly(starts, blocks, started)
      modifies grid, blocks`inGrid, blocks`tried, blocks`hasBeenFirst, PointsOf(blocks)
      ensures Placed(blocks)
      ensures FirstOf(blocks) == started' && forall k :: 0 <= k <= next ==> started'[k]
      ensures Covers(starts', at', blocks, started0, started') && AllRan(starts', allFit, |blocks|, sideLength)
      ensures StartedOnly(starts', blocks, started')
      ensures |starts'| > 0
      ensures allFit ==> forall b :: b in blocks ==> b.inGrid
      ensures !allFit ==> Cleared(blocks)
    {
      var block := blocks[next];
      ghost var attempts, coords;
      allFit, attempts, coords := TryStarter(block, blocks);
      StartedUpTo(started, blocks, next);
      CoversStep(starts, at, blocks, started0, started, next, attempts, coords);
      StartedOnlyStep(starts, blocks, started, next, Start(block, attempts, coords));
      AllRanStep(starts, Start(block, attempts, coords), allFit, |blocks|, sideLength);
      started' := Started(started, blocks, block);
      starts' := starts + [Start(block, attempts, coords)];
      at' := at + [next];
    }
  }
}
