/**
 * FittingResult.java: the grid and block list of a successful search, and the two text
 * renderings of them. The renderers return the lines they would print.
 */
module Results {
  import opened Outcomes
  import opened Blocks
  import opened Sorting

  const GridHeader: string := "---- Blocks in the grid ----"
  const CoordinatesHeader: string := "---- Coordinates of the blocks ----"

  /** How printGrid writes one cell. */
  function Cell(c: char): string {
    ['(', c, ')', ' ']
  }

  /** The four characters a printed row spends on cell x. */
  function CellOf(line: string, x: nat): string
    requires 4 * x + 4 <= |line|
  {
    line[4 * x..4 * x + 4]
  }

  /** The key of printCoordinates' comparator: Character.compare on the names. */
  function NameKey(b: Block): int {
    b.name as int
  }

  /** printCoordinates' order: by name, blocks with the same name in list order. */
  function ByName(blocks: seq<Block>): (r: seq<Block>)
    ensures multiset(r) == multiset(blocks)
    ensures forall i, j :: 0 <= i < j < |r| ==> r[i].name <= r[j].name
  {
    SortBySorted(blocks, NameKey);
    SortBy(blocks, NameKey)
  }

  /** Blocks with the same name keep their list order. */
  lemma ByNameOrder(blocks: seq<Block>, c: char)
    ensures WithKey(ByName(blocks), NameKey, c as int) == WithKey(blocks, NameKey, c as int)
  {
    SortByStable(blocks, NameKey, c as int);
  }

  /** The header, then getBlockAsString of each block of bs in order. */
  method CoordinateLines(bs: seq<Block>) returns (lines: seq<string>)
    ensures |lines| == |bs| + 1 && lines[0] == CoordinatesHeader
    ensures forall j :: 1 <= j < |lines| ==> lines[j] == bs[j - 1].GetBlockAsString()
  {
    lines := [CoordinatesHeader];
    for j := 0 to |bs|
      invariant |lines| == j + 1 && lines[0] == CoordinatesHeader
      invariant forall i :: 1 <= i < |lines| ==> lines[i] == bs[i - 1].GetBlockAsString()
    {
      var line := bs[j].GetBlockAsString();
      lines := lines + [line];
    }
  }

  class FittingResult {
    const grid: array2<char>
    const blocks: seq<Block>

    /** Keeps the grid and the list themselves, not copies. */
    constructor (grid0: array2<char>, blocks0: seq<Block>)
      ensures grid == grid0 && blocks == blocks0
    {
      grid := grid0;
      blocks := blocks0;
    }

    function GetGrid(): (g: array2<char>)
      ensures g == grid
    {
      grid
    }

    function GetBlocks(): (bs: seq<Block>)
      ensures bs == blocks
    {
      blocks
    }

    /**
     * FittingResult.printGrid: the header, then one line per row from y = n - 1 down to 0, each
     * cell x = 0 .. n - 1 written as "(c) ", where n is the grid's first dimension. A grid with
     * more columns (first dimension) than rows (second dimension) fails on its first cell.
     */
    method PrintGrid() returns (r: Result<seq<string>, JavaException>)
      ensures r.Failure? <==> grid.Length0 > grid.Length1
      ensures r.Success? ==> |r.value| == grid.Length0 + 1 && r.value[0] == GridHeader
      ensures r.Success? ==> forall j :: 1 <= j < |r.value| ==> |r.value[j]| == 4 * grid.Length0
      ensures r.Success? ==> forall j, x: nat ::
                1 <= j < |r.value| && x < grid.Length0 ==>
                  CellOf(r.value[j], x) == Cell(grid[x, grid.Length0 - j])
    {
      var n := grid.Length0;
      if n > grid.Length1 {
        return Failure(IndexOutOfBounds);
      }
      var lines := [GridHeader];
      var i := n - 1;
      while i >= 0
        invariant -1 <= i < n
        invariant |lines| == n - i && lines[0] == GridHeader
        invariant forall j :: 1 <= j < |lines| ==> |lines[j]| == 4 * n
        invariant forall j, x: nat ::
                    1 <= j < |lines| && x < n ==> CellOf(lines[j], x) == Cell(grid[x, n - j])
      {
        var row := "";
        var k := 0;
        while k < n
          invariant 0 <= k <= n
          invariant |row| == 4 * k
          invariant forall x: nat :: x < k ==> CellOf(row, x) == Cell(grid[x, i])
        {
          var extended := row + Cell(grid[k, i]);
          assert forall x: nat :: x < k ==> CellOf(extended, x) == CellOf(row, x);
          assert CellOf(extended, k) == Cell(grid[k, i]);
          row := extended;
          k := k + 1;
        }
        lines := lines + [row];
        i := i - 1;
      }
      return Success(lines);
    }

    /**
     * FittingResult.printCoordinates: the header, then getBlockAsString of each block in name
     * order.
     */
    method PrintCoordinates() returns (lines: seq<string>)
      ensures |lines| == |blocks| + 1 && lines[0] == CoordinatesHeader
      ensures forall j :: 1 <= j < |lines| ==> lines[j] == ByName(blocks)[j - 1].GetBlockAsString()
    {
      var orderedByName := ByName(blocks);
      lines := CoordinateLines(orderedByName);
    }
  }
}
