# Block fitting: a verified Dafny model

The repository solves a small packing puzzle. An input file lists polyomino-like blocks, one
per line, as `<name>:<x>,<y>;<x>,<y>;...`. `FitToGrid` tries to place every block, without
rotation, into an N x N grid of characters. `'-'` marks an empty cell. The search is
backtracking:

- The blocks are ordered widest base row first.
- Each block in turn becomes the starting block. It is tried at every bottom-row position that
  leaves room for its base.
- From each such position, `fitWithStartingBlock` makes passes over the list. Every block not
  yet in the grid is offered the current anchor point, at most once per block and point. A block
  that lands moves the anchor point to the next free cell, scanning rows bottom-up and each row
  left to right.
- The result holds the grid and the ordered list when every block is in the grid.

The model keeps the program's own structure:

- `Point`, `Block`, `FitToGrid` and `FittingResult` are Dafny classes with the same fields.
  Point objects are mutable and shared: shifting a block moves its point objects in place.
- The grid is an `array2<char>` indexed `[x, y]`.
- The parser reads every line of the file into values first, then builds the objects.

Modules:

| module | file | models |
|---|---|---|
| `Outcomes` | outcomes.dfy | `Option`, `Result` and the Java exceptions that escape the modelled code |
| `Text` | text.dfy | `String.split` with a one-character separator, `Integer.parseInt`, `Integer.toString`, `Integer.compare` |
| `Points` | points.dfy | `Point`, and coordinate values with their lowest-left order and translations |
| `Blocks` | blocks.dfy | `Block`, including its base width, shifting and text form |
| `Sorting` | sorting.dfy | a stable sort by an integer key, the model of `Stream.sorted` |
| `Progress` | progress.dfy | the measure that shows the search loop of `fitWithStartingBlock` ends |
| `Results` | results.dfy | `FittingResult` and the lines its two print methods write |
| `Solver` | solver.dfy | `FitToGrid` |
| `MaxWidth` | maxwidth.dfy | the `MaxWidth` comparator |
| `Parser` | parser.dfy | `CodeTest.parseInputFile` |
| `Coverage` | coverage.dfy | what a successful fit means when the block sizes add up to N * N |

The main results:

- **Safety of the search.** `FitBlocks` and every method under it keep `Placed`:
  - every block in the grid has its points on grid cells holding its name;
  - no two blocks in the grid share a cell;
  - the search only puts a block onto cells that were free.
- **Outcomes of `fitBlocks`.**
  - An empty list is refused and nothing changes. So is a list with more points than cells.
  - A returned result holds this very grid, the list sorted by descending base width, and every
    block is in the grid.
  - `null` (here `None`) means every block has been the starting block. When some block had not
    been the starting block on entry, the grid and the blocks have also been cleared.
  - The search's record (`Solver.Start`, `Solver.Attempt`) is ghost. It lists the blocks
    tried as the starting block, each of which had not started on entry, and none of them twice. For each of them it
    lists, in order, what the start points taken came to, and where the block stood before
    each:
    - the first start point is refused, with no search, exactly when `doesBlockFit` fails
      on the block where it stands (`TryStarter` states this against the grid of that
      moment);
    - a later start point is refused exactly when the block stands partly off the grid,
      which was emptied after the previous attempt;
    - a refusal leaves the block where it was;
    - a search records its answer and that it stopped at one of the loop's two exits: every
      block is in the grid, or no block outside the grid can still try the last anchor point.
  - A result is returned exactly when some recorded search put every block into the grid, and
    only the last search can have done so. `null` comes only after every block that had not
    started on entry was tried at every one of its start points.
  - The contracts do not say which blocks a search puts into the grid. So they do not say
    whether a search succeeds, nor that a fit is found whenever one exists.
- **Termination.** The loop of `fitWithStartingBlock` ends. Every pass after the first either
  brings a block into the grid or has a block try the current anchor point for the first time
  (`Progress.AdvancedDecreases`).
- **Shifting.** `shiftBlockToPoint` puts the block's lowest-left point on the requested point and
  keeps the block's shape (`Points.Shape`). The block moves even when a copy is returned, because
  the copy shares its point objects.
- **Free-cell scan.** `getNextFreePoint` returns the first free cell in bottom-up, left-to-right
  order. It fails exactly when the grid is full.
- **Full grid.** No cell is left empty when all of the following hold
  (`Coverage.FullWhenSizesAddUp`):
  - every block is in the grid and none is named `'-'`;
  - no block has two points with the same coordinates;
  - no block object appears twice in the list;
  - the block sizes add up to N * N.
- **Parser round trip.**
  - The parser fails exactly when some line fails, with that line's exception.
  - Otherwise it returns one fresh block per line, with the line's name and coordinates. No two
    of these blocks share a point object.
  - A line written by `getBlockAsString` for a block with points reads back as the same block
    (`Parser.ParseLineOfBlockString`), unless the block is named `':'`. Such a line starts with
    `"::"`, so its `values[1]` is empty, and the line fails.
- **Orders.** The sorts used are permutations, are ordered, and are stable. `MaxWidth` is a
  lawful comparator, the reverse of `Block.compareTo`.

Three details of the code that the model keeps:

- `parseInputFile` reads the points from `values[1]` of `line.split(":")`. That is the text
  between the first and second `':'` of the line.
- The copy constructor `Block(Block)` puts the same point objects into a new set. Shifting the
  copy therefore moves the original.
- The comment on `orderByMaxWidth` (FitToGrid.java:356) says the order is ascending. The code
  sorts with `Block.compareTo` (Block.java:143-146), which puts wider blocks first, so the
  order is by descending base width. `Stream.sorted` is stable, so blocks of equal width keep
  their input order.

## Model

| member | source | states |
|---|---|---|
| Points.Point.constructor | src/main/java/Point.java:15-19 | the new point has the given coordinates |
| Points.Point.SetX | src/main/java/Point.java:31-34 | x is replaced and y is kept |
| Points.Point.SetY | src/main/java/Point.java:36-39 | y is replaced and x is kept |
| Points.Point.Equals | src/main/java/Point.java:58-73 | equal iff the other point is non-null with the same coordinates; equal points have equal hash codes (hashCode at lines 45-53) |
| Points.Point.ToString | src/main/java/Point.java:78-82 | the text is "(" ... ")", and the text inside the parentheses parses back to this point |
| Points.ToStringIdentifiesPoint | src/main/java/Point.java:78-82 | two points print alike iff they are equal |
| Points.LowestLeft | src/main/java/Block.java:114-124 | the chosen coordinate is in the set and comes first by y, then by x |
| Points.TranslateCard | src/main/java/Block.java:153-166 | moving every coordinate by the same offset keeps the number of distinct coordinates |
| Points.AnchoredFromShape | src/main/java/FitToGrid.java:327-353 | a set is determined by its shape and its lowest-left coordinate |
| Points.ParsePair | src/main/java/CodeTest.java:84-87 | only an index or number-format exception can escape, and text without ',' always fails |
| Points.ParsePairOfPairString | src/main/java/CodeTest.java:84-87 | splitting "x,y" on ',' and parsing both pieces gives back (x, y) |
| Text.ParseIntOfIntToString | src/main/java/CodeTest.java:85-87 | Integer.parseInt reads back the decimal text of every int |
| Text.ParseInt | src/main/java/CodeTest.java:85-87 | a parsed value is negative only when the text starts with '-', a non-empty run of digits always parses to a non-negative value, and parsed text holds a digit |
| Text.Split | src/main/java/CodeTest.java:77-78 | no piece contains the separator; the whole text is the only piece iff the separator does not occur; otherwise the last piece, if any, is not empty |
| Text.SplitOfJoin | src/main/java/CodeTest.java:77-78 | split undoes joining pieces that do not contain the separator when the last piece is not empty |
| Text.DropTrailingEmpty | src/main/java/CodeTest.java:77-78 | split's trailing-empty removal returns a prefix that ends in a non-empty piece, and drops only empty pieces |
| Blocks.FindBaseWidth | src/main/java/Block.java:75-85 | fails (Optional.get) iff there are no points; otherwise the number of points on the lowest row, between 1 and the block's size |
| Blocks.MinY | src/main/java/Block.java:131-134 | the least y among the points, attained by some point |
| Blocks.Block.constructor | src/main/java/Block.java:27-32 | keeps the caller's set itself, computes the base width, and starts with empty search state |
| Blocks.Block.Copy | src/main/java/Block.java:39-45 | same name and base width, the SAME point objects, and fresh search state; the Java HashSet holds the same objects when no two points share coordinates |
| Blocks.Block.GetMinXValue | src/main/java/Block.java:103-106 | the least x among the points, attained by some point |
| Blocks.Block.GetLowestLeftPoint | src/main/java/Block.java:114-134 | the coordinates of a point of the block with the least y and, among those, the least x |
| Blocks.Block.CompareTo | src/main/java/Block.java:143-146 | negative, zero or positive exactly when this block is wider than, as wide as, or narrower than the other |
| Blocks.Block.ShiftXValues | src/main/java/Block.java:153-156 | every point object moves by d along x in place; the block's coordinates are translated; the base width and the absence of repeated coordinates are kept |
| Blocks.Block.ShiftYValues | src/main/java/Block.java:163-166 | every point object moves by d along y in place; the block's coordinates are translated; the base width and the absence of repeated coordinates are kept |
| Blocks.Block.SetInGrid | src/main/java/Block.java:57-60 | sets only the in-grid flag |
| Blocks.Block.SetHasBeenFirst | src/main/java/Block.java:67-70 | sets only the has-been-first flag |
| Blocks.Block.AddTriedStartPoint | src/main/java/Block.java:208-211 | appends the point to the tried list, after which hasTriedStartPointBefore holds for it |
| Blocks.Block.CleanTried | src/main/java/Block.java:227-231 | out of the grid with nothing tried; has-been-first untouched |
| Blocks.Block.Equals | src/main/java/Block.java:184-196 | equal iff the other block is non-null with the same name; equal blocks have equal hash codes (hashCode at lines 172-178) |
| Blocks.EqualityIgnoresPoints | src/main/java/Block.java:172-196 | blocks with the same name are equal both ways and hash alike, whatever their points |
| Blocks.BlockString | src/main/java/Block.java:252-275 | starts with the name; is the name alone iff there are no coordinates; otherwise ':' follows the name |
| Blocks.Block.GetBlockAsString | src/main/java/Block.java:252-275 | starts with the block's name, followed by ':' when the block has points |
| Blocks.SortedXY | src/main/java/Block.java:254-266 | as many entries as coordinates, each one of them, in strictly ascending x-then-y order |
| Blocks.SortedXYMembers | src/main/java/Block.java:254-266 | every coordinate of the set appears in the sorted sequence, and nothing else does |
| Blocks.BlockStringJoins | src/main/java/Block.java:268-274 | for a non-empty block, deleting the last character leaves the name, ':' and the points joined by ';' |
| MaxWidth.Compare | src/main/java/MaxWidth.java:7-10 | negative, zero or positive as the first block's base width is less than, equal to, or greater than the second's; the value is -1, 0 or 1 |
| MaxWidth.CompareAntisymmetric | src/main/java/MaxWidth.java:7-10 | swapping the arguments negates the result |
| MaxWidth.CompareTransitive | src/main/java/MaxWidth.java:7-10 | the order it defines is transitive |
| MaxWidth.CompareOpposesCompareTo | src/main/java/MaxWidth.java:7-10 | it orders blocks the opposite way to Block.compareTo |
| Sorting.SortBy | src/main/java/FitToGrid.java:363-366 | the output is a permutation of the input |
| Sorting.SortBySorted | src/main/java/FitToGrid.java:363-366 | the sort's output is ordered by the key |
| Sorting.SortByStable | src/main/java/FitToGrid.java:363-366 | elements with equal keys keep their input order |
| Sorting.SortBySortedInput | src/main/java/FitToGrid.java:363-366 | sorting an ordered list leaves it unchanged |
| Sorting.InsertSorted | src/main/java/FitToGrid.java:363-366 | inserting into an ordered list keeps it ordered |
| Solver.PointCount | src/main/java/FitToGrid.java:40 | the total is 0 for no blocks and at least the size of every block |
| Solver.OrderByMaxWidth | src/main/java/FitToGrid.java:361-369 | the result is a permutation of the blocks, and its base widths never increase |
| Solver.OrderByMaxWidthOrder | src/main/java/FitToGrid.java:361-369 | along the order, blocks are in compareTo order, and blocks of equal width keep their list order |
| Solver.NotTriedAll | src/main/java/FitToGrid.java:236-239 | true iff some block is neither in the grid nor has tried the point |
| Solver.NotTriedAllAt | src/main/java/FitToGrid.java:236-239 | notTriedAll is the same test read per list position, as the termination measure sees it |
| Solver.AreAllBlocksInTheGrid | src/main/java/FitToGrid.java:202-205 | true iff every block is in the grid |
| Solver.NotAllBlocksStarted | src/main/java/FitToGrid.java:247-250 | true iff some block has not been the starting block |
| Solver.FitToGrid.constructor | src/main/java/FitToGrid.java:14-20 | a new N x N grid with every cell '-' |
| Solver.FitToGrid.EmptyGrid | src/main/java/FitToGrid.java:119-125 | every cell holds '-' afterwards |
| Solver.FitToGrid.CleanBlocks | src/main/java/FitToGrid.java:111-114 | every block is out of the grid with nothing tried; nothing else changes |
| Solver.FitToGrid.DoesBlockFit | src/main/java/FitToGrid.java:294-316 | true iff every point of the block, where it is now, is a grid cell holding '-'; the point argument is ignored, as in the code |
| Solver.FitToGrid.ShiftBlockToPoint | src/main/java/FitToGrid.java:327-353 | the block's lowest-left point ends on the given point with its shape unchanged; the block itself is returned iff it was already there, otherwise a fresh copy sharing its points |
| Solver.FitToGrid.PutBlockToGrid | src/main/java/FitToGrid.java:260-285 | refuses without moving anything when the base is wider than the room right of the point; otherwise the block is moved onto the point, and it fits iff all its cells were free; then exactly those cells take its name and no other cell changes |
| Solver.FitToGrid.PlaceIfFree | src/main/java/FitToGrid.java:271-281 | fits iff all the block's cells are free; then exactly those cells take its name, otherwise the grid is unchanged |
| Solver.FitToGrid.WriteName | src/main/java/FitToGrid.java:273-276 | exactly the block's cells take its name |
| Solver.FitToGrid.GetNextFreePoint | src/main/java/FitToGrid.java:378-421 | a free cell that no free cell precedes in bottom-up, left-to-right order; none (the exception) iff the grid is full |
| Solver.StartPoints | src/main/java/FitToGrid.java:214-226 | exactly the bottom-row points at which the base row ends inside the grid |
| Solver.FitToGrid.GetAvailableStartingPoints | src/main/java/FitToGrid.java:214-226 | (0,0), (1,0), ... in order: exactly the bottom-row points that leave room for the base row, as StartPoints lists them |
| Solver.FitToGrid.TryBlock | src/main/java/FitToGrid.java:154-165 | a block in the grid, or one that has tried the point, is skipped; otherwise the point is recorded, and if the block lands on free cells its name is written and the next free cell is returned (none iff the grid is full) |
| Solver.FitToGrid.Land | src/main/java/FitToGrid.java:159-163 | a landed block is in the grid on cells that were free, and the next point is the first free cell |
| Solver.FitToGrid.Turn | src/main/java/FitToGrid.java:150-179 | one turn keeps every placed block marked and pairwise apart, only adds to in-grid flags and tried lists, and a changed point means the block landed |
| Solver.FitToGrid.Step | src/main/java/FitToGrid.java:150-179 | a turn undoes no progress, and a block that tries the point or lands advances the search |
| Solver.FitToGrid.Visit | src/main/java/FitToGrid.java:150-179 | a turn keeps the progress of the pass it belongs to |
| Solver.FitToGrid.Pass | src/main/java/FitToGrid.java:144-188 | one pass keeps the placement, undoes nothing, ends on a full grid only with the block that just landed, and advances the search when some block could try the start point |
| Solver.FitToGrid.Sweep | src/main/java/FitToGrid.java:150-179 | the rest of a pass keeps the placement and the progress of the pass |
| Solver.FitToGrid.FitWithStartingBlock | src/main/java/FitToGrid.java:135-194 | ends, keeps every placed block marked and apart, undoes nothing, and answers true iff every block is in the grid; when it answers false, no block outside the grid can still try the anchor point the loop ended at; that point is the start point with the grid untouched, or the first free cell, or any grid point on a full grid |
| Solver.FitToGrid.Retry | src/main/java/FitToGrid.java:140-191 | the passes after the first keep the placement, undo nothing, and stop only with every block in the grid or no block outside it able to try the current point; that point is the entry point with the grid untouched, the first free cell, or lies on a full grid |
| Solver.FitToGrid.SearchFrom | src/main/java/FitToGrid.java:73-77 | the search from one start point is recorded with the point, its answer, the anchor point it stopped at and exactly the in-grid flags and tried lists it leaves; the record shows one of the loop's two exits |
| Solver.FitToGrid.EmptyPlace | src/main/java/FitToGrid.java:294-316 | on an empty grid, doesBlockFit refuses a block iff some point of it lies off the grid |
| Solver.FitToGrid.TryStartPoint | src/main/java/FitToGrid.java:71-77 | a start point is refused (no search) iff doesBlockFit fails on the block where it stands; a refusal records where the block stood and changes nothing; a search is recorded with the flags and tried lists it leaves; on an empty grid a refusal means the block stands partly off the grid |
| Solver.FitToGrid.StartAt | src/main/java/FitToGrid.java:71-85 | one start point taken by the loop: refused iff doesBlockFit fails where the block stands, with that position recorded; on success every block is in the grid, otherwise the grid is empty and the blocks are cleared |
| Solver.FitToGrid.Reset | src/main/java/FitToGrid.java:79-85 | emptyGrid and cleanBlocks: every cell is empty and every block out of the grid with nothing tried; no point moves |
| Solver.FitToGrid.TryStartPoints | src/main/java/FitToGrid.java:66-92 | the record has one attempt per start point taken, in order, and stops at the first success or after the last point; it tracks where the block stood before each attempt, from where it stood on entry: the first point is refused iff doesBlockFit failed there, a later one iff the block stood partly off the emptied grid, and a refusal leaves the block in place; on success every block is in the grid, otherwise the grid is empty and the blocks are cleared |
| Solver.FitToGrid.RunStartPoints | src/main/java/FitToGrid.java:66-86 | the while loop alone: the same record and tracking, and the blocks are cleared after a failed last attempt |
| Solver.TrackedStep | src/main/java/FitToGrid.java:69-86 | an attempt made where the block last stood, refused iff the block overhangs the grid and left in place when refused, extends the tracking of the loop |
| Solver.RecordedStep | src/main/java/FitToGrid.java:69-86 | a further start point, taken after failures, extends both the record of the loop and its tracking |
| Solver.FitToGrid.TryStarter | src/main/java/FitToGrid.java:58-94 | marks only this block as started and runs through exactly its available start points, with the record and tracking of TryStartPoints; on success every block is in the grid, otherwise the grid is empty and the blocks are cleared |
| Solver.FitToGrid.MarkStarted | src/main/java/FitToGrid.java:61 | setHasBeenFirst sets this block's flag and no other in the list |
| Solver.FitToGrid.RunStarter | src/main/java/FitToGrid.java:64-92 | the start points and the loop over them leave every block's started flag as it was, and keep the record and tracking of TryStartPoints |
| Solver.RanUpToStep | src/main/java/FitToGrid.java:66-92 | a further start point taken after failures extends the record of the loop |
| Solver.AllRanStep | src/main/java/FitToGrid.java:50-96 | a further starting block taken after failures extends the record of the do-while |
| Solver.StartedOnlyStep | src/main/java/FitToGrid.java:58-61 | starting a block whose flag is clear keeps the recorded starting blocks distinct, since each recorded block's flag is set |
| Solver.CoversStep | src/main/java/FitToGrid.java:50-96 | starting a block whose flag is clear keeps the link between set flags and recorded starting blocks |
| Solver.SomeSucceeded | src/main/java/FitToGrid.java:99-103 | the search succeeded iff some recorded search put every block into the grid |
| Solver.FitToGrid.StartBlock | src/main/java/FitToGrid.java:59-94 | one starting block is tried at all its start points and joins the record with where it stood before each; its flag and those before it are set |
| Solver.FitToGrid.StartEach | src/main/java/FitToGrid.java:50-96 | on success every block is in the grid; on failure every block has started, and everything is cleared if any search ran; the record holds only blocks that had not started on entry, each once, only its last entry can have succeeded, and on failure it holds every such block |
| Solver.FitToGrid.SearchOrdered | src/main/java/FitToGrid.java:47-103 | with the checks passed: the result, when present, holds this grid and the blocks ordered by descending base width with every block in the grid; it is present iff one of the recorded searches put every block into the grid; when absent every block has started, everything is cleared if any block had not started on entry, and every such block was tried; no block is recorded twice as the starting block; placed blocks never overlap |
| Solver.FitToGrid.FitBlocks | src/main/java/FitToGrid.java:29-104 | refuses an empty list and too many points without changing anything; otherwise the result holds this grid and the blocks ordered by descending base width, with every block in the grid, or is none after every block has started; the result is present iff one of the recorded searches put every block into the grid, and none only after every block that had not started was tried; no block is the starting block twice; placed blocks never overlap |
| Progress.AdvancedDecreases | src/main/java/FitToGrid.java:140-191 | a pass that advances shrinks the set of blocks outside the grid or the set of untried (block, point) pairs, so the loop ends |
| Progress.GrownShrinks | src/main/java/FitToGrid.java:140-191 | a pass that undoes nothing does not grow either set |
| Progress.PassEnds | src/main/java/FitToGrid.java:144-188 | a pass that reached the end of the list or found the grid full has undone nothing, and has advanced when it owed progress |
| Results.ByName | src/main/java/FittingResult.java:50-53 | the name order is a permutation of the list, sorted by name |
| Results.ByNameOrder | src/main/java/FittingResult.java:50-53 | blocks with the same name keep their list order |
| Results.CoordinateLines | src/main/java/FittingResult.java:56-59 | the header, then getBlockAsString of each block in order |
| Results.FittingResult.constructor | src/main/java/FittingResult.java:9-13 | keeps the grid and the list themselves |
| Results.FittingResult.GetGrid | src/main/java/FittingResult.java:15-18 | the stored grid itself, not a copy |
| Results.FittingResult.GetBlocks | src/main/java/FittingResult.java:20-23 | the stored list itself |
| Results.FittingResult.PrintGrid | src/main/java/FittingResult.java:28-40 | the header, then one line per row from top to bottom, with cell x written as "(c) "; an index failure iff the grid has more columns than rows |
| Results.FittingResult.PrintCoordinates | src/main/java/FittingResult.java:45-60 | the header, then each block's text in name order |
| Parser.MapOrFailEach | src/main/java/CodeTest.java:76-93 | the loop succeeds iff every line succeeds, and then gives each line's result in order |
| Parser.MapOrFailAt | src/main/java/CodeTest.java:76-93 | the loop's exception is that of the first failing line |
| Parser.ParseLine | src/main/java/CodeTest.java:77-91 | a line without ':' fails on values[1] with an index exception; a parsed line has at least one point |
| Parser.ParseLines | src/main/java/CodeTest.java:76-93 | the file parses iff every line parses, and then gives each line's entry in order |
| Parser.ParseLineName | src/main/java/CodeTest.java:77-91 | a parsed line is named by its first character and has at least one point |
| Parser.ParseLineOfBlockString | src/main/java/CodeTest.java:77-91 | the line getBlockAsString writes reads back as a block of the same name and coordinates |
| Parser.ParseLinesOfBlockStrings | src/main/java/CodeTest.java:76-93 | a file of such lines reads back as those blocks, in order |
| Parser.ParsedEntriesHavePoints | src/main/java/CodeTest.java:91 | every line of a parsed file has at least one point, so Block's constructor does not throw |
| Parser.MakePoints | src/main/java/CodeTest.java:79-89 | the set has exactly the line's coordinates, each on one fresh point object (HashSet.add skips equal points) |
| Parser.MakeBlock | src/main/java/CodeTest.java:79-92 | a fresh block with the line's name and coordinates, no repeated coordinate, the computed base width, and points no earlier block holds |
| Parser.MakeBlocks | src/main/java/CodeTest.java:76-93 | one fresh block per line in order; no two share an object or a point |
| Parser.ParseInputFile | src/main/java/CodeTest.java:70-96 | fails iff some line fails, with the first such exception; otherwise one fresh block per line in order, each built from its line, all distinct and sharing no point |
| Coverage.Rectangle | src/main/java/FitToGrid.java:42 | the grid's cells: N * N of them, exactly those with both coordinates in range |
| Coverage.CoordsUnionSize | src/main/java/FitToGrid.java:40 | blocks that share no cell cover as many cells as their sizes add up to (pointCount) |
| Coverage.FullWhenSizesAddUp | src/main/java/FitToGrid.java:29-104 | after a successful fit with sizes adding up to N * N, no block named '-' and no repeated coordinate, no cell is left empty |

## Left out

- Reading the file (`Files.readAllLines`) and `main`: `ParseInputFile` takes the file's lines as
  a parameter. The console output of `printGrid` and `printCoordinates` is returned as lines.
- `Block.toString`: it is only used for debugging output.
- `Block.getSize`, `getName`, `getPoints`, `getBaseWidth`, `isInGrid`, `hasBeenFirst`, and the
  `Point` getters are read as fields. `Block.hashCode`, `Point.hashCode` and
  `Block.hasTriedStartPointBefore` are functions with no contract of their own. Their
  properties are in `Equals` and `AddTriedStartPoint`.
- 32-bit `int` arithmetic: coordinates, `Integer.parseInt` and the hash codes are unbounded
  integers. Overflow on out-of-range input text, and hash wrap-around, are not modelled.
- `Parser.ParseInputFile`: `Integer.parseInt` accepts every Unicode decimal digit
  (`Character.digit`), while the model accepts only the ASCII digits '0' to '9'. Strings are
  sequences of characters, so `charAt(0)` on a name outside the Basic Multilingual Plane, which
  Java stores as two UTF-16 units, is not modelled.
- `Parser.ParseInputFile`: the Java loop creates each line's points and block before it reads
  the next line. The model reads every line first. The result and the exception are the same,
  because an exception discards what was created.
- `Solver.FitToGrid.FitBlocks`: it requires the blocks to be placed consistently on entry, with
  no points shared between blocks. Blocks fresh from the parser satisfy this. The Java code
  accepts any list, including blocks left in the grid by an earlier call.
- `Solver.FitToGrid.FitBlocks`: it does not carry "no repeated coordinate in a block" through
  the search. `Coverage.FullWhenSizesAddUp` takes it as a hypothesis instead. Parsed blocks have
  it, and the shifts keep it.
- `Solver.FitToGrid.FitBlocks`: the contracts state safety, the order of the attempts, why
  each search stopped, and when a start point is refused. They do not state whether a search
  returns a result: a search's record is tied to the state only until the grid is emptied
  after it, and no contract pins down which blocks a search places.
- `Solver.FitToGrid.DoesBlockFit`: the code that tries each starting position checks the block
  where it currently is, not at the start point. This is reproduced as written and not claimed
  to be intended.
- `Parser.MakeBlocks`: it states freshness of the blocks and their point sets. It does not state
  that the list itself is new.
- `Blocks.Block.constructor`: it requires a non-empty point set. The Java constructor throws
  `NoSuchElementException` from `findBaseWidth` on an empty set. `Blocks.FindBaseWidth` models
  that failure, and the parser returns it before it builds a block.
- `Blocks.Block.Copy`: the Java copy constructor adds the points to a new `HashSet`, which keeps
  only one of two point objects with equal coordinates. The model keeps the set as it is. The
  two agree when no two points of the block have equal coordinates. Parsed blocks have that
  property, and shifting keeps it.
- Exceptions from a null list or null elements: Dafny references in the model are non-null.
- `FitToGrid.isGridPointEmpty`: it is folded into `IsFree`.
