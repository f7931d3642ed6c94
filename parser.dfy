/**
 * CodeTest.parseInputFile: every line of the input file becomes one block. A line is
 * "<name>:<x>,<y>;<x>,<y>;..."; the name is the first character before the first ':', the
 * points are the text between the first and the second ':' split on ';', each split on ','.
 * Reading the file is left to the caller, who passes its lines.
 */
module Parser {
  import opened Outcomes
  import opened Text
  import opened Points
  import opened Blocks
  import opened Solver

  /** What one line says: the block's name and its points in line order, repeats included. */
  datatype Entry = Entry(name: char, coords: seq<Coord>)

  /**
   * f applied to every element in order, stopping at the first failure, as a Java loop stops
   * at the first exception.
   */
  function MapOrFail<T, U>(xs: seq<T>, f: T -> Result<U, JavaException>): (r: Result<seq<U>, JavaException>)
    ensures r.Success? ==> |r.value| == |xs|
  {
    if xs == [] then Success([])
    else match f(xs[0])
      case Failure(e) => Failure(e)
      case Success(y) =>
        match MapOrFail(xs[1..], f)
        case Failure(e) => Failure(e)
        case Success(ys) => Success([y] + ys)
  }

  /** Success exactly when every element succeeds, and then the results in element order. */
  lemma {:induction false} MapOrFailEach<T, U>(xs: seq<T>, f: T -> Result<U, JavaException>)
    ensures MapOrFail(xs, f).Success? <==> forall i :: 0 <= i < |xs| ==> f(xs[i]).Success?
    ensures MapOrFail(xs, f).Success? ==>
              |MapOrFail(xs, f).value| == |xs| &&
              forall i :: 0 <= i < |xs| ==> f(xs[i]) == Success(MapOrFail(xs, f).value[i])
  {
    if xs != [] {
      MapOrFailEach(xs[1..], f);
      assert forall i :: 1 <= i < |xs| ==> xs[i] == xs[1..][i - 1];
    }
  }

  /** The error of the whole is the error of the first failing element. */
  lemma {:induction false} MapOrFailAt<T, U>(xs: seq<T>, f: T -> Result<U, JavaException>, j: int)
    requires 0 <= j < |xs| && f(xs[j]).Failure?
    requires forall k :: 0 <= k < j ==> f(xs[k]).Success?
    ensures MapOrFail(xs, f) == Failure(f(xs[j]).error)
  {
    if j > 0 {
      assert forall k :: 0 <= k < j - 1 ==> xs[1..][k] == xs[k + 1];
      assert xs[1..][j - 1] == xs[j];
      MapOrFailAt(xs[1..], f, j - 1);
      assert f(xs[0]).Success?;
    }
  }

  function CoordSet(cs: seq<Coord>): set<Coord> {
    set c | c in cs
  }

  lemma CoordSetEmpty(cs: seq<Coord>)
    ensures CoordSet(cs) == {} <==> cs == []
  {
    if cs != [] {
      assert cs[0] in CoordSet(cs);
    }
  }

  /**
   * One line, as the loop body reads it: values[1] of split(":") (an index failure when the
   * line has no second piece), every point in order, then charAt(0) of values[0] (an index
   * failure when it is empty), then the constructor, which fails on an empty point set.
   */
  function ParseLine(line: string): (r: Result<Entry, JavaException>)
    ensures ':' !in line ==> r == Failure(IndexOutOfBounds)
    ensures r.Success? ==> r.value.coords != []
  {
    var values := Split(line, ':');
    if |values| < 2 then Failure(IndexOutOfBounds)
    else match MapOrFail(Split(values[1], ';'), ParsePair)
      case Failure(e) => Failure(e)
      case Success(cs) =>
        if |values[0]| == 0 then Failure(IndexOutOfBounds)
        else if cs == [] then Failure(NoSuchElement)
        else Success(Entry(values[0][0], cs))
  }

  /** The whole file: the first failing line's error, or one entry per line in order. */
  function ParseLines(lines: seq<string>): (r: Result<seq<Entry>, JavaException>)
    ensures r.Success? <==> forall i :: 0 <= i < |lines| ==> ParseLine(lines[i]).Success?
    ensures r.Success? ==> |r.value| == |lines| && forall i :: 0 <= i < |lines| ==> ParseLine(lines[i]) == Success(r.value[i])
  {
    MapOrFailEach(lines, ParseLine);
    MapOrFail(lines, ParseLine)
  }

  /** A parsed line is named by its first character and has at least one point. */
  lemma ParseLineName(line: string)
    requires ParseLine(line).Success?
    ensures |line| >= 1 && ParseLine(line).value.name == line[0]
    ensures ParseLine(line).value.coords != []
  {
    var values := Split(line, ':');
    assert ':' in line;
    assert values <= Pieces(line, ':');
    assert values[0] <= line;
  }

  /** A character outside digits, '-' and ',' never occurs in the text of a point. */
  lemma PairStringAvoids(c: Coord, ch: char)
    requires ch != '-' && ch != ',' && !IsDigit(ch)
    ensures ch !in PairString(c) && |PairString(c)| >= 3
  {
    IntToStringChars(c.x, ch);
    IntToStringChars(c.y, ch);
  }

  lemma {:induction false} JoinAvoids(ps: seq<string>, sep: char, ch: char)
    requires ch != sep && forall i :: 0 <= i < |ps| ==> ch !in ps[i]
    ensures ch !in Join(ps, sep)
    decreases |ps|
  {
    if |ps| > 1 {
      JoinAvoids(ps[1..], sep, ch);
    }
  }

  /** Reading back the texts of points gives the points. */
  lemma PairsOfPairStrings(cs: seq<Coord>)
    ensures MapOrFail(PairStrings(cs), ParsePair) == Success(cs)
  {
    var ps := PairStrings(cs);
    forall i | 0 <= i < |cs|
      ensures ParsePair(ps[i]) == Success(cs[i])
    {
      ParsePairOfPairString(cs[i]);
    }
    MapOrFailEach(ps, ParsePair);
    assert MapOrFail(ps, ParsePair).value == cs;
  }

  /** A one-character name, the separator, then text without it: two pieces. */
  lemma SplitAtName(name: char, rest: string, sep: char)
    requires name != sep && sep !in rest && rest != []
    ensures Split([name, sep] + rest, sep) == [[name], rest]
  {
    assert [name] + [sep] + rest == [name, sep] + rest;
    PiecesSplitsAtFirst([name], rest, sep);
  }

  /**
   * Round trip with Block.getBlockAsString: the line a block prints reads back as a block of
   * the same name and the same coordinates, provided the name is not ':' itself.
   */
  lemma ParseLineOfBlockString(name: char, cs: set<Coord>)
    requires name != ':' && cs != {}
    ensures ParseLine(BlockString(name, cs)) == Success(Entry(name, SortedXY(cs)))
    ensures CoordSet(SortedXY(cs)) == cs
  {
    var xs := SortedXY(cs);
    var ps := PairStrings(xs);
    var joined := Join(ps, ';');
    BlockStringJoins(name, cs);
    forall i | 0 <= i < |ps|
      ensures ':' !in ps[i] && ';' !in ps[i] && |ps[i]| >= 3
    {
      PairStringAvoids(xs[i], ':');
      PairStringAvoids(xs[i], ';');
    }
    JoinAvoids(ps, ';', ':');
    SortedXYMembers(cs);
    assert |ps| >= 1;
    assert |joined| >= |ps[0]|;
    SplitAtName(name, joined, ':');
    SplitOfJoin(ps, ';');
    PairsOfPairStrings(xs);
  }

  /** Every printed block line of a list reads back, in order. */
  lemma ParseLinesOfBlockStrings(lines: seq<string>, names: seq<char>, css: seq<set<Coord>>)
    requires |lines| == |names| == |css|
    requires forall i :: 0 <= i < |lines| ==> names[i] != ':' && css[i] != {} && lines[i] == BlockString(names[i], css[i])
    ensures ParseLines(lines).Success?
    ensures forall i :: 0 <= i < |lines| ==> ParseLines(lines).value[i] == Entry(names[i], SortedXY(css[i]))
  {
    forall i | 0 <= i < |lines|
      ensures ParseLine(lines[i]) == Success(Entry(names[i], SortedXY(css[i])))
    {
      ParseLineOfBlockString(names[i], css[i]);
    }
    MapOrFailEach(lines, ParseLine);
  }

  /** Every entry of a parsed file has at least one point. */
  lemma ParsedEntriesHavePoints(lines: seq<string>)
    requires ParseLines(lines).Success?
    ensures forall e :: e in ParseLines(lines).value ==> e.coords != []
  {
    MapOrFailEach(lines, ParseLine);
    forall i | 0 <= i < |lines|
      ensures ParseLines(lines).value[i].coords != []
    {
      ParseLineName(lines[i]);
    }
  }

  /** A freshly built block holding exactly what its line says, each coordinate once. */
  ghost predicate Built(b: Block, e: Entry)
    reads b, b.points
  {
    b.name == e.name && b.Valid() && b.Coords() == CoordSet(e.coords) && b.Distinct() &&
    b.BaseWidthHolds() && b.tried == [] && !b.inGrid && !b.hasBeenFirst
  }

  /** No two blocks of the list are the same object or share a point object. */
  ghost predicate Separate(blocks: seq<Block>) {
    forall k, l :: 0 <= k < l < |blocks| ==> blocks[k] != blocks[l] && blocks[k].points !! blocks[l].points
  }

  lemma SeparateAppend(blocks: seq<Block>, b: Block)
    requires Separate(blocks)
    requires forall k :: 0 <= k < |blocks| ==> blocks[k] != b && blocks[k].points !! b.points
    ensures Separate(blocks + [b])
  {
    var bs := blocks + [b];
    forall k, l | 0 <= k < l < |bs|
      ensures bs[k] != bs[l] && bs[k].points !! bs[l].points
    {
      assert bs[k] == blocks[k];
    }
  }

  /**
   * The inner loop: a new point object for every coordinate, added to the set unless an equal
   * point (same coordinates) is already in it, as HashSet.add does.
   */
  method MakePoints(cs: seq<Coord>) returns (pointSet: set<Point>)
    ensures CoordsOf(pointSet) == CoordSet(cs)
    ensures DistinctCoords(pointSet) && fresh(pointSet)
  {
    pointSet := {};
    for j := 0 to |cs|
      invariant CoordsOf(pointSet) == CoordSet(cs[..j])
      invariant DistinctCoords(pointSet) && fresh(pointSet)
    {
      var point := new Point(cs[j].x, cs[j].y);
      if point.Value() !in CoordsOf(pointSet) {
        assert CoordsOf(pointSet + {point}) == CoordsOf(pointSet) + {point.Value()};
        pointSet := pointSet + {point};
      }
      assert cs[..j + 1] == cs[..j] + [cs[j]];
      assert CoordSet(cs[..j + 1]) == CoordSet(cs[..j]) + {cs[j]};
    }
    assert cs[..|cs|] == cs;
  }

  /** The block of one parsed line: its point set and new Block(name, pointSet). */
  method MakeBlock(e: Entry, ghost others: seq<Block>) returns (b: Block)
    requires e.coords != []
    ensures Built(b, e) && fresh(b) && fresh(b.points)
    ensures forall k :: 0 <= k < |others| ==> others[k] != b && others[k].points !! b.points
  {
    var pointSet := MakePoints(e.coords);
    CoordsEmpty(pointSet);
    CoordSetEmpty(e.coords);
    b := new Block(e.name, pointSet);
  }

  /** One new block per entry, in order; no two of them are the same object or share a point. */
  method MakeBlocks(es: seq<Entry>) returns (blocks: seq<Block>)
    requires forall e :: e in es ==> e.coords != []
    ensures |blocks| == |es| && forall i :: 0 <= i < |es| ==> Built(blocks[i], es[i])
    ensures forall i :: 0 <= i < |blocks| ==> fresh(blocks[i]) && fresh(blocks[i].points)
    ensures Separate(blocks)
  {
    blocks := [];
    for i := 0 to |es|
      invariant |blocks| == i
      invariant forall k :: 0 <= k < i ==> Built(blocks[k], es[k])
      invariant forall k :: 0 <= k < i ==> fresh(blocks[k]) && fresh(blocks[k].points)
      invariant Separate(blocks)
    {
      var b := MakeBlock(es[i], blocks);
      SeparateAppend(blocks, b);
      blocks := blocks + [b];
    }
  }

  /**
   * CodeTest.parseInputFile over the lines of the file: the first failing line's exception, or
   * one new block per line, in line order, with points no other block shares. Every line is
   * read before any object is created: an exception discards whatever was created, so the
   * order is not observable.
   */
  method ParseInputFile(lines: seq<string>) returns (r: Result<seq<Block>, JavaException>)
    ensures r.Failure? <==> ParseLines(lines).Failure?
    ensures r.Failure? ==> r.error == ParseLines(lines).error
    ensures r.Success? ==> |r.value| == |lines|
    ensures r.Success? ==> forall i :: 0 <= i < |lines| ==> Built(r.value[i], ParseLines(lines).value[i])
    ensures r.Success? ==> Disjoint(r.value) && AllValid(r.value)
    ensures r.Success? ==> forall i :: 0 <= i < |r.value| ==> fresh(r.value[i]) && fresh(r.value[i].points)
    ensures r.Success? ==> forall i, j :: 0 <= i < j < |r.value| ==> r.value[i] != r.value[j]
  {
    var parsed := ParseLines(lines);
    if parsed.Failure? {
      return Failure(parsed.error);
    }
    ParsedEntriesHavePoints(lines);
    var blocks := MakeBlocks(parsed.value);
    return Success(blocks);
  }
}
