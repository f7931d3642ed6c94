/**
 * Block.java: a named set of point objects with a base width fixed at construction, and the
 * per-search state the solver flips (placed in the grid, used as the starting block, the
 * anchor points already offered to it).
 */
module Blocks {
  import opened Outcomes
  import opened Text
  import opened Points

  /** The coordinates of a set of point objects. */
  function CoordsOf(ps: set<Point>): set<Coord>
    reads ps
  {
    set p | p in ps :: p.Value()
  }

  lemma CoordsEmpty(ps: set<Point>)
    ensures CoordsOf(ps) == {} <==> ps == {}
  {
    if ps != {} {
      var p :| p in ps;
      assert p.Value() in CoordsOf(ps);
    }
  }

  /** What a HashSet of points guarantees: no two members are equal. */
  ghost predicate DistinctCoords(ps: set<Point>)
    reads ps
  {
    forall p, q :: p in ps && q in ps && p.Value() == q.Value() ==> p == q
  }

  /** Point objects with pairwise different coordinates have as many coordinates as objects. */
  lemma {:induction false} DistinctCard(ps: set<Point>)
    requires DistinctCoords(ps)
    ensures |CoordsOf(ps)| == |ps|
    decreases |ps|
  {
    if ps != {} {
      var p :| p in ps;
      var rest := ps - {p};
      DistinctCard(rest);
      assert CoordsOf(ps) == CoordsOf(rest) + {p.Value()};
      assert p.Value() !in CoordsOf(rest);
    }
  }

  /** A set of point objects has at most as many coordinates as objects. */
  lemma {:induction false} ImageCard(ps: set<Point>)
    ensures |CoordsOf(ps)| <= |ps|
    decreases |ps|
  {
    if ps != {} {
      var p :| p in ps;
      var rest := ps - {p};
      ImageCard(rest);
      assert CoordsOf(ps) == CoordsOf(rest) + {p.Value()};
    }
  }

  /** Conversely, as many coordinates as objects means no two objects share a coordinate. */
  lemma CardDistinct(ps: set<Point>)
    requires |CoordsOf(ps)| == |ps|
    ensures DistinctCoords(ps)
  {
    forall p, q | p in ps && q in ps && p.Value() == q.Value()
      ensures p == q
    {
      if p != q {
        var rest := ps - {q};
        assert CoordsOf(ps) == CoordsOf(rest);
        ImageCard(rest);
      }
    }
  }

  /** The coordinates recorded for the points of ps. */
  function Image(m: map<Point, Coord>, ps: set<Point>): set<Coord>
    requires ps <= m.Keys
  {
    set p | p in ps :: m[p]
  }

  /**
   * Points that each sit (dx, dy) away from their recorded coordinates have the recorded
   * coordinates moved, as many of them, and the lowest row of the recorded coordinates, moved by
   * dy, is still their lowest row.
   */
  lemma CoordsMoved(ps: set<Point>, m: map<Point, Coord>, dx: int, dy: int, row: set<Point>, minY: int)
    requires ps <= m.Keys
    requires forall p :: p in ps ==> p.Value() == Coord(m[p].x + dx, m[p].y + dy)
    ensures CoordsOf(ps) == Translate(Image(m, ps), dx, dy)
    ensures |CoordsOf(ps)| == |Image(m, ps)|
    ensures ps != {} ==> Image(m, ps) != {} && MinY(ps) == LowestLeft(Image(m, ps)).y + dy
    ensures ps != {} && minY == LowestLeft(Image(m, ps)).y && (forall p :: p in row <==> p in ps && m[p].y == minY) ==>
              BaseRow(ps) == row
  {
    var image := Image(m, ps);
    forall c | c in Translate(image, dx, dy)
      ensures c in CoordsOf(ps)
    {
      var c0 :| c0 in image && c == Coord(c0.x + dx, c0.y + dy);
      var p :| p in ps && m[p] == c0;
      assert p.Value() == c;
    }
    assert CoordsOf(ps) == Translate(image, dx, dy);
    TranslateCard(image, dx, dy);
    if ps != {} {
      var p0 :| p0 in ps;
      assert m[p0] in image;
      LowestLeftTranslate(image, dx, dy);
      assert MinY(ps) == LowestLeft(CoordsOf(ps)).y;
      if minY == LowestLeft(image).y && forall p :: p in row <==> p in ps && m[p].y == minY {
        forall p | p in ps
          ensures p in BaseRow(ps) <==> p in row
        {
          assert p.y == m[p].y + dy;
        }
      }
    }
  }

  /** The least y among the points: the y of their lowest-left coordinate. */
  function MinY(ps: set<Point>): (m: int)
    requires ps != {}
    reads ps
    ensures (exists p :: p in ps && p.y == m) && forall p :: p in ps ==> m <= p.y
  {
    var cs := CoordsOf(ps);
    var p0 :| p0 in ps;
    assert p0.Value() in cs;
    var l := LowestLeft(cs);
    assert forall p :: p in ps ==> p.Value() in cs;
    l.y
  }

  /** The points on the lowest row of the set. */
  function BaseRow(ps: set<Point>): set<Point>
    requires ps != {}
    reads ps
  {
    set p | p in ps && p.y == MinY(ps)
  }

  /** A subset is no larger than the set. */
  lemma SubsetCard<T>(a: set<T>, b: set<T>)
    requires a <= b
    ensures |a| <= |b|
  {
    assert b == a + (b - a);
  }

  /**
   * Block.findBaseWidth: group the points by y and count the group with the least y. An empty
   * set has no such group and Optional.get throws; that is None here.
   */
  function FindBaseWidth(ps: set<Point>): (r: Option<nat>)
    reads ps
    ensures r.None? <==> ps == {}
    ensures r.Some? ==> 1 <= r.value <= |ps|
    ensures r.Some? ==> r.value == |set p | p in ps && p.y == MinY(ps)|
  {
    if ps == {} then None
    else
      var row := BaseRow(ps);
      var p :| p in ps && p.y == MinY(ps);
      assert p in row;
      SubsetCard(row, ps);
      Some(|row|)
  }

  /** b comes no later than a in getBlockAsString's order: by x, then by y. */
  predicate XYLe(a: Coord, b: Coord) {
    a.x < b.x || (a.x == b.x && a.y <= b.y)
  }

  function Swap(c: Coord): Coord {
    Coord(c.y, c.x)
  }

  /** The least member by x, then y. */
  function LeastXY(cs: set<Coord>): (m: Coord)
    requires cs != {}
    ensures m in cs && forall c :: c in cs ==> XYLe(m, c)
  {
    var swapped := set c | c in cs :: Swap(c);
    var c0 :| c0 in cs;
    assert Swap(c0) in swapped;
    var l := LowestLeft(swapped);
    assert forall c :: c in cs ==> Swap(c) in swapped && AnchorLe(l, Swap(c));
    Swap(l)
  }

  /** The members of cs in ascending x-then-y order, each once. */
  function SortedXY(cs: set<Coord>): (r: seq<Coord>)
    ensures |r| == |cs|
    ensures forall i :: 0 <= i < |r| ==> r[i] in cs
    ensures forall i, j :: 0 <= i < j < |r| ==> XYLe(r[i], r[j]) && r[i] != r[j]
    decreases |cs|
  {
    if cs == {} then []
    else
      var m := LeastXY(cs);
      [m] + SortedXY(cs - {m})
  }

  /** Together with SortedXY's own contract: the sorted sequence holds exactly the members of cs. */
  lemma {:induction false} SortedXYMembers(cs: set<Coord>)
    ensures forall c :: c in cs <==> c in SortedXY(cs)
    decreases |cs|
  {
    if cs != {} {
      var m := LeastXY(cs);
      SortedXYMembers(cs - {m});
    }
  }

  function PairStrings(cs: seq<Coord>): (r: seq<string>)
    ensures |r| == |cs| && forall i :: 0 <= i < |cs| ==> r[i] == PairString(cs[i])
  {
    if cs == [] then [] else [PairString(cs[0])] + PairStrings(cs[1..])
  }

  /** Each piece followed by sep: what appending "x,y;" once per point builds. */
  function Terminated(ps: seq<string>, sep: char): string {
    if ps == [] then [] else ps[0] + [sep] + Terminated(ps[1..], sep)
  }

  lemma {:induction false} TerminatedIsJoinPlusSep(ps: seq<string>, sep: char)
    requires |ps| >= 1
    ensures Terminated(ps, sep) == Join(ps, sep) + [sep]
  {
    if |ps| > 1 {
      TerminatedIsJoinPlusSep(ps[1..], sep);
    }
  }

  /**
   * Block.getBlockAsString: the name, ':', then "x,y;" for every point in x-then-y order,
   * and finally the last character deleted.
   */
  function BlockString(name: char, cs: set<Coord>): (r: string)
    ensures |r| >= 1 && r[0] == name
    ensures cs == {} <==> |r| == 1
    ensures cs != {} ==> r[1] == ':'
  {
    var ps := PairStrings(SortedXY(cs));
    var sb := [name, ':'] + Terminated(ps, ';');
    assert cs != {} ==> |Terminated(ps, ';')| > |ps[0]| >= 3;
    sb[..|sb| - 1]
  }

  /** For a non-empty block the deleted character is the final ';', so the pairs are joined by ';'. */
  lemma BlockStringJoins(name: char, cs: set<Coord>)
    requires cs != {}
    ensures BlockString(name, cs) == [name, ':'] + Join(PairStrings(SortedXY(cs)), ';')
  {
    var ps := PairStrings(SortedXY(cs));
    TerminatedIsJoinPlusSep(ps, ';');
    var sb := [name, ':'] + Terminated(ps, ';');
    assert sb == [name, ':'] + Join(ps, ';') + [';'];
  }

  class Block {
    const name: char
    const points: set<Point>
    const baseWidth: int
    var tried: seq<Coord>
    var inGrid: bool
    var hasBeenFirst: bool

    /** The block has points: what construction demands (findBaseWidth fails on an empty set). */
    predicate Valid() {
      points != {}
    }

    /**
     * No two point objects of the block sit on the same coordinate: what a HashSet of points
     * guarantees when it is built, and what the shifts keep.
     */
    ghost predicate Distinct()
      reads points
    {
      |Coords()| == |points|
    }

    /** The base width is the size of the lowest row, as findBaseWidth computed it. */
    ghost predicate BaseWidthHolds()
      requires points != {}
      reads points
    {
      baseWidth == |BaseRow(points)|
    }

    /**
     * Block(char, Set): keeps the caller's set itself and computes the base width. The Java
     * constructor throws on an empty set (see FindBaseWidth); the parser checks for it first.
     */
    constructor (name0: char, points0: set<Point>)
      requires points0 != {}
      ensures name == name0 && points == points0
      ensures FindBaseWidth(points0) == Some(baseWidth) && BaseWidthHolds()
      ensures tried == [] && !inGrid && !hasBeenFirst
      ensures Valid() && (DistinctCoords(points0) ==> Distinct())
    {
      if DistinctCoords(points0) {
        DistinctCard(points0);
      }
      name := name0;
      points := points0;
      baseWidth := |BaseRow(points0)|;
      tried := [];
      inGrid := false;
      hasBeenFirst := false;
    }

    /**
     * Block(Block): a new block with the same name and base width whose set holds the SAME
     * point objects, and fresh search state. The Java code copies the points into a new HashSet,
     * which holds the same objects when no two of them have equal coordinates (Distinct); the
     * model keeps the set as it is in every case.
     */
    constructor Copy(block: Block)
      ensures name == block.name && points == block.points && baseWidth == block.baseWidth
      ensures tried == [] && !inGrid && !hasBeenFirst
      ensures block.Valid() ==> Valid() && (block.Distinct() ==> Distinct())
      ensures points != {} && block.BaseWidthHolds() ==> BaseWidthHolds()
    {
      name := block.name;
      points := block.points;
      baseWidth := block.baseWidth;
      tried := [];
      inGrid := false;
      hasBeenFirst := false;
    }

    function GetSize(): nat {
      |points|
    }

    /** The coordinates of the block's points: empty exactly when the block has no points. */
    function Coords(): (cs: set<Coord>)
      reads points
      ensures points != {} ==> cs != {}
    {
      CoordsEmpty(points);
      CoordsOf(points)
    }

    /** Block.getMinXvalue. */
    function GetMinXValue(): (m: int)
      requires points != {}
      reads points
      ensures (exists p :: p in points && p.x == m) && forall p :: p in points ==> m <= p.x
    {
      var cs := Coords();
      var p0 :| p0 in points;
      assert p0.Value() in cs;
      assert forall p :: p in points ==> p.Value() in cs;
      LeastXY(cs).x
    }

    /**
     * Block.getLowestLeftPoint: the coordinates of the point with the least y and, among those,
     * the least x.
     */
    function GetLowestLeftPoint(): (c: Coord)
      requires Valid()
      reads points
      ensures exists p :: p in points && p.Value() == c
      ensures forall p :: p in points ==> c.y < p.y || (c.y == p.y && c.x <= p.x)
    {
      var p0 :| p0 in points;
      assert p0.Value() in Coords();
      var c := LowestLeft(Coords());
      assert forall q :: q in points ==> q.Value() in Coords();
      c
    }

    /** Block.compareTo: Integer.compare(other.baseWidth, baseWidth), so wider blocks sort first. */
    function CompareTo(other: Block): (r: int)
      ensures r < 0 <==> baseWidth > other.baseWidth
      ensures r == 0 <==> baseWidth == other.baseWidth
      ensures r > 0 <==> baseWidth < other.baseWidth
    {
      IntegerCompare(other.baseWidth, baseWidth)
    }

    /** Block.shiftxvalues: every point object's x moves by d in place; the lowest row keeps the same points. */
    method ShiftXValues(d: int)
      modifies points
      ensures old(Distinct()) ==> Distinct()
      ensures points != {} ==> (old(BaseWidthHolds()) ==> BaseWidthHolds())
      ensures forall p :: p in points ==> p.x == old(p.x) + d && p.y == old(p.y)
      ensures Coords() == Translate(old(Coords()), d, 0)
    {
      ghost var before := map p | p in points :: p.Value();
      ghost var row := if points != {} then BaseRow(points) else {};
      ghost var minY := if points != {} then MinY(points) else 0;
      CoordsMoved(points, before, 0, 0, row, minY);
      forall p | p in points {
        p.x := p.x + d;
      }
      CoordsMoved(points, before, d, 0, row, minY);
    }

    /** Block.shiftyvalues: every point object's y moves by d in place; the lowest row keeps the same points. */
    method ShiftYValues(d: int)
      modifies points
      ensures old(Distinct()) ==> Distinct()
      ensures points != {} ==> (old(BaseWidthHolds()) ==> BaseWidthHolds())
      ensures forall p :: p in points ==> p.y == old(p.y) + d && p.x == old(p.x)
      ensures Coords() == Translate(old(Coords()), 0, d)
    {
      ghost var before := map p | p in points :: p.Value();
      ghost var row := if points != {} then BaseRow(points) else {};
      ghost var minY := if points != {} then MinY(points) else 0;
      CoordsMoved(points, before, 0, 0, row, minY);
      forall p | p in points {
        p.y := p.y + d;
      }
      CoordsMoved(points, before, 0, d, row, minY);
    }

    method SetInGrid(value: bool)
      modifies `inGrid
      ensures inGrid == value
    {
      inGrid := value;
    }

    method SetHasBeenFirst(value: bool)
      modifies `hasBeenFirst
      ensures hasBeenFirst == value
    {
      hasBeenFirst := value;
    }

    /** Block.addTriedStartPoint: appends to the tried list. */
    method AddTriedStartPoint(point: Coord)
      modifies `tried
      ensures tried == old(tried) + [point]
      ensures HasTriedStartPointBefore(point)
    {
      tried := tried + [point];
    }

    /** Block.hasTriedStartPointBefore: List.contains, which compares points by value. */
    function HasTriedStartPointBefore(point: Coord): bool
      reads this
    {
      point in tried
    }

    /** Block.cleanTried: out of the grid, nothing tried; hasBeenFirst is left as it is. */
    method CleanTried()
      modifies `inGrid, `tried
      ensures !inGrid && tried == []
    {
      inGrid := false;
      tried := [];
    }

    /** Block.hashCode: 31 * 1 + name, without Java's 32-bit wrap-around. */
    function HashCode(): int {
      31 * 1 + name as int
    }

    /** Block.equals: the same object, or another block with the same name. */
    function Equals(other: Block?): (r: bool)
      ensures r <==> other != null && other.name == name
      ensures r ==> HashCode() == other.HashCode()
    {
      if this == other then true
      else if other == null then false
      else name == other.name
    }

    /** Block.getBlockAsString: the name, then ':' and the points unless there are none. */
    function GetBlockAsString(): (r: string)
      reads points
      ensures |r| >= 1 && r[0] == name
      ensures points != {} ==> |r| > 1 && r[1] == ':'
    {
      BlockString(name, Coords())
    }
  }

  /** Equality and hash code look at the name only: the points and the search state play no part. */
  lemma EqualityIgnoresPoints(a: Block, b: Block)
    requires a.name == b.name
    ensures a.Equals(b) && b.Equals(a) && a.HashCode() == b.HashCode()
  {
  }
}
