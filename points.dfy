/**
 * Point.java: a mutable (x, y) pair of ints with structural equality, and the coordinate
 * values, orders and translations the block and grid code compute with.
 */
module Points {
  import opened Outcomes
  import opened Text

  /** The value of a point: what equals, hashCode and toString look at. */
  datatype Coord = Coord(x: int, y: int)

  /**
   * a is at or before b when points are ordered by y first and then by x. This is the order
   * of a block's lowest-left point and of the grid's scan for a free cell.
   */
  predicate AnchorLe(a: Coord, b: Coord) {
    a.y < b.y || (a.y == b.y && a.x <= b.x)
  }

  lemma {:induction false} LowestLeftExists(cs: set<Coord>)
    requires cs != {}
    ensures exists m :: m in cs && forall c :: c in cs ==> AnchorLe(m, c)
  {
    var a :| a in cs;
    if cs == {a} {
      assert forall c :: c in cs ==> c == a;
    } else {
      LowestLeftExists(cs - {a});
      var m :| m in cs - {a} && forall c :: c in cs - {a} ==> AnchorLe(m, c);
      if AnchorLe(a, m) {
        forall c | c in cs
          ensures AnchorLe(a, c)
        {
          if c != a {
            assert AnchorLe(m, c);
          }
        }
      } else {
        assert forall c :: c in cs ==> AnchorLe(m, c);
      }
    }
  }

  /** The member with the least y and, among those, the least x. */
  function LowestLeft(cs: set<Coord>): (m: Coord)
    requires cs != {}
    ensures m in cs && forall c :: c in cs ==> AnchorLe(m, c)
  {
    LowestLeftExists(cs);
    var m :| m in cs && forall c :: c in cs ==> AnchorLe(m, c);
    m
  }

  /** Every coordinate moved by (dx, dy). */
  function Translate(cs: set<Coord>, dx: int, dy: int): set<Coord> {
    set c | c in cs :: Coord(c.x + dx, c.y + dy)
  }

  /** Moving by (a, b) and then by (c, d) is moving by (a + c, b + d). */
  lemma TranslateCompose(cs: set<Coord>, a: int, b: int, c: int, d: int)
    ensures Translate(Translate(cs, a, b), c, d) == Translate(cs, a + c, b + d)
  {
    var once := Translate(cs, a, b);
    var twice, direct := Translate(once, c, d), Translate(cs, a + c, b + d);
    forall t | t in direct
      ensures t in twice
    {
      var t0 :| t0 in cs && t == Coord(t0.x + (a + c), t0.y + (b + d));
      assert Coord(t0.x + a, t0.y + b) in once;
    }
    forall t | t in twice
      ensures t in direct
    {
      var t1 :| t1 in once && t == Coord(t1.x + c, t1.y + d);
      var t0 :| t0 in cs && t1 == Coord(t0.x + a, t0.y + b);
      assert t == Coord(t0.x + (a + c), t0.y + (b + d));
    }
    assert twice == direct;
  }

  /** Moving by (0, 0) moves nothing. */
  lemma TranslateZero(cs: set<Coord>)
    ensures Translate(cs, 0, 0) == cs
  {
    assert forall t :: t in cs ==> Coord(t.x + 0, t.y + 0) in Translate(cs, 0, 0);
  }

  /** The lowest-left member moves with the set. */
  lemma LowestLeftTranslate(cs: set<Coord>, dx: int, dy: int)
    requires cs != {}
    ensures Translate(cs, dx, dy) != {}
    ensures LowestLeft(Translate(cs, dx, dy)) == Coord(LowestLeft(cs).x + dx, LowestLeft(cs).y + dy)
  {
    var m := LowestLeft(cs);
    var t := Translate(cs, dx, dy);
    var moved := Coord(m.x + dx, m.y + dy);
    assert moved in t;
    var l := LowestLeft(t);
    var c :| c in cs && l == Coord(c.x + dx, c.y + dy);
    assert AnchorLe(m, c);
    assert AnchorLe(l, moved);
  }

  /** Moving a set of coordinates keeps its size: no two coordinates move onto one. */
  lemma {:induction false} TranslateCard(cs: set<Coord>, dx: int, dy: int)
    ensures |Translate(cs, dx, dy)| == |cs|
    decreases |cs|
  {
    if cs != {} {
      var c :| c in cs;
      var rest := cs - {c};
      TranslateCard(rest, dx, dy);
      var moved := Coord(c.x + dx, c.y + dy);
      assert Translate(cs, dx, dy) == Translate(rest, dx, dy) + {moved};
      assert moved !in Translate(rest, dx, dy);
    }
  }

  /** cs moved so that its lowest-left member lands on p. */
  function Anchored(cs: set<Coord>, p: Coord): set<Coord>
    requires cs != {}
  {
    var m := LowestLeft(cs);
    Translate(cs, p.x - m.x, p.y - m.y)
  }

  /** The set moved so that its lowest-left member is the origin: what stays the same when a block is moved. */
  function Shape(cs: set<Coord>): set<Coord>
    requires cs != {}
  {
    Anchored(cs, Coord(0, 0))
  }

  /** After anchoring at p, p is the lowest-left member. */
  lemma AnchoredLowestLeft(cs: set<Coord>, p: Coord)
    requires cs != {}
    ensures Anchored(cs, p) != {} && LowestLeft(Anchored(cs, p)) == p
  {
    var m := LowestLeft(cs);
    LowestLeftTranslate(cs, p.x - m.x, p.y - m.y);
  }

  /** Anchoring at p is moving the shape by p. */
  lemma AnchoredIsShapeMoved(cs: set<Coord>, p: Coord)
    requires cs != {}
    ensures Anchored(cs, p) == Translate(Shape(cs), p.x, p.y)
  {
    var m := LowestLeft(cs);
    var dx, dy := p.x - m.x, p.y - m.y;
    TranslateCompose(cs, 0 - m.x, 0 - m.y, p.x, p.y);
    assert (0 - m.x) + p.x == dx && (0 - m.y) + p.y == dy;
  }

  /** Anchoring keeps the shape. */
  lemma ShapeOfAnchored(cs: set<Coord>, p: Coord)
    requires cs != {}
    ensures Anchored(cs, p) != {} && Shape(Anchored(cs, p)) == Shape(cs)
  {
    var m := LowestLeft(cs);
    var a := Anchored(cs, p);
    AnchoredLowestLeft(cs, p);
    TranslateCompose(cs, p.x - m.x, p.y - m.y, 0 - p.x, 0 - p.y);
  }

  /**
   * A set is determined by its shape and its lowest-left member: a set with the shape of b
   * whose lowest-left member is p is b anchored at p.
   */
  lemma AnchoredFromShape(a: set<Coord>, b: set<Coord>, p: Coord)
    requires a != {} && b != {}
    requires Shape(a) == Shape(b) && LowestLeft(a) == p
    ensures a == Anchored(b, p)
  {
    AnchoredIsShapeMoved(a, p);
    AnchoredIsShapeMoved(b, p);
    TranslateZero(a);
  }

  /** "x,y": how a block's coordinate listing writes one point. */
  function PairString(c: Coord): string {
    IntToString(c.x) + "," + IntToString(c.y)
  }

  /**
   * One point of an input line (CodeTest.parseInputFile): split on ',', then Integer.parseInt
   * of piece 0 and piece 1, in that order; a missing piece is an index failure.
   */
  function ParsePair(text: string): (r: Result<Coord, JavaException>)
    ensures r.Failure? ==> r.error == IndexOutOfBounds || r.error == NumberFormat
    ensures ',' !in text ==> r.Failure?
  {
    var coordinates := Split(text, ',');
    if |coordinates| == 0 then Failure(IndexOutOfBounds)
    else match ParseInt(coordinates[0])
      case None => Failure(NumberFormat)
      case Some(x) =>
        if |coordinates| < 2 then Failure(IndexOutOfBounds)
        else match ParseInt(coordinates[1])
          case None => Failure(NumberFormat)
          case Some(y) => Success(Coord(x, y))
  }

  /** Reading back the text of a point gives the point. */
  lemma ParsePairOfPairString(c: Coord)
    ensures ParsePair(PairString(c)) == Success(c)
  {
    var ps := [IntToString(c.x), IntToString(c.y)];
    IntToStringChars(c.x, ',');
    IntToStringChars(c.y, ',');
    assert Join(ps, ',') == PairString(c);
    SplitOfJoin(ps, ',');
    ParseIntOfIntToString(c.x);
    ParseIntOfIntToString(c.y);
  }

  class Point {
    var x: int
    var y: int

    constructor (x0: int, y0: int)
      ensures x == x0 && y == y0
    {
      x, y := x0, y0;
    }

    function GetX(): int
      reads this
    {
      x
    }

    function GetY(): int
      reads this
    {
      y
    }

    method SetX(x0: int)
      modifies this
      ensures x == x0 && y == old(y)
    {
      x := x0;
    }

    method SetY(y0: int)
      modifies this
      ensures y == y0 && x == old(x)
    {
      y := y0;
    }

    function Value(): Coord
      reads this
    {
      Coord(x, y)
    }

    /** 31 * (31 * 1 + x) + y, without Java's 32-bit wrap-around. */
    function HashCode(): int
      reads this
    {
      31 * (31 * 1 + x) + y
    }

    /** The same object, or another point with the same coordinates. */
    function Equals(other: Point?): (r: bool)
      reads this, other
      ensures r <==> other != null && Value() == other.Value()
      ensures r ==> HashCode() == other.HashCode()
    {
      if this == other then true
      else if other == null then false
      else x == other.x && y == other.y
    }

    /** "(x,y)"; the text inside the parentheses reads back as this point. */
    function ToString(): (s: string)
      reads this
      ensures |s| >= 2 && s[0] == '(' && s[|s| - 1] == ')'
      ensures ParsePair(s[1..|s| - 1]) == Success(Value())
    {
      var s := "(" + IntToString(x) + "," + IntToString(y) + ")";
      assert s[1..|s| - 1] == PairString(Value());
      ParsePairOfPairString(Value());
      s
    }
  }

  /** Two points print alike exactly when they are equal. */
  lemma ToStringIdentifiesPoint(p: Point, q: Point)
    ensures p.ToString() == q.ToString() <==> p.Equals(q)
  {
    var s, t := p.ToString(), q.ToString();
    if s == t {
      assert s[1..|s| - 1] == t[1..|t| - 1];
    }
  }
}
