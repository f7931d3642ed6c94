/**
 * Why fitWithStartingBlock's retry loop ends. The search state it changes is, per position
 * of the block list, whether the block is in the grid and which start points it has tried.
 * Neither is ever undone during one call: a block stays in the grid, and a tried point stays
 * tried. Every repetition of the loop either puts one more block into the grid or has a block
 * try a start point it had not tried. The blocks outside the grid, and the pairs
 * (position, point) not yet tried among finitely many points, therefore shrink.
 */
module Progress {
  import opened Outcomes
  import opened Points

  /** The positions whose block is not in the grid. */
  function Unplaced(inGrid: seq<bool>): set<int> {
    set j | 0 <= j < |inGrid| && !inGrid[j]
  }

  /** The (position, point) pairs, for points of the universe, that the block at the position has not tried. */
  function Untried(tried: seq<seq<Coord>>, universe: set<Coord>): set<(int, Coord)> {
    set j, c | 0 <= j < |tried| && c in universe && c !in tried[j] :: (j, c)
  }

  /** From state 0 to state 1 nothing was undone: every placed block is still placed and every tried list only grew at its end. */
  predicate Grown(inGrid0: seq<bool>, tried0: seq<seq<Coord>>, inGrid1: seq<bool>, tried1: seq<seq<Coord>>) {
    |inGrid1| == |inGrid0| && |tried1| == |tried0| &&
    (forall j :: 0 <= j < |inGrid0| && inGrid0[j] ==> inGrid1[j]) &&
    (forall j :: 0 <= j < |tried0| ==> tried0[j] <= tried1[j])
  }

  /** From state 0 to state 1 some block came into the grid, or some block tried the point c for the first time. */
  predicate Advanced(inGrid0: seq<bool>, tried0: seq<seq<Coord>>, inGrid1: seq<bool>, tried1: seq<seq<Coord>>, c: Coord) {
    (exists j :: 0 <= j < |inGrid0| && j < |inGrid1| && !inGrid0[j] && inGrid1[j]) ||
    (exists j :: 0 <= j < |tried0| && j < |tried1| && c !in tried0[j] && c in tried1[j])
  }

  lemma GrownTransitive(ig0: seq<bool>, tr0: seq<seq<Coord>>, ig1: seq<bool>, tr1: seq<seq<Coord>>,
                        ig2: seq<bool>, tr2: seq<seq<Coord>>)
    requires Grown(ig0, tr0, ig1, tr1) && Grown(ig1, tr1, ig2, tr2)
    ensures Grown(ig0, tr0, ig2, tr2)
  {
    forall j | 0 <= j < |tr0|
      ensures tr0[j] <= tr2[j]
    {
      assert tr0[j] <= tr1[j] && tr1[j] <= tr2[j];
    }
  }

  /** Progress once made is not lost by later growth. */
  lemma AdvancedStays(ig0: seq<bool>, tr0: seq<seq<Coord>>, ig1: seq<bool>, tr1: seq<seq<Coord>>,
                      ig2: seq<bool>, tr2: seq<seq<Coord>>, c: Coord)
    requires Grown(ig0, tr0, ig1, tr1) && Grown(ig1, tr1, ig2, tr2)
    requires Advanced(ig0, tr0, ig1, tr1, c)
    ensures Grown(ig0, tr0, ig2, tr2) && Advanced(ig0, tr0, ig2, tr2, c)
  {
    GrownTransitive(ig0, tr0, ig1, tr1, ig2, tr2);
    if j :| 0 <= j < |tr0| && c !in tr0[j] && c in tr1[j] {
      assert tr1[j] <= tr2[j];
    }
  }

  /** Progress made after some growth is progress made since before that growth. */
  lemma AdvancedLater(ig0: seq<bool>, tr0: seq<seq<Coord>>, ig1: seq<bool>, tr1: seq<seq<Coord>>,
                      ig2: seq<bool>, tr2: seq<seq<Coord>>, c: Coord)
    requires Grown(ig0, tr0, ig1, tr1) && Grown(ig1, tr1, ig2, tr2)
    requires Advanced(ig1, tr1, ig2, tr2, c)
    ensures Grown(ig0, tr0, ig2, tr2) && Advanced(ig0, tr0, ig2, tr2, c)
  {
    GrownTransitive(ig0, tr0, ig1, tr1, ig2, tr2);
    if j :| 0 <= j < |tr1| && c !in tr1[j] && c in tr2[j] {
      assert tr0[j] <= tr1[j];
    }
  }

  /** Growth never adds to the unplaced positions nor to the untried pairs. */
  lemma GrownShrinks(ig0: seq<bool>, tr0: seq<seq<Coord>>, ig1: seq<bool>, tr1: seq<seq<Coord>>, universe: set<Coord>)
    requires Grown(ig0, tr0, ig1, tr1)
    ensures Unplaced(ig1) <= Unplaced(ig0)
    ensures Untried(tr1, universe) <= Untried(tr0, universe)
  {
    forall t | t in Untried(tr1, universe)
      ensures t in Untried(tr0, universe)
    {
      var j, c := t.0, t.1;
      assert tr0[j] <= tr1[j];
    }
  }

  /**
   * The measure of the retry loop decreases: the unplaced positions shrink, or they stay and
   * the untried pairs shrink.
   */
  lemma AdvancedDecreases(ig0: seq<bool>, tr0: seq<seq<Coord>>, ig1: seq<bool>, tr1: seq<seq<Coord>>,
                          c: Coord, universe: set<Coord>)
    requires Grown(ig0, tr0, ig1, tr1) && Advanced(ig0, tr0, ig1, tr1, c) && c in universe
    ensures Unplaced(ig1) < Unplaced(ig0) ||
            (Unplaced(ig1) == Unplaced(ig0) && Untried(tr1, universe) < Untried(tr0, universe))
  {
    GrownShrinks(ig0, tr0, ig1, tr1, universe);
    if j :| 0 <= j < |ig0| && !ig0[j] && ig1[j] {
      assert j in Unplaced(ig0) && j !in Unplaced(ig1);
    } else {
      var j :| 0 <= j < |tr0| && c !in tr0[j] && c in tr1[j];
      assert (j, c) in Untried(tr0, universe) && (j, c) !in Untried(tr1, universe);
      assert Unplaced(ig1) == Unplaced(ig0) by {
        forall k | k in Unplaced(ig0)
          ensures k in Unplaced(ig1)
        {
        }
      }
    }
  }

  /** Some position has neither landed nor tried c: a pass at c can advance. */
  predicate CanAdvance(inGrid: seq<bool>, tried: seq<seq<Coord>>, c: Coord) {
    exists j :: 0 <= j < |inGrid| && j < |tried| && !inGrid[j] && c !in tried[j]
  }

  /**
   * What a pass of the inner loop still owes when it began able to advance at c: progress
   * since state 0, or a witness w, at or after position lo, that has neither landed nor tried c.
   */
  predicate Awaiting(inGrid0: seq<bool>, tried0: seq<seq<Coord>>, inGrid: seq<bool>, tried: seq<seq<Coord>>,
                     c: Coord, w: int, lo: int) {
    Advanced(inGrid0, tried0, inGrid, tried, c) || (0 <= lo <= w < |inGrid| && w < |tried| && !inGrid[w] && c !in tried[w])
  }

  /**
   * What a pass that began in state 0 at the point c keeps, in the current state, about the
   * point it goes on at (None once it stops): nothing was undone, the point is still c unless
   * progress at c was made, and what a pass that began able to advance owes is still owed by
   * a position at or after lo, or paid, and is paid once the pass stops.
   */
  predicate PassProgress(inGrid0: seq<bool>, tried0: seq<seq<Coord>>, inGrid: seq<bool>, tried: seq<seq<Coord>>,
                         c: Coord, next: Option<Coord>, owing: bool, w: int, lo: int) {
    Grown(inGrid0, tried0, inGrid, tried) &&
    (next.Some? ==> next.value == c || Advanced(inGrid0, tried0, inGrid, tried, c)) &&
    (owing ==> Awaiting(inGrid0, tried0, inGrid, tried, c, w, lo)) &&
    (owing && next.None? ==> Advanced(inGrid0, tried0, inGrid, tried, c))
  }

  /** A pass starts owing exactly when some position has neither landed nor tried c. */
  lemma PassStarts(inGrid: seq<bool>, tried: seq<seq<Coord>>, c: Coord) returns (owing: bool, w: int)
    ensures owing == CanAdvance(inGrid, tried, c)
    ensures PassProgress(inGrid, tried, inGrid, tried, c, Some(c), owing, w, 0)
  {
    owing, w := CanAdvance(inGrid, tried, c), 0;
    if owing {
      w :| 0 <= w < |inGrid| && w < |tried| && !inGrid[w] && c !in tried[w];
    }
  }

  /** A pass that stopped early, or went past every position, has paid what it owed. */
  lemma PassEnds(ig0: seq<bool>, tr0: seq<seq<Coord>>, ig: seq<bool>, tr: seq<seq<Coord>>,
                 c: Coord, next: Option<Coord>, owing: bool, w: int, lo: int)
    requires PassProgress(ig0, tr0, ig, tr, c, next, owing, w, lo)
    requires next.None? || lo >= |ig|
    ensures Grown(ig0, tr0, ig, tr)
    ensures owing ==> Advanced(ig0, tr0, ig, tr, c)
  {
  }

  /**
   * One turn of the block at position k, at the point the pass goes on at, from state A to
   * state B, after which the pass goes on at next. If that block had neither landed nor
   * tried the point, the turn advances, and the point changes only in that case. Then the
   * pass keeps its progress, with the debt carried to the next position or paid.
   */
  lemma TurnKeepsProgress(ig0: seq<bool>, tr0: seq<seq<Coord>>, igA: seq<bool>, trA: seq<seq<Coord>>,
                          igB: seq<bool>, trB: seq<seq<Coord>>, c: Coord, point: Coord, next: Option<Coord>,
                          k: int, w: int, lo: int, lo': int, owing: bool)
    requires PassProgress(ig0, tr0, igA, trA, c, Some(point), owing, w, lo)
    requires Grown(igA, trA, igB, trB) && 0 <= k < |igA| == |trA|
    requires !igA[k] && point !in trA[k] ==> Advanced(igA, trA, igB, trB, point)
    requires next != Some(point) ==> !igA[k] && point !in trA[k]
    requires 0 <= lo' <= lo || (lo == k && lo' == k + 1)
    ensures PassProgress(ig0, tr0, igB, trB, c, next, owing, w, lo')
  {
    GrownTransitive(ig0, tr0, igA, trA, igB, trB);
    if Advanced(ig0, tr0, igA, trA, c) {
      AdvancedStays(ig0, tr0, igA, trA, igB, trB, c);
    } else if !igA[k] && point !in trA[k] {
      AdvancedLater(ig0, tr0, igA, trA, igB, trB, c);
    } else if owing && !Advanced(ig0, tr0, igB, trB, c) {
      assert !ig0[w] && c !in tr0[w];
    }
  }
}
