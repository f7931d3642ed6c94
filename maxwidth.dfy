/**
 * MaxWidth.java: a comparator of blocks by base width, narrowest first, the reverse of the
 * blocks' own order (Block.compareTo).
 */
module MaxWidth {
  import opened Text
  import opened Blocks

  /** MaxWidth.compare: Integer.compare of the two base widths. */
  function Compare(b1: Block, b2: Block): (r: int)
    ensures r < 0 <==> b1.baseWidth < b2.baseWidth
    ensures r == 0 <==> b1.baseWidth == b2.baseWidth
    ensures r > 0 <==> b1.baseWidth > b2.baseWidth
    ensures -1 <= r <= 1
  {
    IntegerCompare(b1.baseWidth, b2.baseWidth)
  }

  /** Swapping the arguments flips the sign: the comparator is antisymmetric. */
  lemma CompareAntisymmetric(b1: Block, b2: Block)
    ensures Compare(b1, b2) == -Compare(b2, b1)
  {
  }

  /** The comparator is transitive, as Comparator requires. */
  lemma CompareTransitive(b1: Block, b2: Block, b3: Block)
    requires Compare(b1, b2) <= 0 && Compare(b2, b3) <= 0
    ensures Compare(b1, b3) <= 0
  {
  }

  /** MaxWidth orders blocks the opposite way to Block.compareTo. */
  lemma CompareOpposesCompareTo(b1: Block, b2: Block)
    ensures Compare(b1, b2) == -b1.CompareTo(b2)
    ensures Compare(b1, b2) == b2.CompareTo(b1)
  {
  }
}
