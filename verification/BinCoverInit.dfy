/** The bit-vector variables of the items: their width, and the constraint that keeps them to the bins. */
module BinCoverInit {
  import opened AdderCircuits

  // What initialisation computes: the width of the item variables, and whether their values are bounded explicitly.
  // The logarithm of zero and a bit-vector of width zero are errors.
  datatype Layout = Layout(width: nat, bounded: bool) | NoLogarithm | NoWidth

  function Init(numBins: nat, numItems: nat): Layout {
    if numBins == 0 then NoLogarithm
    else
      var width := CeilLog2(numBins);
      if numItems > 0 && width == 0 then NoWidth else Layout(width, numBins != Pow2(width))
  }

  // A value that the solver may give to an item.
  predicate Allowed(layout: Layout, numBins: nat, v: nat)
    requires layout.Layout?
  {
    v < Pow2(layout.width) && (layout.bounded ==> v < numBins)
  }

  /** Initialisation succeeds exactly with two bins or more, or one bin and no item. */
  lemma InitExact(numBins: nat, numItems: nat)
    ensures Init(numBins, numItems).Layout? <==> numBins >= 2 || (numBins == 1 && numItems == 0)
  {
    if numBins >= 1 {
      CeilLog2Bounds(numBins);
    }
  }

  /** The values an item can take are exactly the indices of bins, whether or not their number is a power of two. */
  lemma ValuesAreBins(numBins: nat, numItems: nat, v: nat)
    requires Init(numBins, numItems).Layout?
    ensures Allowed(Init(numBins, numItems), numBins, v) <==> v < numBins
  {
    CeilLog2Bounds(numBins);
  }
}
