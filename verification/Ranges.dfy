/** Half-open ranges of integers as finite sets, and their sizes. */
module Ranges {

  function Range(lo: int, hi: int): (r: set<int>)
    ensures forall m :: m in r <==> lo <= m < hi
    ensures |r| == if lo <= hi then hi - lo else 0
    decreases hi - lo
  {
    if lo >= hi then {} else Range(lo, hi - 1) + {hi - 1}
  }
}
