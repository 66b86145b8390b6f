/** Sizes of finite sets and of sequences of distinct values. */
module Sets {

  lemma {:induction false} SubsetBound<T>(small: set<T>, large: set<T>)
    requires small <= large
    ensures |small| <= |large|
  {
    if small != {} {
      var x :| x in small;
      SubsetBound(small - {x}, large - {x});
    }
  }

  lemma SubsetFills<T>(small: set<T>, large: set<T>)
    requires small <= large && |small| == |large|
    ensures small == large
  {
    if x :| x in large && x !in small {
      SubsetBound(small + {x}, large);
    }
  }
}
