/** Sizes of subsets. */
module SetSizes {

  lemma SubsetSize<T>(small: set<T>, large: set<T>)
    ensures small <= large ==> |small| <= |large|
  {
    if small <= large {
      assert large == small + (large - small);
    }
  }

  lemma SubsetEqual<T>(small: set<T>, large: set<T>)
    requires small <= large && |small| == |large|
    ensures small == large
  {
    assert large == small + (large - small);
  }
}
