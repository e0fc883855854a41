/** Small facts about numbers and sets that several components use. */
module Numbers {
  function Min(a: int, b: int): int {
    if a <= b then a else b
  }

  function Max(a: int, b: int): int {
    if a <= b then b else a
  }

  function MinReal(a: real, b: real): (m: real) {
    if a <= b then a else b
  }

  /** A subset has no more elements, and as many only if it is the whole set. */
  lemma SubsetCount<T>(a: set<T>, b: set<T>)
    requires a <= b
    ensures |a| <= |b|
    ensures |a| == |b| ==> a == b
  {
    assert b == a + (b - a);
  }
}
