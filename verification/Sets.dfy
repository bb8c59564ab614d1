/** Counting facts about finite sets shared by the model. */
module Sets {
  lemma SubsetSize<T>(a: set<T>, b: set<T>)
    requires a <= b
    ensures |a| <= |b|
  {
    assert b == a + (b - a);
  }

  ghost predicate Distinct<T>(xs: seq<T>) {
    forall i, j :: 0 <= i < j < |xs| ==> xs[i] != xs[j]
  }

  ghost function Members<T>(xs: seq<T>): set<T> {
    set x | x in xs
  }

  /** A sequence without repetitions has as many members as elements. */
  lemma {:induction false} SizeOfDistinct<T>(xs: seq<T>)
    requires Distinct(xs)
    ensures |Members(xs)| == |xs|
  {
    if xs == [] {
      assert Members(xs) == {};
    } else {
      var rest := xs[1..];
      SizeOfDistinct(rest);
      assert xs == [xs[0]] + rest;
      assert xs[0] !in rest;
      assert Members(xs) == {xs[0]} + Members(rest);
    }
  }
}
