/** Small facts about sequences, proved once away from any heavier context. */
module Seqs {
  /** A non-empty sequence is its front followed by its last element. */
  lemma FrontLast<T>(xs: seq<T>)
    requires |xs| > 0
    ensures xs == xs[..|xs| - 1] + [xs[|xs| - 1]]
  {
  }

  /** A non-empty sequence is its first element followed by its tail. */
  lemma FirstRest<T>(xs: seq<T>)
    requires |xs| > 0
    ensures xs == [xs[0]] + xs[1..]
  {
  }

  /** Taking the first element off a sequence built by putting it in front. */
  lemma ConsParts<T>(x: T, xs: seq<T>)
    ensures ([x] + xs)[0] == x
    ensures ([x] + xs)[1..] == xs && ([x] + xs)[1..|xs| + 1] == xs
  {
  }

  /** No element appears twice. */
  predicate NoRepeats<T(==)>(xs: seq<T>)
  {
    forall i, j :: 0 <= i < j < |xs| ==> xs[i] != xs[j]
  }

  /** A sequence without repeats has as many distinct elements as positions. */
  lemma {:induction false} NoRepeatsSetSize<T>(xs: seq<T>)
    requires NoRepeats(xs)
    ensures |set x | x in xs| == |xs|
  {
    if xs != [] {
      var front := xs[..|xs| - 1];
      assert NoRepeats(front);
      NoRepeatsSetSize(front);
      assert (set x | x in xs) == (set x | x in front) + {xs[|xs| - 1]};
      assert xs[|xs| - 1] !in front;
    }
  }
}
