/**
 The practice-session state shared by the four quiz screens
 (src/components/GenderPractice.tsx, NounTranslationPractice.tsx,
 VerbsPractice.tsx, VerbTypingPractice.tsx): a fixed pool of records, the
 set of indices already shown, the record on screen, the score, and whether
 the current question has been answered.

 Each draw of `Math.random()` is a parameter `x` with `0.0 <= x < 1.0`; an
 index into a list of length `n` is then `Math.floor(x * n)`, as in the
 source.
 */
module Practice {
  import opened Wrappers
  import opened Seqs

  /** A list of draws of `Math.random()`. */
  predicate Draws(xs: seq<real>)
  {
    forall k :: 0 <= k < |xs| ==> 0.0 <= xs[k] < 1.0
  }

  lemma ScaleBounds(x: real, n: nat)
    requires 0.0 <= x < 1.0 && n > 0
    ensures 0 <= (x * n as real).Floor < n
  {
    var m := n as real;
    assert 0.0 <= x * m;
    assert x * m < m by {
      assert m - x * m == (1.0 - x) * m;
      assert (1.0 - x) * m > 0.0;
    }
  }

  /** `Math.floor(x * n)`: the index a draw `x` selects in a list of length `n`. */
  function Scale(x: real, n: nat): (r: nat)
    requires 0.0 <= x < 1.0 && n > 0
    ensures r < n
  {
    ScaleBounds(x, n);
    (x * n as real).Floor
  }

  /** The indices of a pool of `n` records. */
  function Range(n: nat): set<nat>
  {
    if n == 0 then {} else Range(n - 1) + {n - 1}
  }

  lemma {:induction false} RangeSpec(n: nat)
    ensures forall i: nat :: i in Range(n) <==> i < n
    ensures |Range(n)| == n
  {
    if n > 0 {
      RangeSpec(n - 1);
      assert n - 1 !in Range(n - 1);
    }
  }

  /** An index set inside the pool never outnumbers the pool. */
  lemma UsedBounded(n: nat, used: set<nat>)
    requires used <= Range(n)
    ensures |used| <= n
  {
    RangeSpec(n);
    SubsetSize(used, Range(n));
  }

  /** A subset is no larger than its superset, and equally large only when equal. */
  lemma {:induction false} SubsetSize<T>(a: set<T>, b: set<T>)
    requires a <= b
    ensures |a| <= |b|
    ensures |a| == |b| ==> a == b
  {
    assert b == a + (b - a);
    assert |b| == |a| + |b - a|;
    if |a| == |b| {
      assert |b - a| == 0;
      assert b - a == {};
    }
  }

  /**
   `pool.map((_, index) => index).filter(index => !used.has(index))`: the
   unused indices, in increasing order.
   */
  function Available(n: nat, used: set<nat>): (r: seq<nat>)
    ensures |r| <= n
  {
    if n == 0 then [] else Available(n - 1, used) + (if n - 1 in used then [] else [n - 1])
  }

  /** The available list holds exactly the unused indices of the pool, in increasing order. */
  lemma {:induction false} AvailableSpec(n: nat, used: set<nat>)
    ensures forall i: nat :: i in Available(n, used) <==> i < n && i !in used
    ensures forall k, l :: 0 <= k < l < |Available(n, used)| ==> Available(n, used)[k] < Available(n, used)[l]
  {
    if n > 0 {
      AvailableSpec(n - 1, used);
      var a := Available(n - 1, used);
      var t: seq<nat> := if n - 1 in used then [] else [n - 1];
      var r := Available(n, used);
      assert r == a + t;
      forall i: nat
        ensures i in r <==> i < n && i !in used
      {
        assert i in r <==> i in a || i in t;
      }
      forall k, l | 0 <= k < l < |r|
        ensures r[k] < r[l]
      {
        if l >= |a| {
          assert r[k] == a[k] && a[k] in a;
        }
      }
    }
  }

  /** Nothing is available exactly when every index of the pool has been used. */
  lemma ExhaustedIff(n: nat, used: set<nat>)
    requires used <= Range(n)
    ensures |Available(n, used)| == 0 <==> used == Range(n)
  {
    AvailableSpec(n, used);
    RangeSpec(n);
    if |Available(n, used)| == 0 {
      forall i: nat | i in Range(n) ensures i in used {
        assert i !in Available(n, used);
      }
    } else {
      var i := Available(n, used)[0];
      assert i in Available(n, used);
      assert i in Range(n) && i !in used;
    }
  }

  /**
   The index the selection picks: a random unused index, or, once every
   index has been used, a random index of the whole pool.
   */
  function Pick(n: nat, used: set<nat>, x: real): (r: nat)
    requires n > 0 && 0.0 <= x < 1.0
    ensures r < n
  {
    var avail := Available(n, used);
    if |avail| == 0 then Scale(x, n)
    else
      AvailableSpec(n, used);
      assert avail[Scale(x, |avail|)] in avail;
      avail[Scale(x, |avail|)]
  }

  /** The used set after a selection: the pick is added, or the set restarts at the pick. */
  function NextUsed(n: nat, used: set<nat>, x: real): (r: set<nat>)
    requires n > 0 && 0.0 <= x < 1.0
    ensures Pick(n, used, x) in r && r <= used + {Pick(n, used, x)}
  {
    var p := Pick(n, used, x);
    if |Available(n, used)| == 0 then {p} else used + {p}
  }

  /** While unused indices remain, the pick is one of them and the used set grows by exactly it. */
  lemma PickFresh(n: nat, used: set<nat>, x: real)
    requires n > 0 && 0.0 <= x < 1.0
    requires |Available(n, used)| > 0
    ensures Pick(n, used, x) !in used
    ensures NextUsed(n, used, x) == used + {Pick(n, used, x)}
    ensures |NextUsed(n, used, x)| == |used| + 1
  {
    AvailableSpec(n, used);
    var avail := Available(n, used);
    assert avail[Scale(x, |avail|)] in avail;
  }

  /** Once every index is used, the selection recycles: the used set becomes the singleton of the pick. */
  lemma PickRecycles(n: nat, used: set<nat>, x: real)
    requires n > 0 && 0.0 <= x < 1.0
    requires used == Range(n)
    ensures NextUsed(n, used, x) == {Pick(n, used, x)}
  {
    ExhaustedIff(n, used);
  }

  /** A selection keeps the used set inside the pool and records the pick. */
  lemma NextUsedInRange(n: nat, used: set<nat>, x: real)
    requires n > 0 && 0.0 <= x < 1.0
    requires used <= Range(n)
    ensures NextUsed(n, used, x) <= Range(n)
    ensures Pick(n, used, x) in NextUsed(n, used, x)
  {
    RangeSpec(n);
  }

  /** The indices picked by successive selections with the draws `xs`. */
  function Picks(n: nat, used: set<nat>, xs: seq<real>): (r: seq<nat>)
    requires n > 0 && Draws(xs)
    ensures |r| == |xs|
    decreases |xs|
  {
    if xs == [] then [] else [Pick(n, used, xs[0])] + Picks(n, NextUsed(n, used, xs[0]), xs[1..])
  }

  /**
   Sampling is without replacement until the pool is exhausted: as long as
   no more selections are made than unused indices remain, no index is
   shown twice and none that was shown before.
   */
  lemma {:induction false} NoRepeatBeforeExhaustion(n: nat, used: set<nat>, xs: seq<real>)
    requires n > 0 && Draws(xs)
    requires used <= Range(n)
    requires |used| + |xs| <= n
    ensures forall k :: 0 <= k < |Picks(n, used, xs)| ==> Picks(n, used, xs)[k] !in used
    ensures forall k, l :: 0 <= k < l < |Picks(n, used, xs)| ==> Picks(n, used, xs)[k] != Picks(n, used, xs)[l]
    decreases |xs|
  {
    if xs != [] {
      RangeSpec(n);
      if |Available(n, used)| == 0 {
        ExhaustedIff(n, used);
        assert false;
      }
      PickFresh(n, used, xs[0]);
      var p := Pick(n, used, xs[0]);
      var next := NextUsed(n, used, xs[0]);
      var rest := Picks(n, next, xs[1..]);
      NoRepeatBeforeExhaustion(n, next, xs[1..]);
      assert Picks(n, used, xs) == [p] + rest;
    }
  }

  /**
   A round of as many selections as the pool has records, from a fresh
   session, shows every record exactly once.
   */
  lemma PicksCoverPool(n: nat, xs: seq<real>)
    requires n > 0 && Draws(xs) && |xs| == n
    ensures NoRepeats(Picks(n, {}, xs))
    ensures (set p | p in Picks(n, {}, xs)) == Range(n)
  {
    var picks := Picks(n, {}, xs);
    NoRepeatBeforeExhaustion(n, {}, xs);
    assert NoRepeats(picks);
    NoRepeatsSetSize(picks);
    RangeSpec(n);
    PicksInRange(n, {}, xs);
    var shown := set p | p in picks;
    SubsetSize(shown, Range(n));
  }

  lemma {:induction false} PicksInRange(n: nat, used: set<nat>, xs: seq<real>)
    requires n > 0 && Draws(xs)
    ensures forall p :: p in Picks(n, used, xs) ==> p in Range(n)
    decreases |xs|
  {
    RangeSpec(n);
    if xs != [] {
      PicksInRange(n, NextUsed(n, used, xs[0]), xs[1..]);
    }
  }

  /** Whether an answer was right, as the feedback banner shows it. */
  datatype Verdict = Correct | Incorrect

  /** The feedback (or toast) on screen: none, or a verdict with its message. */
  datatype Feedback = NoFeedback | Feedback(verdict: Verdict, message: string)

  /**
   The state one quiz screen keeps: the pool, `usedIndices`, the current
   record, `score`, `totalAnswered`, `isAnswered` and the feedback.
   */
  class Session<T> {
    const pool: seq<T>
    var used: set<nat>
    var current: Option<T>
    var score: nat
    var totalAnswered: nat
    var answered: bool
    var feedback: Feedback

    /** Used indices lie in the pool, the current record is from the pool, and the score never exceeds the answers. */
    ghost predicate Valid()
      reads this
    {
      used <= Range(|pool|) &&
      (current.Some? ==> current.value in pool) &&
      (answered ==> current.Some?) &&
      score <= totalAnswered
    }

    /** The screen's initial state: nothing used, nothing current, no score, no feedback. */
    constructor (pool: seq<T>)
      ensures Valid()
      ensures this.pool == pool && used == {} && current == None
      ensures score == 0 && totalAnswered == 0 && !answered && feedback == NoFeedback
    {
      this.pool := pool;
      used := {};
      current := None;
      score := 0;
      totalAnswered := 0;
      answered := false;
      feedback := NoFeedback;
    }

    /** The "Remaining" counter: the pool splits into the remaining and the used records. */
    function Remaining(): (r: nat)
      reads this
      requires Valid()
      ensures r + |used| == |pool|
    {
      UsedBounded(|pool|, used);
      |pool| - |used|
    }

    /**
     The random selection: nothing happens on an empty pool; otherwise the
     pick becomes current and the used set follows `NextUsed`.
     */
    method Select(x: real)
      requires Valid() && 0.0 <= x < 1.0
      modifies this
      ensures Valid()
      ensures |pool| == 0 ==> used == old(used) && current == old(current)
      ensures |pool| > 0 ==> used == NextUsed(|pool|, old(used), x)
      ensures |pool| > 0 ==> current == Some(pool[Pick(|pool|, old(used), x)])
      ensures |pool| > 0 && |Available(|pool|, old(used))| > 0 ==> old(used) < used && |used| == |old(used)| + 1
      ensures |pool| > 0 && old(used) == Range(|pool|) ==> |used| == 1
      ensures score == old(score) && totalAnswered == old(totalAnswered)
      ensures answered == old(answered) && feedback == old(feedback)
    {
      if |pool| == 0 {
        return;
      }
      var n := |pool|;
      var p := Pick(n, used, x);
      NextUsedInRange(n, used, x);
      if |Available(n, used)| > 0 {
        PickFresh(n, used, x);
      }
      if used == Range(n) {
        PickRecycles(n, used, x);
      }
      used := NextUsed(n, used, x);
      current := Some(pool[p]);
    }

    /**
     Records an answer to the current question: it is counted, scored when
     right, and the feedback shows the verdict.
     */
    method Answer(isCorrect: bool, message: string)
      requires Valid() && current.Some? && !answered
      modifies this
      ensures Valid()
      ensures answered
      ensures totalAnswered == old(totalAnswered) + 1
      ensures score == old(score) + (if isCorrect then 1 else 0)
      ensures feedback == Feedback(if isCorrect then Correct else Incorrect, message)
      ensures used == old(used) && current == old(current)
    {
      answered := true;
      totalAnswered := totalAnswered + 1;
      if isCorrect {
        score := score + 1;
      }
      feedback := Feedback(if isCorrect then Correct else Incorrect, message);
    }

    /** Clears the feedback and the answered flag, as every "next" handler does first. */
    method ClearAnswer()
      requires Valid()
      modifies this
      ensures Valid()
      ensures !answered && feedback == NoFeedback
      ensures used == old(used) && current == old(current)
      ensures score == old(score) && totalAnswered == old(totalAnswered)
    {
      answered := false;
      feedback := NoFeedback;
    }

    /** The effect that makes the first selection once the pool is loaded and nothing is current. */
    method Start(x: real)
      requires Valid() && 0.0 <= x < 1.0
      modifies this
      ensures Valid()
      ensures (|pool| == 0 || old(current).Some?) ==> used == old(used) && current == old(current)
      ensures |pool| > 0 && old(current).None? ==> used == NextUsed(|pool|, old(used), x)
      ensures |pool| > 0 && old(current).None? ==> current == Some(pool[Pick(|pool|, old(used), x)])
      ensures |pool| > 0 ==> current.Some?
      ensures score == old(score) && totalAnswered == old(totalAnswered)
      ensures answered == old(answered) && feedback == old(feedback)
    {
      if |pool| > 0 && current.None? {
        Select(x);
      }
    }

    /** `handleNext`: clears the feedback and the answered flag, then selects again. */
    method Next(x: real)
      requires Valid() && 0.0 <= x < 1.0
      modifies this
      ensures Valid()
      ensures !answered && feedback == NoFeedback
      ensures |pool| == 0 ==> used == old(used) && current == old(current)
      ensures |pool| > 0 ==> used == NextUsed(|pool|, old(used), x)
      ensures |pool| > 0 ==> current == Some(pool[Pick(|pool|, old(used), x)])
      ensures score == old(score) && totalAnswered == old(totalAnswered)
    {
      ClearAnswer();
      Select(x);
    }
  }
}
