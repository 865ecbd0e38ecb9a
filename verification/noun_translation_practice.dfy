/**
 The translation quiz (src/components/NounTranslationPractice.tsx): a noun
 is shown in English and the user picks its German word among up to four
 options, built from random other nouns and then shuffled.
 */
module NounTranslationPractice {
  import opened Wrappers
  import opened Types
  import opened Practice
  import opened Seqs

  /** No option appears twice. */
  predicate Distinct(s: seq<string>)
  {
    NoRepeats(s)
  }

  /** `optionsSet.add(w)`: a JavaScript `Set` keeps insertion order and ignores a repeat. */
  function AddOption(acc: seq<string>, w: string): (r: seq<string>)
    ensures |acc| <= |r| <= |acc| + 1 && r[..|acc|] == acc
    ensures w in r && forall x :: x in r ==> x in acc || x == w
  {
    if w in acc then acc else acc + [w]
  }

  /** The German word of the noun a draw selects from the pool. */
  function DrawnWord(pool: seq<NounData>, x: real): string
    requires |pool| > 0 && 0.0 <= x < 1.0
  {
    pool[Scale(x, |pool|)].germanWord
  }

  /** A word the loop accepts as a wrong answer: non-empty and not the right answer. */
  predicate Qualifies(correct: string, w: string)
  {
    w != [] && w != correct
  }

  /** The distinct words the loop can add: every qualifying German word of the pool. */
  function Distractors(correct: string, pool: seq<NounData>): set<string>
  {
    set i | 0 <= i < |pool| && Qualifies(correct, pool[i].germanWord) :: pool[i].germanWord
  }

  /**
   The collecting loop: while fewer than four options are held, draw a
   noun and add its word when it qualifies. The draws are finite here.
   */
  function Gather(correct: string, pool: seq<NounData>, draws: seq<real>, acc: seq<string>): (r: seq<string>)
    requires |pool| > 0 && Draws(draws)
    ensures |acc| <= |r| && r[..|acc|] == acc
    decreases |draws|
  {
    if |acc| >= 4 || draws == [] then acc
    else
      var w := DrawnWord(pool, draws[0]);
      Gather(correct, pool, draws[1..], if Qualifies(correct, w) then AddOption(acc, w) else acc)
  }

  /** The option set before shuffling, in insertion order, starting from the right answer. */
  function OptionSet(correct: string, pool: seq<NounData>, draws: seq<real>): (r: seq<string>)
    requires |pool| > 0 && Draws(draws)
    ensures |r| >= 1 && r[0] == correct
  {
    Gather(correct, pool, draws, [correct])
  }

  /** The shape of a partial option set: the right answer first, then distinct distractors, at most four. */
  predicate WellFormedOptions(correct: string, pool: seq<NounData>, acc: seq<string>)
  {
    1 <= |acc| <= 4 && acc[0] == correct && Distinct(acc) &&
    forall k :: 1 <= k < |acc| ==> acc[k] in Distractors(correct, pool)
  }

  lemma {:induction false} AddOptionWellFormed(correct: string, pool: seq<NounData>, acc: seq<string>, x: real)
    requires |pool| > 0 && 0.0 <= x < 1.0
    requires WellFormedOptions(correct, pool, acc) && |acc| < 4
    requires Qualifies(correct, DrawnWord(pool, x))
    ensures WellFormedOptions(correct, pool, AddOption(acc, DrawnWord(pool, x)))
  {
    var w := DrawnWord(pool, x);
    var i := Scale(x, |pool|);
    assert w in Distractors(correct, pool) by {
      assert pool[i].germanWord == w;
    }
    if w !in acc {
      var r := acc + [w];
      forall k | 1 <= k < |r| ensures r[k] in Distractors(correct, pool) {
        if k < |acc| {
          assert r[k] == acc[k];
        }
      }
    }
  }

  /** The loop keeps the option set well formed. */
  lemma {:induction false} GatherWellFormed(correct: string, pool: seq<NounData>, draws: seq<real>, acc: seq<string>)
    requires |pool| > 0 && Draws(draws)
    requires WellFormedOptions(correct, pool, acc)
    ensures WellFormedOptions(correct, pool, Gather(correct, pool, draws, acc))
    decreases |draws|
  {
    if |acc| < 4 && draws != [] {
      var w := DrawnWord(pool, draws[0]);
      if Qualifies(correct, w) {
        AddOptionWellFormed(correct, pool, acc, draws[0]);
        GatherWellFormed(correct, pool, draws[1..], AddOption(acc, w));
      } else {
        GatherWellFormed(correct, pool, draws[1..], acc);
      }
    }
  }

  /**
   The option set holds the right answer, no repeats, at most four words,
   and otherwise only non-empty German words of the pool that differ from
   the right answer.
   */
  lemma OptionSetWellFormed(correct: string, pool: seq<NounData>, draws: seq<real>)
    requires |pool| > 0 && Draws(draws)
    ensures WellFormedOptions(correct, pool, OptionSet(correct, pool, draws))
  {
    GatherWellFormed(correct, pool, draws, [correct]);
  }

  /**
   The option set never outgrows the distractors on offer: with fewer than
   three distinct qualifying words in the pool it never reaches four, so
   the source's `while (optionsSet.size < 4)` never ends.
   */
  lemma OptionSetBound(correct: string, pool: seq<NounData>, draws: seq<real>)
    requires |pool| > 0 && Draws(draws)
    ensures |OptionSet(correct, pool, draws)| <= 1 + |Distractors(correct, pool)|
    ensures |Distractors(correct, pool)| < 3 ==> |OptionSet(correct, pool, draws)| < 4
  {
    var r := OptionSet(correct, pool, draws);
    OptionSetWellFormed(correct, pool, draws);
    var tail := r[1..];
    var words := set x | x in tail;
    assert Distinct(tail);
    NoRepeatsSetSize(tail);
    assert words <= Distractors(correct, pool) by {
      forall x | x in tail ensures x in Distractors(correct, pool) {
        var k :| 0 <= k < |tail| && tail[k] == x;
        assert r[k + 1] == x;
      }
    }
    SubsetSize(words, Distractors(correct, pool));
  }

  lemma {:induction false} CountOfDistinct(s: seq<string>, x: string)
    requires Distinct(s)
    ensures multiset(s)[x] <= 1
  {
    if s != [] {
      var t := s[..|s| - 1];
      assert s == t + [s[|s| - 1]];
      assert Distinct(t);
      CountOfDistinct(t, x);
      assert s[|s| - 1] !in t;
    }
  }

  /** A rearrangement of distinct words is still distinct. */
  lemma PermutationDistinct(a: seq<string>, b: seq<string>)
    requires multiset(a) == multiset(b) && Distinct(a)
    ensures Distinct(b)
  {
    forall i, j | 0 <= i < j < |b| ensures b[i] != b[j] {
      var x := b[j];
      CountOfDistinct(a, x);
      assert b == b[..j] + [x] + b[j + 1..];
      assert multiset(b)[x] == multiset(b[..j])[x] + 1 + multiset(b[j + 1..])[x];
      assert x !in b[..j];
      assert b[i] in b[..j];
    }
  }

  /**
   The Fisher–Yates pass: for `i` from the last index down to 1, swap
   element `i` with element `Math.floor(x * (i + 1))`, one draw per step.
   The array ends up a permutation of what it held.
   */
  method Shuffle<T>(a: array<T>, swaps: seq<real>)
    requires Draws(swaps) && a.Length <= |swaps| + 1
    modifies a
    ensures multiset(a[..]) == multiset(old(a[..]))
  {
    var i := a.Length - 1;
    while i > 0
      invariant -1 <= i < a.Length
      invariant multiset(a[..]) == multiset(old(a[..]))
    {
      var j := Scale(swaps[a.Length - 1 - i], i + 1);
      a[i], a[j] := a[j], a[i];
      i := i - 1;
    }
  }

  /**
   `generateOptions`: collects the option set, then shuffles it in place.
   The result is a rearrangement of `OptionSet`, so it holds the right
   answer, no repeats, at most four words, and otherwise only qualifying
   German words of the pool.
   */
  method GenerateOptions(correct: string, pool: seq<NounData>, draws: seq<real>, swaps: seq<real>)
    returns (options: seq<string>)
    requires |pool| > 0 && Draws(draws) && Draws(swaps) && |swaps| >= 3
    ensures multiset(options) == multiset(OptionSet(correct, pool, draws))
    ensures correct in options && Distinct(options) && 1 <= |options| <= 4
    ensures forall w :: w in options && w != correct ==> w in Distractors(correct, pool)
  {
    var acc := [correct];
    var k := 0;
    while |acc| < 4 && k < |draws|
      invariant 0 <= k <= |draws|
      invariant Gather(correct, pool, draws[k..], acc) == OptionSet(correct, pool, draws)
    {
      var w := DrawnWord(pool, draws[k]);
      assert draws[k..][1..] == draws[k + 1..];
      if w != [] && w != correct {
        acc := AddOption(acc, w);
      }
      k := k + 1;
    }
    assert draws[k..] == [] || |acc| >= 4;
    OptionSetWellFormed(correct, pool, draws);
    var a := new string[|acc|](i requires 0 <= i < |acc| => acc[i]);
    assert a[..] == acc;
    Shuffle(a, swaps);
    options := a[..];
    PermutationDistinct(acc, options);
    assert correct in multiset(acc);
    forall w | w in options && w != correct ensures w in Distractors(correct, pool) {
      assert w in multiset(acc);
      var k :| 0 <= k < |acc| && acc[k] == w;
    }
  }

  /** The feedback text for an answer `selected` about noun `n`. */
  function AnswerMessage(n: NounData, selected: string): string
  {
    if selected == n.germanWord then
      "Correct! \"" + n.noun + "\" in German is \"" + n.germanWord + "\"."
    else
      "Incorrect. \"" + n.noun + "\" in German is \"" + n.germanWord + "\", not \"" + selected + "\"."
  }

  /** The translation screen: the shared session plus the options on screen. */
  class TranslationPractice {
    const session: Session<NounData>
    var options: seq<string>

    /** Whenever a noun is current, its German word is among the options, which are distinct and at most four. */
    ghost predicate Valid()
      reads this, session
    {
      session.Valid() &&
      (session.current.None? ==> options == []) &&
      (session.current.Some? ==>
        session.current.value.germanWord in options && Distinct(options) && |options| <= 4)
    }

    constructor (pool: seq<NounData>)
      ensures Valid() && fresh(session)
      ensures session.pool == pool && session.used == {} && session.current == None
      ensures session.score == 0 && session.totalAnswered == 0 && !session.answered
      ensures options == []
    {
      session := new Session(pool);
      options := [];
    }

    /**
     `selectRandomNoun`: nothing on an empty pool; otherwise the session
     selects and the options are generated for the chosen noun's word.
     */
    method SelectRandomNoun(x: real, draws: seq<real>, swaps: seq<real>)
      requires Valid() && 0.0 <= x < 1.0 && Draws(draws) && Draws(swaps) && |swaps| >= 3
      modifies this, session
      ensures Valid()
      ensures |session.pool| == 0 ==>
        session.used == old(session.used) && session.current == old(session.current) && options == old(options)
      ensures |session.pool| > 0 ==>
        var n := session.pool[Pick(|session.pool|, old(session.used), x)];
        session.used == NextUsed(|session.pool|, old(session.used), x) &&
        session.current == Some(n) &&
        multiset(options) == multiset(OptionSet(n.germanWord, session.pool, draws))
      ensures session.score == old(session.score) && session.totalAnswered == old(session.totalAnswered)
      ensures session.answered == old(session.answered) && session.feedback == old(session.feedback)
    {
      if |session.pool| == 0 {
        return;
      }
      session.Select(x);
      var noun := session.current.value;
      options := GenerateOptions(noun.germanWord, session.pool, draws, swaps);
    }

    /** The effect that makes the first selection once the nouns are loaded and none is current. */
    method Start(x: real, draws: seq<real>, swaps: seq<real>)
      requires Valid() && 0.0 <= x < 1.0 && Draws(draws) && Draws(swaps) && |swaps| >= 3
      modifies this, session
      ensures Valid()
      ensures |session.pool| == 0 || old(session.current).Some? ==>
        session.used == old(session.used) && session.current == old(session.current) && options == old(options)
      ensures |session.pool| > 0 && old(session.current).None? ==>
        var n := session.pool[Pick(|session.pool|, old(session.used), x)];
        session.used == NextUsed(|session.pool|, old(session.used), x) &&
        session.current == Some(n) &&
        multiset(options) == multiset(OptionSet(n.germanWord, session.pool, draws))
      ensures |session.pool| > 0 ==> session.current.Some?
      ensures session.score == old(session.score) && session.totalAnswered == old(session.totalAnswered)
      ensures session.answered == old(session.answered) && session.feedback == old(session.feedback)
    {
      if |session.pool| > 0 && session.current.None? {
        SelectRandomNoun(x, draws, swaps);
      }
    }

    /**
     `handleAnswer`: ignored when no noun is current or it is already
     answered; otherwise counted, and scored exactly when the chosen word
     equals the noun's German word.
     */
    method HandleAnswer(selected: string)
      requires Valid()
      modifies session
      ensures Valid()
      ensures old(session.current).None? || old(session.answered) ==>
        session.score == old(session.score) && session.totalAnswered == old(session.totalAnswered) &&
        session.answered == old(session.answered) && session.feedback == old(session.feedback)
      ensures old(session.current).Some? && !old(session.answered) ==>
        session.answered && session.totalAnswered == old(session.totalAnswered) + 1 &&
        session.score == old(session.score) + (if selected == old(session.current).value.germanWord then 1 else 0) &&
        session.feedback.Feedback? &&
        (session.feedback.verdict == Correct <==> selected == old(session.current).value.germanWord)
      ensures session.used == old(session.used) && session.current == old(session.current)
    {
      if session.current.None? || session.answered {
        return;
      }
      var noun := session.current.value;
      session.Answer(selected == noun.germanWord, AnswerMessage(noun, selected));
    }

    /** `handleNext`: clears the feedback and the answered flag, then selects with fresh options. */
    method HandleNext(x: real, draws: seq<real>, swaps: seq<real>)
      requires Valid() && 0.0 <= x < 1.0 && Draws(draws) && Draws(swaps) && |swaps| >= 3
      modifies this, session
      ensures Valid()
      ensures !session.answered && session.feedback == NoFeedback
      ensures |session.pool| > 0 ==>
        var n := session.pool[Pick(|session.pool|, old(session.used), x)];
        session.used == NextUsed(|session.pool|, old(session.used), x) &&
        session.current == Some(n) &&
        multiset(options) == multiset(OptionSet(n.germanWord, session.pool, draws))
      ensures session.score == old(session.score) && session.totalAnswered == old(session.totalAnswered)
    {
      session.ClearAnswer();
      SelectRandomNoun(x, draws, swaps);
    }
  }
}
