/**
 The typing quiz (src/components/VerbTypingPractice.tsx): a verb's meaning
 and a person are shown, and the user types the conjugated form. The
 answer is compared after trimming the input and lower-casing both sides.
 */
module VerbTypingPractice {
  import opened Wrappers
  import opened Types
  import opened Text
  import opened Practice
  import SheetsData

  /** `userInput.trim().toLowerCase() === correctAnswer.toLowerCase()`. */
  predicate AnswerMatches(input: string, expected: string)
  {
    Lower(Trim(input)) == Lower(expected)
  }

  /** White space typed around the answer never changes the verdict. */
  lemma AnswerIgnoresPadding(a: string, input: string, b: string, expected: string)
    requires AllSpace(a) && AllSpace(b)
    ensures AnswerMatches(a + input + b, expected) <==> AnswerMatches(input, expected)
  {
    TrimIgnoresPadding(a, input, b);
  }

  /** The case of the typed answer and of the stored form never changes the verdict. */
  lemma AnswerIgnoresCase(input: string, expected: string)
    ensures AnswerMatches(Lower(input), expected) <==> AnswerMatches(input, expected)
    ensures AnswerMatches(input, Lower(expected)) <==> AnswerMatches(input, expected)
  {
    TrimLowerCommute(input);
    LowerIdempotent(Trim(input));
    LowerIdempotent(expected);
  }

  /** A stored form without surrounding white space is accepted when typed as stored. */
  lemma VerbatimAccepted(expected: string)
    requires IsTrimmed(expected)
    ensures AnswerMatches(expected, expected)
  {
    TrimOfTrimmed(expected);
  }

  /**
   Every conjugation the verb importer produces is trimmed, so typing it
   exactly as stored, for any person, is judged correct.
   */
  lemma ImportedConjugationAccepted(c: SheetsData.VerbColumns, values: seq<string>, p: Person)
    ensures AnswerMatches(Conjugation(SheetsData.VerbOfRow(c, values), p), Conjugation(SheetsData.VerbOfRow(c, values), p))
  {
    SheetsData.VerbOfRowConjugation(c, values, p);
    VerbatimAccepted(Conjugation(SheetsData.VerbOfRow(c, values), p));
  }

  /** The toast text after an answer. */
  function AnswerMessage(expected: string, isCorrect: bool): string
  {
    if isCorrect then "Correct! \"" + expected + "\" is right."
    else "The correct answer is \"" + expected + "\"."
  }

  /** The typing screen: the shared session plus the person asked, the typed text and the hint flag. */
  class TypingPractice {
    const session: Session<VerbData>
    var person: Option<Person>
    var input: string
    var showHint: bool

    /** A person is asked exactly when a verb is current. */
    ghost predicate Valid()
      reads this, session
    {
      session.Valid() && (person.Some? <==> session.current.Some?)
    }

    constructor (pool: seq<VerbData>)
      ensures Valid() && fresh(session)
      ensures session.pool == pool && session.used == {} && session.current == None
      ensures session.score == 0 && session.totalAnswered == 0 && !session.answered
      ensures person == None && input == [] && !showHint
    {
      session := new Session(pool);
      person := None;
      input := [];
      showHint := false;
    }

    /**
     `selectRandomVerbAndPerson`: nothing on an empty pool; otherwise the
     session selects a verb, a random person is asked, and the typed text,
     the answered flag, the toast and the hint are cleared.
     */
    method SelectVerbAndPerson(x: real, px: real)
      requires Valid() && 0.0 <= x < 1.0 && 0.0 <= px < 1.0
      modifies this, session
      ensures Valid()
      ensures |session.pool| == 0 ==>
        session.used == old(session.used) && session.current == old(session.current) &&
        person == old(person) && input == old(input) && showHint == old(showHint) &&
        session.answered == old(session.answered) && session.feedback == old(session.feedback)
      ensures |session.pool| > 0 ==>
        session.used == NextUsed(|session.pool|, old(session.used), x) &&
        session.current == Some(session.pool[Pick(|session.pool|, old(session.used), x)]) &&
        person == Some(AllPersons()[Scale(px, 6)]) &&
        input == [] && !showHint && !session.answered && session.feedback == NoFeedback
      ensures session.score == old(session.score) && session.totalAnswered == old(session.totalAnswered)
    {
      if |session.pool| == 0 {
        return;
      }
      session.Select(x);
      person := Some(AllPersons()[Scale(px, 6)]);
      input := [];
      session.ClearAnswer();
      showHint := false;
    }

    /** The effect that makes the first selection once the verbs are loaded and none is current. */
    method Start(x: real, px: real)
      requires Valid() && 0.0 <= x < 1.0 && 0.0 <= px < 1.0
      modifies this, session
      ensures Valid()
      ensures |session.pool| == 0 || old(session.current).Some? ==>
        session.used == old(session.used) && session.current == old(session.current) &&
        person == old(person) && input == old(input) && showHint == old(showHint) &&
        session.answered == old(session.answered) && session.feedback == old(session.feedback)
      ensures |session.pool| > 0 && old(session.current).None? ==>
        session.used == NextUsed(|session.pool|, old(session.used), x) &&
        session.current == Some(session.pool[Pick(|session.pool|, old(session.used), x)]) &&
        person == Some(AllPersons()[Scale(px, 6)]) &&
        input == [] && !showHint && !session.answered && session.feedback == NoFeedback
      ensures |session.pool| > 0 ==> session.current.Some? && person.Some?
      ensures session.score == old(session.score) && session.totalAnswered == old(session.totalAnswered)
    {
      if |session.pool| > 0 && session.current.None? {
        SelectVerbAndPerson(x, px);
      }
    }

    /** Typing into the input box, which is disabled once the question is answered. */
    method HandleInput(text: string)
      requires Valid()
      modifies this
      ensures Valid()
      ensures input == if session.answered then old(input) else text
      ensures person == old(person) && showHint == old(showHint)
    {
      if !session.answered {
        input := text;
      }
    }

    /** The hint button, shown only before the question is answered, toggles the hint. */
    method ToggleHint()
      requires Valid()
      modifies this
      ensures Valid()
      ensures showHint == if session.answered then old(showHint) else !old(showHint)
      ensures person == old(person) && input == old(input)
    {
      if !session.answered {
        showHint := !showHint;
      }
    }

    /**
     `handleSubmit`: ignored when no verb or person is current, when the
     question is already answered, or when the input is blank after
     trimming; otherwise counted, and scored exactly when the trimmed,
     lower-cased input equals the lower-cased conjugation asked for.
     */
    method HandleSubmit()
      requires Valid()
      modifies session
      ensures Valid()
      ensures old(session.current).None? || old(person).None? || old(session.answered) || IsBlank(input) ==>
        session.score == old(session.score) && session.totalAnswered == old(session.totalAnswered) &&
        session.answered == old(session.answered) && session.feedback == old(session.feedback)
      ensures old(session.current).Some? && old(person).Some? && !old(session.answered) && !IsBlank(input) ==>
        var ok := AnswerMatches(input, Conjugation(old(session.current).value, old(person).value));
        session.answered && session.totalAnswered == old(session.totalAnswered) + 1 &&
        session.score == old(session.score) + (if ok then 1 else 0) &&
        session.feedback.Feedback? && (session.feedback.verdict == Correct <==> ok)
      ensures session.used == old(session.used) && session.current == old(session.current)
    {
      if session.current.None? || person.None? || session.answered || IsBlank(input) {
        return;
      }
      var expected := Conjugation(session.current.value, person.value);
      var ok := AnswerMatches(input, expected);
      session.Answer(ok, AnswerMessage(expected, ok));
    }

    /** `handleNext`: clears the toast, the answered flag, the input and the hint, then selects again. */
    method HandleNext(x: real, px: real)
      requires Valid() && 0.0 <= x < 1.0 && 0.0 <= px < 1.0
      modifies this, session
      ensures Valid()
      ensures !session.answered && session.feedback == NoFeedback && input == [] && !showHint
      ensures |session.pool| > 0 ==>
        session.used == NextUsed(|session.pool|, old(session.used), x) &&
        session.current == Some(session.pool[Pick(|session.pool|, old(session.used), x)]) &&
        person == Some(AllPersons()[Scale(px, 6)])
      ensures session.score == old(session.score) && session.totalAnswered == old(session.totalAnswered)
    {
      session.ClearAnswer();
      input := [];
      showHint := false;
      SelectVerbAndPerson(x, px);
    }
  }
}
