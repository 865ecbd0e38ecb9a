/**
 The person quiz (src/components/VerbsPractice.tsx): a conjugated form is
 shown and the user picks the person it belongs to.
 */
module VerbsPractice {
  import opened Wrappers
  import opened Types
  import opened Practice

  /** The six answer buttons, in display order. */
  function PersonOptions(): (r: seq<Person>)
    ensures |r| == 6
    ensures forall p :: p in r
  {
    forall p: Person ensures p in AllPersons() {
      AllPersonsExhaustive(p);
    }
    AllPersons()
  }

  /** The feedback text for an answer `selected` about the form `v`. */
  function AnswerMessage(v: PersonVerb, selected: Person): string
  {
    if selected == v.person then
      "Correct! The conjugation \"" + v.conjugation + "\" is for \"" + PersonName(v.person) + "\"."
    else
      "Incorrect. The conjugation \"" + v.conjugation + "\" is for \"" + PersonName(v.person) + "\", not \"" + PersonName(selected) + "\"."
  }

  /**
   `handleAnswer`: ignored when no form is current or it is already
   answered; otherwise the answer is counted and scored when the chosen
   person is the form's person.
   */
  method HandleAnswer(s: Session<PersonVerb>, selected: Person)
    requires s.Valid()
    modifies s
    ensures s.Valid()
    ensures old(s.current).None? || old(s.answered) ==>
      s.score == old(s.score) && s.totalAnswered == old(s.totalAnswered) &&
      s.answered == old(s.answered) && s.feedback == old(s.feedback)
    ensures old(s.current).Some? && !old(s.answered) ==>
      s.answered && s.totalAnswered == old(s.totalAnswered) + 1 &&
      s.score == old(s.score) + (if selected == old(s.current).value.person then 1 else 0) &&
      s.feedback.Feedback? && (s.feedback.verdict == Correct <==> selected == old(s.current).value.person)
    ensures s.used == old(s.used) && s.current == old(s.current)
  {
    if s.current.None? || s.answered {
      return;
    }
    var verb := s.current.value;
    s.Answer(selected == verb.person, AnswerMessage(verb, selected));
  }
}
