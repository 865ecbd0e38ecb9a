/**
 The gender quiz (src/components/GenderPractice.tsx): a noun is shown and
 the user picks one of the three genders.
 */
module GenderPractice {
  import opened Wrappers
  import opened Types
  import opened Practice

  /** The three answer buttons, in display order. */
  function GenderOptions(): (r: seq<Gender>)
    ensures |r| == 3
    ensures forall g :: g in r
  {
    forall g: Gender ensures g in AllGenders() {
      AllGendersExhaustive(g);
    }
    AllGenders()
  }

  /** The feedback text for an answer `selected` about noun `n`. */
  function AnswerMessage(n: NounData, selected: Gender): string
  {
    if selected == n.gender then
      "Correct! " + n.article + " " + n.germanWord + " is " + GenderName(n.gender) + "."
    else
      "Incorrect. " + n.article + " " + n.germanWord + " is " + GenderName(n.gender) + ", not " + GenderName(selected) + "."
  }

  /**
   `handleAnswer`: ignored when no noun is current or the noun is already
   answered; otherwise the answer is counted and scored when the chosen
   gender is the noun's gender.
   */
  method HandleAnswer(s: Session<NounData>, selected: Gender)
    requires s.Valid()
    modifies s
    ensures s.Valid()
    ensures old(s.current).None? || old(s.answered) ==>
      s.score == old(s.score) && s.totalAnswered == old(s.totalAnswered) &&
      s.answered == old(s.answered) && s.feedback == old(s.feedback)
    ensures old(s.current).Some? && !old(s.answered) ==>
      s.answered && s.totalAnswered == old(s.totalAnswered) + 1 &&
      s.score == old(s.score) + (if selected == old(s.current).value.gender then 1 else 0) &&
      s.feedback.Feedback? && (s.feedback.verdict == Correct <==> selected == old(s.current).value.gender)
    ensures s.used == old(s.used) && s.current == old(s.current)
  {
    if s.current.None? || s.answered {
      return;
    }
    var noun := s.current.value;
    s.Answer(selected == noun.gender, AnswerMessage(noun, selected));
  }
}
