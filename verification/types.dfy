/**
 The records shared by the ingestion layer and the practice sessions
 (src/types.ts), plus the record the person-choice quiz reads.
 */
module Types {

  /** The three grammatical genders a noun can carry. */
  datatype Gender = Masculine | Feminine | Neutral

  /** The six grammatical persons a verb is conjugated for. */
  datatype Person = Ich | Du | ErSieEs | Wir | Ihr | SieSie

  /** One noun of the vocabulary sheet. */
  datatype NounData = NounData(
    srNo: int,
    noun: string,
    germanWord: string,
    article: string,
    gender: Gender,
    plural: string,
    example: string)

  /** One verb of the verb sheet, with one conjugation string per person. */
  datatype VerbData = VerbData(
    infinitive: string,
    meaning: string,
    ich: string,
    du: string,
    erSieEs: string,
    wir: string,
    ihr: string,
    sieSie: string,
    past: string,
    pastParticiple: string,
    auxiliary: string,
    prepositions: string,
    exampleSentence: string,
    notes: string)

  /**
   The record the person-choice quiz reads: one conjugated form of a verb
   and the person it belongs to. Its fields are not part of `VerbData`.
   */
  datatype PersonVerb = PersonVerb(
    verb: string,
    germanWord: string,
    person: Person,
    conjugation: string)

  /** The label the user interface shows for a gender. */
  function GenderName(g: Gender): string
  {
    match g
    case Masculine => "Masculine"
    case Feminine => "Feminine"
    case Neutral => "Neutral"
  }

  /** The label the user interface shows for a person. */
  function PersonName(p: Person): string
  {
    match p
    case Ich => "ich"
    case Du => "du"
    case ErSieEs => "er/sie/es"
    case Wir => "wir"
    case Ihr => "ihr"
    case SieSie => "sie/Sie"
  }

  /** The fixed list of genders offered as answers, in display order. */
  function AllGenders(): (r: seq<Gender>)
    ensures |r| == 3
    ensures forall i, j :: 0 <= i < j < |r| ==> r[i] != r[j]
    ensures r[0] == Masculine && r[1] == Feminine && r[2] == Neutral
  {
    [Masculine, Feminine, Neutral]
  }

  /** The fixed list of persons, in display order. */
  function AllPersons(): (r: seq<Person>)
    ensures |r| == 6
    ensures forall i, j :: 0 <= i < j < |r| ==> r[i] != r[j]
    ensures forall i :: 0 <= i < |r| ==> PersonName(r[i]) == ["ich", "du", "er/sie/es", "wir", "ihr", "sie/Sie"][i]
  {
    [Ich, Du, ErSieEs, Wir, Ihr, SieSie]
  }

  /** Every gender is offered: the answer list is exhaustive. */
  lemma AllGendersExhaustive(g: Gender)
    ensures g in AllGenders()
  {
    match g
    case Masculine => assert AllGenders()[0] == g;
    case Feminine => assert AllGenders()[1] == g;
    case Neutral => assert AllGenders()[2] == g;
  }

  /** Every person is offered: the person list is exhaustive. */
  lemma AllPersonsExhaustive(p: Person)
    ensures p in AllPersons()
  {
    match p
    case Ich => assert AllPersons()[0] == p;
    case Du => assert AllPersons()[1] == p;
    case ErSieEs => assert AllPersons()[2] == p;
    case Wir => assert AllPersons()[3] == p;
    case Ihr => assert AllPersons()[4] == p;
    case SieSie => assert AllPersons()[5] == p;
  }

  /** Distinct persons carry distinct labels, so a label names one person. */
  lemma PersonNameInjective(p: Person, q: Person)
    ensures PersonName(p) == PersonName(q) ==> p == q
  {
    if PersonName(p) == PersonName(q) {
      assert PersonName(p)[0] == PersonName(q)[0];
      assert |PersonName(p)| == |PersonName(q)|;
    }
  }

  /** The conjugation a verb record holds for a person: one field per person. */
  function Conjugation(v: VerbData, p: Person): (r: string)
    ensures r in [v.ich, v.du, v.erSieEs, v.wir, v.ihr, v.sieSie]
  {
    match p
    case Ich => v.ich
    case Du => v.du
    case ErSieEs => v.erSieEs
    case Wir => v.wir
    case Ihr => v.ihr
    case SieSie => v.sieSie
  }
}
