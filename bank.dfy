/**
 * The question bank adapter: the page receives its bank as a global value
 * that is either a flat list of questions (one implicit subject) or an
 * object mapping subject names to question lists. Loading the subject
 * screen turns it into subject cards; clicking a card starts a session or
 * is refused.
 */
module Bank {
  import opened Quiz

  datatype Result<+T, +E> = Ok(value: T) | Err(error: E)

  /**
   * The shapes the bank value can take. `Keyed` lists the object's own keys
   * in their enumeration order with their question lists; `OtherValue` is
   * anything else (null, a number, a string).
   */
  datatype RawBank =
    | Undefined
    | Flat(questions: seq<Question>)
    | Keyed(subjects: seq<(string, seq<Question>)>)
    | OtherValue

  /** Why no subject cards are listed. */
  datatype LoadError = NotLoaded | NoSubjects | InvalidStructure

  /**
   * A subject card: its name, its questions (the card shows how many) and
   * whether its click handler refuses a subject without questions.
   */
  datatype Card = Card(name: string, questions: seq<Question>, refusesEmpty: bool)

  /** What clicking a card does. */
  datatype Choice = Begin(name: string, questions: seq<Question>) | Refused

  /** The name of the single subject of a flat bank. */
  const GeneralTest: string := "Общий тест"

  function LoadSubjects(b: RawBank): (r: Result<seq<Card>, LoadError>)
    ensures b.Undefined? <==> r == Err(NotLoaded)
    ensures b.OtherValue? <==> r == Err(InvalidStructure)
    ensures r == Err(NoSubjects) <==> b == Keyed([])
    ensures b.Flat? ==> r == Ok([Card(GeneralTest, b.questions, false)])
    ensures b.Keyed? && r.Ok? ==>
      && |r.value| == |b.subjects|
      && forall i :: 0 <= i < |b.subjects| ==>
           r.value[i] == Card(b.subjects[i].0, b.subjects[i].1, true)
  {
    match b
    case Undefined => Err(NotLoaded)
    case Flat(qs) => Ok([Card(GeneralTest, qs, false)])
    case Keyed(subjects) =>
      if |subjects| == 0 then Err(NoSubjects)
      else Ok(seq(|subjects|, i requires 0 <= i < |subjects| => Card(subjects[i].0, subjects[i].1, true)))
    case OtherValue => Err(InvalidStructure)
  }

  function Click(c: Card): (r: Choice)
    ensures r == Refused <==> c.refusesEmpty && |c.questions| == 0
    ensures r.Begin? ==> r.name == c.name && r.questions == c.questions
  {
    if c.refusesEmpty && |c.questions| == 0 then Refused else Begin(c.name, c.questions)
  }

  /**
   * In a keyed bank, clicking a subject without questions never starts a
   * session, and clicking any other subject starts it with that subject's
   * own questions.
   */
  lemma KeyedClick(subjects: seq<(string, seq<Question>)>, k: nat)
    requires LoadSubjects(Keyed(subjects)).Ok?
    requires k < |subjects|
    ensures var c := LoadSubjects(Keyed(subjects)).value[k];
      && (|subjects[k].1| == 0 <==> Click(c) == Refused)
      && (|subjects[k].1| > 0 ==> Click(c) == Begin(subjects[k].0, subjects[k].1))
  {
  }

  /** The card of a flat bank starts a session with the whole list, whatever its size. */
  lemma FlatClick(qs: seq<Question>)
    ensures LoadSubjects(Flat(qs)).Ok?
    ensures Click(LoadSubjects(Flat(qs)).value[0]) == Begin(GeneralTest, qs)
  {
  }
}
