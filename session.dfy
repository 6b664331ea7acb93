/**
 * The quiz session as a state machine over the value of the game state:
 * initialisation, starting a subject, loading a question, selecting an
 * option, skipping and moving on. Each step returns the new state and what
 * the screen does next; the lemmas state the invariants the steps keep.
 */
module Session {
  import opened Quiz

  /** The mutable fields of the game state. */
  datatype State = State(
    questions: seq<Question>,
    currentQuestionIndex: nat,
    answers: seq<Answer>,
    skippedCount: nat,
    selectedSubject: Option<string>)

  /** What the quiz screen shows for the current question. */
  datatype View = View(
    questionNumber: nat,
    correctCount: nat,
    incorrectCount: nat,
    skippedCount: nat,
    skipDisabled: bool,
    text: string,
    options: map<Key, string>,
    finishLabel: bool)

  /**
   * What follows a step: nothing (a skip refused by the budget), the results
   * screen, the next question, or no question at all because the index has
   * run past the end of the question list (the script then throws while
   * reading the missing question).
   */
  datatype Outcome = Ignored | Finished | Shown(view: View) | NoQuestion

  datatype Step = Step(state: State, outcome: Outcome)

  /** Assignment to an array element by index: one past the end appends. */
  function Put(s: seq<Answer>, i: nat, a: Answer): (r: seq<Answer>)
    requires i <= |s|
    ensures |r| == if i == |s| then |s| + 1 else |s|
    ensures r[i] == a
    ensures forall j :: 0 <= j < |s| && j != i ==> r[j] == s[j]
  {
    if i == |s| then s + [a] else s[i := a]
  }

  // ---------------------------------------------------------------------------
  // Invariants

  /**
   * Holds of every state from the first initialisation on: the skip budget is
   * kept, the skip counter counts the skipped records, every record has one of
   * the two shapes the quiz writes, there is a record for every question
   * before the current one and at most one more, and every record has a question.
   */
  ghost predicate Valid(s: State)
  {
    && s.skippedCount <= MaxSkips
    && s.skippedCount == Count(s.answers, IsSkipped)
    && (forall i :: 0 <= i < |s.answers| ==> WellFormed(s.answers[i]))
    && s.currentQuestionIndex <= |s.answers| <= s.currentQuestionIndex + 1
    && |s.answers| <= |s.questions|
  }

  /**
   * A question is on the quiz screen: it exists, fewer than the required
   * number were completed before it, and the record at its index, if any,
   * is the player's current selection.
   */
  ghost predicate AtQuestion(s: State)
  {
    && Valid(s)
    && s.currentQuestionIndex < TotalQuestions
    && s.currentQuestionIndex < |s.questions|
    && Count(s.answers[..s.currentQuestionIndex], IsCompleted) < RequiredCompleted
    && (s.currentQuestionIndex < |s.answers| ==> !s.answers[s.currentQuestionIndex].skipped)
  }

  /** A question was just loaded and nothing is recorded for it yet. */
  ghost predicate Fresh(s: State)
  {
    AtQuestion(s) && |s.answers| == s.currentQuestionIndex
  }

  /** A record for the current question exists, so the session may move on. */
  ghost predicate Armed(s: State)
  {
    && Valid(s)
    && s.currentQuestionIndex < TotalQuestions
    && |s.answers| == s.currentQuestionIndex + 1
    && Count(s.answers[..s.currentQuestionIndex], IsCompleted) < RequiredCompleted
  }

  // ---------------------------------------------------------------------------
  // Steps

  /** Initialisation clears the session; the question list is kept. */
  function InitStep(s: State): (r: State)
    ensures Valid(r)
    ensures r.currentQuestionIndex == 0 && r.answers == [] && r.skippedCount == 0
    ensures r.selectedSubject == None && r.questions == s.questions
  {
    s.(currentQuestionIndex := 0, answers := [], skippedCount := 0, selectedSubject := None)
  }

  /**
   * Starting a subject keeps a prefix of at most TotalQuestions questions of
   * `shuffled`, an arbitrary reordering of the subject's bank.
   */
  function StartStep(s: State, name: string, bank: seq<Question>, shuffled: seq<Question>): (r: State)
    requires multiset(shuffled) == multiset(bank)
    ensures |r.questions| == Min(TotalQuestions, |bank|)
    ensures multiset(r.questions) <= multiset(bank)
    ensures r == s.(selectedSubject := Some(name), questions := r.questions)
  {
    assert |shuffled| == |multiset(shuffled)| == |bank|;
    var n := Min(TotalQuestions, |shuffled|);
    assert shuffled == shuffled[..n] + shuffled[n..];
    s.(selectedSubject := Some(name), questions := shuffled[..n])
  }

  /**
   * Loading a question: the results screen once enough answers are completed,
   * otherwise the view of the current question.
   */
  function LoadStep(s: State): (o: Outcome)
    ensures o != Ignored
    ensures o == Finished <==> Count(s.answers, IsCompleted) >= RequiredCompleted
    ensures o == NoQuestion <==>
      Count(s.answers, IsCompleted) < RequiredCompleted && s.currentQuestionIndex >= |s.questions|
    ensures o.Shown? ==>
      && s.currentQuestionIndex < |s.questions|
      && o.view.text == s.questions[s.currentQuestionIndex].text
      && o.view.options == OptionsOf(s.questions[s.currentQuestionIndex])
      && o.view.correctCount == Count(s.answers, IsCorrect)
      && o.view.incorrectCount == Count(s.answers, IsIncorrect)
      && o.view.skippedCount == s.skippedCount
  {
    var correct := Count(s.answers, IsCorrect);
    var incorrect := Count(s.answers, IsIncorrect);
    var number := correct + incorrect + 1;
    var completed := Count(s.answers, IsCompleted);
    if completed >= RequiredCompleted then Finished
    else if s.currentQuestionIndex >= |s.questions| then NoQuestion
    else
      var q := s.questions[s.currentQuestionIndex];
      var isLast := number == TotalQuestions;
      var willComplete := completed + 1 >= RequiredCompleted;
      Shown(View(number, correct, incorrect, s.skippedCount, s.skippedCount >= MaxSkips,
                 q.text, OptionsOf(q), isLast || willComplete))
  }

  /** Selecting an option overwrites the record of the current question and nothing else. */
  function SelectStep(s: State, key: Key): (r: State)
    requires s.currentQuestionIndex < |s.questions| && s.currentQuestionIndex <= |s.answers|
    ensures |r.answers| == if s.currentQuestionIndex == |s.answers| then |s.answers| + 1 else |s.answers|
    ensures var q := s.questions[s.currentQuestionIndex];
      r.answers[s.currentQuestionIndex] == Answer(q.id, Some(key), q.answer, false)
    ensures forall j :: 0 <= j < |s.answers| && j != s.currentQuestionIndex ==> r.answers[j] == s.answers[j]
    ensures r == s.(answers := r.answers)
  {
    var q := s.questions[s.currentQuestionIndex];
    s.(answers := Put(s.answers, s.currentQuestionIndex, Answer(q.id, Some(key), q.answer, false)))
  }

  /** The write half of a skip: a skipped record at the current index, one more skip used. */
  function RecordSkip(s: State): (r: State)
    requires s.currentQuestionIndex < |s.questions| && s.currentQuestionIndex <= |s.answers|
    ensures |r.answers| == if s.currentQuestionIndex == |s.answers| then |s.answers| + 1 else |s.answers|
    ensures var q := s.questions[s.currentQuestionIndex];
      r.answers[s.currentQuestionIndex] == Answer(q.id, None, q.answer, true)
    ensures forall j :: 0 <= j < |s.answers| && j != s.currentQuestionIndex ==> r.answers[j] == s.answers[j]
    ensures r == s.(answers := r.answers, skippedCount := s.skippedCount + 1)
  {
    var q := s.questions[s.currentQuestionIndex];
    s.(answers := Put(s.answers, s.currentQuestionIndex, Answer(q.id, None, q.answer, true)),
       skippedCount := s.skippedCount + 1)
  }

  /**
   * Moving on: the session finishes in place once the required number of
   * answers is completed; otherwise the index advances and the session
   * finishes when it reaches TotalQuestions, or the next question is loaded.
   */
  function NextStep(s: State): (r: Step)
    ensures r.outcome != Ignored
    ensures r.state == s.(currentQuestionIndex := r.state.currentQuestionIndex)
    ensures Count(s.answers, IsCompleted) >= RequiredCompleted ==> r == Step(s, Finished)
    ensures Count(s.answers, IsCompleted) < RequiredCompleted ==>
      && r.state.currentQuestionIndex == s.currentQuestionIndex + 1
      && (r.outcome == Finished <==> r.state.currentQuestionIndex >= TotalQuestions)
    ensures Count(s.answers, IsCompleted) < RequiredCompleted && r.state.currentQuestionIndex < TotalQuestions ==>
      r.outcome == LoadStep(r.state)
  {
    if Count(s.answers, IsCompleted) >= RequiredCompleted then Step(s, Finished)
    else
      var r := s.(currentQuestionIndex := s.currentQuestionIndex + 1);
      if r.currentQuestionIndex >= TotalQuestions then Step(r, Finished)
      else Step(r, LoadStep(r))
  }

  /**
   * Skipping: refused without any change once the budget is used up;
   * otherwise a skipped record is written at the current index, the counter
   * goes up by exactly one, and the session moves on.
   */
  function SkipStep(s: State): (r: Step)
    requires s.currentQuestionIndex < |s.questions| && s.currentQuestionIndex <= |s.answers|
    ensures r.outcome == Ignored <==> s.skippedCount >= MaxSkips
    ensures r.outcome == Ignored ==> r.state == s
    ensures r.outcome != Ignored ==>
      var q := s.questions[s.currentQuestionIndex];
      && r.state.skippedCount == s.skippedCount + 1
      && |r.state.answers| == (if s.currentQuestionIndex == |s.answers| then |s.answers| + 1 else |s.answers|)
      && r.state.answers[s.currentQuestionIndex] == Answer(q.id, None, q.answer, true)
      && (forall j :: 0 <= j < |s.answers| && j != s.currentQuestionIndex ==> r.state.answers[j] == s.answers[j])
      && s.currentQuestionIndex <= r.state.currentQuestionIndex <= s.currentQuestionIndex + 1
    ensures r.outcome != Ignored ==>
      r.state.questions == s.questions && r.state.selectedSubject == s.selectedSubject
    ensures r.outcome != Ignored && Count(r.state.answers, IsCompleted) < RequiredCompleted
            && r.state.currentQuestionIndex < TotalQuestions ==>
      r.outcome == LoadStep(r.state)
  {
    if s.skippedCount >= MaxSkips then Step(s, Ignored)
    else NextStep(RecordSkip(s))
  }

  // ---------------------------------------------------------------------------
  // The invariants are kept

  /** Selecting keeps the question on screen and arms the move to the next one. */
  lemma SelectKeepsSession(s: State, key: Key)
    requires AtQuestion(s)
    ensures AtQuestion(SelectStep(s, key)) && Armed(SelectStep(s, key))
  {
    var r := SelectStep(s, key);
    var i := s.currentQuestionIndex;
    var a := r.answers[i];
    if i == |s.answers| {
      assert r.answers == s.answers + [a];
      CountAppend(s.answers, a, IsSkipped);
      assert r.answers[..i] == s.answers[..i];
    } else {
      assert r.answers == s.answers[i := a];
      CountUpdate(s.answers, i, a, IsSkipped);
      assert r.answers[..i] == s.answers[..i];
    }
  }

  /**
   * Writing a skip on a question on screen within budget arms the move on,
   * counts one more skip and never raises the completed count.
   */
  lemma RecordSkipArms(s: State)
    requires AtQuestion(s) && s.skippedCount < MaxSkips
    ensures Armed(RecordSkip(s))
    ensures Count(RecordSkip(s).answers, IsCompleted) <= Count(s.answers, IsCompleted)
    ensures Count(RecordSkip(s).answers, IsCompleted) < RequiredCompleted
  {
    var r := RecordSkip(s);
    var i := s.currentQuestionIndex;
    var a := r.answers[i];
    if i == |s.answers| {
      assert r.answers == s.answers + [a];
      CountAppend(s.answers, a, IsSkipped);
      CountAppend(s.answers, a, IsCompleted);
    } else {
      assert r.answers == s.answers[i := a];
      CountUpdate(s.answers, i, a, IsSkipped);
      CountUpdate(s.answers, i, a, IsCompleted);
    }
    assert r.answers[..i] == s.answers[..i];
    assert r.answers[..|r.answers| - 1] == s.answers[..i];
  }

  /**
   * Moving on from an armed state keeps the invariant. A finish leaves either
   * exactly the required number completed or the index at TotalQuestions; a
   * next question is freshly on screen; a missing question means the index
   * ran exactly one past the end of a short question list.
   */
  lemma NextKeepsSession(s: State)
    requires Armed(s)
    ensures var r := NextStep(s);
      && Valid(r.state)
      && (r.outcome == Finished ==>
            Count(r.state.answers, IsCompleted) == RequiredCompleted
            || r.state.currentQuestionIndex == TotalQuestions)
      && (r.outcome.Shown? ==> Fresh(r.state))
      && (r.outcome == NoQuestion ==> r.state.currentQuestionIndex == |r.state.questions| < TotalQuestions)
  {
    var i := s.currentQuestionIndex;
    assert s.answers[..|s.answers| - 1] == s.answers[..i];
    assert s.answers[..i + 1] == s.answers;
  }

  /**
   * A skip keeps the invariant; it never ends the session early, since the
   * completed count cannot grow, so it finishes only when the index reaches
   * TotalQuestions.
   */
  lemma SkipKeepsSession(s: State)
    requires AtQuestion(s)
    ensures var r := SkipStep(s);
      && Valid(r.state)
      && (r.outcome == Ignored ==> AtQuestion(r.state))
      && (r.outcome != Ignored ==> r.state.currentQuestionIndex == s.currentQuestionIndex + 1)
      && (r.outcome == Finished ==> r.state.currentQuestionIndex == TotalQuestions)
      && (r.outcome.Shown? ==> Fresh(r.state))
      && (r.outcome == NoQuestion ==> r.state.currentQuestionIndex == |r.state.questions| < TotalQuestions)
  {
    if s.skippedCount < MaxSkips {
      RecordSkipArms(s);
      NextKeepsSession(RecordSkip(s));
    }
  }

  /** Initialising and then starting a non-empty subject puts question 1 on screen. */
  lemma StartShowsFirstQuestion(s: State, name: string, bank: seq<Question>, shuffled: seq<Question>)
    requires multiset(shuffled) == multiset(bank)
    ensures var r := StartStep(InitStep(s), name, bank, shuffled);
      && (|bank| > 0 ==> Fresh(r) && LoadStep(r).Shown?
                         && LoadStep(r).view.questionNumber == 1 && !LoadStep(r).view.skipDisabled)
      && (|bank| == 0 ==> LoadStep(r) == NoQuestion)
  {
    var r := StartStep(InitStep(s), name, bank, shuffled);
    assert r.answers[..0] == [];
  }

  // ---------------------------------------------------------------------------
  // Properties of single steps

  /** Selecting again before moving on replaces the earlier selection. */
  lemma LastSelectionWins(s: State, k1: Key, k2: Key)
    requires s.currentQuestionIndex < |s.questions| && s.currentQuestionIndex <= |s.answers|
    ensures SelectStep(SelectStep(s, k1), k2) == SelectStep(s, k2)
  {
    assert SelectStep(SelectStep(s, k1), k2).answers == SelectStep(s, k2).answers;
  }

  /** The displayed question number counts the completed answers: skips do not advance it. */
  lemma DisplayedNumber(s: State)
    requires Valid(s) && LoadStep(s).Shown?
    ensures LoadStep(s).view.questionNumber == Count(s.answers, IsCompleted) + 1
  {
    CorrectPlusIncorrect(s.answers);
  }

  /**
   * A skip that moves to the next question leaves the displayed question
   * number as it was, whether or not an option was selected first: a skip
   * after a selection overwrites it and ends exactly like a skip straight away.
   */
  lemma SkipKeepsNumber(s: State, k: Key)
    requires Fresh(s) && SkipStep(s).outcome.Shown?
    ensures LoadStep(s).Shown?
    ensures SkipStep(s).outcome.view.questionNumber == LoadStep(s).view.questionNumber
    ensures SkipStep(SelectStep(s, k)) == SkipStep(s)
    ensures SkipStep(SelectStep(s, k)).outcome.view.questionNumber == LoadStep(s).view.questionNumber
  {
    var r := RecordSkip(s);
    var a := r.answers[s.currentQuestionIndex];
    assert s.answers[..s.currentQuestionIndex] == s.answers;
    assert r.answers == s.answers + [a];
    assert RecordSkip(SelectStep(s, k)).answers == r.answers;
    CountAppend(s.answers, a, IsCorrect);
    CountAppend(s.answers, a, IsIncorrect);
    CountAppend(s.answers, a, IsCompleted);
  }

  /** The skip button is disabled exactly when a skip would be refused. */
  lemma SkipDisabledIffRefused(s: State)
    requires Fresh(s)
    ensures LoadStep(s).Shown?
    ensures LoadStep(s).view.skipDisabled <==> SkipStep(s).outcome == Ignored
  {
    assert s.answers[..s.currentQuestionIndex] == s.answers;
  }

  /**
   * The "finish" label on the next button is shown exactly when selecting
   * any option and pressing it ends the session.
   */
  lemma FinishLabelIffFinishes(s: State, key: Key)
    requires Fresh(s)
    ensures LoadStep(s).Shown?
    ensures LoadStep(s).view.finishLabel <==> NextStep(SelectStep(s, key)).outcome == Finished
  {
    var i := s.currentQuestionIndex;
    assert s.answers[..i] == s.answers;
    CompletedPlusSkipped(s.answers);
    DisplayedNumber(s);
    var r := SelectStep(s, key);
    assert r.answers == s.answers + [r.answers[i]];
    CountAppend(s.answers, r.answers[i], IsCompleted);
  }

  /** A session that finishes after an armed move scores at most 100 percent. */
  lemma FinishedScoreBounded(s: State)
    requires Armed(s) && NextStep(s).outcome == Finished
    ensures Count(NextStep(s).state.answers, IsCompleted) <= RequiredCompleted
    ensures FinalTallies(NextStep(s).state.answers).correct <= RequiredCompleted
    ensures FinalTallies(NextStep(s).state.answers).percentage <= 100
  {
    NextKeepsSession(s);
    var t := NextStep(s).state.answers;
    assert t == s.answers;
    assert t[..|t| - 1] == s.answers[..s.currentQuestionIndex];
    CorrectPlusIncorrect(t);
    TalliesAgree(t);
  }

  /** With a full question list a move on never runs past the last question. */
  lemma FullBankNeverRunsOut(s: State)
    requires Armed(s) && |s.questions| == TotalQuestions
    ensures NextStep(s).outcome != NoQuestion
  {
  }

  /**
   * With a question list shorter than TotalQuestions, moving on from its last
   * question without enough completed answers reaches an index with no question.
   */
  lemma ShortBankRunsOut(s: State)
    requires Armed(s) && s.currentQuestionIndex + 1 == |s.questions| < TotalQuestions
    requires Count(s.answers, IsCompleted) < RequiredCompleted
    ensures NextStep(s).outcome == NoQuestion
  {
  }
}
