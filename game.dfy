/**
 * The game state object and the handlers that update it in place. Each
 * method is proved against the step function of the Session module that
 * specifies it; the screen switches of the page become returned outcomes.
 */
module Game {
  import opened Quiz
  import opened Session

  class GameState {
    var questions: seq<Question>
    var currentQuestionIndex: nat
    var answers: seq<Answer>
    var skippedCount: nat
    var selectedSubject: Option<string>

    /** The value of the mutable fields. */
    function Snapshot(): State
      reads this
    {
      State(questions, currentQuestionIndex, answers, skippedCount, selectedSubject)
    }

    /** The initial game state literal. */
    constructor ()
      ensures Snapshot() == State([], 0, [], 0, None)
      ensures Valid(Snapshot())
    {
      questions := [];
      currentQuestionIndex := 0;
      answers := [];
      skippedCount := 0;
      selectedSubject := None;
    }

    method InitGame()
      modifies this
      ensures Snapshot() == InitStep(old(Snapshot()))
    {
      currentQuestionIndex := 0;
      answers := [];
      skippedCount := 0;
      selectedSubject := None;
    }

    /**
     * Starts the subject `name` whose questions are `bank`; `shuffled` is the
     * order the random sort produced. The quiz screen then loads a question.
     */
    method StartQuizWithSubject(name: string, bank: seq<Question>, shuffled: seq<Question>)
      returns (o: Outcome)
      requires multiset(shuffled) == multiset(bank)
      modifies this
      ensures Snapshot() == StartStep(old(Snapshot()), name, bank, shuffled)
      ensures o == LoadStep(Snapshot())
    {
      selectedSubject := Some(name);
      questions := shuffled[..Min(TotalQuestions, |shuffled|)];
      o := LoadQuestion();
    }

    method GetCorrectAnswersCount() returns (count: nat)
      ensures count == Count(answers, IsCorrect)
    {
      count := 0;
      var i := 0;
      while i < |answers|
        invariant i <= |answers|
        invariant count == Count(answers[..i], IsCorrect)
      {
        assert answers[..i + 1][..i] == answers[..i];
        if answers[i].selected.Some? && answers[i].selected.value == answers[i].correct {
          count := count + 1;
        }
        i := i + 1;
      }
      assert answers[..i] == answers;
    }

    method GetCompletedAnswersCount() returns (count: nat)
      ensures count == Count(answers, IsCompleted)
    {
      count := 0;
      var i := 0;
      while i < |answers|
        invariant i <= |answers|
        invariant count == Count(answers[..i], IsCompleted)
      {
        assert answers[..i + 1][..i] == answers[..i];
        if answers[i].selected.Some? && !answers[i].skipped {
          count := count + 1;
        }
        i := i + 1;
      }
      assert answers[..i] == answers;
    }

    method GetIncorrectAnswersCount() returns (count: nat)
      ensures count == Count(answers, IsIncorrect)
    {
      count := 0;
      var i := 0;
      while i < |answers|
        invariant i <= |answers|
        invariant count == Count(answers[..i], IsIncorrect)
      {
        assert answers[..i + 1][..i] == answers[..i];
        var a := answers[i];
        if a.selected.Some? && !a.skipped && a.selected.value != a.correct {
          count := count + 1;
        }
        i := i + 1;
      }
      assert answers[..i] == answers;
    }

    /** Renders the current question, or finishes once enough answers are completed. */
    method LoadQuestion() returns (o: Outcome)
      ensures o == LoadStep(Snapshot())
    {
      var correct := GetCorrectAnswersCount();
      var incorrect := GetIncorrectAnswersCount();
      var number := correct + incorrect + 1;
      var completed := GetCompletedAnswersCount();
      if completed >= RequiredCompleted {
        return Finished;
      }
      var skipDisabled := skippedCount >= MaxSkips;
      if currentQuestionIndex >= |questions| {
        return NoQuestion;
      }
      var q := questions[currentQuestionIndex];
      var isLast := number == TotalQuestions;
      var willComplete := completed + 1 >= RequiredCompleted;
      o := Shown(View(number, correct, incorrect, skippedCount, skipDisabled,
                      q.text, OptionsOf(q), isLast || willComplete));
    }

    method SelectOption(selectedKey: Key)
      requires currentQuestionIndex < |questions| && currentQuestionIndex <= |answers|
      modifies this
      ensures Snapshot() == SelectStep(old(Snapshot()), selectedKey)
    {
      var q := questions[currentQuestionIndex];
      answers := Put(answers, currentQuestionIndex, Answer(q.id, Some(selectedKey), q.answer, false));
    }

    method SkipQuestion() returns (o: Outcome)
      requires currentQuestionIndex < |questions| && currentQuestionIndex <= |answers|
      modifies this
      ensures Step(Snapshot(), o) == SkipStep(old(Snapshot()))
    {
      if skippedCount >= MaxSkips {
        return Ignored;
      }
      var q := questions[currentQuestionIndex];
      answers := Put(answers, currentQuestionIndex, Answer(q.id, None, q.answer, true));
      skippedCount := skippedCount + 1;
      o := NextQuestion();
    }

    method NextQuestion() returns (o: Outcome)
      modifies this
      ensures Step(Snapshot(), o) == NextStep(old(Snapshot()))
    {
      var completed := GetCompletedAnswersCount();
      if completed >= RequiredCompleted {
        return Finished;
      }
      currentQuestionIndex := currentQuestionIndex + 1;
      if currentQuestionIndex >= TotalQuestions {
        o := Finished;
      } else {
        o := LoadQuestion();
      }
    }

    /** The score cards and the per-question review list of the results screen. */
    method ShowResults() returns (t: Tallies, review: seq<ReviewItem>)
      requires |answers| <= |questions|
      ensures t == FinalTallies(answers)
      ensures review == Review(questions, answers)
    {
      var correct, incorrect, skipped := 0, 0, 0;
      var i := 0;
      while i < |answers|
        invariant i <= |answers|
        invariant correct == Count(answers[..i], ScoredCorrect)
        invariant incorrect == Count(answers[..i], ScoredIncorrect)
        invariant skipped == Count(answers[..i], ScoredSkipped)
      {
        var a := answers[i];
        assert answers[..i + 1] == answers[..i] + [a];
        CountAppend(answers[..i], a, ScoredCorrect);
        CountAppend(answers[..i], a, ScoredIncorrect);
        CountAppend(answers[..i], a, ScoredSkipped);
        if a.skipped {
          skipped := skipped + 1;
        } else if a.selected == Some(a.correct) {
          correct := correct + 1;
        } else {
          incorrect := incorrect + 1;
        }
        i := i + 1;
      }
      assert answers[..i] == answers;
      t := Tallies(correct, incorrect, skipped, Percent(correct));
      review := ReviewAnswers();
    }

    /** The loop over the records that lists each one beside its question. */
    method ReviewAnswers() returns (review: seq<ReviewItem>)
      requires |answers| <= |questions|
      ensures review == Review(questions, answers)
    {
      review := [];
      var i := 0;
      while i < |answers|
        invariant i <= |answers|
        invariant |review| == i
        invariant forall j :: 0 <= j < i ==> review[j] == ReviewEntry(questions[j], answers[j], j)
      {
        review := review + [ReviewEntry(questions[i], answers[i], i)];
        i := i + 1;
      }
    }
  }
}
