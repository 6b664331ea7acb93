/**
 * Questions, answer records and the tallies the quiz takes over them:
 * the live counters shown during a session and the final score cards.
 */
module Quiz {

  datatype Option<+T> = None | Some(value: T)

  /** The constant fields of the game state. */
  const MaxSkips: nat := 3
  const TotalQuestions: nat := 28
  const RequiredCompleted: nat := 25

  function Min(a: nat, b: nat): nat { if a <= b then a else b }

  /** A short option label such as "A"; option texts are keyed by it. */
  type Key = string

  /**
   * A question of the bank. Its option texts arrive under the field
   * `options` or, in some banks, under `variants`.
   */
  datatype Question = Question(
    id: int,
    text: string,
    answer: Key,
    options: Option<map<Key, string>>,
    variants: Option<map<Key, string>>)

  /**
   * The option texts of a question: `options` when present, otherwise
   * `variants`, otherwise no options at all.
   */
  function OptionsOf(q: Question): (m: map<Key, string>)
    ensures q.options.Some? ==> m == q.options.value
    ensures q.options.None? && q.variants.Some? ==> m == q.variants.value
    ensures q.options.None? && q.variants.None? ==> m == map[]
  {
    match q.options
    case Some(m) => m
    case None => if q.variants.Some? then q.variants.value else map[]
  }

  /** Either field name carries the same option texts. */
  lemma OptionsFieldAlias(q: Question, m: map<Key, string>)
    ensures OptionsOf(q.(options := Some(m), variants := None)) == m
    ensures OptionsOf(q.(options := None, variants := Some(m))) == m
  {
  }

  /**
   * The record kept for one question slot. A selection writes a record
   * with a key and `skipped` false; a skip writes one with no key and
   * `skipped` true.
   */
  datatype Answer = Answer(questionId: int, selected: Option<Key>, correct: Key, skipped: bool)

  /** The two shapes of record the quiz ever writes. */
  predicate WellFormed(a: Answer) { a.skipped <==> a.selected.None? }

  // The tests of the three live counters.
  predicate IsCorrect(a: Answer) { a.selected.Some? && a.selected.value == a.correct }
  predicate IsCompleted(a: Answer) { a.selected.Some? && !a.skipped }
  predicate IsIncorrect(a: Answer) { a.selected.Some? && !a.skipped && a.selected.value != a.correct }
  predicate IsSkipped(a: Answer) { a.skipped }

  /** Number of elements of `s` that satisfy `p`, counted front to back. */
  function Count<T>(s: seq<T>, p: T -> bool): (n: nat)
    ensures n <= |s|
  {
    if s == [] then 0
    else Count(s[..|s| - 1], p) + (if p(s[|s| - 1]) then 1 else 0)
  }

  /** A count is zero exactly when no element passes, and full exactly when all do. */
  lemma {:induction false} CountExtremes<T>(s: seq<T>, p: T -> bool)
    ensures Count(s, p) == 0 <==> forall i :: 0 <= i < |s| ==> !p(s[i])
    ensures Count(s, p) == |s| <==> forall i :: 0 <= i < |s| ==> p(s[i])
  {
    if s != [] {
      var init := s[..|s| - 1];
      assert forall i :: 0 <= i < |init| ==> init[i] == s[i];
      CountExtremes(init, p);
    }
  }

  lemma CountAppend<T>(s: seq<T>, x: T, p: T -> bool)
    ensures Count(s + [x], p) == Count(s, p) + (if p(x) then 1 else 0)
  {
    assert (s + [x])[..|s|] == s;
  }

  /** Overwriting one element changes the count by what leaves and what enters. */
  lemma {:induction false} CountUpdate<T>(s: seq<T>, i: nat, x: T, p: T -> bool)
    requires i < |s|
    ensures Count(s[i := x], p) + (if p(s[i]) then 1 else 0)
         == Count(s, p) + (if p(x) then 1 else 0)
  {
    var last := |s| - 1;
    if i < last {
      CountUpdate(s[..last], i, x, p);
      assert s[i := x][..last] == s[..last][i := x];
    } else {
      assert s[i := x][..last] == s[..last];
    }
  }

  /** Two tests that agree on every element give the same count. */
  lemma {:induction false} CountSame<T>(s: seq<T>, p: T -> bool, q: T -> bool)
    requires forall i :: 0 <= i < |s| ==> p(s[i]) == q(s[i])
    ensures Count(s, p) == Count(s, q)
  {
    if s != [] {
      var init := s[..|s| - 1];
      assert forall i :: 0 <= i < |init| ==> init[i] == s[i];
      CountSame(init, p, q);
    }
  }

  /**
   * When every element satisfies `whole` exactly when it satisfies one of
   * the disjoint tests `p` and `q`, the counts add up.
   */
  lemma {:induction false} CountSplit<T>(s: seq<T>, whole: T -> bool, p: T -> bool, q: T -> bool)
    requires forall i :: 0 <= i < |s| ==> !(p(s[i]) && q(s[i]))
    requires forall i :: 0 <= i < |s| ==> (whole(s[i]) <==> p(s[i]) || q(s[i]))
    ensures Count(s, whole) == Count(s, p) + Count(s, q)
  {
    if s != [] {
      var init := s[..|s| - 1];
      assert forall i :: 0 <= i < |init| ==> init[i] == s[i];
      CountSplit(init, whole, p, q);
    }
  }

  /** Every well-formed record is either completed or skipped, never both. */
  lemma {:induction false} CompletedPlusSkipped(s: seq<Answer>)
    requires forall i :: 0 <= i < |s| ==> WellFormed(s[i])
    ensures Count(s, IsCompleted) + Count(s, IsSkipped) == |s|
  {
    if s != [] {
      var init := s[..|s| - 1];
      assert forall i :: 0 <= i < |init| ==> init[i] == s[i];
      CompletedPlusSkipped(init);
    }
  }

  /**
   * The correct counter never counts a skipped record, so on well-formed
   * records correct + incorrect is exactly the completed counter.
   */
  lemma {:induction false} CorrectPlusIncorrect(s: seq<Answer>)
    requires forall i :: 0 <= i < |s| ==> WellFormed(s[i])
    ensures Count(s, IsCorrect) + Count(s, IsIncorrect) == Count(s, IsCompleted)
    ensures Count(s, IsCorrect) <= Count(s, IsCompleted)
  {
    CountSplit(s, IsCompleted, IsCorrect, IsIncorrect);
  }

  /** The outcome the results screen gives one record. */
  datatype Category = Skipped | Correct | Incorrect

  function Classify(a: Answer): (c: Category)
    ensures c == Skipped <==> a.skipped
    ensures c == Correct <==> !a.skipped && a.selected == Some(a.correct)
  {
    if a.skipped then Skipped
    else if a.selected == Some(a.correct) then Correct
    else Incorrect
  }

  predicate ScoredSkipped(a: Answer) { Classify(a) == Skipped }
  predicate ScoredCorrect(a: Answer) { Classify(a) == Correct }
  predicate ScoredIncorrect(a: Answer) { Classify(a) == Incorrect }

  /**
   * The rounded percentage for `correct` right answers out of the
   * required-completed threshold: the nearest whole percent, halves rounded up.
   */
  function Percent(correct: nat): (p: nat)
    ensures RequiredCompleted * (2 * p - 1) <= 200 * correct < RequiredCompleted * (2 * p + 1)
    ensures correct <= RequiredCompleted ==> p <= 100
    ensures correct == RequiredCompleted ==> p == 100
  {
    (200 * correct + RequiredCompleted) / (2 * RequiredCompleted)
  }

  /** The score cards of the results screen. */
  datatype Tallies = Tallies(correct: nat, incorrect: nat, skipped: nat, percentage: nat)

  /** Every record falls into exactly one category, so the category counts sum to the number of records. */
  lemma {:induction false} TalliesPartition(s: seq<Answer>)
    ensures Count(s, ScoredCorrect) + Count(s, ScoredIncorrect) + Count(s, ScoredSkipped) == |s|
  {
    if s != [] {
      var init := s[..|s| - 1];
      assert forall i :: 0 <= i < |init| ==> init[i] == s[i];
      TalliesPartition(init);
    }
  }

  /**
   * The score cards: one count per category, which together cover every
   * record, and the percentage of the correct ones out of the threshold.
   */
  function FinalTallies(s: seq<Answer>): (t: Tallies)
    ensures t.correct + t.incorrect + t.skipped == |s|
    ensures t.percentage == Percent(t.correct)
    ensures s == [] ==> t == Tallies(0, 0, 0, 0)
  {
    TalliesPartition(s);
    var right := Count(s, ScoredCorrect);
    Tallies(right, Count(s, ScoredIncorrect), Count(s, ScoredSkipped), Percent(right))
  }

  /** On well-formed records the score cards agree with the live counters. */
  lemma {:induction false} TalliesAgree(s: seq<Answer>)
    requires forall i :: 0 <= i < |s| ==> WellFormed(s[i])
    ensures FinalTallies(s).correct == Count(s, IsCorrect)
    ensures FinalTallies(s).incorrect == Count(s, IsIncorrect)
    ensures FinalTallies(s).skipped == Count(s, IsSkipped)
  {
    CountSame(s, ScoredCorrect, IsCorrect);
    CountSame(s, ScoredIncorrect, IsIncorrect);
    CountSame(s, ScoredSkipped, IsSkipped);
  }

  /** One entry of the per-question review list of the results screen. */
  datatype ReviewItem = ReviewItem(
    number: nat,
    text: string,
    category: Category,
    chosen: Option<Key>,
    correct: Key,
    optionTexts: map<Key, string>)

  function ReviewEntry(q: Question, a: Answer, i: nat): ReviewItem
  {
    ReviewItem(i + 1, q.text, Classify(a), a.selected, a.correct, OptionsOf(q))
  }

  /** The review list pairs record `i` with question `i`, which must exist. */
  function Review(qs: seq<Question>, s: seq<Answer>): (r: seq<ReviewItem>)
    requires |s| <= |qs|
    ensures |r| == |s|
    ensures forall i :: 0 <= i < |s| ==>
      && r[i].number == i + 1 && r[i].text == qs[i].text && r[i].category == Classify(s[i])
      && r[i].chosen == s[i].selected && r[i].correct == s[i].correct
      && r[i].optionTexts == OptionsOf(qs[i])
  {
    seq(|s|, i requires 0 <= i < |s| => ReviewEntry(qs[i], s[i], i))
  }
}
