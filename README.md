# Quiz session model

A Dafny model of the session logic of a browser multiple-choice quiz
(`script.js`). The page keeps one global game state: the questions drawn
for the session, the index of the current question, one answer record per
question visited, and a skip counter. Three constant fields set the session
rules: at most 3 skips, 28 questions offered, and 25 completed answers end
the session early. The handlers update this state in place:

- `initGame` resets it.
- `startQuizWithSubject` draws up to 28 questions from a shuffled copy of the
  chosen subject.
- `selectOption` records a choice for the current question.
- `skipQuestion` records a skip within the budget and moves on.
- `nextQuestion` either finishes the session or advances to the next
  question.

The live counters (correct, completed, incorrect) and the results screen (score
cards, rounded percentage, review list) are computed from the records.

The model has four modules:

- `Quiz` (`quiz.dfy`): questions, answer records, the counting function, the
  live counter tests, the results classification, the rounded percentage and
  the review list, with the counting identities between them.
- `Session` (`session.dfy`): the value of the game state and one step function
  per handler, returning the new state and what the screen does next. It also
  holds the session invariants (`Valid`, `AtQuestion`, `Fresh`, `Armed`) and
  the lemmas that the steps keep them.
- `Game` (`game.dfy`): the game state object as a class with the same fields.
  Its methods are the handlers, with the counting loops. Each handler is
  proved equal to its step function in `Session`; the three counting
  methods, `ShowResults` and `ReviewAnswers` are proved equal to the `Quiz`
  functions `Count`, `FinalTallies` and `Review`.
- `Bank` (`bank.dfy`): the subject screen's treatment of the bank value, as a
  flat list or as a map from subjects to lists, and the subject card's click
  handler.

The page's screen switches become an `Outcome`:

- `Ignored`: a skip refused by the budget.
- `Finished`: the results screen.
- `Shown(view)`: the next question, with its number, counters, skip-button
  state and button label.
- `NoQuestion`: the index has run past the end of the question list.

The random sort is a parameter `shuffled` that must be a permutation of the
subject's questions. `Math.round` of the percentage is modelled on integers as
round-half-up: `(200 * correct + 25) / 50`.

Behaviour of the code that the model keeps as written:

- A flat bank's single subject starts a session even with no questions. Only
  subjects of a keyed bank are refused when empty (`Bank.FlatClick`,
  `Bank.KeyedClick`).
- The session bound is the constant 28, not the length of the question list.
  With fewer than 28 questions and fewer than 25 answers completed, moving on
  from the last one does not finish.
  The next load reads a question that does not exist (`NoQuestion`;
  `Session.ShortBankRunsOut`). With a full list this never happens
  (`Session.FullBankNeverRunsOut`).
- After a missing question the script stops before it disables the next
  button, so that button keeps the state it had. It is enabled when an
  option of the last question shown was selected; after a plain skip it
  stays disabled and is enabled again only by clicking one of the old
  options still on screen (that click itself fails reading the missing
  question). Further presses
  of an enabled button advance the index, and the results screen appears
  once the index reaches 28. `Session.NextStep` models such presses like
  any other.
- The correct counter does not test `skipped`. The identity
  correct + incorrect = completed therefore rests on the invariant that
  skipped records carry no selection (`Quiz.WellFormed`).

## Model

| member | source | states |
|---|---|---|
| `Quiz.OptionsOf` | script.js:212 | the option texts are those under `options` when present, else those under `variants`, else none |
| `Quiz.OptionsFieldAlias` | script.js:340 | the same texts under either field name give the same options |
| `Quiz.Count` | script.js:141-171 | a count never exceeds the number of records |
| `Quiz.CountExtremes` | script.js:141-171 | a count is zero exactly when no record passes the test, and equals the number of records exactly when all do |
| `Quiz.CompletedPlusSkipped` | script.js:152-160 | on well-formed records, every record is either completed or skipped, so the two counts sum to the number of records |
| `Quiz.CorrectPlusIncorrect` | script.js:141-171 | on well-formed records, correct + incorrect equals completed, and correct never exceeds completed |
| `Quiz.Classify` | script.js:309-317 | a record is scored skipped exactly when it is marked skipped, and correct exactly when it is not skipped and its selection equals the answer; otherwise incorrect |
| `Quiz.Percent` | script.js:325 | the percentage is the nearest whole percent of correct / 25, halves up; it is at most 100 when correct is at most 25, and 100 at 25 |
| `Quiz.TalliesPartition` | script.js:309-317 | every record falls into exactly one of the skipped, correct and incorrect categories, so their counts sum to the number of records |
| `Quiz.FinalTallies` | script.js:309-325 | the three score cards sum to the number of records, the percentage is the rounded percentage of the correct card, and no records give all zeros |
| `Quiz.TalliesAgree` | script.js:310-316 | on well-formed records the score cards equal the live correct, incorrect and skipped counts |
| `Quiz.Review` | script.js:338-392 | the review list has one entry per record, numbered from 1, with the question's text, the record's classification, its chosen key, its correct key and the question's option texts |
| `Session.Put` | script.js:255 | assigning an element by index writes that element, leaves all others, and extends the list by one when the index is its length |
| `Session.InitStep` | script.js:36-43 | initialisation zeroes the index, the records and the skip counter, clears the subject, keeps the questions, and establishes the session invariant |
| `Session.StartStep` | script.js:130-138 | the session draws min(28, bank size) questions forming a sub-multiset of the bank; only the subject and the questions change |
| `Session.LoadStep` | script.js:174-235 | loading finishes exactly when at least 25 answers are completed, and fails for lack of a question exactly when fewer are completed and the index is past the list; a shown view carries the current question's text and option texts, the live correct and incorrect counts and the skip counter |
| `Session.SelectStep` | script.js:238-260 | a selection writes {selected key, the question's answer, not skipped} at the current index; other records, the index and the skip counter are unchanged |
| `Session.SkipStep` | script.js:263-278 | a skip is refused without change exactly when the budget is used up; otherwise it writes {no selection, the answer, skipped} at the current index, leaves the other records, the questions and the subject unchanged, adds exactly one skip and then moves the index on by at most one; a move on that does not finish shows what loading the new state gives |
| `Session.NextStep` | script.js:281-300 | with at least 25 completed the session finishes unchanged; otherwise only the index changes, by exactly one, and the session finishes exactly when it reaches 28, otherwise it shows what loading the new state gives |
| `Session.RecordSkip` | script.js:268-276 | the write half of a skip puts {no selection, the answer, skipped} at the current index, appending when the index is the number of records, leaves every other record and field unchanged, and adds one to the skip counter |
| `Session.SelectKeepsSession` | script.js:255-259 | from a question on screen, a selection keeps the invariant (skip budget, skip counter equal to skipped records) and arms the move on |
| `Session.RecordSkipArms` | script.js:268-276 | a skip within budget keeps the skip counter equal to the number of skipped records and does not raise the completed count |
| `Session.NextKeepsSession` | script.js:287-299 | moving on keeps the invariant; a finish has exactly 25 completed or the index at 28; a next question is freshly on screen; a missing question only occurs one past the end of a short list |
| `Session.SkipKeepsSession` | script.js:263-277 | a skip keeps the invariant; one that is not refused moves the index on by exactly one, and it never ends the session early: it finishes only at index 28 |
| `Session.StartShowsFirstQuestion` | script.js:130-137 | after initialisation, starting a non-empty subject shows question number 1 with skipping enabled; an empty subject has no question to show |
| `Session.LastSelectionWins` | script.js:255-259 | selecting twice before moving on equals selecting only the second key |
| `Session.DisplayedNumber` | script.js:178 | the displayed question number is the number of completed answers plus one |
| `Session.SkipKeepsNumber` | script.js:178 | a skip that loads the next question leaves the displayed question number unchanged; a skip after selecting an option on the same question ends in exactly the same state and outcome, so the number is unchanged there too |
| `Session.SkipDisabledIffRefused` | script.js:200 | the skip button is disabled exactly when a skip would be refused |
| `Session.FinishLabelIffFinishes` | script.js:232-234 | the next button reads "finish" exactly when selecting and moving on ends the session |
| `Session.FinishedScoreBounded` | script.js:288-296 | a session that finishes has at most 25 completed and at most 25 correct answers, so its percentage is at most 100 |
| `Session.FullBankNeverRunsOut` | script.js:293-299 | with 28 questions drawn, moving on never reaches a missing question |
| `Session.ShortBankRunsOut` | script.js:295-298 | with fewer than 28 questions, moving on from the last one with fewer than 25 completed reaches a missing question |
| `Game.GameState.constructor` | script.js:5-14 | the initial literal: no questions, index 0, no records, no skips, no subject; it satisfies the invariant |
| `Game.GameState.InitGame` | script.js:36-43 | the fields become those of `InitStep` |
| `Game.GameState.StartQuizWithSubject` | script.js:130-138 | the fields become those of `StartStep`, and the returned outcome is the loaded question |
| `Game.GameState.GetCorrectAnswersCount` | script.js:141-149 | the loop returns the number of records whose selection equals the answer |
| `Game.GameState.GetCompletedAnswersCount` | script.js:152-160 | the loop returns the number of records with a selection that are not skipped |
| `Game.GameState.GetIncorrectAnswersCount` | script.js:163-171 | the loop returns the number of non-skipped records whose selection differs from the answer |
| `Game.GameState.LoadQuestion` | script.js:174-235 | returns the outcome `LoadStep` gives for the current fields |
| `Game.GameState.SelectOption` | script.js:238-260 | the fields become those of `SelectStep` |
| `Game.GameState.SkipQuestion` | script.js:263-278 | the fields and the outcome are those of `SkipStep` |
| `Game.GameState.NextQuestion` | script.js:281-300 | the fields and the outcome are those of `NextStep` |
| `Game.GameState.ShowResults` | script.js:303-326 | the loop's three counters and the percentage are the final tallies of the records |
| `Game.GameState.ReviewAnswers` | script.js:338-392 | the loop builds the review list of the records |
| `Bank.LoadSubjects` | script.js:67-127 | undefined data, any non-list non-object value and an object without keys are errors; a flat list is one card "Общий тест" without the empty check; a keyed bank gives one card per key, in order, with its own questions and the empty check |
| `Bank.Click` | script.js:113-120 | a click is refused exactly when the card checks for emptiness and has no questions; otherwise it starts that subject with its own questions |
| `Bank.KeyedClick` | script.js:103-122 | in a keyed bank a subject with zero questions never starts a session, and any other subject starts with its own questions |
| `Bank.FlatClick` | script.js:81-93 | a flat bank's card starts a session with the whole list, whatever its size |

## Left out

- Rendering and the page glue are not modelled: screen switching, HTML building (including the `Object.keys` order in which the options are rendered, since a question's options are a map), CSS classes, `alert`, console logging and the event listeners. What a handler would show is returned as an `Outcome` or a `View`.
- The randomness of the shuffle is not modelled: `shuffled` is any permutation of the subject's questions, so the model says nothing about uniformity.
- The progress bar width and the progress ring geometry are floating-point display values and are not modelled.
- Quiz.Percent: `Math.round` on a floating-point quotient is modelled as exact integer round-half-up. Floating-point rounding error is not modelled.
- Option keys are `Option<Key>`. JavaScript truthiness, such as an empty-string key counting as no selection, is not modelled.
- Game.GameState.SelectOption: requires a question at the current index. Without one, the script throws reading the missing question before anything is written. The model does not cover the page after such an error.
- Game.GameState.SkipQuestion: requires a question at the current index. With the budget used up the script returns before it reads the question, so a refused skip needs none. The requirement therefore only excludes skips on the page after a missing question, which the model does not cover.
- Bank.LoadSubjects: a keyed bank's subject values are taken to be question lists. The script does not check this. A `null` value throws when its length is read, and a number or a plain object has no length, so it is not refused as empty; clicking its card then fails when the script copies it. Such banks are not modelled.
- Session.Put, Session.SelectStep, Session.SkipStep, Game.GameState.SelectOption, Game.GameState.SkipQuestion: require the current index to be at most the number of records. The page enables its next button only after a selection, so moving on never leaves a question without a record. After a missing question, further presses of the next button push the index past the records, but select and skip then fail reading the missing question before they write, so no hole is ever written. Holes in the records array, which the counting loops would skip, are not modelled.
- The three constant fields are module constants (3, 28, 25). The model does not consider other configurations.
- The per-question review list keeps each entry's keys and the question's option texts. The HTML text built from them is left out.
