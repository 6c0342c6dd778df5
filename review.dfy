/**
 * The results tab: for each question, the answer the user gave (or
 * "Non répondu"), its verdict and mark; the counts of gradable and correct
 * questions; and the score summary with its feedback band.
 */
module Review {
  import opened Wrappers
  import opened Grading
  import opened QuizForm

  /** The answer the results tab grades for question `i`: `user_answers.get(key)`,
      with a missing key, None or "" replaced by "Non répondu". */
  function SubmittedAnswer(answers: map<string, Option<string>>, i: nat): (r: string)
    ensures r != ""
    ensures r == UNANSWERED || (AnswerKey(i) in answers && answers[AnswerKey(i)] == Some(r))
    ensures AnswerKey(i) in answers && answers[AnswerKey(i)].Some? && answers[AnswerKey(i)].value != "" ==>
      r == answers[AnswerKey(i)].value
  {
    var stored := if AnswerKey(i) in answers then answers[AnswerKey(i)] else None;
    if stored.None? || stored.value == "" then UNANSWERED else stored.value
  }

  /** What the results tab shows under a question: correct, incorrect, or "open answer". */
  datatype Mark = MarkedCorrect | MarkedIncorrect | OpenAnswer

  /** The marks that a gradable question can receive. */
  const GRADED: set<Mark> := {MarkedCorrect, MarkedIncorrect}

  /** The mark of question `i`: a gradable question is marked correct exactly when
      `CheckAnswer` says Correct; any other kind gets the open-answer note. */
  function MarkAt(questions: seq<Question>, answers: map<string, Option<string>>, i: nat): (m: Mark)
    requires i < |questions|
    ensures m in GRADED <==> IsGradable(questions[i])
    ensures m == MarkedCorrect <==> IsGradable(questions[i]) && CheckAnswer(Some(SubmittedAnswer(answers, i)), questions[i]) == Correct
  {
    var verdict := CheckAnswer(Some(SubmittedAnswer(answers, i)), questions[i]);
    if IsGradable(questions[i]) then
      if verdict == Correct then MarkedCorrect else MarkedIncorrect
    else
      OpenAnswer
  }

  /** Positions of the questions the engine can grade. */
  function GradableIndices(questions: seq<Question>): set<nat> {
    set i: nat | i < |questions| && IsGradable(questions[i])
  }

  /** Positions of the questions marked correct. */
  function CorrectIndices(questions: seq<Question>, answers: map<string, Option<string>>): set<nat> {
    set i: nat | i < |questions| && MarkAt(questions, answers, i) == MarkedCorrect
  }

  /** Number of marks in `s` that belong to `wanted`. */
  function Tally(s: seq<Mark>, wanted: set<Mark>): nat {
    if s == [] then 0 else Tally(s[..|s| - 1], wanted) + (if s[|s| - 1] in wanted then 1 else 0)
  }

  /** Positions of `s` holding a mark in `wanted`. */
  function Positions(s: seq<Mark>, wanted: set<Mark>): set<nat> {
    set i: nat | i < |s| && s[i] in wanted
  }

  lemma TallyAppend(s: seq<Mark>, m: Mark, wanted: set<Mark>)
    ensures Tally(s + [m], wanted) == Tally(s, wanted) + (if m in wanted then 1 else 0)
  {
    assert (s + [m])[..|s|] == s;
  }

  /** `Tally` counts exactly the positions it should. */
  lemma {:induction false} TallyIsCardinality(s: seq<Mark>, wanted: set<Mark>)
    ensures Tally(s, wanted) == |Positions(s, wanted)|
  {
    if s != [] {
      var n := |s| - 1;
      var front := s[..n];
      TallyIsCardinality(front, wanted);
      if s[n] in wanted {
        assert Positions(s, wanted) == Positions(front, wanted) + {n};
      } else {
        assert Positions(s, wanted) == Positions(front, wanted);
      }
    }
  }

  /** Counting a larger set of marks never gives less. */
  lemma {:induction false} TallyMonotone(s: seq<Mark>, small: set<Mark>, large: set<Mark>)
    requires small <= large
    ensures Tally(s, small) <= Tally(s, large)
  {
    if s != [] {
      TallyMonotone(s[..|s| - 1], small, large);
    }
  }

  /** `marks` holds the marks of the first `n` questions, in order. */
  predicate MarkedUpTo(questions: seq<Question>, answers: map<string, Option<string>>, marks: seq<Mark>, n: nat)
    requires n <= |questions|
  {
    |marks| == n && forall j :: 0 <= j < n ==> marks[j] == MarkAt(questions, answers, j)
  }

  /** Appending the mark of question `n` extends the marks by that question alone. */
  lemma MarkStep(questions: seq<Question>, answers: map<string, Option<string>>, marks: seq<Mark>, n: nat)
    requires n < |questions| && MarkedUpTo(questions, answers, marks, n)
    ensures MarkedUpTo(questions, answers, marks + [MarkAt(questions, answers, n)], n + 1)
  {
    var m := MarkAt(questions, answers, n);
    var longer := marks + [m];
    forall j | 0 <= j < n + 1
      ensures longer[j] == MarkAt(questions, answers, j)
    {
      if j < n {
        assert longer[j] == marks[j];
      } else {
        assert longer[j] == m;
      }
    }
  }

  /** The results loop. It returns the two counters and the marks it showed, in question order. */
  method ReviewAnswers(questions: seq<Question>, answers: map<string, Option<string>>)
    returns (correct: nat, gradable: nat, marks: seq<Mark>)
    ensures |marks| == |questions|
    ensures forall i :: 0 <= i < |questions| ==> marks[i] == MarkAt(questions, answers, i)
    ensures gradable == |GradableIndices(questions)|
    ensures correct == |CorrectIndices(questions, answers)|
    ensures correct <= gradable
  {
    correct, gradable, marks := 0, 0, [];
    for i := 0 to |questions|
      invariant MarkedUpTo(questions, answers, marks, i)
      invariant gradable == Tally(marks, GRADED)
      invariant correct == Tally(marks, {MarkedCorrect})
    {
      var q := questions[i];
      var shown := SubmittedAnswer(answers, i);
      var isCorrect := CheckAnswer(Some(shown), q);
      var mark: Mark;
      if q.kind == MCQ || q.kind == TRUE_FALSE {
        gradable := gradable + 1;
        if isCorrect == Correct {
          correct := correct + 1;
          mark := MarkedCorrect;
        } else {
          mark := MarkedIncorrect;
        }
      } else {
        mark := OpenAnswer;
      }
      assert mark == MarkAt(questions, answers, i) by {
        assert isCorrect == CheckAnswer(Some(SubmittedAnswer(answers, i)), questions[i]);
      }
      MarkStep(questions, answers, marks, i);
      TallyAppend(marks, mark, GRADED);
      TallyAppend(marks, mark, {MarkedCorrect});
      marks := marks + [mark];
    }
    MarksCount(questions, answers, marks);
  }

  /** Counting the marks of every question counts the gradable and the correct ones. */
  lemma MarksCount(questions: seq<Question>, answers: map<string, Option<string>>, marks: seq<Mark>)
    requires |marks| == |questions|
    requires forall i :: 0 <= i < |questions| ==> marks[i] == MarkAt(questions, answers, i)
    ensures Tally(marks, GRADED) == |GradableIndices(questions)|
    ensures Tally(marks, {MarkedCorrect}) == |CorrectIndices(questions, answers)|
    ensures Tally(marks, {MarkedCorrect}) <= Tally(marks, GRADED)
  {
    TallyIsCardinality(marks, GRADED);
    TallyIsCardinality(marks, {MarkedCorrect});
    TallyMonotone(marks, {MarkedCorrect}, GRADED);
    assert Positions(marks, GRADED) == GradableIndices(questions);
    assert Positions(marks, {MarkedCorrect}) == CorrectIndices(questions, answers);
  }

  /** The feedback band under the score. */
  datatype Feedback = Excellent | Good | KeepStudying

  /** The score summary: "correct/gradable" and the percentage, with its band. */
  datatype Score = Score(correct: nat, gradable: nat, percentage: real, feedback: Feedback)

  /** `correct / gradable * 100`, computed exactly: the number that, taken
      `gradable` times, makes `correct` hundreds; it lies between 0 and 100 when
      no more are correct than are gradable. */
  function Percentage(correct: nat, gradable: nat): (p: real)
    requires gradable > 0
    ensures p * gradable as real == correct as real * 100.0
    ensures 0.0 <= p
    ensures correct <= gradable ==> p <= 100.0
  {
    var g := gradable as real;
    var p := (correct as real / g) * 100.0;
    assert p * g == correct as real * 100.0;
    ScaleOrder(p, 0.0, g);
    ScaleOrder(100.0, p, g);
    p
  }

  /** The band, decided by integer comparisons; it agrees with the thresholds
      80 and 60 applied to the exact percentage. */
  function FeedbackFor(correct: nat, gradable: nat): (f: Feedback)
    requires gradable > 0
    ensures f == Excellent <==> Percentage(correct, gradable) >= 80.0
    ensures f == Good <==> 60.0 <= Percentage(correct, gradable) < 80.0
    ensures f == KeepStudying <==> Percentage(correct, gradable) < 60.0
  {
    PercentageAtLeast(correct, gradable, 80);
    PercentageAtLeast(correct, gradable, 60);
    if correct * 100 >= 80 * gradable then Excellent
    else if correct * 100 >= 60 * gradable then Good
    else KeepStudying
  }

  /** Multiplying both sides by a positive number keeps their order. */
  lemma ScaleOrder(x: real, y: real, g: real)
    requires g > 0.0
    ensures x >= y <==> x * g >= y * g
  {
    assert x * g - y * g == (x - y) * g;
    if x >= y {
      assert (x - y) * g >= 0.0;
    } else {
      assert (x - y) * g < 0.0;
    }
  }

  /** Comparing the exact percentage with a threshold is comparing `correct * 100`
      with `threshold * gradable`. */
  lemma PercentageAtLeast(correct: nat, gradable: nat, threshold: nat)
    requires gradable > 0
    ensures Percentage(correct, gradable) >= threshold as real <==> correct * 100 >= threshold * gradable
  {
    var c, g, t := correct as real, gradable as real, threshold as real;
    var p := Percentage(correct, gradable);
    assert p * g == c * 100.0;
    ScaleOrder(p, t, g);
    assert (correct * 100) as real == c * 100.0;
    assert (threshold * gradable) as real == t * g;
  }

  /** The score summary, shown only when some question is gradable. */
  function Summarize(correct: nat, gradable: nat): (r: Option<Score>)
    ensures r.None? <==> gradable == 0
    ensures r.Some? ==> r.value.correct == correct && r.value.gradable == gradable
    ensures r.Some? ==> r.value.percentage == Percentage(correct, gradable)
    ensures r.Some? ==> r.value.feedback == FeedbackFor(correct, gradable)
  {
    if gradable > 0 then
      Some(Score(correct, gradable, Percentage(correct, gradable), FeedbackFor(correct, gradable)))
    else
      None
  }
}
