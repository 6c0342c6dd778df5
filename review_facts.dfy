/**
 * Properties of the results tab as a whole: how missing answers and open
 * questions affect the counters, how the form's answers come out of the
 * review, and how the feedback band behaves.
 */
module ReviewFacts {
  import opened Wrappers
  import opened Text
  import opened Grading
  import opened GradingFacts
  import opened QuizForm
  import opened Review

  /** A gradable question with no answer, None or "" stored is marked incorrect. */
  lemma UnansweredIsIncorrect(questions: seq<Question>, answers: map<string, Option<string>>, i: nat)
    requires i < |questions| && IsGradable(questions[i])
    requires AnswerKey(i) !in answers || answers[AnswerKey(i)] in {None, Some("")}
    ensures MarkAt(questions, answers, i) == MarkedIncorrect
    ensures i !in CorrectIndices(questions, answers)
  {
    assert SubmittedAnswer(answers, i) == UNANSWERED;
    assert CheckAnswer(Some(UNANSWERED), questions[i]) == Incorrect;
  }

  /** Appending an open question changes neither the gradable nor the correct positions. */
  lemma OpenQuestionChangesNothing(questions: seq<Question>, q: Question, answers: map<string, Option<string>>)
    requires !IsGradable(q)
    ensures GradableIndices(questions + [q]) == GradableIndices(questions)
    ensures CorrectIndices(questions + [q], answers) == CorrectIndices(questions, answers)
  {
    var longer := questions + [q];
    forall i: nat | i < |questions|
      ensures longer[i] == questions[i] && MarkAt(longer, answers, i) == MarkAt(questions, answers, i)
    {
      assert longer[i] == questions[i];
    }
    assert MarkAt(longer, answers, |questions|) == OpenAnswer;
  }

  /** Whatever the form stored for a gradable question, the review marks it
      correct exactly when `CheckAnswer` accepts the stored answer itself. */
  lemma FormAnswerReviewed(questions: seq<Question>, inputs: seq<Widget>, answers: map<string, Option<string>>, i: nat)
    requires |inputs| == |questions|
    requires forall j :: 0 <= j < |questions| ==> Fits(questions[j], inputs[j])
    requires FilledBy(questions, inputs, answers)
    requires i < |questions| && IsGradable(questions[i])
    ensures MarkAt(questions, answers, i) == MarkedCorrect <==>
      CheckAnswer(StoredAnswer(questions[i], inputs[i]), questions[i]) == Correct
  {
    var q := questions[i];
    var stored := StoredAnswer(q, inputs[i]);
    var submitted := SubmittedAnswer(answers, i);
    assert answers[AnswerKey(i)] == stored;
    if stored.None? || stored.value == "" {
      assert submitted == UNANSWERED;
      assert CheckAnswer(stored, q) == Incorrect && CheckAnswer(Some(submitted), q) == Incorrect;
    } else {
      assert submitted == stored.value;
    }
  }

  /** Choosing option `j` of a multiple-choice question in the form earns a
      correct mark exactly when its cleaned text is that of the answer option and
      is neither empty nor "Non répondu". */
  lemma ChosenOptionReviewed(questions: seq<Question>, inputs: seq<Widget>, answers: map<string, Option<string>>, i: nat)
    requires |inputs| == |questions|
    requires forall j :: 0 <= j < |questions| ==> Fits(questions[j], inputs[j])
    requires FilledBy(questions, inputs, answers)
    requires i < |questions| && questions[i].kind == MCQ && HasValidIndex(questions[i])
    ensures MarkAt(questions, answers, i) == MarkedCorrect <==>
      var q := questions[i];
      var choice := inputs[i].choice;
      && choice.Some?
      && CleanOptions(q)[choice.value] == CleanOptions(q)[AsIndex(q.answer).value]
      && CleanOptions(q)[choice.value] !in {"", UNANSWERED}
  {
    FormAnswerReviewed(questions, inputs, answers, i);
    var q := questions[i];
    if inputs[i].choice.Some? {
      ChosenOptionVerdict(q, inputs[i].choice.value);
    } else {
      assert CheckAnswer(None, q) == Incorrect;
    }
  }

  /** Choosing "Vrai" (position 0) or "Faux" (position 1) for a true/false
      question earns a correct mark exactly when it agrees with the truthiness of
      the answer field. */
  lemma TrueFalseChoiceReviewed(questions: seq<Question>, inputs: seq<Widget>, answers: map<string, Option<string>>, i: nat)
    requires |inputs| == |questions|
    requires forall j :: 0 <= j < |questions| ==> Fits(questions[j], inputs[j])
    requires FilledBy(questions, inputs, answers)
    requires i < |questions| && questions[i].kind == TRUE_FALSE
    ensures MarkAt(questions, answers, i) == MarkedCorrect <==>
      inputs[i].choice.Some? && (inputs[i].choice.value == 0 <==> Truthy(questions[i].answer))
  {
    FormAnswerReviewed(questions, inputs, answers, i);
    var q := questions[i];
    if inputs[i].choice.Some? {
      var k := inputs[i].choice.value;
      assert StoredAnswer(q, inputs[i]) == Some([TRUE_TEXT, FALSE_TEXT][k]);
      TrueFalseChoiceVerdict(q, [TRUE_TEXT, FALSE_TEXT][k]);
    } else {
      assert CheckAnswer(None, q) == Incorrect;
    }
  }

  /** The widget state that answers `q` right: the answer option, when its
      cleaned text can be graded, or the true/false choice that matches. */
  predicate RightChoice(q: Question, w: Widget) {
    if q.kind == MCQ then
      && HasValidIndex(q)
      && CleanOptions(q)[AsIndex(q.answer).value] !in {"", UNANSWERED}
      && w == Radio(Some(AsIndex(q.answer).value))
    else if q.kind == TRUE_FALSE then
      w == Radio(Some(if Truthy(q.answer) then 0 else 1))
    else
      true
  }

  /** A gradable question answered right in the form is marked correct. */
  lemma RightChoiceMarkedCorrect(questions: seq<Question>, inputs: seq<Widget>, answers: map<string, Option<string>>, i: nat)
    requires |inputs| == |questions|
    requires forall j :: 0 <= j < |questions| ==> Fits(questions[j], inputs[j])
    requires FilledBy(questions, inputs, answers)
    requires i < |questions| && IsGradable(questions[i]) && RightChoice(questions[i], inputs[i])
    ensures MarkAt(questions, answers, i) == MarkedCorrect
  {
    if questions[i].kind == MCQ {
      ChosenOptionReviewed(questions, inputs, answers, i);
    } else {
      TrueFalseChoiceReviewed(questions, inputs, answers, i);
    }
  }

  /** When every gradable question is marked correct, the two counters agree. */
  lemma AllMarkedCorrect(questions: seq<Question>, answers: map<string, Option<string>>)
    requires forall i: nat :: i < |questions| && IsGradable(questions[i]) ==> MarkAt(questions, answers, i) == MarkedCorrect
    ensures CorrectIndices(questions, answers) == GradableIndices(questions)
  {
  }

  /** A full score is always "excellent". */
  lemma FullScoreExcellent(gradable: nat)
    requires gradable > 0
    ensures FeedbackFor(gradable, gradable) == Excellent
  {
    PercentageAtLeast(gradable, gradable, 80);
  }

  /** A form in which every gradable question is answered right is marked
      correct everywhere it can be graded, and scores "excellent". */
  lemma AllRightIsExcellent(questions: seq<Question>, inputs: seq<Widget>, answers: map<string, Option<string>>)
    requires |inputs| == |questions|
    requires forall j :: 0 <= j < |questions| ==> Fits(questions[j], inputs[j])
    requires FilledBy(questions, inputs, answers)
    requires forall j :: 0 <= j < |questions| ==> RightChoice(questions[j], inputs[j])
    ensures CorrectIndices(questions, answers) == GradableIndices(questions)
    ensures GradableIndices(questions) != {} ==>
      Summarize(|CorrectIndices(questions, answers)|, |GradableIndices(questions)|).value.feedback == Excellent
  {
    forall i: nat | i < |questions| && IsGradable(questions[i])
      ensures MarkAt(questions, answers, i) == MarkedCorrect
    {
      RightChoiceMarkedCorrect(questions, inputs, answers, i);
    }
    AllMarkedCorrect(questions, answers);
    var n := |GradableIndices(questions)|;
    if n > 0 {
      FullScoreExcellent(n);
    }
  }

  /** Rank of a band: the better the band, the higher. */
  function Rank(f: Feedback): nat {
    match f
    case KeepStudying => 0
    case Good => 1
    case Excellent => 2
  }

  /** One more correct answer never lowers the band. */
  lemma FeedbackMonotone(lower: nat, higher: nat, gradable: nat)
    requires gradable > 0 && lower <= higher
    ensures Rank(FeedbackFor(lower, gradable)) <= Rank(FeedbackFor(higher, gradable))
  {
    PercentageAtLeast(lower, gradable, 80);
    PercentageAtLeast(lower, gradable, 60);
    PercentageAtLeast(higher, gradable, 80);
    PercentageAtLeast(higher, gradable, 60);
  }

  /** Two correct out of three gradable questions: 66.67 per cent, band "good". */
  lemma TwoOfThreeIsGood()
    ensures Summarize(2, 3) == Some(Score(2, 3, 200.0 / 3.0, Good))
  {
    PercentageAtLeast(2, 3, 80);
    PercentageAtLeast(2, 3, 60);
  }
}
