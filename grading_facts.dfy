/**
 * What the grading helpers promise when they are put together: the form's
 * choices against `CheckAnswer`, the effect of labels and whitespace on a
 * submission, and how the "answer" field is read.
 */
module GradingFacts {
  import opened Wrappers
  import opened Text
  import opened Grading

  /** An option labelled with a letter loses exactly its label. */
  lemma ExtractLabelled(letter: char, body: string)
    requires IsAlpha(letter)
    ensures ExtractOptionText([letter] + ". " + body) == Strip(body)
  {
    var option := [letter] + ". " + body;
    assert option[1..3] == ". " && option[3..] == body;
  }

  /** The form stores the cleaned text of the chosen option. Choosing option `j`
      of a multiple-choice question is graded correct exactly when its cleaned
      text is that of the option at the answer index and is neither empty nor the
      "Non répondu" placeholder. Two options with the same cleaned text are thus
      both correct. */
  lemma ChosenOptionVerdict(q: Question, j: nat)
    requires q.kind == MCQ && HasValidIndex(q) && j < |q.options|
    ensures var chosen := CleanOptions(q)[j];
      CheckAnswer(Some(chosen), q) == Correct <==>
        chosen == CleanOptions(q)[AsIndex(q.answer).value] && chosen != "" && chosen != UNANSWERED
  {
    StripTrimmed(CleanOptions(q)[j]);
  }

  /** Choosing the option at the answer index is correct unless its cleaned text
      is empty or the placeholder. */
  lemma ChosenAnswerIsCorrect(q: Question)
    requires q.kind == MCQ && HasValidIndex(q)
    requires CleanOptions(q)[AsIndex(q.answer).value] !in {"", UNANSWERED}
    ensures CheckAnswer(Some(CleanOptions(q)[AsIndex(q.answer).value]), q) == Correct
  {
    ChosenOptionVerdict(q, AsIndex(q.answer).value);
  }

  /** With an unusable answer index, an option is graded correct exactly when its
      cleaned text is the fallback text itself. */
  lemma ChosenOptionWithoutValidIndex(q: Question, j: nat)
    requires q.kind == MCQ && !HasValidIndex(q) && j < |q.options|
    ensures CheckAnswer(Some(CleanOptions(q)[j]), q) == Correct <==> CleanOptions(q)[j] == NOT_FOUND
  {
    var chosen := CleanOptions(q)[j];
    StripTrimmed(chosen);
    assert IsGradable(q) && CorrectAnswerText(q) == NOT_FOUND;
    assert !IsUnanswered(Some(NOT_FOUND)) by { assert NOT_FOUND[0] != UNANSWERED[0]; }
  }

  /** Choosing "Vrai" or "Faux" is correct exactly when the choice agrees with
      the truthiness of the answer field. */
  lemma TrueFalseChoiceVerdict(q: Question, choice: string)
    requires q.kind == TRUE_FALSE && (choice == TRUE_TEXT || choice == FALSE_TEXT)
    ensures CheckAnswer(Some(choice), q) == Correct <==> (choice == TRUE_TEXT <==> Truthy(q.answer))
  {
    StripTrimmed(choice);
    var verdict := CheckAnswer(Some(choice), q);
    var reference := CorrectAnswerText(q);
    assert !IsUnanswered(Some(choice));
    assert verdict == Correct <==> choice == reference;
    assert reference == TRUE_TEXT <==> Truthy(q.answer);
    assert reference == TRUE_TEXT || reference == FALSE_TEXT;
  }

  /** "Non répondu" has no whitespace at either end, so stripping keeps it. */
  lemma PlaceholderTrimmed()
    ensures Strip(UNANSWERED) == UNANSWERED
  {
    StripTrimmed(UNANSWERED);
  }

  /** A gradable question grades a submission by its trimmed text alone. */
  lemma SubmissionVerdict(q: Question, submitted: string)
    requires IsGradable(q)
    ensures CheckAnswer(Some(submitted), q) == Correct <==>
      submitted != "" && submitted != UNANSWERED && Strip(submitted) == CorrectAnswerText(q)
  {
    assert CheckAnswer(Some(submitted), q) in {Correct, Incorrect};
  }

  /** A submission whose trimmed text is not the reference text is incorrect. */
  lemma NotMatchingIncorrect(q: Question, submitted: string)
    requires IsGradable(q) && Strip(submitted) != CorrectAnswerText(q)
    ensures CheckAnswer(Some(submitted), q) == Incorrect
  {
    assert CheckAnswer(Some(submitted), q) != Correct;
  }

  /** Only the reference side is label-stripped: when the reference text is a
      non-empty trimmed `body`, submitting `body` with a label in front, such as
      "A. Paris" against "Paris", is graded incorrect. */
  lemma LabelledSubmissionIncorrect(q: Question, letter: char, body: string)
    requires IsGradable(q) && CorrectAnswerText(q) == body
    requires IsAlpha(letter) && body != []
    ensures CheckAnswer(Some([letter] + ". " + body), q) == Incorrect
  {
    var submitted := [letter] + ". " + body;
    AlphaNotSpace(letter);
    PrefixedTrimmed(letter, body);
    assert |Strip(submitted)| == |body| + 3;
    NotMatchingIncorrect(q, submitted);
  }

  /** Whitespace around a submission does not matter: padding the reference
      text with whitespace on both sides still grades correct. */
  lemma PaddedSubmissionCorrect(q: Question, before: string, after: string)
    requires IsGradable(q) && AllSpace(before) && AllSpace(after)
    requires CorrectAnswerText(q) != "" && CorrectAnswerText(q) != UNANSWERED
    ensures CheckAnswer(Some(before + CorrectAnswerText(q) + after), q) == Correct
  {
    var reference := CorrectAnswerText(q);
    var submitted := before + reference + after;
    StripPadded(before, reference, after);
    PlaceholderTrimmed();
    assert |submitted| >= |reference|;
    SubmissionVerdict(q, submitted);
  }

  /** A bool passes `isinstance(answer, int)`: True selects the second option. */
  lemma BoolAnswerIndex(q: Question)
    requires q.kind == MCQ && q.answer == BoolValue(true) && |q.options| >= 2
    ensures CorrectAnswerText(q) == ExtractOptionText(q.options[1])
  {
  }

  /** A float answer, however integral, is not an index: the reference text is the fallback. */
  lemma FloatAnswerNotIndex(q: Question, truthy: bool)
    requires q.kind == MCQ && q.answer == OtherValue(truthy)
    ensures CorrectAnswerText(q) == NOT_FOUND
  {
  }

  /** True/false reference answers follow Python truthiness: the string "false"
      is truthy, so its reference text is "Vrai". */
  lemma TruthyStringAnswer(q: Question)
    requires q.kind == TRUE_FALSE && q.answer == StrValue("false")
    ensures CorrectAnswerText(q) == TRUE_TEXT
  {
  }
}
