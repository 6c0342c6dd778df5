/**
 * The per-question grading helpers of the quiz front end: label stripping of an
 * option, the reference answer of a question, and the three-valued correctness
 * check of a submitted answer.
 */
module Grading {
  import opened Wrappers
  import opened Text

  const MCQ := "mcq"
  const TRUE_FALSE := "true_false"

  /** The two answers of a true/false question, as the form offers them. */
  const TRUE_TEXT := "Vrai"
  const FALSE_TEXT := "Faux"
  /** Reference text of a multiple-choice question whose answer index is unusable. */
  const NOT_FOUND := "Réponse non trouvée"
  /** Reference text of an open question that has no explanation. */
  const SEE_EXPLANATION := "Voir explication"
  /** What the results tab puts in place of a missing answer. */
  const UNANSWERED := "Non répondu"

  /** The JSON value of a question's "answer" field. A float, list or object is
      `OtherValue`, which keeps only its Python truthiness. */
  datatype Value =
    | IntValue(n: int)
    | BoolValue(b: bool)
    | StrValue(s: string)
    | NullValue
    | OtherValue(truthy: bool)

  /** Python's `bool(v)`: the falsy values are zero, False, the empty string,
      None, a zero float, an empty list and an empty object. */
  function Truthy(v: Value): (b: bool)
    ensures !b <==> v in {IntValue(0), BoolValue(false), StrValue(""), NullValue, OtherValue(false)}
  {
    match v
    case IntValue(n) => n != 0
    case BoolValue(b) => b
    case StrValue(s) => s != ""
    case NullValue => false
    case OtherValue(t) => t
  }

  /** The integer that `isinstance(v, int)` accepts: every int, and a bool as 0 or 1. */
  function AsIndex(v: Value): (r: Option<int>)
    ensures r.Some? <==> v.IntValue? || v.BoolValue?
    ensures v.IntValue? ==> r == Some(v.n)
    ensures v.BoolValue? ==> r == Some(if v.b then 1 else 0)
  {
    match v
    case IntValue(n) => Some(n)
    case BoolValue(b) => Some(if b then 1 else 0)
    case _ => None
  }

  /** One generated question. `kind` is the "type" tag: "mcq", "true_false", and
      anything else is an open (short-answer) question. `explanation` is None when
      the key is absent. */
  datatype Question = Question(
    kind: string,
    text: string,
    options: seq<string>,
    answer: Value,
    explanation: Option<string>)

  /** The kinds the engine can grade. */
  predicate IsGradable(q: Question) {
    q.kind == MCQ || q.kind == TRUE_FALSE
  }

  /** The answer field of a multiple-choice question is an integer index into its options. */
  predicate HasValidIndex(q: Question) {
    AsIndex(q.answer).Some? && 0 <= AsIndex(q.answer).value < |q.options|
  }

  /** Option text starts with a one-letter label such as "A. ". */
  predicate HasLabel(option: string) {
    |option| >= 3 && option[1..3] == ". " && IsAlpha(option[0])
  }

  /** extract_option_text: what is left of the option once its label, if any, is
      dropped, with surrounding whitespace trimmed. */
  function ExtractOptionText(option: string): (r: string)
    ensures Trimmed(r)
    ensures |r| <= |option|
    ensures HasLabel(option) ==> r == Strip(option[3..])
    ensures !HasLabel(option) ==> r == Strip(option)
  {
    if HasLabel(option) then Strip(option[3..]) else Strip(option)
  }

  /** The cleaned options, as the form displays them and stores the chosen one. */
  function CleanOptions(q: Question): (r: seq<string>)
    ensures |r| == |q.options|
    ensures forall k :: 0 <= k < |r| ==> r[k] == ExtractOptionText(q.options[k])
  {
    seq(|q.options|, k requires 0 <= k < |q.options| => ExtractOptionText(q.options[k]))
  }

  /** The reference text of a true/false question. */
  function TrueFalseText(answer: Value): (r: string)
    ensures r == TRUE_TEXT <==> Truthy(answer)
    ensures r == FALSE_TEXT <==> !Truthy(answer)
  {
    if Truthy(answer) then TRUE_TEXT else FALSE_TEXT
  }

  /** get_correct_answer_text. */
  function CorrectAnswerText(q: Question): (r: string)
    ensures IsGradable(q) ==> Trimmed(r)
    ensures q.kind == MCQ && HasValidIndex(q) ==> r == CleanOptions(q)[AsIndex(q.answer).value]
    ensures q.kind == MCQ && !HasValidIndex(q) ==> r == NOT_FOUND
    ensures q.kind == TRUE_FALSE ==> r in [TRUE_TEXT, FALSE_TEXT] && (r == TRUE_TEXT <==> Truthy(q.answer))
    ensures !IsGradable(q) ==> r == q.explanation.GetOr(SEE_EXPLANATION)
  {
    if q.kind == MCQ then
      var index := AsIndex(q.answer);
      if index.Some? && 0 <= index.value < |q.options| then
        ExtractOptionText(q.options[index.value])
      else
        NOT_FOUND
    else if q.kind == TRUE_FALSE then
      TrueFalseText(q.answer)
    else
      q.explanation.GetOr(SEE_EXPLANATION)
  }

  /** Result of check_answer_correctness: True, False, or None for a question it cannot grade. */
  datatype Verdict = Correct | Incorrect | Ungraded

  /** `not user_answer or user_answer == "Non répondu"`. */
  predicate IsUnanswered(user: Option<string>): (r: bool)
    ensures r <==> user in {None, Some(""), Some(UNANSWERED)}
  {
    user.None? || user.value == "" || user.value == UNANSWERED
  }

  /** check_answer_correctness. An unanswered question is incorrect whatever its
      kind; otherwise a gradable question is correct exactly when the trimmed
      answer is the reference text the results tab shows, and any other kind is
      ungraded. The user's side is trimmed but never label-stripped. */
  function CheckAnswer(user: Option<string>, q: Question): (v: Verdict)
    ensures IsUnanswered(user) ==> v == Incorrect
    ensures v == Ungraded <==> !IsUnanswered(user) && !IsGradable(q)
    ensures IsGradable(q) ==> (v == Correct <==> !IsUnanswered(user) && Strip(user.value) == CorrectAnswerText(q))
  {
    if IsUnanswered(user) then
      Incorrect
    else if q.kind == MCQ then
      var correctText := CorrectAnswerText(q);
      StripTrimmed(correctText);
      if Strip(user.value) == Strip(correctText) then Correct else Incorrect
    else if q.kind == TRUE_FALSE then
      var correctAnswer := if Truthy(q.answer) then TRUE_TEXT else FALSE_TEXT;
      StripTrimmed(correctAnswer);
      if Strip(user.value) == Strip(correctAnswer) then Correct else Incorrect
    else
      Ungraded
  }
}
