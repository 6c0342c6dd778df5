/**
 * The quiz form: one input widget per question, and the dictionary of answers,
 * keyed "question_<i>", that the form hands to the results tab.
 */
module QuizForm {
  import opened Wrappers
  import opened Text
  import opened Grading

  /** What a question's widget returns on submission: the selected position of a
      radio group (None while nothing is selected), or the text of a text area. */
  datatype Widget = Radio(choice: Option<nat>) | TextArea(text: string)

  /** The choices a gradable question's radio group offers: the cleaned options
      of a multiple-choice question, "Vrai" and "Faux" otherwise. */
  function Choices(q: Question): seq<string> {
    if q.kind == MCQ then CleanOptions(q) else [TRUE_TEXT, FALSE_TEXT]
  }

  /** The widget the form draws for `q`: a radio group for a gradable question,
      which returns one of its own positions, a text area for any other. */
  predicate Fits(q: Question, w: Widget) {
    if IsGradable(q) then w.Radio? && (w.choice.Some? ==> w.choice.value < |Choices(q)|)
    else w.TextArea?
  }

  /** The value the form stores for `q`: the text of the selected choice, None
      when nothing is selected, or the text area's text. */
  function StoredAnswer(q: Question, w: Widget): (r: Option<string>)
    requires Fits(q, w)
    ensures IsGradable(q) ==> (r.None? <==> w.choice.None?)
    ensures IsGradable(q) && r.Some? ==> r.value in Choices(q) && r.value == Choices(q)[w.choice.value]
    ensures q.kind == MCQ && r.Some? ==> r.value == ExtractOptionText(q.options[w.choice.value])
    ensures !IsGradable(q) ==> r == Some(w.text)
  {
    match w
    case Radio(choice) => if choice.None? then None else Some(Choices(q)[choice.value])
    case TextArea(text) => Some(text)
  }

  /** The dictionary key of question `i`: f"question_{i}". */
  function AnswerKey(i: nat): (key: string)
    ensures |key| > 9 && key[..9] == "question_"
    ensures key[9..] == Decimal(i)
  {
    "question_" + Decimal(i)
  }

  /** Different questions never share a key. */
  lemma AnswerKeyInjective(i: nat, j: nat)
    requires AnswerKey(i) == AnswerKey(j)
    ensures i == j
  {
    assert AnswerKey(i)[9..] == Decimal(i);
    assert AnswerKey(j)[9..] == Decimal(j);
    DecimalInjective(i, j);
  }

  /** The keys of the first `n` questions. */
  function KeysUpTo(n: nat): set<string> {
    set i | 0 <= i < n :: AnswerKey(i)
  }

  /** Key `i` is new among the first `i` keys, and the first `i + 1` keys add it. */
  lemma NextKey(i: nat)
    ensures AnswerKey(i) !in KeysUpTo(i)
    ensures KeysUpTo(i + 1) == KeysUpTo(i) + {AnswerKey(i)}
  {
    forall j | 0 <= j < i
      ensures AnswerKey(j) != AnswerKey(i)
    {
      assert AnswerKey(j)[9..] == Decimal(j) && AnswerKey(i)[9..] == Decimal(i);
    }
  }

  /** The dictionary after the first `n` questions: one key per question so far,
      holding what that question's widget stored. */
  predicate FilledUpTo(questions: seq<Question>, inputs: seq<Widget>, answers: map<string, Option<string>>, n: nat)
    requires n <= |inputs| == |questions|
    requires forall i :: 0 <= i < |questions| ==> Fits(questions[i], inputs[i])
  {
    && answers.Keys == KeysUpTo(n)
    && forall i :: 0 <= i < n ==> AnswerKey(i) in answers && answers[AnswerKey(i)] == StoredAnswer(questions[i], inputs[i])
  }

  /** The dictionary the form builds, once every question is done. */
  predicate FilledBy(questions: seq<Question>, inputs: seq<Widget>, answers: map<string, Option<string>>)
    requires |inputs| == |questions|
    requires forall i :: 0 <= i < |questions| ==> Fits(questions[i], inputs[i])
  {
    FilledUpTo(questions, inputs, answers, |questions|)
  }

  /** Storing question `n`'s answer under its key extends the dictionary by that question alone. */
  lemma FillStep(questions: seq<Question>, inputs: seq<Widget>, answers: map<string, Option<string>>, n: nat)
    requires n < |inputs| == |questions|
    requires forall i :: 0 <= i < |questions| ==> Fits(questions[i], inputs[i])
    requires FilledUpTo(questions, inputs, answers, n)
    ensures FilledUpTo(questions, inputs, answers[AnswerKey(n) := StoredAnswer(questions[n], inputs[n])], n + 1)
  {
    NextKey(n);
  }

  /** The form loop: for each question in order, store its answer under its key. */
  method CollectAnswers(questions: seq<Question>, inputs: seq<Widget>) returns (answers: map<string, Option<string>>)
    requires |inputs| == |questions|
    requires forall i :: 0 <= i < |questions| ==> Fits(questions[i], inputs[i])
    ensures FilledBy(questions, inputs, answers)
  {
    answers := map[];
    for i := 0 to |questions|
      invariant FilledUpTo(questions, inputs, answers, i)
    {
      var question := questions[i];
      var key := AnswerKey(i);
      var stored: Option<string>;
      if question.kind == MCQ {
        var cleanOptions := CleanOptions(question);
        var selectedIndex := inputs[i].choice;
        stored := if selectedIndex.Some? then Some(cleanOptions[selectedIndex.value]) else None;
      } else if question.kind == TRUE_FALSE {
        var selectedIndex := inputs[i].choice;
        stored := if selectedIndex.Some? then Some([TRUE_TEXT, FALSE_TEXT][selectedIndex.value]) else None;
      } else {
        stored := Some(inputs[i].text);
      }
      assert stored == StoredAnswer(question, inputs[i]);
      FillStep(questions, inputs, answers, i);
      answers := answers[key := stored];
    }
  }
}
