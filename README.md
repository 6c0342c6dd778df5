# Quiz grading engine — a Dafny model

The quiz front end (`frontend/main.py`) shows a generated quiz in a form and grades
the submitted answers in a results tab. This project models the part of it that
decides grades:

- **Label stripping** (`extract_option_text`). An option such as `"A. Paris"`
  loses its one-letter label and is trimmed of whitespace. Python's `str.strip`
  and `str.isalpha` are modelled in module `Text`.
- **Reference answer** (`get_correct_answer_text`).
  - A multiple-choice question (`"mcq"`) whose answer field is an integer index
    into its options gets the cleaned option at that index. Otherwise it gets
    "Réponse non trouvée".
  - A true/false question gets "Vrai" or "Faux", by the Python truthiness of its
    answer field.
  - Any other kind is open. It gets its explanation, or "Voir explication" when
    it has none.
- **Per-question grading** (`check_answer_correctness`). It returns one of three
  values: correct, incorrect, or ungraded (Python's `None`) for open questions.
  A missing answer, an empty answer or the placeholder "Non répondu" is
  incorrect for every kind of question.
- **The form loop** (`QuizForm.CollectAnswers`). It stores one answer per
  question under the key `question_<i>`:
  - the cleaned text of the chosen option;
  - "Vrai" or "Faux";
  - the text of a text area;
  - None when no radio button is selected.
- **The results loop** (`Review.ReviewAnswers`).
  - It replaces a missing or empty answer by "Non répondu" and marks each
    question.
  - It counts the gradable questions and the correct ones.
  - `Review.Summarize` turns the two counts into a score and a feedback band:
    "excellent" from 80 %, "good" from 60 %, "keep studying" below that. A score
    exists only when at least one question is gradable.

Modules: `Wrappers` (Option), `Text` (whitespace, letters, `strip`, decimal
digits), `Grading` (the three helpers), `GradingFacts` (properties of the helpers),
`QuizForm` (the form loop), `Review` (the results loop and the score) and
`ReviewFacts` (properties of the form and the review together).

`check_answer_correctness` compares the trimmed submission with the label-stripped,
trimmed reference text. Only the reference side of a multiple-choice comparison is
label-stripped; the submission is not. `GradingFacts.LabelledSubmissionIncorrect`
shows that "A. Paris" against the reference "Paris" is graded incorrect.

## Model

| member | source | states |
|---|---|---|
| Text.Strip | frontend/main.py:93 | the result has no leading or trailing whitespace (Python's `isspace` set), and it is the input with whitespace-only margins removed |
| Text.StripTrimmed | frontend/main.py:114 | stripping text that is already trimmed changes nothing, so the second `strip()` on the reference side is a no-op |
| Text.StripIdempotent | frontend/main.py:93 | stripping twice is stripping once |
| Text.StripPadded | frontend/main.py:114 | trimmed text surrounded by any whitespace strips back to itself |
| Text.Decimal | frontend/main.py:207 | `str(i)`: one or more decimal digits, no leading zero unless `i` is 0, denoting `i` exactly |
| Text.DecimalInjective | frontend/main.py:207 | distinct numbers have distinct decimal renderings `str(i)` |
| Grading.Truthy | frontend/main.py:103 | Python's `bool(answer)`: false exactly for 0, False, "", None, a zero float, an empty list and an empty object |
| Grading.AsIndex | frontend/main.py:99-100 | `isinstance(answer, int)` holds exactly for ints and bools; an int reads as itself and a bool as 1 or 0 |
| Grading.TrueFalseText | frontend/main.py:103 | "Vrai" exactly when the answer is truthy, "Faux" exactly when it is not |
| Grading.IsUnanswered | frontend/main.py:109 | the guard holds exactly for no answer, "" and "Non répondu" |
| Grading.ExtractOptionText | frontend/main.py:89-93 | a labelled option (length at least 3, ". " at positions 1-2, a letter first) gives its stripped tail, any other option its stripped self; the result is trimmed and never longer than the option |
| Grading.CleanOptions | frontend/main.py:198 | one cleaned text per option, in order |
| Grading.CorrectAnswerText | frontend/main.py:95-105 | mcq with an integer index in range gives the cleaned option; mcq otherwise gives "Réponse non trouvée"; true/false gives "Vrai" exactly when the answer is truthy, else "Faux"; any other kind gives the explanation or "Voir explication"; gradable reference texts are trimmed |
| Grading.CheckAnswer | frontend/main.py:107-119 | missing, empty or "Non répondu" answers are incorrect for every kind; ungraded exactly for answered open questions; a gradable question is correct exactly when the stripped answer equals the reference text |
| GradingFacts.ExtractLabelled | frontend/main.py:91-92 | a letter label followed by ". " is removed and nothing else is |
| GradingFacts.ChosenOptionVerdict | frontend/main.py:107-114 | choosing option j is correct exactly when its cleaned text equals the cleaned answer option and is neither empty nor "Non répondu" |
| GradingFacts.ChosenAnswerIsCorrect | frontend/main.py:107-114 | choosing the answer option itself is correct unless its cleaned text is empty or "Non répondu" |
| GradingFacts.ChosenOptionWithoutValidIndex | frontend/main.py:98-101 | with an unusable answer index, an option is correct only if its cleaned text is "Réponse non trouvée" |
| GradingFacts.TrueFalseChoiceVerdict | frontend/main.py:115-117 | choosing "Vrai" or "Faux" is correct exactly when it agrees with the truthiness of the answer |
| GradingFacts.SubmissionVerdict | frontend/main.py:109-117 | a gradable question is correct exactly when the submission is non-empty, not the placeholder, and strips to the reference text |
| GradingFacts.NotMatchingIncorrect | frontend/main.py:112-117 | a submission that does not strip to the reference text is incorrect |
| GradingFacts.LabelledSubmissionIncorrect | frontend/main.py:112-114 | the submission side is not label-stripped: a labelled copy of a non-empty reference text is incorrect |
| GradingFacts.PaddedSubmissionCorrect | frontend/main.py:114 | whitespace around the reference text does not change a correct verdict |
| GradingFacts.BoolAnswerIndex | frontend/main.py:99-101 | an answer field `True` selects the option at index 1 |
| GradingFacts.FloatAnswerNotIndex | frontend/main.py:99-101 | a non-integer answer field (a float, say) gives "Réponse non trouvée" |
| GradingFacts.TruthyStringAnswer | frontend/main.py:102-103 | the string "false" is truthy, so its true/false reference is "Vrai" |
| QuizForm.StoredAnswer | frontend/main.py:196-218 | nothing selected stores None; a selection stores the text of the chosen choice, for mcq the cleaned option; an open question stores its text |
| QuizForm.AnswerKey | frontend/main.py:207 | keys read "question_" followed by the number |
| QuizForm.AnswerKeyInjective | frontend/main.py:207 | different questions never share a key |
| QuizForm.CollectAnswers | frontend/main.py:192-218 | the dictionary holds exactly the keys of the questions, each mapped to that question's stored answer |
| Review.SubmittedAnswer | frontend/main.py:247-252 | a missing, None or empty answer reads as "Non répondu", and any other answer as itself |
| Review.MarkAt | frontend/main.py:266-275 | gradable questions get a correct or incorrect mark, correct exactly when `check_answer_correctness` says so; other kinds get the open-answer note |
| Review.ReviewAnswers | frontend/main.py:241-277 | one mark per question; `gradable` is the number of mcq and true/false questions, `correct` the number marked correct, and `correct <= gradable` |
| Review.MarksCount | frontend/main.py:266-270 | counting marks counts gradable and correct positions, and there are never more correct than gradable |
| Review.TallyIsCardinality | frontend/main.py:266-270 | a running counter equals the number of positions it counted |
| Review.Percentage | frontend/main.py:281 | the percentage times `gradable` is `correct * 100`; it is never negative and at most 100 when `correct <= gradable` |
| Review.PercentageAtLeast | frontend/main.py:281-287 | comparing the percentage with a threshold is comparing `correct * 100` with `threshold * gradable` |
| Review.FeedbackFor | frontend/main.py:286-292 | "excellent" exactly from 80 %, "good" exactly in [60 %, 80 %), "keep studying" exactly below 60 % |
| Review.Summarize | frontend/main.py:280-284 | a score exists exactly when some question is gradable, with the two counts, the percentage and its band |
| ReviewFacts.UnansweredIsIncorrect | frontend/main.py:250-252 | a gradable question with no, None or empty answer is marked incorrect and is not among the correct ones |
| ReviewFacts.OpenQuestionChangesNothing | frontend/main.py:266-275 | appending an open question at the end changes neither the gradable nor the correct positions |
| ReviewFacts.FormAnswerReviewed | frontend/main.py:247-266 | after the form loop, a gradable question is marked correct exactly when `check_answer_correctness` accepts what the form stored |
| ReviewFacts.ChosenOptionReviewed | frontend/main.py:198-207 | a multiple-choice question is marked correct exactly when an option was selected whose cleaned text is the answer option's and is neither empty nor "Non répondu" |
| ReviewFacts.TrueFalseChoiceReviewed | frontend/main.py:209-214 | a true/false question is marked correct exactly when "Vrai" (position 0) was selected for a truthy answer or "Faux" for a falsy one |
| ReviewFacts.RightChoiceMarkedCorrect | frontend/main.py:266-271 | the right selection gives a correct mark |
| ReviewFacts.AllMarkedCorrect | frontend/main.py:266-270 | when every gradable question is marked correct, the correct positions are the gradable ones |
| ReviewFacts.FullScoreExcellent | frontend/main.py:286-287 | a full score is "excellent" |
| ReviewFacts.AllRightIsExcellent | frontend/main.py:241-287 | a form with every gradable question answered right has all gradable questions correct and scores "excellent" |
| ReviewFacts.FeedbackMonotone | frontend/main.py:286-292 | more correct answers never give a lower band |
| ReviewFacts.TwoOfThreeIsGood | frontend/main.py:280-290 | 2 correct out of 3 gradable gives 200/3 % and the band "good" |

## Left out

- The Streamlit user interface: page setup, styling, tabs, session state, reruns and sleeps. It is presentation and framework state. The widgets are inputs of the model (`QuizForm.Widget`).
- The HTTP helpers that upload a PDF and request a quiz. They are network I/O.
- The backend (FastAPI routes, PDF text extraction, chunking, embeddings, retrieval and the language-model call). These are thin wrappers over libraries that are not part of this model.
- Displayed text that does not decide a grade: question texts, explanations shown under an answer, headings.
- Review.Percentage: the source computes the percentage in binary floating point and shows it with one decimal. The model computes it exactly, so float rounding at exactly 60 % or 80 % is not modelled.
- Text.IsAlpha: covers ASCII and Latin-1 letters only. Python's `isalpha` accepts letters of every script.
- Grading.Question: the source reads the "question" and "type" keys of every question, "answer" only for multiple-choice and true/false questions, and "options" only for multiple-choice questions; a question lacking a key its kind reads raises `KeyError`. The model always carries every field and reads only those its kind reads, so the `KeyError` cases are not modelled.
- Grading.CorrectAnswerText: a present but null "explanation" makes the source return `None`. The model has only "absent" (None) and a string.
- QuizForm.Fits: the model assumes that a radio group returns only one of its own positions, as Streamlit guarantees.
