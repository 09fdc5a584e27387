/** Scoring of a quiz submission, the three labelling helpers around it,
    the teacher's question editor and the word chunker of
    Backend/src/quiz_generation.py. */
module QuizGeneration {
  import opened Values
  import opened PyText
  import Helpers

  // ------------------------------------------------------------ the evaluator

  /** What the evaluator reports about one answer. */
  datatype Evaluation = Evaluation(isCorrect: bool, pointsEarned: real, maxPoints: real, feedback: string)

  /** `quiz_evaluator.evaluate_response(question, student_answer, question_type)`:
      an LLM-backed judge whose definition is not part of this model. */
  type Evaluator = (Question, string, string) -> Evaluation

  /** The one thing assumed of the evaluator: it never awards negative
      points nor more than the question is worth. */
  ghost predicate PointsBounded(ev: Evaluator) {
    forall q, a, t :: 0.0 <= ev(q, a, t).pointsEarned <= ev(q, a, t).maxPoints
  }

  // ------------------------------------------------------------ records

  /** One entry of `detailed_results`. */
  datatype DetailedResult = DetailedResult(
    questionId: Value,
    questionText: string,
    studentAnswer: string,
    correctAnswer: string,
    isCorrect: bool,
    pointsEarned: real,
    maxPoints: real,
    feedback: string,
    responseTime: int)

  /** One entry of `incorrect_responses`, the input of mistake logging. */
  datatype MistakeEntry = MistakeEntry(
    question: string,
    topic: Value,
    concept: string,
    mistakeType: string,
    studentAnswer: string,
    correctAnswer: string)

  datatype Level = Excellent | Good | Satisfactory | NeedsImprovement | Poor

  /** The dictionary `evaluate_quiz_submission` returns. */
  datatype Submission = Submission(
    score: real,
    maxScore: real,
    percentage: real,
    correctAnswers: nat,
    totalQuestions: nat,
    timeTaken: int,
    detailedResults: seq<DetailedResult>,
    incorrectResponses: seq<MistakeEntry>,
    performanceLevel: Level)

  // ------------------------------------------------------------ one question

  /** `student_responses.get(question.get("id"), "")`: only a text id can
      match a key of the responses. */
  function ResponseFor(responses: map<string, string>, q: Question): string {
    match IdOf(q)
    case Str(id) => if id in responses then responses[id] else ""
    case _ => ""
  }

  /** The answer as evaluated and recorded: the response, stripped. */
  function AnswerFor(responses: map<string, string>, q: Question): string {
    Strip(ResponseFor(responses, q))
  }

  /** `quiz_data.get("question_type", "MCQ")` */
  function QuestionType(quiz: QuizData): string {
    GetText(quiz.fields, "question_type", "MCQ")
  }

  /** `quiz_data.get("topic", "General")`: a stored None stays None. */
  function Topic(quiz: QuizData): Value {
    Get(quiz.fields, "topic", Str("General"))
  }

  function EvalOf(ev: Evaluator, quiz: QuizData, responses: map<string, string>, q: Question): Evaluation {
    ev(q, AnswerFor(responses, q), QuestionType(quiz))
  }

  function ResultFor(ev: Evaluator, quiz: QuizData, responses: map<string, string>, q: Question): DetailedResult {
    var e := EvalOf(ev, quiz, responses, q);
    DetailedResult(IdOf(q), GetText(q, "question", ""), AnswerFor(responses, q),
                   GetText(q, "correct_answer", ""), e.isCorrect, e.pointsEarned, e.maxPoints,
                   e.feedback, 0)
  }

  function MistakeFor(quiz: QuizData, responses: map<string, string>, q: Question): MistakeEntry {
    var answer := AnswerFor(responses, q);
    MistakeEntry(GetText(q, "question", ""), Topic(quiz), ExtractConcept(q),
                 ClassifyMistake(q, answer), answer, GetText(q, "correct_answer", ""))
  }

  // ------------------------------------------------------------ whole quiz

  /** One detailed result per question, in question order. */
  function ResultsOf(ev: Evaluator, quiz: QuizData, responses: map<string, string>, qs: seq<Question>): seq<DetailedResult>
    decreases |qs|
  {
    if qs == [] then []
    else ResultsOf(ev, quiz, responses, qs[..|qs| - 1]) + [ResultFor(ev, quiz, responses, qs[|qs| - 1])]
  }

  /** There is exactly one detailed result per question, in question order;
      it records the question's id and its stripped answer, which is ""
      when the responses hold nothing under that id. */
  lemma {:induction false} ResultsPerQuestion(ev: Evaluator, quiz: QuizData, responses: map<string, string>, qs: seq<Question>)
    ensures |ResultsOf(ev, quiz, responses, qs)| == |qs|
    ensures forall i :: 0 <= i < |qs| ==> ResultsOf(ev, quiz, responses, qs)[i] == ResultFor(ev, quiz, responses, qs[i])
    ensures forall i :: 0 <= i < |qs| ==>
              ResultsOf(ev, quiz, responses, qs)[i].questionId == IdOf(qs[i])
              && ResultsOf(ev, quiz, responses, qs)[i].studentAnswer == Strip(ResponseFor(responses, qs[i]))
              && (ResponseFor(responses, qs[i]) == "" ==> ResultsOf(ev, quiz, responses, qs)[i].studentAnswer == "")
    decreases |qs|
  {
    if qs != [] {
      var init := qs[..|qs| - 1];
      ResultsPerQuestion(ev, quiz, responses, init);
      forall i | 0 <= i < |init| ensures init[i] == qs[i] { }
    }
  }

  /** The mistake entries of the questions judged incorrect, in question order. */
  function MistakesOf(ev: Evaluator, quiz: QuizData, responses: map<string, string>, qs: seq<Question>): seq<MistakeEntry>
  {
    FilterMap(qs, Incorrect(ev, quiz, responses), MistakeOf(quiz, responses))
  }

  /** The mistake entry of a question. */
  function MistakeOf(quiz: QuizData, responses: map<string, string>): Question -> MistakeEntry {
    q => MistakeFor(quiz, responses, q)
  }

  /** Was the question judged incorrect? */
  function Incorrect(ev: Evaluator, quiz: QuizData, responses: map<string, string>): Question -> bool {
    q => !EvalOf(ev, quiz, responses, q).isCorrect
  }

  function SumEarned(rs: seq<DetailedResult>): real
    decreases |rs|
  {
    if rs == [] then 0.0 else SumEarned(rs[..|rs| - 1]) + rs[|rs| - 1].pointsEarned
  }

  function SumMax(rs: seq<DetailedResult>): real
    decreases |rs|
  {
    if rs == [] then 0.0 else SumMax(rs[..|rs| - 1]) + rs[|rs| - 1].maxPoints
  }

  /** `sum(1 for r in detailed_results if r["is_correct"])` */
  function CountCorrect(rs: seq<DetailedResult>): nat
    decreases |rs|
  {
    if rs == [] then 0 else CountCorrect(rs[..|rs| - 1]) + (if rs[|rs| - 1].isCorrect then 1 else 0)
  }

  /** `earned / total * 100 if total > 0 else 0` */
  function Percentage(score: real, maxScore: real): real {
    if maxScore > 0.0 then score / maxScore * 100.0 else 0.0
  }

  /** `evaluate_quiz_submission(quiz_data, student_responses, time_taken)` */
  method EvaluateQuizSubmission(quiz: QuizData, responses: map<string, string>, timeTaken: int, ev: Evaluator)
    returns (r: Submission)
    ensures r.detailedResults == ResultsOf(ev, quiz, responses, quiz.questions)
    ensures r.incorrectResponses == MistakesOf(ev, quiz, responses, quiz.questions)
    ensures r.score == SumEarned(r.detailedResults) && r.maxScore == SumMax(r.detailedResults)
    ensures r.percentage == Percentage(r.score, r.maxScore)
    ensures r.correctAnswers == CountCorrect(r.detailedResults)
    ensures r.totalQuestions == |quiz.questions| && r.timeTaken == timeTaken
    ensures r.performanceLevel == PerformanceLevel(r.percentage)
  {
    var questions := quiz.questions;
    var totalPoints := 0.0;
    var earnedPoints := 0.0;
    var detailed: seq<DetailedResult> := [];
    var incorrect: seq<MistakeEntry> := [];
    for i := 0 to |questions|
      invariant detailed == ResultsOf(ev, quiz, responses, questions[..i])
      invariant incorrect == MistakesOf(ev, quiz, responses, questions[..i])
      invariant earnedPoints == SumEarned(detailed) && totalPoints == SumMax(detailed)
    {
      var question := questions[i];
      var evaluation := EvalOf(ev, quiz, responses, question);
      totalPoints := totalPoints + evaluation.maxPoints;
      earnedPoints := earnedPoints + evaluation.pointsEarned;
      SubmissionStep(ev, quiz, responses, questions, i);
      detailed := detailed + [ResultFor(ev, quiz, responses, question)];
      if !evaluation.isCorrect {
        incorrect := incorrect + [MistakeFor(quiz, responses, question)];
      }
    }
    assert questions[..|questions|] == questions;
    var percentage := Percentage(earnedPoints, totalPoints);
    r := Submission(earnedPoints, totalPoints, percentage, CountCorrect(detailed), |questions|,
                    timeTaken, detailed, incorrect, PerformanceLevel(percentage));
  }

  /** One round of the scoring loop: question `i` adds its result, and its
      mistake entry when it was judged incorrect. */
  lemma SubmissionStep(ev: Evaluator, quiz: QuizData, responses: map<string, string>, qs: seq<Question>, i: nat)
    requires i < |qs|
    ensures ResultsOf(ev, quiz, responses, qs[..i + 1])
            == ResultsOf(ev, quiz, responses, qs[..i]) + [ResultFor(ev, quiz, responses, qs[i])]
    ensures MistakesOf(ev, quiz, responses, qs[..i + 1])
            == MistakesOf(ev, quiz, responses, qs[..i])
               + (if EvalOf(ev, quiz, responses, qs[i]).isCorrect then [] else [MistakeFor(quiz, responses, qs[i])])
    ensures SumEarned(ResultsOf(ev, quiz, responses, qs[..i + 1]))
            == SumEarned(ResultsOf(ev, quiz, responses, qs[..i])) + EvalOf(ev, quiz, responses, qs[i]).pointsEarned
    ensures SumMax(ResultsOf(ev, quiz, responses, qs[..i + 1]))
            == SumMax(ResultsOf(ev, quiz, responses, qs[..i])) + EvalOf(ev, quiz, responses, qs[i]).maxPoints
  {
    assert qs[..i + 1][..i] == qs[..i];
    var rs := ResultsOf(ev, quiz, responses, qs[..i]);
    assert (rs + [ResultFor(ev, quiz, responses, qs[i])])[..|rs|] == rs;
  }

  // ------------------------------------------------------------ what a submission promises

  /** Correct answers and logged mistakes split the questions between them. */
  lemma {:induction false} CorrectAndIncorrectPartition(ev: Evaluator, quiz: QuizData, responses: map<string, string>, qs: seq<Question>)
    ensures CountCorrect(ResultsOf(ev, quiz, responses, qs)) + |MistakesOf(ev, quiz, responses, qs)| == |qs|
    decreases |qs|
  {
    if qs != [] {
      var init := qs[..|qs| - 1];
      CorrectAndIncorrectPartition(ev, quiz, responses, init);
      var rs := ResultsOf(ev, quiz, responses, init);
      assert (rs + [ResultFor(ev, quiz, responses, qs[|qs| - 1])])[..|rs|] == rs;
    }
  }

  /** Mistake entry `k` belongs to the `k`-th question judged incorrect, in
      question order: it records that question's text, stripped answer and
      expected answer, the quiz topic and the two labels.  With
      `MistakeCount`, every question judged incorrect has exactly one entry. */
  lemma MistakesAreTheIncorrectQuestions(ev: Evaluator, quiz: QuizData, responses: map<string, string>, qs: seq<Question>)
    ensures var pos := KeptPositions(qs, Incorrect(ev, quiz, responses));
            var ms := MistakesOf(ev, quiz, responses, qs);
            |pos| == |ms|
            && (forall k :: 0 <= k < |pos| ==>
                  pos[k] < |qs| && !EvalOf(ev, quiz, responses, qs[pos[k]]).isCorrect
                  && ms[k] == MistakeFor(quiz, responses, qs[pos[k]]))
            && (forall k, l :: 0 <= k < l < |pos| ==> pos[k] < pos[l])
  {
    FilterMapAt(qs, Incorrect(ev, quiz, responses), MistakeOf(quiz, responses));
  }

  /** The number of mistake entries is the number of questions not judged correct. */
  lemma MistakeCount(ev: Evaluator, quiz: QuizData, responses: map<string, string>, qs: seq<Question>)
    ensures |MistakesOf(ev, quiz, responses, qs)| == |qs| - CountCorrect(ResultsOf(ev, quiz, responses, qs))
  {
    CorrectAndIncorrectPartition(ev, quiz, responses, qs);
  }

  /** Every mistake entry carries the quiz topic, "General" when the quiz has none. */
  lemma MistakeTopics(ev: Evaluator, quiz: QuizData, responses: map<string, string>, qs: seq<Question>)
    ensures forall m :: m in MistakesOf(ev, quiz, responses, qs) ==>
              m.topic == (if "topic" in quiz.fields then quiz.fields["topic"] else Str("General"))
  {
    MistakesAreTheIncorrectQuestions(ev, quiz, responses, qs);
  }

  /** With a well-behaved evaluator the score lies between 0 and the
      maximum, and the percentage between 0 and 100; a quiz worth nothing
      (in particular one without questions) scores 0 percent. */
  lemma ScoreBounds(ev: Evaluator, quiz: QuizData, responses: map<string, string>)
    requires PointsBounded(ev)
    ensures var rs := ResultsOf(ev, quiz, responses, quiz.questions);
            0.0 <= SumEarned(rs) <= SumMax(rs)
            && 0.0 <= Percentage(SumEarned(rs), SumMax(rs)) <= 100.0
            && (SumMax(rs) == 0.0 ==> Percentage(SumEarned(rs), SumMax(rs)) == 0.0)
            && (quiz.questions == [] ==> SumMax(rs) == 0.0)
  {
    var rs := ResultsOf(ev, quiz, responses, quiz.questions);
    ResultsPerQuestion(ev, quiz, responses, quiz.questions);
    forall i | 0 <= i < |rs| ensures 0.0 <= rs[i].pointsEarned <= rs[i].maxPoints {
      var q := quiz.questions[i];
      assert rs[i].pointsEarned == ev(q, AnswerFor(responses, q), QuestionType(quiz)).pointsEarned;
    }
    SumsBounded(rs);
    PercentageBounds(SumEarned(rs), SumMax(rs));
  }

  lemma {:induction false} SumsBounded(rs: seq<DetailedResult>)
    requires forall i :: 0 <= i < |rs| ==> 0.0 <= rs[i].pointsEarned <= rs[i].maxPoints
    ensures 0.0 <= SumEarned(rs) <= SumMax(rs)
    decreases |rs|
  {
    if rs != [] {
      SumsBounded(rs[..|rs| - 1]);
    }
  }

  /** A score between 0 and the maximum is between 0 and 100 percent. */
  lemma PercentageBounds(score: real, maxScore: real)
    requires 0.0 <= score <= maxScore
    ensures 0.0 <= Percentage(score, maxScore) <= 100.0
    ensures Percentage(score, maxScore) == 100.0 <==> 0.0 < maxScore && score == maxScore
  {
    if maxScore > 0.0 {
      assert score / maxScore <= 1.0;
    }
  }

  // ------------------------------------------------------------ labels

  /** `_get_performance_level(percentage)` */
  function PerformanceLevel(percentage: real): Level {
    if percentage >= 90.0 then Excellent
    else if percentage >= 80.0 then Good
    else if percentage >= 70.0 then Satisfactory
    else if percentage >= 60.0 then NeedsImprovement
    else Poor
  }

  /** The label text the backend returns. */
  function LevelName(l: Level): string {
    match l
    case Excellent => "Excellent"
    case Good => "Good"
    case Satisfactory => "Satisfactory"
    case NeedsImprovement => "Needs Improvement"
    case Poor => "Poor"
  }

  /** Levels from worst (0) to best (4). */
  function Rank(l: Level): nat {
    match l
    case Poor => 0
    case NeedsImprovement => 1
    case Satisfactory => 2
    case Good => 3
    case Excellent => 4
  }

  /** A higher percentage never gets a lower level. */
  lemma PerformanceMonotone(p: real, p': real)
    requires p <= p'
    ensures Rank(PerformanceLevel(p)) <= Rank(PerformanceLevel(p'))
  {
  }

  /** Each level is exactly a band of ten points: [90, ..), [80, 90),
      [70, 80), [60, 70) and (.., 60). */
  lemma PerformanceBands(p: real)
    ensures PerformanceLevel(p) == Excellent <==> 90.0 <= p
    ensures PerformanceLevel(p) == Good <==> 80.0 <= p < 90.0
    ensures PerformanceLevel(p) == Satisfactory <==> 70.0 <= p < 80.0
    ensures PerformanceLevel(p) == NeedsImprovement <==> 60.0 <= p < 70.0
    ensures PerformanceLevel(p) == Poor <==> p < 60.0
  {
  }

  /** The keyword groups of `_extract_concept_from_question`, in the order
      they are tried, each with the concept it names. */
  const ConceptGroups: seq<(string, seq<string>)> := [
    ("Calculation", ["calculate", "compute"]),
    ("Definition", ["define", "what is"]),
    ("Explanation", ["explain", "describe"]),
    ("Comparison", ["compare", "contrast"])
  ]

  const GeneralConcept := "General Concept"

  /** `_extract_concept_from_question(question)` */
  function ExtractConcept(q: Question): string {
    var text := Lower(GetText(q, "question", ""));
    if Contains(text, "calculate") || Contains(text, "compute") then "Calculation"
    else if Contains(text, "define") || Contains(text, "what is") then "Definition"
    else if Contains(text, "explain") || Contains(text, "describe") then "Explanation"
    else if Contains(text, "compare") || Contains(text, "contrast") then "Comparison"
    else GeneralConcept
  }

  /** Does `text` contain one of `keywords`? */
  function AnyKeyword(text: string, keywords: seq<string>): bool
    decreases |keywords|
  {
    keywords != [] && (Contains(text, keywords[0]) || AnyKeyword(text, keywords[1..]))
  }

  /** The concept of the first group with a keyword in `text`. */
  function FirstMatchingGroup(text: string, groups: seq<(string, seq<string>)>): string
    decreases |groups|
  {
    if groups == [] then GeneralConcept
    else if AnyKeyword(text, groups[0].1) then groups[0].0
    else FirstMatchingGroup(text, groups[1..])
  }

  /** The concept is that of the first keyword group, in the fixed order,
      found in the lower-cased question text; "General Concept" when none is. */
  lemma ConceptIsFirstMatch(q: Question)
    ensures ExtractConcept(q) == FirstMatchingGroup(Lower(GetText(q, "question", "")), ConceptGroups)
  {
    var text := Lower(GetText(q, "question", ""));
    assert ConceptGroups[1..][1..][1..][1..] == [];
  }

  /** The concept is always one of the five labels. */
  lemma ConceptLabels(q: Question)
    ensures ExtractConcept(q) in {"Calculation", "Definition", "Explanation", "Comparison", GeneralConcept}
  {
  }

  /** Changing the case of the question's letters does not change its concept. */
  lemma ConceptIgnoresCase(q: Question, q': Question)
    requires Lower(GetText(q, "question", "")) == Lower(GetText(q', "question", ""))
    ensures ExtractConcept(q) == ExtractConcept(q')
  {
  }

  /** `_classify_mistake_type(question, student_answer)` */
  function ClassifyMistake(q: Question, studentAnswer: string): string {
    if Strip(studentAnswer) == [] then "no_response"
    else
      var questionType := Get(q, "type", Str("MCQ"));
      if questionType == Str("MCQ") then "conceptual"
      else if questionType == Str("Short Answer") || questionType == Str("Essay") then
        (if |Words(studentAnswer)| < 3 then "incomplete" else "conceptual")
      else "conceptual"
  }

  /** The mistake type is always one of the three labels. */
  lemma MistakeLabels(q: Question, studentAnswer: string)
    ensures ClassifyMistake(q, studentAnswer) in {"no_response", "conceptual", "incomplete"}
  {
  }

  /** An answer is labelled `no_response` exactly when it is blank, whatever
      the question type; `incomplete` exactly when a non-blank answer to a
      "Short Answer" or "Essay" question has fewer than three words; and
      `conceptual` otherwise, in particular for every answered MCQ. */
  lemma ClassifyMistakeCases(q: Question, studentAnswer: string)
    ensures ClassifyMistake(q, studentAnswer) == "no_response" <==> IsBlank(studentAnswer)
    ensures ClassifyMistake(q, studentAnswer) == "incomplete"
            <==> !IsBlank(studentAnswer)
                 && Get(q, "type", Str("MCQ")) in {Str("Short Answer"), Str("Essay")}
                 && |Words(studentAnswer)| < 3
    ensures !IsBlank(studentAnswer) && Get(q, "type", Str("MCQ")) == Str("MCQ")
            ==> ClassifyMistake(q, studentAnswer) == "conceptual"
  {
    StripEmptyIffBlank(studentAnswer);
  }

  // ------------------------------------------------------------ editing

  /** The distinct ids of `qs` in order of first appearance: the key order
      of `{q.get("id"): q for q in qs}`. */
  function IdOrder(qs: seq<Question>): seq<Value>
    decreases |qs|
  {
    if qs == [] then []
    else
      var order := IdOrder(qs[..|qs| - 1]);
      var id := IdOf(qs[|qs| - 1]);
      if id in order then order else order + [id]
  }

  /** The last question with each id: the values of the same comprehension. */
  function LastById(qs: seq<Question>): map<Value, Question>
    decreases |qs|
  {
    if qs == [] then map[]
    else LastById(qs[..|qs| - 1])[IdOf(qs[|qs| - 1]) := qs[|qs| - 1]]
  }

  /** `q` after `q.update(e)` for every edit `e` with the same id, in order. */
  function Merged(q: Question, edits: seq<Question>): Question
    decreases |edits|
  {
    if edits == [] then q
    else
      var q' := Merged(q, edits[..|edits| - 1]);
      var e := edits[|edits| - 1];
      if IdOf(e) == IdOf(q) then q' + e else q'
  }

  /** The question list `update_quiz_questions` produces. */
  function UpdatedQuestions(qs: seq<Question>, edits: seq<Question>): seq<Question>
  {
    var order := IdOrder(qs);
    var byId := LastById(qs);
    IdOrderKeys(qs);
    seq(|order|, i requires 0 <= i < |order| => Merged(byId[order[i]], edits))
  }

  lemma {:induction false} IdOrderKeys(qs: seq<Question>)
    ensures forall id :: id in IdOrder(qs) <==> id in LastById(qs)
    ensures forall id :: id in LastById(qs) ==> IdOf(LastById(qs)[id]) == id
    ensures forall i, j :: 0 <= i < j < |IdOrder(qs)| ==> IdOrder(qs)[i] != IdOrder(qs)[j]
    decreases |qs|
  {
    if qs != [] {
      IdOrderKeys(qs[..|qs| - 1]);
    }
  }

  /** `update_quiz_questions(quiz_data, updated_questions)`, with the clock
      reading `now` for `updated_at`. */
  method UpdateQuizQuestions(quiz: QuizData, edits: seq<Question>, now: nat) returns (r: QuizData)
    ensures r.questions == UpdatedQuestions(quiz.questions, edits)
    ensures r.fields == quiz.fields["updated_at" := Stamp(now)]["num_questions" := Num(|r.questions|)]
  {
    var order := IdOrder(quiz.questions);
    var byId := LastById(quiz.questions);
    IdOrderKeys(quiz.questions);
    ghost var original := byId;
    for j := 0 to |edits|
      invariant byId.Keys == original.Keys
      invariant forall id :: id in byId ==> byId[id] == Merged(original[id], edits[..j])
    {
      var e := edits[j];
      var id := IdOf(e);
      MergedStep(edits, j);
      if id in byId {
        byId := byId[id := byId[id] + e];
      }
    }
    assert edits[..|edits|] == edits;
    var questions := seq(|order|, i requires 0 <= i < |order| => byId[order[i]]);
    r := QuizData(quiz.fields["updated_at" := Stamp(now)]["num_questions" := Num(|questions|)], questions);
  }

  /** One more edit changes exactly the questions with its id, by merging its keys in. */
  lemma MergedStep(edits: seq<Question>, j: nat)
    requires j < |edits|
    ensures forall q :: Merged(q, edits[..j + 1])
                        == if IdOf(edits[j]) == IdOf(q) then Merged(q, edits[..j]) + edits[j] else Merged(q, edits[..j])
  {
    assert edits[..j + 1][..j] == edits[..j];
  }

  /** An edit whose id no question has changes nothing. */
  lemma UnmatchedEditIgnored(qs: seq<Question>, edits: seq<Question>, e: Question)
    requires IdOf(e) !in IdOrder(qs)
    ensures UpdatedQuestions(qs, edits + [e]) == UpdatedQuestions(qs, edits)
  {
    IdOrderKeys(qs);
    assert (edits + [e])[..|edits|] == edits;
  }

  /** With distinct ids the editor keeps every question in its place, each
      updated by the edits that carry its id; any other edit is ignored. */
  lemma UniqueIdsKeepOrder(qs: seq<Question>, edits: seq<Question>)
    requires forall i, j :: 0 <= i < j < |qs| ==> IdOf(qs[i]) != IdOf(qs[j])
    ensures UpdatedQuestions(qs, edits) == seq(|qs|, i requires 0 <= i < |qs| => Merged(qs[i], edits))
  {
    UniqueIds(qs);
  }

  lemma {:induction false} UniqueIds(qs: seq<Question>)
    requires forall i, j :: 0 <= i < j < |qs| ==> IdOf(qs[i]) != IdOf(qs[j])
    ensures |IdOrder(qs)| == |qs|
    ensures forall i :: 0 <= i < |qs| ==> IdOrder(qs)[i] == IdOf(qs[i])
    ensures forall i :: 0 <= i < |qs| ==> IdOf(qs[i]) in LastById(qs) && LastById(qs)[IdOf(qs[i])] == qs[i]
    decreases |qs|
  {
    if qs != [] {
      var n := |qs|;
      var init := qs[..n - 1];
      UniqueIds(init);
      IdOrderKeys(init);
      assert IdOf(qs[n - 1]) !in IdOrder(init);
    }
  }

  /** A key that no edit with the question's id carries keeps its value
      (and stays absent if it was absent). */
  lemma {:induction false} MergedKeepsOtherKeys(q: Question, edits: seq<Question>, key: string)
    requires forall e :: e in edits && IdOf(e) == IdOf(q) ==> key !in e
    ensures key in Merged(q, edits) <==> key in q
    ensures key in q ==> Merged(q, edits)[key] == q[key]
    decreases |edits|
  {
    if edits != [] {
      MergedKeepsOtherKeys(q, edits[..|edits| - 1], key);
    }
  }

  /** A key carried by edits with the question's id takes the value of the
      last of them. */
  lemma {:induction false} MergedTakesLastEdit(q: Question, edits: seq<Question>, key: string, j: int)
    requires 0 <= j < |edits| && IdOf(edits[j]) == IdOf(q) && key in edits[j]
    requires forall l :: j < l < |edits| && IdOf(edits[l]) == IdOf(q) ==> key !in edits[l]
    ensures key in Merged(q, edits) && Merged(q, edits)[key] == edits[j][key]
    decreases |edits|
  {
    var n := |edits|;
    if j < n - 1 {
      MergedTakesLastEdit(q, edits[..n - 1], key, j);
    }
  }

  // ------------------------------------------------------------ chunking

  /** `chunk_text(text, max_length, overlap)` of this file: the helper's
      loop with an extra `break` once `start` has passed the last word. */
  method ChunkText(text: string, maxLength: int, overlap: int) returns (chunks: seq<string>)
    requires Helpers.ChunkingEnds(Words(text), maxLength, overlap)
    ensures chunks == Helpers.WordChunks(Words(text), maxLength, overlap)
  {
    var words := Words(text);
    chunks := ChunkWordList(words, maxLength, overlap);
  }

  /** The windowing loop of this file's `chunk_text`, with its `break`. */
  method ChunkWordList(words: seq<string>, maxLength: int, overlap: int) returns (chunks: seq<string>)
    requires Helpers.ChunkingEnds(words, maxLength, overlap)
    ensures chunks == Helpers.WordChunks(words, maxLength, overlap)
  {
    chunks := [];
    var start := 0;
    ghost var all := Helpers.WordChunks(words, maxLength, overlap);
    ghost var f := Helpers.ChunkFn(words, maxLength);
    while start < |words|
      invariant 0 <= start
      invariant all == chunks + Helpers.StepsFrom(|words|, start, maxLength - overlap, f)
      decreases |words| - start
    {
      var chunk := Join(Slice(words, start, start + maxLength), " ");
      Helpers.StepsRound(all, chunks, chunk, |words|, start, maxLength - overlap, f);
      chunks := chunks + [chunk];
      start := start + (maxLength - overlap);
      if start >= |words| {
        break;
      }
    }
  }
}
