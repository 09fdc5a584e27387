/** The SQLite store of Backend/src/database.py as in-memory tables: each
    table is a sequence of rows in rowid order, an AUTOINCREMENT id is the
    row's position plus one (the core never deletes a row), a
    `CURRENT_TIMESTAMP` is the `now` the caller passes in, and a statement
    that raises `sqlite3.IntegrityError` before the commit leaves every
    table as it was. */
module Database {
  import opened Values
  import QuizGeneration
  import PyText
  import Sorting

  type MistakeEntry = QuizGeneration.MistakeEntry
  type DetailedResult = QuizGeneration.DetailedResult

  /** A write either commits or raises `IntegrityError` naming the constraint. */
  datatype Outcome<T> = Ok(value: T) | IntegrityError(constraint: string)

  // ------------------------------------------------------------ rows

  datatype User = User(id: string, name: string, email: string, role: string, createdAt: nat)

  datatype QuizRow = QuizRow(
    id: nat,
    title: Value,
    topic: Value,
    difficulty: Value,
    questionType: Value,
    numQuestions: nat,
    createdBy: string,
    generationMode: Value,
    isPublished: bool,
    createdAt: nat,
    updatedAt: nat,
    data: QuizData)

  datatype Attempt = Attempt(
    id: nat,
    studentId: string,
    quizId: int,
    score: Option<real>,
    maxScore: Option<real>,
    percentage: Option<real>,
    startedAt: nat,
    completedAt: Option<nat>,
    timeTaken: Option<int>)

  datatype ResponseRow = ResponseRow(
    id: nat,
    attemptId: int,
    questionId: Value,
    questionText: string,
    studentAnswer: string,
    correctAnswer: string,
    isCorrect: bool,
    pointsEarned: real,
    maxPoints: real,
    responseTime: int)

  datatype MistakeRow = MistakeRow(
    id: nat,
    studentId: string,
    topic: Value,
    concept: string,
    mistakeType: string,
    frequency: nat,
    lastOccurred: nat)

  // ------------------------------------------------------------ constraints

  const Roles: set<string> := {"student", "teacher"}
  const Difficulties: set<string> := {"Easy", "Medium", "Hard"}
  const QuestionTypes: set<string> := {"MCQ", "True/False", "Short Answer", "Essay"}
  const GenerationModes: set<string> := {"prompt", "document", "mistakes"}

  /** The `mistake_type` CHECK as the schema writes it. */
  const CheckedMistakeTypes: set<string> := {"conceptual", "computational", "careless"}

  /** The `mistake_type` CHECK widened to every label the mistake classifier
      emits, as evidently intended; `Store` keeps the CHECK as written. */
  const MistakeTypes: set<string> := CheckedMistakeTypes + {"no_response", "incomplete"}

  /** `CHECK (col IN (...))` on a nullable column: NULL passes, and so does
      a text value in the list. */
  predicate CheckIn(v: Value, allowed: set<string>) {
    v.Null? || (v.Str? && v.s in allowed)
  }

  /** PRIMARY KEY and UNIQUE on `users`, and the role CHECK. */
  predicate UsersOk(users: seq<User>) {
    (forall i, j :: 0 <= i < j < |users| ==> users[i].id != users[j].id && users[i].email != users[j].email)
    && (forall i :: 0 <= i < |users| ==> users[i].role in Roles)
  }

  predicate QuizRowOk(row: QuizRow) {
    row.title != Null
    && CheckIn(row.difficulty, Difficulties)
    && CheckIn(row.questionType, QuestionTypes)
    && CheckIn(row.generationMode, GenerationModes)
  }

  predicate QuizzesOk(quizzes: seq<QuizRow>) {
    forall i :: 0 <= i < |quizzes| ==> quizzes[i].id == i + 1 && QuizRowOk(quizzes[i])
  }

  /** A completed attempt always carries its percentage and time, because
      the one statement that sets `completed_at` sets them too. */
  predicate AttemptsOk(attempts: seq<Attempt>) {
    forall i :: 0 <= i < |attempts| ==>
      attempts[i].id == i + 1
      && (attempts[i].completedAt.Some? ==> attempts[i].percentage.Some? && attempts[i].timeTaken.Some?)
  }

  predicate ResponsesOk(responses: seq<ResponseRow>) {
    forall i :: 0 <= i < |responses| ==> responses[i].id == i + 1 && responses[i].questionId != Null
  }

  /** The identity of a mistake row: one row per student, topic and concept. */
  function KeyOf(row: MistakeRow): (string, Value, string) {
    (row.studentId, row.topic, row.concept)
  }

  predicate UniqueKeys(rows: seq<MistakeRow>) {
    forall i, j :: 0 <= i < j < |rows| ==> KeyOf(rows[i]) != KeyOf(rows[j])
  }

  /** The schema's NOT NULL on `topic` and its `mistake_type` CHECK (for
      `allowed`), plus two invariants the code keeps by selecting before it
      inserts and that the schema does not declare: a frequency of at least
      one, and no two rows for the same (student, topic, concept) key. */
  predicate MistakesOk(rows: seq<MistakeRow>, allowed: set<string>) {
    UniqueKeys(rows)
    && forall i :: 0 <= i < |rows| ==>
         rows[i].id == i + 1 && rows[i].topic != Null && rows[i].frequency >= 1
         && rows[i].mistakeType in allowed
  }

  // ------------------------------------------------------------ users

  /** `INSERT INTO users`: refused when the id or the email is taken or the
      role is not one of the two. */
  function AddUser(users: seq<User>, u: User): Option<seq<User>> {
    if exists i :: 0 <= i < |users| && users[i].id == u.id then None
    else if exists i :: 0 <= i < |users| && users[i].email == u.email then None
    else if u.role !in Roles then None
    else Some(users + [u])
  }

  /** An insert either adds exactly the new user at the end, keeping the
      table's keys unique, or is refused for a taken id, a taken email or a
      bad role and changes nothing. */
  lemma AddUserSpec(users: seq<User>, u: User)
    requires UsersOk(users)
    ensures AddUser(users, u).Some? <==>
              (forall i :: 0 <= i < |users| ==> users[i].id != u.id && users[i].email != u.email)
              && u.role in Roles
    ensures AddUser(users, u).Some? ==> AddUser(users, u).value == users + [u] && UsersOk(users + [u])
  {
  }

  /** Once a user is in, no later user with the same id or email gets in. */
  lemma NoSecondRegistration(users: seq<User>, u: User, u': User)
    requires AddUser(users, u).Some?
    requires u'.id == u.id || u'.email == u.email
    ensures AddUser(AddUser(users, u).value, u').None?
  {
    var us := AddUser(users, u).value;
    assert us[|users|] == u;
  }

  // ------------------------------------------------------------ quizzes

  /** The row `insert_quiz` writes, with the defaults for missing keys. */
  function QuizRowFor(quiz: QuizData, createdBy: string, id: nat, now: nat): QuizRow {
    var f := quiz.fields;
    QuizRow(id, Get(f, "title", Str("Untitled Quiz")), Get(f, "topic", Str("General")),
            Get(f, "difficulty", Str("Medium")), Get(f, "question_type", Str("MCQ")),
            |quiz.questions|, createdBy, Get(f, "generation_mode", Str("prompt")),
            false, now, now, quiz)
  }

  /** `insert_quiz`: the new quiz table, or the constraint the row breaks. */
  function AddQuiz(quizzes: seq<QuizRow>, quiz: QuizData, createdBy: string, now: nat): Outcome<seq<QuizRow>> {
    var row := QuizRowFor(quiz, createdBy, |quizzes| + 1, now);
    if row.title == Null then IntegrityError("NOT NULL constraint failed: quizzes.title")
    else if !CheckIn(row.difficulty, Difficulties) then IntegrityError("CHECK constraint failed: difficulty")
    else if !CheckIn(row.questionType, QuestionTypes) then IntegrityError("CHECK constraint failed: question_type")
    else if !CheckIn(row.generationMode, GenerationModes) then IntegrityError("CHECK constraint failed: generation_mode")
    else Ok(quizzes + [row])
  }

  /** `SELECT * FROM quizzes WHERE id = ?` */
  function QuizById(quizzes: seq<QuizRow>, id: int): Option<QuizRow> {
    if 1 <= id <= |quizzes| then Some(quizzes[id - 1]) else None
  }

  /** A question as a student sees it: without the answer and the explanation. */
  function StudentView(q: Question): Question {
    map k | k in q && k != "correct_answer" && k != "explanation" :: q[k]
  }

  /** What `get_quiz_by_id` returns for a row: the stored dictionary with
      five keys overwritten from the row's columns and, for a student, every
      question stripped. */
  function QuizView(row: QuizRow, includeAnswers: bool): QuizData {
    var fields := row.data.fields["id" := Num(row.id)]["title" := row.title]
                    ["created_by" := Str(row.createdBy)]["created_at" := Stamp(row.createdAt)]
                    ["is_published" := Flag(row.isPublished)];
    var qs := row.data.questions;
    QuizData(fields, if includeAnswers then qs else seq(|qs|, i requires 0 <= i < |qs| => StudentView(qs[i])))
  }

  /** `get_quiz_by_id(quiz_id, include_answers)` */
  function GetQuizById(quizzes: seq<QuizRow>, id: int, includeAnswers: bool): Option<QuizData> {
    match QuizById(quizzes, id)
    case None => None
    case Some(row) => Some(QuizView(row, includeAnswers))
  }

  /** A student's question keeps every key but the answer and the
      explanation, with the same values. */
  lemma StudentViewKeys(q: Question)
    ensures forall k :: k in StudentView(q) <==> k in q && k != "correct_answer" && k != "explanation"
    ensures forall k :: k in StudentView(q) ==> StudentView(q)[k] == q[k]
  {
  }

  /** Only an unknown id gives None.  A quiz read back after `insert_quiz`
      has its own questions (all of them, in order, with answers for a
      teacher) and every other key it was stored with, while a student
      gets the same number of questions, in the same order, each without
      `correct_answer` and `explanation`. */
  lemma InsertThenGet(quizzes: seq<QuizRow>, quiz: QuizData, createdBy: string, now: nat, k: string)
    requires QuizzesOk(quizzes)
    requires AddQuiz(quizzes, quiz, createdBy, now).Ok?
    requires k in quiz.fields && k !in {"id", "title", "created_by", "created_at", "is_published"}
    ensures var quizzes' := AddQuiz(quizzes, quiz, createdBy, now).value;
            var teacher := GetQuizById(quizzes', |quizzes| + 1, true);
            var student := GetQuizById(quizzes', |quizzes| + 1, false);
            QuizzesOk(quizzes')
            && teacher.Some? && teacher.value.questions == quiz.questions
            && teacher.value.fields[k] == quiz.fields[k]
            && teacher.value.fields["created_by"] == Str(createdBy)
            && teacher.value.fields["is_published"] == Flag(false)
            && student.Some? && student.value.fields == teacher.value.fields
            && |student.value.questions| == |quiz.questions|
            && (forall i :: 0 <= i < |quiz.questions| ==>
                  student.value.questions[i] == StudentView(quiz.questions[i])
                  && "correct_answer" !in student.value.questions[i]
                  && "explanation" !in student.value.questions[i])
  {
  }

  /** An id no row has gives None, and a row is found by its own id. */
  lemma GetQuizByIdFinds(quizzes: seq<QuizRow>, id: int, includeAnswers: bool)
    requires QuizzesOk(quizzes)
    ensures GetQuizById(quizzes, id, includeAnswers).None? <==> forall i :: 0 <= i < |quizzes| ==> quizzes[i].id != id
    ensures GetQuizById(quizzes, id, includeAnswers).Some? ==>
              GetQuizById(quizzes, id, includeAnswers).value.fields["id"] == Num(id)
  {
    if GetQuizById(quizzes, id, includeAnswers).None? {
      forall i | 0 <= i < |quizzes| ensures quizzes[i].id != id {
        assert quizzes[i].id == i + 1;
      }
    }
  }

  /** `publish_quiz`: the row with that id becomes published and updated
      now; an unknown id changes nothing. */
  function Published(quizzes: seq<QuizRow>, id: int, now: nat): seq<QuizRow> {
    seq(|quizzes|, i requires 0 <= i < |quizzes| =>
      if quizzes[i].id == id then quizzes[i].(isPublished := true, updatedAt := now) else quizzes[i])
  }

  /** Publishing touches one row and two of its columns: the quiz content is
      kept, the students' view reports it published, and publishing twice
      is publishing once. */
  lemma PublishSpec(quizzes: seq<QuizRow>, id: int, now: nat)
    requires QuizzesOk(quizzes)
    ensures var quizzes' := Published(quizzes, id, now);
            QuizzesOk(quizzes') && |quizzes'| == |quizzes|
            && (forall i :: 0 <= i < |quizzes| && quizzes[i].id != id ==> quizzes'[i] == quizzes[i])
            && (forall i :: 0 <= i < |quizzes| ==> quizzes'[i].data == quizzes[i].data)
            && (GetQuizById(quizzes, id, false).Some? ==>
                  GetQuizById(quizzes', id, false).value.fields["is_published"] == Flag(true)
                  && GetQuizById(quizzes', id, false).value.questions == GetQuizById(quizzes, id, false).value.questions)
            && Published(quizzes', id, now) == quizzes'
  {
  }

  // ------------------------------------------------------------ attempts

  /** The row `start_quiz_attempt` inserts: nothing scored, nothing completed. */
  function FreshAttempt(id: nat, studentId: string, quizId: int, now: nat): Attempt {
    Attempt(id, studentId, quizId, None, None, None, now, None, None)
  }

  /** The attempt after the UPDATE of `submit_quiz_attempt`. */
  function Completed(a: Attempt, score: real, maxScore: real, timeTaken: int, now: nat): Attempt {
    a.(score := Some(score), maxScore := Some(maxScore),
       percentage := Some(QuizGeneration.Percentage(score, maxScore)),
       completedAt := Some(now), timeTaken := Some(timeTaken))
  }

  /** `UPDATE quiz_attempts ... WHERE id = ?` */
  function Submitted(attempts: seq<Attempt>, attemptId: int, score: real, maxScore: real, timeTaken: int, now: nat): seq<Attempt> {
    seq(|attempts|, i requires 0 <= i < |attempts| =>
      if attempts[i].id == attemptId then Completed(attempts[i], score, maxScore, timeTaken, now) else attempts[i])
  }

  /** The `question_responses` row for one detailed result. */
  function ResponseRowOf(id: nat, attemptId: int, r: DetailedResult): ResponseRow {
    ResponseRow(id, attemptId, r.questionId, r.questionText, r.studentAnswer, r.correctAnswer,
                r.isCorrect, r.pointsEarned, r.maxPoints, r.responseTime)
  }

  /** The response rows a submission appends after the first free id. */
  function ResponseRows(next: nat, attemptId: int, results: seq<DetailedResult>): seq<ResponseRow> {
    seq(|results|, i requires 0 <= i < |results| => ResponseRowOf(next + i, attemptId, results[i]))
  }

  /** A result without a question id breaks NOT NULL on `question_id`. */
  predicate HasNullQuestionId(results: seq<DetailedResult>) {
    exists i :: 0 <= i < |results| && results[i].questionId == Null
  }

  /** Submitting completes that attempt only, with the percentage of the
      score (0 for a quiz worth nothing), and keeps the table's invariant;
      an unknown attempt id changes no attempt. */
  lemma SubmitSpec(attempts: seq<Attempt>, attemptId: int, score: real, maxScore: real, timeTaken: int, now: nat)
    requires AttemptsOk(attempts)
    ensures var attempts' := Submitted(attempts, attemptId, score, maxScore, timeTaken, now);
            AttemptsOk(attempts') && |attempts'| == |attempts|
            && (forall i :: 0 <= i < |attempts| && attempts[i].id != attemptId ==> attempts'[i] == attempts[i])
            && (forall i :: 0 <= i < |attempts| && attempts[i].id == attemptId ==>
                  attempts'[i].studentId == attempts[i].studentId && attempts'[i].quizId == attempts[i].quizId
                  && attempts'[i].startedAt == attempts[i].startedAt
                  && attempts'[i].score == Some(score) && attempts'[i].maxScore == Some(maxScore)
                  && attempts'[i].percentage == Some(if maxScore > 0.0 then score / maxScore * 100.0 else 0.0)
                  && attempts'[i].completedAt == Some(now) && attempts'[i].timeTaken == Some(timeTaken))
  {
  }

  /** Nothing stops a second submission: it overwrites the first one's
      score, percentage, time and completion. */
  lemma ResubmitOverwrites(attempts: seq<Attempt>, attemptId: int, s1: real, m1: real, t1: int, now1: nat,
                           s2: real, m2: real, t2: int, now2: nat)
    ensures Submitted(Submitted(attempts, attemptId, s1, m1, t1, now1), attemptId, s2, m2, t2, now2)
            == Submitted(attempts, attemptId, s2, m2, t2, now2)
  {
  }

  /** One response row per result, in result order, all for that attempt,
      with consecutive fresh ids and the result's fields. */
  lemma ResponseRowsSpec(responses: seq<ResponseRow>, attemptId: int, results: seq<DetailedResult>)
    requires ResponsesOk(responses) && !HasNullQuestionId(results)
    ensures var rows := ResponseRows(|responses| + 1, attemptId, results);
            ResponsesOk(responses + rows) && |rows| == |results|
            && (forall i :: 0 <= i < |rows| ==>
                  rows[i].attemptId == attemptId && rows[i].questionId == results[i].questionId
                  && rows[i].studentAnswer == results[i].studentAnswer && rows[i].isCorrect == results[i].isCorrect
                  && rows[i].pointsEarned == results[i].pointsEarned)
  {
    var rows := ResponseRows(|responses| + 1, attemptId, results);
    forall i | 0 <= i < |responses + rows|
      ensures (responses + rows)[i].id == i + 1 && (responses + rows)[i].questionId != Null
    {
      if i >= |responses| {
        assert (responses + rows)[i] == rows[i - |responses|];
      }
    }
  }

  // ------------------------------------------------------------ mistakes

  /** `WHERE student_id = ? AND topic = ? AND concept = ?`: in SQL a NULL
      topic equals nothing. */
  predicate Matches(row: MistakeRow, studentId: string, topic: Value, concept: string) {
    topic != Null && KeyOf(row) == (studentId, topic, concept)
  }

  /** The first row the SELECT of `log_student_mistakes` finds. */
  function FindMistake(rows: seq<MistakeRow>, studentId: string, topic: Value, concept: string): (r: Option<nat>)
    ensures r.Some? ==> r.value < |rows| && Matches(rows[r.value], studentId, topic, concept)
    ensures r.None? ==> forall i :: 0 <= i < |rows| ==> !Matches(rows[i], studentId, topic, concept)
    decreases |rows|
  {
    if rows == [] then None
    else if Matches(rows[0], studentId, topic, concept) then Some(0)
    else
      match FindMistake(rows[1..], studentId, topic, concept)
      case None => None
      case Some(i) => Some(i + 1)
  }

  /** One round of `log_student_mistakes`: bump the matching row, or insert
      a row with frequency 1, which NOT NULL and the CHECK may refuse. */
  function LogOne(rows: seq<MistakeRow>, studentId: string, e: MistakeEntry, now: nat, allowed: set<string>): Outcome<seq<MistakeRow>> {
    match FindMistake(rows, studentId, e.topic, e.concept)
    case Some(i) => Ok(rows[i := rows[i].(frequency := rows[i].frequency + 1, lastOccurred := now)])
    case None =>
      if e.topic == Null then IntegrityError("NOT NULL constraint failed: student_mistakes.topic")
      else if e.mistakeType !in allowed then IntegrityError("CHECK constraint failed: mistake_type")
      else Ok(rows + [MistakeRow(|rows| + 1, studentId, e.topic, e.concept, e.mistakeType, 1, now)])
  }

  /** The mistakes table after a whole batch, or the first error, after
      which nothing of the batch is kept. */
  function LogBatch(rows: seq<MistakeRow>, studentId: string, batch: seq<MistakeEntry>, now: nat, allowed: set<string>): Outcome<seq<MistakeRow>>
    decreases |batch|
  {
    if batch == [] then Ok(rows)
    else
      match LogBatch(rows, studentId, batch[..|batch| - 1], now, allowed)
      case IntegrityError(c) => IntegrityError(c)
      case Ok(rows') => LogOne(rows', studentId, batch[|batch| - 1], now, allowed)
  }

  /** The total frequency the student's rows for a topic and concept hold. */
  function Freq(rows: seq<MistakeRow>, studentId: string, topic: Value, concept: string): nat
    decreases |rows|
  {
    if rows == [] then 0
    else
      var last := rows[|rows| - 1];
      Freq(rows[..|rows| - 1], studentId, topic, concept)
        + (if Matches(last, studentId, topic, concept) then last.frequency else 0)
  }

  /** The number of batch entries for a topic and concept. */
  function CountKey(batch: seq<MistakeEntry>, topic: Value, concept: string): nat
    decreases |batch|
  {
    if batch == [] then 0
    else
      var last := batch[|batch| - 1];
      CountKey(batch[..|batch| - 1], topic, concept) + (if last.topic == topic && last.concept == concept then 1 else 0)
  }

  /** The position of the first batch entry for a topic and concept. */
  function FirstWithKey(batch: seq<MistakeEntry>, topic: Value, concept: string): (p: nat)
    requires CountKey(batch, topic, concept) > 0
    ensures p < |batch| && batch[p].topic == topic && batch[p].concept == concept
    ensures CountKey(batch[..p], topic, concept) == 0
    decreases |batch|
  {
    var init := batch[..|batch| - 1];
    if CountKey(init, topic, concept) > 0 then
      var p := FirstWithKey(init, topic, concept);
      assert batch[..p] == init[..p];
      p
    else
      assert batch[..|batch| - 1] == init;
      |batch| - 1
  }

  /** Entry `p` of a batch makes the whole batch fail: its topic is NULL,
      or it opens a new key (no row, no earlier entry) with a type the
      CHECK refuses. */
  predicate Rejected(rows: seq<MistakeRow>, studentId: string, batch: seq<MistakeEntry>, p: nat, allowed: set<string>)
    requires p < |batch|
  {
    var e := batch[p];
    e.topic == Null
    || (FindMistake(rows, studentId, e.topic, e.concept).None?
        && CountKey(batch[..p], e.topic, e.concept) == 0
        && e.mistakeType !in allowed)
  }

  // ---- one round

  lemma FreqAppend(rows: seq<MistakeRow>, row: MistakeRow, studentId: string, topic: Value, concept: string)
    ensures Freq(rows + [row], studentId, topic, concept)
            == Freq(rows, studentId, topic, concept) + (if Matches(row, studentId, topic, concept) then row.frequency else 0)
  {
    assert (rows + [row])[..|rows|] == rows;
  }

  /** Replacing row `i` by a row with the same key changes the total of
      that key by the difference of the two frequencies. */
  lemma {:induction false} FreqUpdate(rows: seq<MistakeRow>, i: nat, row: MistakeRow, studentId: string, topic: Value, concept: string)
    requires i < |rows| && KeyOf(row) == KeyOf(rows[i])
    ensures Freq(rows[i := row], studentId, topic, concept)
              + (if Matches(rows[i], studentId, topic, concept) then rows[i].frequency else 0)
            == Freq(rows, studentId, topic, concept)
              + (if Matches(row, studentId, topic, concept) then row.frequency else 0)
    decreases |rows|
  {
    var n := |rows|;
    if i == n - 1 {
      assert rows[i := row][..n - 1] == rows[..n - 1];
    } else {
      FreqUpdate(rows[..n - 1], i, row, studentId, topic, concept);
      assert rows[i := row][..n - 1] == rows[..n - 1][i := row];
    }
  }

  /** A round adds one to the total of the entry's key and nothing to any other. */
  lemma LogOneFreq(rows: seq<MistakeRow>, studentId: string, e: MistakeEntry, now: nat, allowed: set<string>, topic: Value, concept: string)
    requires LogOne(rows, studentId, e, now, allowed).Ok?
    requires topic != Null
    ensures Freq(LogOne(rows, studentId, e, now, allowed).value, studentId, topic, concept)
            == Freq(rows, studentId, topic, concept) + (if e.topic == topic && e.concept == concept then 1 else 0)
  {
    match FindMistake(rows, studentId, e.topic, e.concept)
    case Some(i) =>
      FreqUpdate(rows, i, rows[i].(frequency := rows[i].frequency + 1, lastOccurred := now), studentId, topic, concept);
    case None =>
      FreqAppend(rows, MistakeRow(|rows| + 1, studentId, e.topic, e.concept, e.mistakeType, 1, now), studentId, topic, concept);
  }

  /** After a round, a key has a row exactly when it had one before or is the entry's key. */
  lemma LogOneKeys(rows: seq<MistakeRow>, studentId: string, e: MistakeEntry, now: nat, allowed: set<string>, topic: Value, concept: string)
    requires LogOne(rows, studentId, e, now, allowed).Ok?
    requires topic != Null
    ensures FindMistake(LogOne(rows, studentId, e, now, allowed).value, studentId, topic, concept).Some?
            <==> FindMistake(rows, studentId, topic, concept).Some? || (e.topic == topic && e.concept == concept)
  {
    var rows' := LogOne(rows, studentId, e, now, allowed).value;
    match FindMistake(rows, studentId, e.topic, e.concept)
    case Some(i) =>
      if FindMistake(rows', studentId, topic, concept).Some? {
        var j := FindMistake(rows', studentId, topic, concept).value;
        assert j != i ==> rows'[j] == rows[j];
      }
      if FindMistake(rows, studentId, topic, concept).Some? {
        var j := FindMistake(rows, studentId, topic, concept).value;
        assert Matches(rows'[j], studentId, topic, concept);
      }
    case None =>
      if FindMistake(rows', studentId, topic, concept).Some? {
        var j := FindMistake(rows', studentId, topic, concept).value;
        assert j < |rows| ==> rows'[j] == rows[j];
      }
      if FindMistake(rows, studentId, topic, concept).Some? {
        var j := FindMistake(rows, studentId, topic, concept).value;
        assert rows'[j] == rows[j];
      }
      assert rows'[|rows|].topic == e.topic;
  }

  /** A round keeps the schema's NOT NULL and CHECK and the invariants the code maintains. */
  lemma LogOneOk(rows: seq<MistakeRow>, studentId: string, e: MistakeEntry, now: nat, allowed: set<string>)
    requires MistakesOk(rows, allowed)
    requires LogOne(rows, studentId, e, now, allowed).Ok?
    ensures MistakesOk(LogOne(rows, studentId, e, now, allowed).value, allowed)
  {
    var rows' := LogOne(rows, studentId, e, now, allowed).value;
    match FindMistake(rows, studentId, e.topic, e.concept)
    case Some(i) =>
      assert forall j :: 0 <= j < |rows| ==> KeyOf(rows'[j]) == KeyOf(rows[j]);
    case None =>
      assert forall j :: 0 <= j < |rows| ==> rows'[j] == rows[j];
      assert forall j :: 0 <= j < |rows| ==> !Matches(rows[j], studentId, e.topic, e.concept);
  }

  /** A round keeps every existing row's id, key and type, and may only
      raise its frequency; a row of another key is not touched at all. */
  predicate Evolved(before: MistakeRow, after: MistakeRow) {
    after.id == before.id && KeyOf(after) == KeyOf(before) && after.mistakeType == before.mistakeType
    && after.frequency >= before.frequency
  }

  lemma LogOneRows(rows: seq<MistakeRow>, studentId: string, e: MistakeEntry, now: nat, allowed: set<string>)
    requires LogOne(rows, studentId, e, now, allowed).Ok?
    ensures var rows' := LogOne(rows, studentId, e, now, allowed).value;
            |rows| <= |rows'| <= |rows| + 1
            && (forall i :: 0 <= i < |rows| ==> Evolved(rows[i], rows'[i]))
            && (forall i :: 0 <= i < |rows| && !Matches(rows[i], studentId, e.topic, e.concept) ==> rows'[i] == rows[i])
            && (|rows'| == |rows| + 1 ==>
                  FindMistake(rows, studentId, e.topic, e.concept).None?
                  && rows'[|rows|] == MistakeRow(|rows| + 1, studentId, e.topic, e.concept, e.mistakeType, 1, now))
  {
  }

  // ---- whole batch

  lemma LogBatchStep(rows: seq<MistakeRow>, studentId: string, batch: seq<MistakeEntry>, now: nat, allowed: set<string>)
    requires batch != []
    requires LogBatch(rows, studentId, batch, now, allowed).Ok?
    ensures LogBatch(rows, studentId, batch[..|batch| - 1], now, allowed).Ok?
    ensures LogOne(LogBatch(rows, studentId, batch[..|batch| - 1], now, allowed).value, studentId, batch[|batch| - 1], now, allowed)
            == LogBatch(rows, studentId, batch, now, allowed)
  {
  }

  /** For every key the batch adds to the stored total exactly the number
      of its entries for that key. */
  lemma {:induction false} LogBatchFreq(rows: seq<MistakeRow>, studentId: string, batch: seq<MistakeEntry>, now: nat,
                                        allowed: set<string>, topic: Value, concept: string)
    requires LogBatch(rows, studentId, batch, now, allowed).Ok?
    requires topic != Null
    ensures Freq(LogBatch(rows, studentId, batch, now, allowed).value, studentId, topic, concept)
            == Freq(rows, studentId, topic, concept) + CountKey(batch, topic, concept)
    decreases |batch|
  {
    if batch != [] {
      var init := batch[..|batch| - 1];
      LogBatchStep(rows, studentId, batch, now, allowed);
      LogBatchFreq(rows, studentId, init, now, allowed, topic, concept);
      LogOneFreq(LogBatch(rows, studentId, init, now, allowed).value, studentId, batch[|batch| - 1], now, allowed, topic, concept);
    }
  }

  /** After a batch a key has a row exactly when it had one before or the
      batch has an entry for it. */
  lemma {:induction false} LogBatchKeys(rows: seq<MistakeRow>, studentId: string, batch: seq<MistakeEntry>, now: nat,
                                        allowed: set<string>, topic: Value, concept: string)
    requires LogBatch(rows, studentId, batch, now, allowed).Ok?
    requires topic != Null
    ensures FindMistake(LogBatch(rows, studentId, batch, now, allowed).value, studentId, topic, concept).Some?
            <==> FindMistake(rows, studentId, topic, concept).Some? || CountKey(batch, topic, concept) > 0
    decreases |batch|
  {
    if batch != [] {
      var init := batch[..|batch| - 1];
      LogBatchStep(rows, studentId, batch, now, allowed);
      LogBatchKeys(rows, studentId, init, now, allowed, topic, concept);
      LogOneKeys(LogBatch(rows, studentId, init, now, allowed).value, studentId, batch[|batch| - 1], now, allowed, topic, concept);
    }
  }

  /** A batch keeps the schema's NOT NULL and CHECK and the invariants the code maintains. */
  lemma {:induction false} LogBatchOk(rows: seq<MistakeRow>, studentId: string, batch: seq<MistakeEntry>, now: nat, allowed: set<string>)
    requires MistakesOk(rows, allowed)
    requires LogBatch(rows, studentId, batch, now, allowed).Ok?
    ensures MistakesOk(LogBatch(rows, studentId, batch, now, allowed).value, allowed)
    decreases |batch|
  {
    if batch != [] {
      var init := batch[..|batch| - 1];
      LogBatchStep(rows, studentId, batch, now, allowed);
      LogBatchOk(rows, studentId, init, now, allowed);
      LogOneOk(LogBatch(rows, studentId, init, now, allowed).value, studentId, batch[|batch| - 1], now, allowed);
    }
  }

  /** Existing rows keep their id, key and type (only frequency and
      `last_occurred` change), rows of keys the batch does not mention are
      untouched, and rows are only ever added at the end. */
  lemma {:induction false} LogBatchRows(rows: seq<MistakeRow>, studentId: string, batch: seq<MistakeEntry>, now: nat, allowed: set<string>)
    requires LogBatch(rows, studentId, batch, now, allowed).Ok?
    ensures var rows' := LogBatch(rows, studentId, batch, now, allowed).value;
            |rows| <= |rows'|
            && (forall i :: 0 <= i < |rows| ==> Evolved(rows[i], rows'[i]))
            && (forall i :: 0 <= i < |rows| && (rows[i].studentId != studentId || CountKey(batch, rows[i].topic, rows[i].concept) == 0)
                  ==> rows'[i] == rows[i])
    decreases |batch|
  {
    if batch != [] {
      var init := batch[..|batch| - 1];
      var e := batch[|batch| - 1];
      LogBatchStep(rows, studentId, batch, now, allowed);
      LogBatchRows(rows, studentId, init, now, allowed);
      var mid := LogBatch(rows, studentId, init, now, allowed).value;
      LogOneRows(mid, studentId, e, now, allowed);
      var rows' := LogBatch(rows, studentId, batch, now, allowed).value;
      forall i | 0 <= i < |rows| && (rows[i].studentId != studentId || CountKey(batch, rows[i].topic, rows[i].concept) == 0)
        ensures rows'[i] == rows[i]
      {
        assert KeyOf(mid[i]) == KeyOf(rows[i]);
      }
    }
  }

  /** A row the batch adds belongs to the student, to a key that had no
      row, and carries the type of the batch's first entry for that key. */
  lemma {:induction false} LogBatchNewRows(rows: seq<MistakeRow>, studentId: string, batch: seq<MistakeEntry>, now: nat,
                                           allowed: set<string>, j: nat)
    requires LogBatch(rows, studentId, batch, now, allowed).Ok?
    requires |rows| <= j < |LogBatch(rows, studentId, batch, now, allowed).value|
    ensures var row := LogBatch(rows, studentId, batch, now, allowed).value[j];
            row.studentId == studentId && row.topic != Null
            && FindMistake(rows, studentId, row.topic, row.concept).None?
            && CountKey(batch, row.topic, row.concept) > 0
            && row.mistakeType == batch[FirstWithKey(batch, row.topic, row.concept)].mistakeType
    decreases |batch|
  {
    var init := batch[..|batch| - 1];
    var e := batch[|batch| - 1];
    LogBatchStep(rows, studentId, batch, now, allowed);
    var mid := LogBatch(rows, studentId, init, now, allowed).value;
    LogOneRows(mid, studentId, e, now, allowed);
    var row := LogBatch(rows, studentId, batch, now, allowed).value[j];
    if j < |mid| {
      LogBatchNewRows(rows, studentId, init, now, allowed, j);
      assert Evolved(mid[j], row);
      assert CountKey(batch, row.topic, row.concept) >= CountKey(init, row.topic, row.concept);
      assert FirstWithKey(batch, row.topic, row.concept) == FirstWithKey(init, row.topic, row.concept);
    } else {
      LogBatchKeys(rows, studentId, init, now, allowed, e.topic, e.concept);
      assert CountKey(init, e.topic, e.concept) == 0;
      assert FirstWithKey(batch, e.topic, e.concept) == |batch| - 1;
    }
  }

  /** With the keys unique, a key's total is its one row's frequency. */
  lemma {:induction false} FreqOfRow(rows: seq<MistakeRow>, i: nat)
    requires UniqueKeys(rows) && i < |rows| && rows[i].topic != Null
    ensures Freq(rows, rows[i].studentId, rows[i].topic, rows[i].concept) == rows[i].frequency
    decreases |rows|
  {
    var n := |rows|;
    var init := rows[..n - 1];
    if i < n - 1 {
      FreqOfRow(init, i);
      assert init[i] == rows[i];
    } else {
      FreqNone(init, rows[i].studentId, rows[i].topic, rows[i].concept);
    }
  }

  lemma {:induction false} FreqNone(rows: seq<MistakeRow>, studentId: string, topic: Value, concept: string)
    requires forall i :: 0 <= i < |rows| ==> !Matches(rows[i], studentId, topic, concept)
    ensures Freq(rows, studentId, topic, concept) == 0
    decreases |rows|
  {
    if rows != [] {
      FreqNone(rows[..|rows| - 1], studentId, topic, concept);
    }
  }

  /** `log_student_mistakes`, row by row: every row of the student's keys
      gains one per batch entry for its key, and a row the batch opens
      counts exactly the entries for its key. */
  lemma LoggedFrequencies(rows: seq<MistakeRow>, studentId: string, batch: seq<MistakeEntry>, now: nat, allowed: set<string>, j: nat)
    requires MistakesOk(rows, allowed)
    requires LogBatch(rows, studentId, batch, now, allowed).Ok?
    requires j < |LogBatch(rows, studentId, batch, now, allowed).value|
    ensures var rows' := LogBatch(rows, studentId, batch, now, allowed).value;
            var key := rows'[j];
            if j < |rows| then
              rows'[j].frequency == rows[j].frequency
                + (if rows[j].studentId == studentId then CountKey(batch, key.topic, key.concept) else 0)
            else rows'[j].frequency == CountKey(batch, key.topic, key.concept)
  {
    var rows' := LogBatch(rows, studentId, batch, now, allowed).value;
    LogBatchOk(rows, studentId, batch, now, allowed);
    LogBatchRows(rows, studentId, batch, now, allowed);
    var row := rows'[j];
    FreqOfRow(rows', j);
    if row.studentId == studentId {
      LogBatchFreq(rows, studentId, batch, now, allowed, row.topic, row.concept);
      if j < |rows| {
        FreqOfRow(rows, j);
      } else {
        LogBatchNewRows(rows, studentId, batch, now, allowed, j);
        FreqNone(rows, studentId, row.topic, row.concept);
      }
    } else if j >= |rows| {
      LogBatchNewRows(rows, studentId, batch, now, allowed, j);
    }
  }

  /** A batch fails exactly when one of its entries is rejected: a NULL
      topic, or a new key whose type the CHECK refuses. */
  lemma {:induction false} LogBatchFails(rows: seq<MistakeRow>, studentId: string, batch: seq<MistakeEntry>, now: nat, allowed: set<string>)
    ensures LogBatch(rows, studentId, batch, now, allowed).IntegrityError?
            <==> exists p :: 0 <= p < |batch| && Rejected(rows, studentId, batch, p, allowed)
    decreases |batch|
  {
    if batch != [] {
      var init := batch[..|batch| - 1];
      var e := batch[|batch| - 1];
      LogBatchFails(rows, studentId, init, now, allowed);
      forall p | 0 <= p < |init|
        ensures Rejected(rows, studentId, batch, p, allowed) == Rejected(rows, studentId, init, p, allowed)
      {
        assert batch[..p] == init[..p];
      }
      if LogBatch(rows, studentId, init, now, allowed).Ok? {
        var mid := LogBatch(rows, studentId, init, now, allowed).value;
        assert batch[..|batch| - 1] == init;
        if e.topic != Null {
          LogBatchKeys(rows, studentId, init, now, allowed, e.topic, e.concept);
        }
        assert LogBatch(rows, studentId, batch, now, allowed).IntegrityError?
               <==> Rejected(rows, studentId, batch, |batch| - 1, allowed);
      }
    }
  }

  // ---- the mistake labels against the CHECK

  /** As written, a blank answer loses the batch: the classifier labels it
      `no_response`, which the schema's CHECK refuses, so a submission with
      a blank wrong answer on a key the student has no row for logs nothing. */
  lemma BlankAnswerLosesBatch(quiz: QuizData, q: Question, rows: seq<MistakeRow>, studentId: string, now: nat)
    requires QuizGeneration.Topic(quiz) != Null
    requires FindMistake(rows, studentId, QuizGeneration.Topic(quiz), QuizGeneration.ExtractConcept(q)).None?
    ensures var e := QuizGeneration.MistakeFor(quiz, map[], q);
            e.mistakeType == "no_response"
            && LogBatch(rows, studentId, [e], now, CheckedMistakeTypes).IntegrityError?
  {
    var e := QuizGeneration.MistakeFor(quiz, map[], q);
    assert [e][..0] == [];
  }

  /** With the CHECK widened to the classifier's labels, the mistakes of
      any scored submission on a quiz with a topic are all logged. */
  lemma SubmissionMistakesLogged(ev: QuizGeneration.Evaluator, quiz: QuizData, responses: map<string, string>,
                                 rows: seq<MistakeRow>, studentId: string, now: nat)
    requires QuizGeneration.Topic(quiz) != Null
    ensures LogBatch(rows, studentId, QuizGeneration.MistakesOf(ev, quiz, responses, quiz.questions), now, MistakeTypes).Ok?
  {
    var batch := QuizGeneration.MistakesOf(ev, quiz, responses, quiz.questions);
    QuizGeneration.MistakesAreTheIncorrectQuestions(ev, quiz, responses, quiz.questions);
    var pos := PyText.KeptPositions(quiz.questions, QuizGeneration.Incorrect(ev, quiz, responses));
    forall p | 0 <= p < |batch| ensures !Rejected(rows, studentId, batch, p, MistakeTypes) {
      var q := quiz.questions[pos[p]];
      QuizGeneration.MistakeLabels(q, QuizGeneration.AnswerFor(responses, q));
    }
    LogBatchFails(rows, studentId, batch, now, MistakeTypes);
  }

  // ------------------------------------------------------------ analytics

  /** `WHERE student_id = ? AND completed_at IS NOT NULL` */
  function CompletedBy(attempts: seq<Attempt>, studentId: string): seq<Attempt>
    decreases |attempts|
  {
    if attempts == [] then []
    else
      var a := attempts[|attempts| - 1];
      CompletedBy(attempts[..|attempts| - 1], studentId)
        + (if a.studentId == studentId && a.completedAt.Some? then [a] else [])
  }

  /** The same rows joined with their quiz, for one quiz topic. */
  function CompletedOnTopic(attempts: seq<Attempt>, quizzes: seq<QuizRow>, studentId: string, topic: Value): seq<Attempt>
    decreases |attempts|
  {
    if attempts == [] then []
    else
      var a := attempts[|attempts| - 1];
      CompletedOnTopic(attempts[..|attempts| - 1], quizzes, studentId, topic)
        + (if a.studentId == studentId && a.completedAt.Some? && OnTopic(quizzes, a.quizId, topic) then [a] else [])
  }

  /** `JOIN quizzes q ON qa.quiz_id = q.id` with `q.topic` the group. */
  predicate OnTopic(quizzes: seq<QuizRow>, quizId: int, topic: Value) {
    QuizById(quizzes, quizId).Some? && QuizById(quizzes, quizId).value.topic == topic
  }

  function PercentOf(a: Attempt): real {
    if a.percentage.Some? then a.percentage.value else 0.0
  }

  function SumPercent(attempts: seq<Attempt>): real
    decreases |attempts|
  {
    if attempts == [] then 0.0 else SumPercent(attempts[..|attempts| - 1]) + PercentOf(attempts[|attempts| - 1])
  }

  function SumTime(attempts: seq<Attempt>): int
    decreases |attempts|
  {
    if attempts == [] then 0
    else
      var a := attempts[|attempts| - 1];
      SumTime(attempts[..|attempts| - 1]) + (if a.timeTaken.Some? then a.timeTaken.value else 0)
  }

  /** `MAX(percentage)`: NULL over no rows. */
  function Best(attempts: seq<Attempt>): Option<real>
    decreases |attempts|
  {
    if attempts == [] then None
    else
      var p := PercentOf(attempts[|attempts| - 1]);
      match Best(attempts[..|attempts| - 1])
      case None => Some(p)
      case Some(b) => Some(if b >= p then b else p)
  }

  /** COUNT, AVG and MAX over a group of completed attempts. */
  datatype Stats = Stats(attempts: nat, avgPercentage: Option<real>, bestScore: Option<real>, avgTime: Option<real>)

  function StatsOf(attempts: seq<Attempt>): Stats {
    var n := |attempts|;
    if n == 0 then Stats(0, None, None, None)
    else Stats(n, Some(SumPercent(attempts) / n as real), Best(attempts), Some(SumTime(attempts) as real / n as real))
  }

  /** The mistake rows of one student. */
  function MistakesOfStudent(rows: seq<MistakeRow>, studentId: string): seq<MistakeRow>
    decreases |rows|
  {
    if rows == [] then []
    else
      MistakesOfStudent(rows[..|rows| - 1], studentId)
        + (if rows[|rows| - 1].studentId == studentId then [rows[|rows| - 1]] else [])
  }

  function MistakeRank(): MistakeRow -> (nat, nat) {
    (r: MistakeRow) => (r.frequency, r.lastOccurred)
  }

  /** `ORDER BY frequency DESC, last_occurred DESC LIMIT 10` */
  function CommonMistakes(rows: seq<MistakeRow>, studentId: string): seq<MistakeRow> {
    Sorting.Limit(Sorting.Sort(MistakesOfStudent(rows, studentId), MistakeRank()), 10)
  }

  /** An attempt with its quiz's title and topic. */
  datatype RecentAttempt = RecentAttempt(attempt: Attempt, quizTitle: Value, topic: Value)

  /** `qa JOIN quizzes q ... WHERE qa.student_id = ?`: completed or not. */
  function AttemptsWithQuiz(attempts: seq<Attempt>, quizzes: seq<QuizRow>, studentId: string): seq<RecentAttempt>
    decreases |attempts|
  {
    if attempts == [] then []
    else
      var a := attempts[|attempts| - 1];
      AttemptsWithQuiz(attempts[..|attempts| - 1], quizzes, studentId)
        + (match QuizById(quizzes, a.quizId)
           case Some(q) => if a.studentId == studentId then [RecentAttempt(a, q.title, q.topic)] else []
           case None => [])
  }

  function StartRank(): RecentAttempt -> (nat, nat) {
    (r: RecentAttempt) => (r.attempt.startedAt, 0)
  }

  /** `ORDER BY qa.started_at DESC LIMIT 5` */
  function RecentAttempts(attempts: seq<Attempt>, quizzes: seq<QuizRow>, studentId: string): seq<RecentAttempt> {
    Sorting.Limit(Sorting.Sort(AttemptsWithQuiz(attempts, quizzes, studentId), StartRank()), 5)
  }

  datatype Analytics = Analytics(
    studentId: string,
    overall: Stats,
    commonMistakes: seq<MistakeRow>,
    recentAttempts: seq<RecentAttempt>)

  /** The overall figures count exactly the student's completed attempts. */
  lemma {:induction false} CompletedBySpec(attempts: seq<Attempt>, studentId: string)
    ensures forall a :: a in CompletedBy(attempts, studentId) <==>
              a in attempts && a.studentId == studentId && a.completedAt.Some?
    ensures |CompletedBy(attempts, studentId)| <= |attempts|
    decreases |attempts|
  {
    if attempts != [] {
      CompletedBySpec(attempts[..|attempts| - 1], studentId);
      assert attempts == attempts[..|attempts| - 1] + [attempts[|attempts| - 1]];
    }
  }

  /** A topic's figures count exactly the student's completed attempts on
      an existing quiz of that topic. */
  lemma {:induction false} CompletedOnTopicSpec(attempts: seq<Attempt>, quizzes: seq<QuizRow>, studentId: string, topic: Value)
    ensures forall a :: a in CompletedOnTopic(attempts, quizzes, studentId, topic) <==>
              a in attempts && a.studentId == studentId && a.completedAt.Some? && OnTopic(quizzes, a.quizId, topic)
    decreases |attempts|
  {
    if attempts != [] {
      CompletedOnTopicSpec(attempts[..|attempts| - 1], quizzes, studentId, topic);
      assert attempts == attempts[..|attempts| - 1] + [attempts[|attempts| - 1]];
    }
  }

  /** The best score is one of the group's percentages and none is higher. */
  lemma {:induction false} BestSpec(attempts: seq<Attempt>)
    ensures Best(attempts).None? <==> attempts == []
    ensures Best(attempts).Some? ==>
              (forall a :: a in attempts ==> PercentOf(a) <= Best(attempts).value)
              && (exists a :: a in attempts && PercentOf(a) == Best(attempts).value)
    decreases |attempts|
  {
    if attempts != [] {
      var init := attempts[..|attempts| - 1];
      BestSpec(init);
      assert attempts == init + [attempts[|attempts| - 1]];
    }
  }

  /** When every percentage of a group lies between 0 and 100, so does
      their average. */
  lemma AverageWithin(attempts: seq<Attempt>)
    requires forall a :: a in attempts ==> 0.0 <= PercentOf(a) <= 100.0
    ensures StatsOf(attempts).avgPercentage.Some? ==> 0.0 <= StatsOf(attempts).avgPercentage.value <= 100.0
  {
    if attempts != [] {
      SumPercentWithin(attempts);
      QuotientWithin(SumPercent(attempts), |attempts| as real);
    }
  }

  lemma {:induction false} SumPercentWithin(attempts: seq<Attempt>)
    requires forall a :: a in attempts ==> 0.0 <= PercentOf(a) <= 100.0
    ensures 0.0 <= SumPercent(attempts) <= 100.0 * |attempts| as real
    decreases |attempts|
  {
    if attempts != [] {
      var init := attempts[..|attempts| - 1];
      assert attempts[|attempts| - 1] in attempts;
      assert forall a :: a in init ==> a in attempts;
      SumPercentWithin(init);
      assert 100.0 * |attempts| as real == 100.0 * |init| as real + 100.0;
    }
  }

  lemma QuotientWithin(s: real, n: real)
    requires n > 0.0 && 0.0 <= s <= 100.0 * n
    ensures 0.0 <= s / n <= 100.0
  {
    assert s / n * n == s;
  }

  lemma {:induction false} MistakesOfStudentSpec(rows: seq<MistakeRow>, studentId: string)
    ensures forall r :: r in MistakesOfStudent(rows, studentId) <==> r in rows && r.studentId == studentId
    decreases |rows|
  {
    if rows != [] {
      MistakesOfStudentSpec(rows[..|rows| - 1], studentId);
      assert rows == rows[..|rows| - 1] + [rows[|rows| - 1]];
    }
  }

  /** `common_mistakes` holds the first ten of the student's rows, or all of
      them when there are fewer, ordered by frequency and then recency,
      descending, and none of the student's rows left out ranks above one
      kept. */
  lemma CommonMistakesSpec(rows: seq<MistakeRow>, studentId: string)
    ensures var top := CommonMistakes(rows, studentId);
            var mine := MistakesOfStudent(rows, studentId);
            var sorted := Sorting.Sort(mine, MistakeRank());
            |top| == (if |mine| <= 10 then |mine| else 10)
            && top == sorted[..|top|]
            && (forall i, j :: 0 <= i < j < |top| ==>
                  top[i].frequency > top[j].frequency
                  || (top[i].frequency == top[j].frequency && top[i].lastOccurred >= top[j].lastOccurred))
            && (forall r :: r in top ==> r in rows && r.studentId == studentId)
            && multiset(top) + multiset(sorted[|top|..]) == multiset(mine)
            && (forall i, j :: 0 <= i < |top| <= j < |sorted| ==>
                  Sorting.AtLeast(MistakeRank()(top[i]), MistakeRank()(sorted[j])))
  {
    var mine := MistakesOfStudent(rows, studentId);
    Sorting.TopRows(mine, MistakeRank(), 10);
    MistakesOfStudentSpec(rows, studentId);
    var top := CommonMistakes(rows, studentId);
    forall r | r in top ensures r in rows && r.studentId == studentId {
      assert r in multiset(mine);
    }
  }

  /** The join keeps exactly the student's attempts whose quiz exists, each
      with that quiz's title and topic. */
  lemma {:induction false} AttemptsWithQuizSpec(attempts: seq<Attempt>, quizzes: seq<QuizRow>, studentId: string)
    ensures forall r :: r in AttemptsWithQuiz(attempts, quizzes, studentId) ==>
              r.attempt in attempts && r.attempt.studentId == studentId && QuizById(quizzes, r.attempt.quizId).Some?
              && r.quizTitle == QuizById(quizzes, r.attempt.quizId).value.title
              && r.topic == QuizById(quizzes, r.attempt.quizId).value.topic
    ensures forall a :: a in attempts && a.studentId == studentId && QuizById(quizzes, a.quizId).Some? ==>
              RecentAttempt(a, QuizById(quizzes, a.quizId).value.title, QuizById(quizzes, a.quizId).value.topic)
                in AttemptsWithQuiz(attempts, quizzes, studentId)
    decreases |attempts|
  {
    if attempts != [] {
      var init := attempts[..|attempts| - 1];
      AttemptsWithQuizSpec(init, quizzes, studentId);
      assert forall a :: a in init ==> a in attempts;
      forall a | a in attempts && a.studentId == studentId && QuizById(quizzes, a.quizId).Some?
        ensures RecentAttempt(a, QuizById(quizzes, a.quizId).value.title, QuizById(quizzes, a.quizId).value.topic)
                  in AttemptsWithQuiz(attempts, quizzes, studentId)
      {
        if a !in init {
          assert attempts == init + [attempts[|attempts| - 1]];
          assert a == attempts[|attempts| - 1];
        }
      }
    }
  }

  /** `ORDER BY qa.started_at DESC LIMIT 5` over any joined rows: the five
      latest-started rows, or all of them when there are fewer, latest
      first, and none left out started later than one kept. */
  lemma LatestFirst(mine: seq<RecentAttempt>)
    ensures var sorted := Sorting.Sort(mine, StartRank());
            var top := Sorting.Limit(sorted, 5);
            |top| == (if |mine| <= 5 then |mine| else 5)
            && top == sorted[..|top|]
            && (forall i, j :: 0 <= i < j < |top| ==> top[i].attempt.startedAt >= top[j].attempt.startedAt)
            && (forall r :: r in top ==> r in mine)
            && multiset(top) + multiset(sorted[|top|..]) == multiset(mine)
            && (forall i, j :: 0 <= i < |top| <= j < |sorted| ==>
                  top[i].attempt.startedAt >= sorted[j].attempt.startedAt)
  {
    var sorted := Sorting.Sort(mine, StartRank());
    Sorting.TopRows(mine, StartRank(), 5);
    var top := Sorting.Limit(sorted, 5);
    forall i, j | 0 <= i < |top| <= j < |sorted|
      ensures top[i].attempt.startedAt >= sorted[j].attempt.startedAt
    {
      assert Sorting.AtLeast(StartRank()(top[i]), StartRank()(sorted[j]));
    }
    forall i, j | 0 <= i < j < |top| ensures top[i].attempt.startedAt >= top[j].attempt.startedAt {
      assert Sorting.AtLeast(StartRank()(top[i]), StartRank()(top[j]));
    }
    forall r | r in top ensures r in mine {
      assert r in multiset(mine);
    }
  }

  /** `recent_attempts` holds the five latest-started of the student's
      attempts on an existing quiz, completed or not, or all of them when
      there are fewer, latest start first; none left out started later than
      one kept. */
  lemma RecentAttemptsSpec(attempts: seq<Attempt>, quizzes: seq<QuizRow>, studentId: string)
    ensures var top := RecentAttempts(attempts, quizzes, studentId);
            var mine := AttemptsWithQuiz(attempts, quizzes, studentId);
            var sorted := Sorting.Sort(mine, StartRank());
            |top| == (if |mine| <= 5 then |mine| else 5)
            && top == sorted[..|top|]
            && (forall i, j :: 0 <= i < j < |top| ==> top[i].attempt.startedAt >= top[j].attempt.startedAt)
            && (forall r :: r in top ==> r.attempt in attempts && r.attempt.studentId == studentId
                                         && QuizById(quizzes, r.attempt.quizId).Some?)
            && multiset(top) + multiset(sorted[|top|..]) == multiset(mine)
            && (forall i, j :: 0 <= i < |top| <= j < |sorted| ==>
                  top[i].attempt.startedAt >= sorted[j].attempt.startedAt)
  {
    var mine := AttemptsWithQuiz(attempts, quizzes, studentId);
    LatestFirst(mine);
    AttemptsWithQuizSpec(attempts, quizzes, studentId);
  }

  // ------------------------------------------------------------ the store

  /** The five tables of the backend's database file. */
  class Store {
    var users: seq<User>
    var quizzes: seq<QuizRow>
    var attempts: seq<Attempt>
    var responses: seq<ResponseRow>
    var mistakes: seq<MistakeRow>

    ghost predicate Valid()
      reads this
    {
      UsersOk(users) && QuizzesOk(quizzes) && AttemptsOk(attempts) && ResponsesOk(responses)
      && MistakesOk(mistakes, CheckedMistakeTypes)
    }

    /** `init_db` on a new file: every table empty. */
    constructor ()
      ensures Valid()
      ensures users == [] && quizzes == [] && attempts == [] && responses == [] && mistakes == []
    {
      users, quizzes, attempts, responses, mistakes := [], [], [], [], [];
    }

    /** `create_user`: True and one row more, or False and nothing changed. */
    method CreateUser(id: string, name: string, email: string, role: string, now: nat) returns (created: bool)
      requires Valid()
      modifies this
      ensures Valid()
      ensures created <==> AddUser(old(users), User(id, name, email, role, now)).Some?
      ensures users == (if created then old(users) + [User(id, name, email, role, now)] else old(users))
      ensures quizzes == old(quizzes) && attempts == old(attempts)
      ensures responses == old(responses) && mistakes == old(mistakes)
    {
      var u := User(id, name, email, role, now);
      AddUserSpec(users, u);
      match AddUser(users, u)
      case Some(users') =>
        users := users';
        created := true;
      case None =>
        created := false;
    }

    /** `insert_quiz`: the new id, or the constraint error and nothing changed. */
    method InsertQuiz(quiz: QuizData, createdBy: string, now: nat) returns (r: Outcome<nat>)
      requires Valid()
      modifies this
      ensures Valid()
      ensures r.Ok? <==> AddQuiz(old(quizzes), quiz, createdBy, now).Ok?
      ensures r.Ok? ==> r.value == |old(quizzes)| + 1 && quizzes == AddQuiz(old(quizzes), quiz, createdBy, now).value
      ensures r.IntegrityError? ==> quizzes == old(quizzes)
      ensures users == old(users) && attempts == old(attempts)
      ensures responses == old(responses) && mistakes == old(mistakes)
    {
      match AddQuiz(quizzes, quiz, createdBy, now)
      case Ok(quizzes') =>
        r := Ok(|quizzes| + 1);
        quizzes := quizzes';
      case IntegrityError(c) =>
        r := IntegrityError(c);
    }

    /** `get_quiz_by_id`: reads, changes nothing. */
    function GetQuiz(id: int, includeAnswers: bool): Option<QuizData>
      reads this
    {
      GetQuizById(quizzes, id, includeAnswers)
    }

    /** `publish_quiz` */
    method PublishQuiz(id: int, now: nat)
      requires Valid()
      modifies this
      ensures Valid()
      ensures quizzes == Published(old(quizzes), id, now)
      ensures users == old(users) && attempts == old(attempts)
      ensures responses == old(responses) && mistakes == old(mistakes)
    {
      PublishSpec(quizzes, id, now);
      quizzes := Published(quizzes, id, now);
    }

    /** `start_quiz_attempt`: one fresh row at the end, its id returned. */
    method StartQuizAttempt(studentId: string, quizId: int, now: nat) returns (id: nat)
      requires Valid()
      modifies this
      ensures Valid()
      ensures id == |old(attempts)| + 1
      ensures attempts == old(attempts) + [FreshAttempt(id, studentId, quizId, now)]
      ensures users == old(users) && quizzes == old(quizzes)
      ensures responses == old(responses) && mistakes == old(mistakes)
    {
      id := |attempts| + 1;
      attempts := attempts + [FreshAttempt(id, studentId, quizId, now)];
    }

    /** `submit_quiz_attempt`: complete the attempt, then insert the
        responses one by one; a response without a question id aborts the
        transaction and nothing changes. */
    method SubmitQuizAttempt(attemptId: int, results: seq<DetailedResult>, score: real, maxScore: real,
                             timeTaken: int, now: nat) returns (r: Outcome<()>)
      requires Valid()
      modifies this
      ensures Valid()
      ensures r.Ok? <==> !HasNullQuestionId(results)
      ensures r.Ok? ==> attempts == Submitted(old(attempts), attemptId, score, maxScore, timeTaken, now)
                        && responses == old(responses) + ResponseRows(|old(responses)| + 1, attemptId, results)
      ensures r.IntegrityError? ==> attempts == old(attempts) && responses == old(responses)
      ensures users == old(users) && quizzes == old(quizzes) && mistakes == old(mistakes)
    {
      var attempts' := Submitted(attempts, attemptId, score, maxScore, timeTaken, now);
      var rows: seq<ResponseRow> := [];
      var next := |responses| + 1;
      for i := 0 to |results|
        invariant rows == ResponseRows(next, attemptId, results[..i])
        invariant forall k :: 0 <= k < i ==> results[k].questionId != Null
      {
        if results[i].questionId == Null {
          return IntegrityError("NOT NULL constraint failed: question_responses.question_id");
        }
        rows := rows + [ResponseRowOf(next + i, attemptId, results[i])];
      }
      assert results[..|results|] == results;
      SubmitSpec(attempts, attemptId, score, maxScore, timeTaken, now);
      ResponseRowsSpec(responses, attemptId, results);
      attempts := attempts';
      responses := responses + rows;
      r := Ok(());
    }

    /** `log_student_mistakes`: the upsert loop over the batch, on a working
        copy of the table that becomes the table only at the commit. */
    method LogStudentMistakes(studentId: string, batch: seq<MistakeEntry>, now: nat) returns (r: Outcome<()>)
      requires Valid()
      modifies this
      ensures Valid()
      ensures r.Ok? <==> LogBatch(old(mistakes), studentId, batch, now, CheckedMistakeTypes).Ok?
      ensures r.Ok? ==> mistakes == LogBatch(old(mistakes), studentId, batch, now, CheckedMistakeTypes).value
      ensures r.IntegrityError? ==> mistakes == old(mistakes)
      ensures users == old(users) && quizzes == old(quizzes)
      ensures attempts == old(attempts) && responses == old(responses)
    {
      var rows := mistakes;
      for i := 0 to |batch|
        invariant LogBatch(mistakes, studentId, batch[..i], now, CheckedMistakeTypes) == Ok(rows)
        invariant MistakesOk(rows, CheckedMistakeTypes)
        invariant unchanged(this)
      {
        var e := batch[i];
        ghost var before := rows;
        assert batch[..i + 1][..i] == batch[..i];
        var j := 0;
        while j < |rows| && !Matches(rows[j], studentId, e.topic, e.concept)
          invariant 0 <= j <= |rows|
          invariant forall k :: 0 <= k < j ==> !Matches(rows[k], studentId, e.topic, e.concept)
        {
          j := j + 1;
        }
        FindFirst(rows, studentId, e.topic, e.concept, j);
        if j < |rows| {
          rows := rows[j := rows[j].(frequency := rows[j].frequency + 1, lastOccurred := now)];
        } else if e.topic == Null {
          LogBatchFails(mistakes, studentId, batch, now, CheckedMistakeTypes);
          assert Rejected(mistakes, studentId, batch, i, CheckedMistakeTypes);
          return IntegrityError("NOT NULL constraint failed: student_mistakes.topic");
        } else if e.mistakeType !in CheckedMistakeTypes {
          LogBatchKeys(mistakes, studentId, batch[..i], now, CheckedMistakeTypes, e.topic, e.concept);
          LogBatchFails(mistakes, studentId, batch, now, CheckedMistakeTypes);
          assert Rejected(mistakes, studentId, batch, i, CheckedMistakeTypes);
          return IntegrityError("CHECK constraint failed: mistake_type");
        } else {
          rows := rows + [MistakeRow(|rows| + 1, studentId, e.topic, e.concept, e.mistakeType, 1, now)];
        }
        assert LogOne(before, studentId, e, now, CheckedMistakeTypes) == Ok(rows);
        LogOneOk(before, studentId, e, now, CheckedMistakeTypes);
      }
      assert batch[..|batch|] == batch;
      mistakes := rows;
      r := Ok(());
    }

    /** `get_student_analytics`, less the per-topic list (see `TopicStats`). */
    function StudentAnalytics(studentId: string): Analytics
      reads this
    {
      Analytics(studentId, StatsOf(CompletedBy(attempts, studentId)),
                CommonMistakes(mistakes, studentId), RecentAttempts(attempts, quizzes, studentId))
    }

    /** One row of `topic_performance`. */
    function TopicStats(studentId: string, topic: Value): Stats
      reads this
    {
      StatsOf(CompletedOnTopic(attempts, quizzes, studentId, topic))
    }
  }

  /** The SELECT's answer is the first matching row, found by the scan. */
  lemma FindFirst(rows: seq<MistakeRow>, studentId: string, topic: Value, concept: string, j: nat)
    requires j <= |rows|
    requires forall k :: 0 <= k < j ==> !Matches(rows[k], studentId, topic, concept)
    requires j < |rows| ==> Matches(rows[j], studentId, topic, concept)
    ensures FindMistake(rows, studentId, topic, concept) == if j < |rows| then Some(j) else None
  {
    var r := FindMistake(rows, studentId, topic, concept);
    if r.Some? && r.value != j {
      FindIsFirst(rows, studentId, topic, concept);
    }
  }

  lemma {:induction false} FindIsFirst(rows: seq<MistakeRow>, studentId: string, topic: Value, concept: string)
    ensures FindMistake(rows, studentId, topic, concept).Some? ==>
              forall k :: 0 <= k < FindMistake(rows, studentId, topic, concept).value ==> !Matches(rows[k], studentId, topic, concept)
    decreases |rows|
  {
    if rows != [] && !Matches(rows[0], studentId, topic, concept) {
      FindIsFirst(rows[1..], studentId, topic, concept);
    }
  }
}
