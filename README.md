# ConceptCatch backend core in Dafny

This project models the deterministic core of the ConceptCatch backend, a quiz and study platform for students and teachers.

**Grading a submission** (`Backend/src/quiz_generation.py`):
- An evaluator is folded over the quiz's questions. The evaluator is an LLM-backed judge and is passed in as a function.
- The fold adds up earned and maximum points and guards the percentage against a zero denominator.
- Each result is labelled correct or incorrect.
- Each incorrect answer gets a concept label, a mistake type and a topic.
- The percentage maps to a performance level.
- The teacher's question editor merges edits into the questions by id.

**The SQLite store** (`Backend/src/database.py`):
- Every table is a sequence of rows, in rowid order.
- The class `Database.Store` holds the tables as fields. Each write operation is a method that changes them.
- The CHECK, UNIQUE, PRIMARY KEY and NOT NULL constraints are the error paths. A failed write commits nothing.
- User registration, quiz insertion and publishing, and read-back with answers stripped for students are modelled.
- So is the attempt lifecycle: start an attempt, then submit it.
- `log_student_mistakes` is an upsert counter keyed on student, topic and concept.
- The analytics queries are modelled as filters, groupings and ORDER BY ... LIMIT, by a stable sort.

**Text processing:**
- The word chunkers of `utils/helpers.py` and `quiz_generation.py`.
- The character chunker of `document_summarization.py`, which stretches a chunk up to the next sentence boundary.
- The map-reduce branches of `summarize_text`. The language model is a function from prompt and token budget to text, and every call is recorded.
- The two parsers that turn a model response into key concepts and learning objectives.

Modules, one file each:
- `Values` holds JSON values, questions and quiz dictionaries.
- `PyText` holds the Python string and list built-ins the code relies on: `strip`, `split`, `join`, `lower`, `in`, slicing and filtering comprehensions.
- `Sorting` holds ORDER BY ... LIMIT.
- `Helpers`, `QuizGeneration`, `Database` and `DocumentSummarization` model the four source files.

Loops in the source are methods with `while` or `for` loops. Each method is proved equal to a specification function, and lemmas prove what the source promises about that function.

## Model

| member | source | states |
|---|---|---|
| QuizGeneration.EvaluateQuizSubmission | Backend/src/quiz_generation.py:112-179 | the loop returns one detailed result per question and one mistake per incorrect question. Score and max score are the sums of earned and maximum points; the percentage is score/max*100 when max > 0 and 0 otherwise. It also returns the count of correct results, the number of questions, the time taken and the level of the percentage |
| QuizGeneration.ResultsPerQuestion | Backend/src/quiz_generation.py:126-153 | exactly one result per question, in question order. Each carries the question's id and the stripped response; a missing response is evaluated and recorded as "" |
| QuizGeneration.CorrectAndIncorrectPartition | Backend/src/quiz_generation.py:155-174 | correct results plus incorrect responses equal the number of questions |
| QuizGeneration.MistakeCount | Backend/src/quiz_generation.py:155-174 | the number of incorrect responses is the number of questions minus the correct count |
| QuizGeneration.MistakesAreTheIncorrectQuestions | Backend/src/quiz_generation.py:155-164 | the k-th mistake belongs to the k-th question the evaluator judged incorrect, in question order, and is built from that question and its answer |
| QuizGeneration.MistakeTopics | Backend/src/quiz_generation.py:159 | every mistake carries the quiz's topic, or "General" when the quiz has none |
| QuizGeneration.ScoreBounds | Backend/src/quiz_generation.py:121-167 | with an evaluator that never awards more than a question is worth, 0 <= score <= max score and 0 <= percentage <= 100. A max score of 0 gives percentage 0, and so does an empty quiz |
| QuizGeneration.PercentageBounds | Backend/src/quiz_generation.py:167 | the percentage lies in [0, 100], and it is 100 exactly when max > 0 and score == max |
| QuizGeneration.PerformanceBands | Backend/src/quiz_generation.py:319-330 | each level holds exactly on its band: >= 90 Excellent, [80, 90) Good, [70, 80) Satisfactory, [60, 70) Needs Improvement, < 60 Poor |
| QuizGeneration.PerformanceMonotone | Backend/src/quiz_generation.py:319-330 | a higher percentage never gets a lower level |
| QuizGeneration.ConceptIsFirstMatch | Backend/src/quiz_generation.py:277-293 | the concept is the first keyword group, in the fixed order Calculation, Definition, Explanation, Comparison, with a keyword in the lower-cased question text; otherwise it is "General Concept" |
| QuizGeneration.ConceptLabels | Backend/src/quiz_generation.py:284-293 | the concept is always one of the five labels |
| QuizGeneration.ConceptIgnoresCase | Backend/src/quiz_generation.py:281 | two questions whose texts agree after lower-casing get the same concept |
| QuizGeneration.MistakeLabels | Backend/src/quiz_generation.py:296-316 | the mistake type is always no_response, conceptual or incomplete |
| QuizGeneration.ClassifyMistakeCases | Backend/src/quiz_generation.py:301-316 | no_response exactly for a blank answer, whatever the type. incomplete exactly for a non-blank Short Answer or Essay answer of fewer than 3 words. A non-blank MCQ answer is conceptual |
| QuizGeneration.IdOrderKeys | Backend/src/quiz_generation.py:188 | the dict comprehension keys each id once, in first-appearance order, and maps each id to the last question with that id |
| QuizGeneration.UpdateQuizQuestions | Backend/src/quiz_generation.py:182-201 | the edit loop yields the merged question list; `updated_at` is stamped and `num_questions` is the new list length, all other quiz keys kept |
| QuizGeneration.MergedStep | Backend/src/quiz_generation.py:191-194 | one more edit is applied exactly to the question with its id, as a dict update |
| QuizGeneration.UnmatchedEditIgnored | Backend/src/quiz_generation.py:193 | an edit whose id no question has changes nothing |
| QuizGeneration.UniqueIds | Backend/src/quiz_generation.py:188 | with unique ids the dict keeps every question, in order |
| QuizGeneration.UniqueIdsKeepOrder | Backend/src/quiz_generation.py:188-197 | with unique ids the result has the same count and order, the i-th question merged with its edits |
| QuizGeneration.MergedKeepsOtherKeys | Backend/src/quiz_generation.py:194 | a key no matching edit mentions keeps its presence and value |
| QuizGeneration.MergedTakesLastEdit | Backend/src/quiz_generation.py:191-194 | a key takes its value from the last matching edit that has it |
| QuizGeneration.ChunkText | Backend/src/quiz_generation.py:334-349 | the loop, with its extra break, returns exactly the chunk list `Helpers.WordChunks` of `text.split()`, the same as `Helpers.ChunkText` on the same arguments |
| QuizGeneration.ChunkWordList | Backend/src/quiz_generation.py:337-347 | the windowing loop over the word list returns `Helpers.WordChunks` |
| Helpers.ChunkText | Backend/src/utils/helpers.py:1-13 | returns exactly `WordChunks` of the text's words |
| Helpers.ChunkWordList | Backend/src/utils/helpers.py:6-13 | the while loop appends the windows at 0, step, 2*step, ... (step = max_length - overlap) |
| Helpers.BlankTextNoChunks | Backend/src/utils/helpers.py:5-8 | no chunk exactly when the text is empty or whitespace only |
| Helpers.ChunkAt | Backend/src/utils/helpers.py:8-12 | chunk k is the space-join of words[k*step : k*step + max_length] |
| Helpers.ChunkWords | Backend/src/utils/helpers.py:9-11 | splitting chunk k gives back exactly those consecutive words, at most max_length of them |
| Helpers.ChunkCount | Backend/src/utils/helpers.py:8-12 | for c chunks: c == 0 iff there are no words, and (c-1)*step < n <= c*step, so c = ceil(n/step) |
| Helpers.EveryWordCovered | Backend/src/utils/helpers.py:8-12 | with 0 <= overlap < max_length, word j lies in chunk floor(j/step) |
| Helpers.NoProgressWithoutStep | Backend/src/utils/helpers.py:8-12 | with max_length <= overlap and at least one word, every round of the loop appends a chunk and leaves start below the word count, for any number of rounds, so the loop never ends |
| Helpers.RoundsFinish | Backend/src/utils/helpers.py:8-12 | with overlap < max_length the loop has left within len(words) rounds, and what it appended is exactly the chunk list `StepsFrom` gives |
| Sorting.SortSpec | Backend/src/database.py:401 | ORDER BY gives a permutation of the selected rows, in descending order on the first key and then the second |
| Sorting.TopRows | Backend/src/database.py:401-402 | LIMIT n keeps min(n, count) rows, in order, and every dropped row sorts no higher than any kept row |
| PyText.StripEmptyIffBlank | Backend/src/document_summarization.py:24 | `text.strip()` is empty exactly when the text is whitespace only |
| PyText.WordsEmptyIffBlank | Backend/src/utils/helpers.py:5 | `text.split()` is empty exactly when the text is whitespace only |
| PyText.LStripCharsShape | Backend/src/document_summarization.py:135 | `lstrip(chars)` drops the longest prefix of those characters, and what is left does not start with one |
| Database.AddUserSpec | Backend/src/database.py:111-123 | a registration succeeds exactly when neither the id nor the email is taken and the role is student or teacher; it then appends exactly that user and keeps the constraints |
| Database.NoSecondRegistration | Backend/src/database.py:24-26 | after a user is in, any user with the same id or email is refused |
| Database.StudentViewKeys | Backend/src/database.py:185-190 | a student's question has exactly the keys of the stored one except correct_answer and explanation, with the same values |
| Database.InsertThenGet | Backend/src/database.py:165-192 | a quiz read back after `insert_quiz` gives the teacher the stored questions and keys, with id, created_by and is_published from the row. The student gets the same keys and each question without answer and explanation, in order |
| Database.GetQuizByIdFinds | Backend/src/database.py:169-174 | None exactly for an id no row has; otherwise the quiz reports its own id |
| Database.PublishSpec | Backend/src/database.py:222-232 | only the row with that id changes, its content is kept and it reads back as published; publishing twice is publishing once |
| Database.SubmitSpec | Backend/src/database.py:257-262 | only the attempt with that id changes. It gets score, max score, time, completion time and percentage = score/max*100 when max > 0, else 0; student, quiz and start are kept |
| Database.ResubmitOverwrites | Backend/src/database.py:258-262 | a second submission overwrites the first one's scores |
| Database.ResponseRowsSpec | Backend/src/database.py:265-281 | one response row per result, in order, for that attempt, with fresh ids and the result's answer, correctness and points |
| Database.FindMistake | Backend/src/database.py:340-344 | the SELECT finds a row matching student, topic and concept; None means no row matches |
| Database.FindIsFirst | Backend/src/database.py:344 | `fetchone` returns the first matching row |
| Database.LogOneFreq | Backend/src/database.py:346-358 | one round adds 1 to the total frequency of the entry's key and 0 to any other key |
| Database.LogOneKeys | Backend/src/database.py:346-358 | after one round a key has a row exactly when it had one or is the entry's key |
| Database.LogOneOk | Backend/src/database.py:355-358 | one round keeps `MistakesOk`: the schema's NOT NULL on topic and its mistake_type CHECK, plus the invariants the code maintains (frequency at least 1, one row per (student, topic, concept) key; the schema declares neither, the code keeps them by selecting before it inserts) |
| Database.LogOneRows | Backend/src/database.py:346-358 | one round keeps every row's id, key and type and touches only the matching row. A new row comes only for a key without one: frequency 1, the entry's mistake type, the current time |
| Database.LogBatchFreq | Backend/src/database.py:338-358 | a batch adds to each key's total frequency exactly the number of batch entries with that key |
| Database.LogBatchKeys | Backend/src/database.py:338-358 | after a batch a key has a row exactly when it had one or occurs in the batch |
| Database.LogBatchOk | Backend/src/database.py:338-361 | a committed batch keeps `MistakesOk`: the schema's NOT NULL and CHECK, plus the invariants the code maintains (frequency at least 1, one row per key) |
| Database.LogBatchRows | Backend/src/database.py:338-358 | existing rows keep id, key and type; rows of other students and of keys not in the batch are untouched |
| Database.LogBatchNewRows | Backend/src/database.py:353-358 | a new row belongs to the student and to a batch key that had no row, and carries the mistake type of that key's first batch entry |
| Database.LoggedFrequencies | Backend/src/database.py:338-358 | row by row: an old row of the student grows by the count of its key in the batch, and a new row holds exactly that count |
| Database.LogBatchFails | Backend/src/database.py:355-361 | the batch raises IntegrityError exactly when some entry inserts a row the schema rejects (NULL topic under NOT NULL, mistake type outside the CHECK); nothing is committed then |
| Database.BlankAnswerLosesBatch | Backend/src/database.py:80 | as written: a blank answer is labelled no_response, and logging that mistake under the schema's CHECK raises IntegrityError |
| Database.SubmissionMistakesLogged | Backend/src/database.py:80 | with the CHECK widened to the classifier's labels, the mistakes of any graded submission log without error |
| Database.CompletedBySpec | Backend/src/database.py:370-378 | the overall statistics range over exactly the student's attempts with a completion time |
| Database.CompletedOnTopicSpec | Backend/src/database.py:382-393 | a topic group holds exactly the student's completed attempts whose quiz has that topic |
| Database.BestSpec | Backend/src/database.py:374 | MAX(percentage) is NULL over no rows; otherwise it is at least every row's percentage and equal to one of them |
| Database.AverageWithin | Backend/src/database.py:373 | AVG(percentage) of percentages in [0, 100] lies in [0, 100] |
| Database.MistakesOfStudentSpec | Backend/src/database.py:397-400 | the mistake query selects exactly the student's rows |
| Database.CommonMistakesSpec | Backend/src/database.py:397-404 | exactly min(10, n) of the student's n rows: the first of them ordered by frequency descending, then last_occurred descending. Together with the rows left out they are all the student's rows, and no row left out ranks higher than one kept |
| Database.AttemptsWithQuizSpec | Backend/src/database.py:407-412 | the join keeps exactly the student's attempts whose quiz exists, each with that quiz's title and topic, in both directions |
| Database.LatestFirst | Backend/src/database.py:413-414 | ORDER BY started_at DESC LIMIT 5 keeps min(5, n) rows, latest first, and no row left out started later than one kept |
| Database.RecentAttemptsSpec | Backend/src/database.py:407-416 | exactly min(5, n) of the student's n attempts on an existing quiz, latest start first. Together with those left out they are all such attempts, and none left out started later than one kept |
| Database.Store.constructor | Backend/src/database.py:15-22 | a new database has every table empty and satisfies every constraint |
| Database.Store.CreateUser | Backend/src/database.py:111-125 | returns True and appends the user exactly when the insert is allowed, else returns False with the table unchanged; other tables unchanged |
| Database.Store.InsertQuiz | Backend/src/database.py:139-162 | returns the new row id, the old count plus one, and appends the quiz row, or reports the constraint broken with nothing changed |
| Database.Store.PublishQuiz | Backend/src/database.py:222-232 | the quizzes table becomes `Published` of the old one; other tables unchanged |
| Database.Store.StartQuizAttempt | Backend/src/database.py:236-247 | returns the next id and appends one attempt with no score, percentage or completion time; nothing else changes |
| Database.Store.SubmitQuizAttempt | Backend/src/database.py:250-284 | commits exactly when every result has a question id. Then the attempt is updated by `Submitted` and the response rows are appended; otherwise neither table changes |
| Database.Store.LogStudentMistakes | Backend/src/database.py:333-361 | under the schema's CHECK (conceptual, computational, careless), the loop commits exactly when `LogBatch` does and leaves the table `LogBatch` specifies. On IntegrityError the mistakes table is unchanged; the other tables never change |
| DocumentSummarization.FirstBoundarySpec | Backend/src/document_summarization.py:90-93 | the search returns the first position holding '.', '!', '?' or a newline, or None when there is none in range |
| DocumentSummarization.ChunkEndSpec | Backend/src/document_summarization.py:85-93 | the end lies in [start+max, start+max+100]. It moves past the nominal end exactly when a boundary occurs among the next 100 characters, and then lands just after the first one |
| DocumentSummarization.FindChunkEnd | Backend/src/document_summarization.py:85-93 | the inner for loop with its break computes `ChunkEnd` |
| DocumentSummarization.NextStart | Backend/src/document_summarization.py:99 | the next start end - overlap lies between s + (max - overlap) and s + (max - overlap) + 100, so it always advances |
| DocumentSummarization.ChunkText | Backend/src/document_summarization.py:69-103 | the loop returns exactly the stripped non-empty windows of the starts it visits |
| DocumentSummarization.WindowStripped | Backend/src/document_summarization.py:95 | a window is already stripped |
| DocumentSummarization.WindowSize | Backend/src/document_summarization.py:85-95 | a window holds at most max + 100 characters |
| DocumentSummarization.ChunksAreWindows | Backend/src/document_summarization.py:84-101 | every chunk is non-empty and is the window of a start inside the text |
| DocumentSummarization.ChunksClean | Backend/src/document_summarization.py:95-97 | every chunk is non-empty and stripped |
| DocumentSummarization.BlankTextNoChunks | Backend/src/document_summarization.py:95-97 | empty or blank text gives no chunk |
| DocumentSummarization.FinalInput | Backend/src/document_summarization.py:42-46 | the text for the final summary holds at most max_chunk_size characters |
| DocumentSummarization.SummarizeText | Backend/src/document_summarization.py:12-46 | the summary and the sequence of model calls are exactly those of `Summary` |
| DocumentSummarization.SummarizeChunks | Backend/src/document_summarization.py:35-37 | the loop returns the stripped chunk summaries and the calls made, in chunk order |
| DocumentSummarization.ChunkCallsAt | Backend/src/document_summarization.py:35-36 | one model call per chunk, in order, each on that chunk's prompt |
| DocumentSummarization.BlankTextNotSummarized | Backend/src/document_summarization.py:24-25 | blank text returns "No text content found to summarize." and makes no call |
| DocumentSummarization.ShortTextOneCall | Backend/src/document_summarization.py:28-29 | non-blank text of at most max_chunk_size characters makes exactly one call, on the whole text, and returns its stripped answer |
| DocumentSummarization.LongTextMapReduce | Backend/src/document_summarization.py:32-46 | longer text makes one call per chunk, on that chunk's prompt, with max_tokens // 2. Then one final call on at most max_chunk_size characters, whose stripped answer is the summary |
| DocumentSummarization.ParseConcepts | Backend/src/document_summarization.py:130-139 | the parsing loop returns `Concepts` of the response |
| DocumentSummarization.ExtractKeyConcepts | Backend/src/document_summarization.py:105-139 | one model call with 300 tokens, its response parsed by `Concepts` |
| DocumentSummarization.ConceptsSpec | Backend/src/document_summarization.py:130-139 | every qualifying line is found, and the result holds exactly min(max_concepts, count) concepts, from the first qualifying lines in line order. A qualifying line, stripped, is non-empty and does not start with '-'; its concept has the leading digits, '.', '-' and spaces removed, and is non-empty |
| DocumentSummarization.ParseObjectives | Backend/src/document_summarization.py:165-171 | the parsing loop returns `Objectives` of the response |
| DocumentSummarization.GenerateLearningObjectives | Backend/src/document_summarization.py:141-171 | one model call with 400 tokens, its response parsed by `Objectives` |
| DocumentSummarization.ObjectivesSpec | Backend/src/document_summarization.py:165-171 | every qualifying line is found, and the result holds exactly min(max_objectives, count) of them, the first in line order, each stripped and non-empty and containing "will be able to" after lower-casing or starting with "Students" |

## Left out

- I/O and connections are not modelled: `get_connection`, directory creation, `commit`/`close` as calls, and every `print`. A write that raises before `conn.commit()` is modelled as leaving every table unchanged.
- `CURRENT_TIMESTAMP` and `datetime.utcnow()` are a `now: nat` parameter, and ids are positions plus one. The core deletes no row, so AUTOINCREMENT ids are never reused.
- The language model (`LLMModel.generate_response`) and the quiz evaluator (`quiz_evaluator.evaluate_response`) are function parameters. `llm_loader.py` does not define the evaluator, so the evaluator is not part of this model.
- Floating point is not modelled. Points and percentages are `real`, so there is no rounding and no NaN. The integer `max_tokens // 2` is modelled for the source's divisor 2.
- SQLite type affinity is not modelled. JSON (de)serialisation of `data` is the identity on the stored dictionary.
- FOREIGN KEY clauses are not modelled: SQLite does not enforce them unless asked, and the source never asks.
- Database.CompletedOnTopicSpec: the per-topic query's `ORDER BY avg_percentage DESC` is not modelled; only the grouping and filtering are.
- `get_user`, `get_quizzes_by_teacher`, `update_quiz`, `get_student_attempts`, `get_quiz_attempt_details`, `get_teacher_analytics` and `quiz_shares` are outside the modelled core.
- `app.py`, `document_processing.py`, `feedback_generation.py`, `llm_loader.py`, quiz generation, export and share codes are outside the modelled core. They are routing, file and network I/O, randomness or LLM calls.
- QuizGeneration.UpdateQuizQuestions: the source updates the question dicts and `quiz_data` in place, so the caller's dicts change too. The model returns new values and does not capture that aliasing.
- Helpers.ChunkText, QuizGeneration.ChunkText: required to terminate, that is, no words or `overlap < max_length`. For text with at least one word and `max_length <= overlap` the Python loop runs forever, as `Helpers.NoProgressWithoutStep` shows for the loop's rounds.
- DocumentSummarization.ChunkText: required `overlap < max_chunk_size`, for which the loop ends.
- DocumentSummarization.SummarizeText: required to end normally, that is, the text is blank or short, or `max_chunk_size > 200`. `_chunk_text` is called with its default overlap of 200, so for a long text with `max_chunk_size <= 200` (negative sizes included) `start` never reaches `len(text)`. It may rise for a while: with `max_chunk_size = 200` and a '.' every 50 characters each round moves `start` up by 50 until the nominal end reaches `len(text)`, and then `start` stays put. The Python loop then either runs forever (as in that example, and for other boundary patterns) or raises IndexError at `text[end + i]` once `start` is far enough below 0. For example, 1000 characters without a boundary and `max_chunk_size = 100` raise at `start = -1200`. Neither outcome is modelled.
- DocumentSummarization.ChunkText: `_chunk_text` can emit one more chunk after the window that reached the end of the text. That chunk is the overlap tail, and it is a substring of the previous chunk. The model reproduces it, so no lemma claims that a text within one window gives one chunk.
- Prompts are modelled as fixed text around the argument. Their exact wording matters only as the argument the model function receives.
- QuizGeneration.MistakeTopics: a mistake's topic is the quiz's topic (`quiz_data.get("topic", "General")`), never a per-question topic, because that is what the code records.
- QuizGeneration.EvaluateQuizSubmission: a `question` or `correct_answer` value that is not a string, JSON null included, is read as "" (`Values.GetText`), and the quiz is graded. In the source, a non-string `question` makes `.lower()` raise AttributeError whenever the answer is judged incorrect (Backend/src/quiz_generation.py:281). A null question text that reaches `submit_quiz_attempt` breaks NOT NULL on `question_text` (Backend/src/database.py:65), and `Database.Store.SubmitQuizAttempt` checks only `question_id`. A non-string `correct_answer` is recorded as its own value, not as "". None of these raises or values is modelled.
- QuizGeneration.UpdateQuizQuestions: question ids compare as tagged JSON values, so `1` and `true` are two ids in the model. Python's dict treats them as one key, and that collapse is not modelled.

## Findings

| source | as written | input that shows it | evidently intended | confidence | as-written member | corrected member |
|---|---|---|---|---|---|---|
| Backend/src/database.py:80 | The `student_mistakes.mistake_type` CHECK admits only conceptual, computational and careless. `_classify_mistake_type` (Backend/src/quiz_generation.py:301-313) also emits no_response and incomplete, so the INSERT raises IntegrityError before the commit and the whole batch of mistakes is lost. | a quiz question left unanswered (or a Short Answer/Essay answered in under three words) whose topic and concept have no row yet | the CHECK admits every label the classifier emits | not executed | Database.BlankAnswerLosesBatch | Database.SubmissionMistakesLogged |

`Database.Store` keeps the constraint as the schema writes it (`CheckedMistakeTypes`), so `Database.Store.LogStudentMistakes` raises IntegrityError for such a batch. `Database.SubmissionMistakesLogged` proves the intended behaviour under the widened CHECK (`MistakeTypes`). `Database.LogBatchFails` characterises the failures under any CHECK set.
