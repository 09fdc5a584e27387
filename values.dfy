/** The loosely typed data the backend passes around: JSON-decoded quiz
    dictionaries, their questions, and Python's None as `Option`. */
module Values {

  datatype Option<+T> = None | Some(value: T)

  /** A JSON value as it appears in a quiz or question dictionary.  `Stamp`
      is a database timestamp (an opaque, ordered value) that a row read
      back from SQLite contributes. */
  datatype Value =
    | Null
    | Str(s: string)
    | Num(n: int)
    | Flag(b: bool)
    | Strs(items: seq<string>)
    | Stamp(t: nat)

  /** A question is a dictionary: "id", "question", "options",
      "correct_answer", "explanation", "type", ... */
  type Question = map<string, Value>

  /** A quiz dictionary.  Its "questions" entry is kept apart from the other
      keys; a dictionary without "questions" is the one with `questions == []`
      (every reader in the backend uses `.get("questions", [])`). */
  datatype QuizData = QuizData(fields: map<string, Value>, questions: seq<Question>)

  /** `d.get(key, default)` */
  function Get(d: map<string, Value>, key: string, default: Value): (v: Value)
    ensures key in d ==> v == d[key]
    ensures key !in d ==> v == default
  {
    if key in d then d[key] else default
  }

  /** `d.get(key, default)` read as text: a string value is its text and any
      other value, like a missing key, reads as `default`. */
  function GetText(d: map<string, Value>, key: string, default: string): (s: string)
    ensures key in d && d[key].Str? ==> s == d[key].s
    ensures !(key in d && d[key].Str?) ==> s == default
  {
    if key in d && d[key].Str? then d[key].s else default
  }

  /** `question.get("id")`: None when the key is missing. */
  function IdOf(q: Question): Value
  {
    Get(q, "id", Null)
  }
}
