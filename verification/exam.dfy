/**
 * The exam tree: answer sheets, solution sheets, model answers and graded
 * answers all share one shape, a list of questions in which a question may
 * hold nested sub-questions. Every optional key of the JSON object is an
 * `Option` (or `Subs` for `subquestions`), so "key present" and "key absent"
 * stay distinct as they are in the Python dictionaries.
 */
module Exam {
  import opened Wrappers
  import opened JsonValues

  /** One grading event, as `_collect_judgments` builds it. */
  datatype Judgment = Judgment(
    judgeName: string,
    runId: int,
    awarded: Option<Json>,
    feedback: Option<Json>)

  /** The `subquestions` key: absent, or present with a (possibly empty) list. */
  datatype Subs = Absent | Present(items: seq<Question>)

  /**
   * One question object. `rest` holds every key the pipeline never reads or
   * writes; it travels with the node untouched.
   */
  datatype Question = Question(
    id: Option<string>,
    text: Option<Json>,
    answer: Option<Json>,
    subs: Subs,
    points: Option<Json>,
    solution: Option<Json>,
    criteria: Option<Json>,
    judgments: Option<seq<Judgment>>,
    awarded: Option<Json>,
    feedback: Option<Json>,
    chunks: Option<Json>,
    rest: map<string, Json>)

  /** The composite key `f"{judge_name}|{run_id}"`; a decimal run id holds no `|`, so the pair determines the key. */
  datatype RunKey = RunKey(judge: string, run: int)

  /** One `judge_runs` entry. */
  datatype RunScore = RunScore(awardedPoints: real, percentage: real)

  /** The `aggregation` object of a grading summary. */
  datatype Aggregation = Aggregation(
    averagePoints: real,
    averagePercentage: real,
    stdDevPoints: real,
    stdDevPercentage: real)

  /** `grading_summary`: `judge_runs` keeps its insertion order, so it is a list of pairs. */
  datatype GradingSummary = GradingSummary(
    totalPoints: real,
    judgeRuns: seq<(RunKey, RunScore)>,
    aggregation: Aggregation)

  /** A whole sheet; `rest` holds the top-level keys nothing here reads. */
  datatype Sheet = Sheet(
    metadata: Option<map<string, Json>>,
    questions: Option<seq<Question>>,
    gradingMetadata: Option<map<string, Json>>,
    summary: Option<GradingSummary>,
    rest: map<string, Json>)

  /** The children of a question, empty when the key is absent. */
  function Kids(q: Question): seq<Question> {
    match q.subs
    case Absent => []
    case Present(items) => items
  }

  /** The summary's notion of a leaf: no `subquestions` key, or an empty list. */
  predicate IsLeaf(q: Question) {
    Kids(q) == []
  }

  /** A sheet's questions, `[]` when the key is absent (`sheet.get("questions", [])`). */
  function QuestionsOf(s: Sheet): seq<Question> {
    s.questions.GetOr([])
  }

  /** The empty dictionary, the only falsy sheet. */
  const EmptySheet: Sheet := Sheet(None, None, None, None, map[])

  /** A question with nothing but an id and an answer slot, the shape of an answer-sheet leaf. */
  function Leaf(id: string, answer: string): Question {
    Question(Some(id), None, Some(JStr(answer)), Absent, None, None, None, None, None, None, None, map[])
  }
}
