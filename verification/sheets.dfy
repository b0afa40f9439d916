/**
 * The sheet-building helpers of the processing client: counting answerable
 * questions, summing points, finishing an extracted answer sheet, and the
 * empty solution-sheet template.
 */
module Sheets {
  import opened Wrappers
  import opened JsonValues
  import opened Exam
  import opened Forest
  import opened Summary

  /** A question `_count_answerable_questions` counts: no `subquestions` key, and an `answer_field`. */
  predicate Answerable(q: Question) {
    q.subs.Absent? && q.answer.Some?
  }

  /** `_count_answerable_questions(questions)`: the answerable questions at any depth. */
  function CountAnswerable(qs: seq<Question>): (r: nat)
    ensures r == CountIn(Flatten(qs))
    decreases Size(qs)
  {
    if qs == [] then 0
    else
      HeadSmaller(qs);
      var kids := CountAnswerable(Kids(qs[0]));
      var rest := CountAnswerable(qs[1..]);
      FlattenCons(qs);
      CountInAppend([qs[0]] + Flatten(Kids(qs[0])), Flatten(qs[1..]));
      CountInAppend([qs[0]], Flatten(Kids(qs[0])));
      assert CountIn([qs[0]]) == (if Answerable(qs[0]) then 1 else 0) by {
        assert [qs[0]][1..] == [];
      }
      (match qs[0].subs
       case Present(_) => kids
       case Absent => if qs[0].answer.Some? then 1 else 0)
      + rest
  }

  /** The number of answerable questions in a walk. */
  function CountIn(walk: seq<Question>): nat {
    if walk == [] then 0 else (if Answerable(walk[0]) then 1 else 0) + CountIn(walk[1..])
  }

  lemma {:induction false} CountInAppend(a: seq<Question>, b: seq<Question>)
    ensures CountIn(a + b) == CountIn(a) + CountIn(b)
  {
    if a == [] {
      assert a + b == b;
    } else {
      assert (a + b)[1..] == a[1..] + b;
      CountInAppend(a[1..], b);
    }
  }

  /** `_sum_points(questions)`: the points of the questions at any depth without a `subquestions` key. */
  function SumPoints(py: Python, qs: seq<Question>): (r: real)
    ensures r == SumIn(py, Flatten(qs))
    decreases Size(qs)
  {
    if qs == [] then 0.0
    else
      HeadSmaller(qs);
      var kids := SumPoints(py, Kids(qs[0]));
      var rest := SumPoints(py, qs[1..]);
      FlattenCons(qs);
      SumInAppend(py, [qs[0]] + Flatten(Kids(qs[0])), Flatten(qs[1..]));
      SumInAppend(py, [qs[0]], Flatten(Kids(qs[0])));
      assert [qs[0]][1..] == [];
      (match qs[0].subs
       case Present(_) => kids
       case Absent => PointsValue(py, qs[0].points))
      + rest
  }

  /** The points of the questions of a walk that have no `subquestions` key. */
  function SumIn(py: Python, walk: seq<Question>): real {
    if walk == [] then 0.0
    else (if walk[0].subs.Absent? then PointsValue(py, walk[0].points) else 0.0) + SumIn(py, walk[1..])
  }

  lemma {:induction false} SumInAppend(py: Python, a: seq<Question>, b: seq<Question>)
    ensures SumIn(py, a + b) == SumIn(py, a) + SumIn(py, b)
  {
    if a == [] {
      assert a + b == b;
    } else {
      assert (a + b)[1..] == a[1..] + b;
      SumInAppend(py, a[1..], b);
    }
  }

  /** No question in the walk holds an empty `subquestions` list. */
  predicate NoEmptySubLists(walk: seq<Question>) {
    forall i :: 0 <= i < |walk| ==> walk[i].subs != Present([])
  }

  /**
   * Where no question has an empty sub-question list, the two notions of
   * leaf coincide and `_sum_points` agrees with the summary's
   * `total_max_points`. (A question with `"subquestions": []` counts as a
   * leaf for the summary but contributes nothing to `_sum_points`.)
   */
  lemma {:induction false} SumPointsIsSummaryTotal(py: Python, walk: seq<Question>)
    requires NoEmptySubLists(walk)
    ensures SumIn(py, walk) == LeafTotal(py, Views(walk))
  {
    if walk != [] {
      assert NoEmptySubLists(walk[1..]) by {
        assert forall i :: 0 <= i < |walk[1..]| ==> walk[1..][i] == walk[i + 1];
      }
      SumPointsIsSummaryTotal(py, walk[1..]);
      assert Views(walk)[1..] == Views(walk[1..]);
      assert IsLeaf(walk[0]) <==> walk[0].subs.Absent?;
    }
  }

  // ----- generate_answer_sheet post-processing -----

  /** `question.setdefault("answer_field", "")` for a top-level question without `subquestions`. */
  function FillTop(q: Question): (r: Question)
    ensures r.(answer := q.answer) == q
    ensures q.subs.Absent? ==> r.answer.Some?
    ensures q.subs.Absent? && q.answer.None? ==> r.answer == Some(JStr(""))
    ensures q.answer.Some? || q.subs.Present? ==> r == q
  {
    if q.subs.Absent? && q.answer.None? then q.(answer := Some(JStr(""))) else q
  }

  function FillAll(qs: seq<Question>): (r: seq<Question>)
    ensures |r| == |qs| && forall i :: 0 <= i < |qs| ==> r[i] == FillTop(qs[i])
  {
    if qs == [] then [] else [FillTop(qs[0])] + FillAll(qs[1..])
  }

  /** Top-level questions without `subquestions` that lack an `answer_field`. */
  function MissingTop(qs: seq<Question>): nat {
    if qs == [] then 0 else (if qs[0].subs.Absent? && qs[0].answer.None? then 1 else 0) + MissingTop(qs[1..])
  }

  /** The extractor's metadata: profession, year and the answerable count. */
  function AnswerMetadata(profession: string, year: string, total: nat): map<string, Json> {
    map["profession" := JStr(profession), "year" := JStr(year), "total_questions" := JInt(total)]
  }

  /**
   * The end of `generate_answer_sheet`: `collected` is the reply's
   * `questions` (`None` when missing or not a list, which the source
   * replaces by `[]`).
   */
  function FinishAnswerSheet(profession: string, year: string, collected: Option<seq<Question>>): (r: Sheet)
    ensures r.questions.Some? && |QuestionsOf(r)| == |collected.GetOr([])|
    ensures forall i :: 0 <= i < |QuestionsOf(r)| ==>
              && QuestionsOf(r)[i].(answer := collected.value[i].answer) == collected.value[i]
              && (QuestionsOf(r)[i].subs.Absent? ==> QuestionsOf(r)[i].answer.Some?)
              && (collected.value[i].answer.Some? || collected.value[i].subs.Present? ==>
                    QuestionsOf(r)[i] == collected.value[i])
              && (collected.value[i].subs.Absent? && collected.value[i].answer.None? ==>
                    QuestionsOf(r)[i].answer == Some(JStr("")))
    ensures r.metadata == Some(AnswerMetadata(profession, year, CountAnswerable(QuestionsOf(r))))
  {
    var qs := FillAll(collected.GetOr([]));
    Sheet(Some(AnswerMetadata(profession, year, CountAnswerable(qs))), Some(qs), None, None, map[])
  }

  /** Filling top-level answer slots adds exactly the filled questions to the count. */
  lemma {:induction false} FillAddsMissing(qs: seq<Question>)
    ensures CountAnswerable(FillAll(qs)) == CountAnswerable(qs) + MissingTop(qs)
  {
    if qs != [] {
      FillAddsMissing(qs[1..]);
      assert FillAll(qs)[1..] == FillAll(qs[1..]);
      HeadSmaller(qs);
      HeadSmaller(FillAll(qs));
    }
  }

  /** `generate_answer_sheet` with no exam PDFs. */
  function NoPdfAnswerSheet(profession: string, year: string): (r: Sheet)
    ensures QuestionsOf(r) == [] && r.questions.Some?
    ensures r.metadata.Some? && "total_questions" in r.metadata.value && r.metadata.value["total_questions"] == JInt(0)
  {
    Sheet(Some(AnswerMetadata(profession, year, 0)), Some([]), None, None, map[])
  }

  /** The no-PDF sheet is what finishing an empty extraction gives. */
  lemma NoPdfIsEmptyExtraction(profession: string, year: string)
    ensures NoPdfAnswerSheet(profession, year) == FinishAnswerSheet(profession, year, Some([]))
  {
  }

  // ----- _create_empty_solution_sheet -----

  /** The `setdefault` calls of `copy_question_structure`. */
  function SolutionDefaults(q: Question): Question {
    q.(solution := if q.solution.Some? then q.solution else Some(JStr("")),
       criteria := if q.criteria.Some? then q.criteria else Some(JStr("")))
  }

  /** `base_metadata`: the answer sheet's metadata when non-empty, otherwise profession and year. */
  function TemplateMetadata(answerSheet: Sheet, profession: string, year: string): (m: map<string, Json>)
    ensures answerSheet.metadata.Some? && |answerSheet.metadata.value| > 0 ==> m == answerSheet.metadata.value
    ensures answerSheet.metadata.None? || |answerSheet.metadata.value| == 0 ==>
              m == map["profession" := JStr(profession), "year" := JStr(year)]
  {
    var base := answerSheet.metadata.GetOr(map[]);
    if |base| > 0 then base else map["profession" := JStr(profession), "year" := JStr(year)]
  }

  /** `_create_empty_solution_sheet(answer_sheet, profession, year)`. */
  function EmptySolutionSheet(answerSheet: Sheet, profession: string, year: string): (r: Sheet)
    ensures r.metadata == Some(TemplateMetadata(answerSheet, profession, year))
    ensures QuestionsOf(r) == MapTree(SolutionDefaults, QuestionsOf(answerSheet))
    ensures r.gradingMetadata.None? && r.summary.None? && r.rest == map[]
  {
    Sheet(Some(TemplateMetadata(answerSheet, profession, year)),
          Some(MapTree(SolutionDefaults, QuestionsOf(answerSheet))), None, None, map[])
  }

  /**
   * The template keeps every question at every depth, in order, with the
   * same nesting; it only adds `solution_field` and `grading_criteria` as
   * `""` where a question lacks them.
   */
  lemma TemplateShape(answerSheet: Sheet, profession: string, year: string)
    ensures |Flatten(QuestionsOf(EmptySolutionSheet(answerSheet, profession, year)))| == |Flatten(QuestionsOf(answerSheet))|
    ensures forall k :: 0 <= k < |Flatten(QuestionsOf(answerSheet))| ==>
              var a := Flatten(QuestionsOf(answerSheet))[k];
              var b := Flatten(QuestionsOf(EmptySolutionSheet(answerSheet, profession, year)))[k];
              && Shallow(b).(solution := a.solution, criteria := a.criteria) == Shallow(a)
              && b.subs.Present? == a.subs.Present? && |Kids(b)| == |Kids(a)|
              && b.solution == (if a.solution.Some? then a.solution else Some(JStr("")))
              && b.criteria == (if a.criteria.Some? then a.criteria else Some(JStr("")))
  {
    MapTreeFlatten(SolutionDefaults, QuestionsOf(answerSheet));
  }

  /** The template has as many answerable questions as the answer sheet it was made from. */
  lemma TemplateKeepsCount(answerSheet: Sheet, profession: string, year: string)
    ensures CountAnswerable(QuestionsOf(EmptySolutionSheet(answerSheet, profession, year))) == CountAnswerable(QuestionsOf(answerSheet))
  {
    var a := Flatten(QuestionsOf(answerSheet));
    var b := Flatten(QuestionsOf(EmptySolutionSheet(answerSheet, profession, year)));
    TemplateShape(answerSheet, profession, year);
    SameCount(a, b);
  }

  lemma {:induction false} SameCount(a: seq<Question>, b: seq<Question>)
    requires |a| == |b|
    requires forall k :: 0 <= k < |a| ==> Answerable(a[k]) == Answerable(b[k])
    ensures CountIn(a) == CountIn(b)
  {
    if a != [] {
      SameCount(a[1..], b[1..]);
    }
  }
}
