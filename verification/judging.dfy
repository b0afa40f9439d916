/**
 * The judgment lifecycle of a graded tree: reset every question, append
 * one judgment per graded question for each (judge, run), average the
 * judgments, and copy each question's maximum points from the solution
 * sheet. Each step is one in-place pass over the whole tree, a `MapTree`.
 */
module Judging {
  import opened Wrappers
  import opened JsonValues
  import opened Exam
  import opened Forest
  import opened Index
  import opened Stats

  /** Applies a pass to the sheet's questions, if it has the key (`if "questions" in sheet`). */
  function OnQuestions(s: Sheet, f: Question -> Question): (r: Sheet)
    ensures r.(questions := s.questions) == s
    ensures r.questions.Some? == s.questions.Some?
    ensures QuestionsOf(r) == MapTree(f, QuestionsOf(s))
  {
    if s.questions.Some? then s.(questions := Some(MapTree(f, s.questions.value))) else s
  }

  // ----- _init_judgments -----

  /** The loop body of `_init_judgments`. */
  function ResetNode(q: Question): Question {
    q.(judgments := Some([]), awarded := None, feedback := None)
  }

  /** A question ready to receive judgments. */
  predicate Unjudged(q: Question) {
    q.judgments == Some([]) && q.awarded.None? && q.feedback.None?
  }

  /** `_init_judgments`: every question at every depth gets an empty `judgments` list and loses any earlier grade. */
  function InitJudgments(s: Sheet): (r: Sheet)
    ensures r.(questions := s.questions) == s
    ensures r.questions.Some? == s.questions.Some?
    ensures forall n :: n in Flatten(QuestionsOf(r)) ==> Unjudged(n)
  {
    var r := OnQuestions(s, ResetNode);
    MapTreeKeeps(ResetNode, QuestionsOf(s), q => true, Unjudged);
    r
  }

  /** Only the three reset keys change; the tree keeps its shape and every other key. */
  lemma InitOnlyResets(s: Sheet)
    ensures |Flatten(QuestionsOf(InitJudgments(s)))| == |Flatten(QuestionsOf(s))|
    ensures forall k :: 0 <= k < |Flatten(QuestionsOf(s))| ==>
              ResetNode(Shallow(Flatten(QuestionsOf(s))[k])) == Shallow(Flatten(QuestionsOf(InitJudgments(s)))[k])
  {
    MapTreeFlatten(ResetNode, QuestionsOf(s));
  }

  /** Resetting twice is resetting once. */
  lemma InitIdempotent(s: Sheet)
    ensures InitJudgments(InitJudgments(s)) == InitJudgments(s)
  {
    MapTreeIdempotent(ResetNode, QuestionsOf(s));
  }

  // ----- _collect_judgments -----

  /** `run_map`: every id in the run result, at any depth, mapped to its last pre-order occurrence. */
  function RunMap(runQs: seq<Question>): (m: map<string, Question>)
    ensures forall i :: 0 <= i < |Flatten(runQs)| && Flatten(runQs)[i].id.Some? ==> Flatten(runQs)[i].id.value in m
    ensures forall id :: id in m ==> m[id].id == Some(id) && m[id] in Flatten(runQs)
    ensures forall id :: id in m ==> exists i :: LastWithId(Flatten(runQs), i, id) && Flatten(runQs)[i] == m[id]
  {
    var walk := Flatten(runQs);
    var idx := NodeIndex(walk);
    var m := map id | id in idx :: walk[idx[id]];
    assert m.Keys == idx.Keys;
    assert forall id :: id in m ==> m[id] == walk[idx[id]] && LastWithId(walk, idx[id], id);
    m
  }

  /** The accumulator question `q` meets a graded node of the run: same id, and that node has `awarded_points`. */
  predicate Graded(runMap: map<string, Question>, q: Question) {
    q.id.Some? && q.id.value in runMap && runMap[q.id.value].awarded.Some?
  }

  /** The judgment a graded run node contributes; `feedback` defaults to `""`. */
  function NewJudgment(judge: string, runId: int, runQ: Question): Judgment {
    Judgment(judge, runId, runQ.awarded, Some(runQ.feedback.GetOr(JStr(""))))
  }

  /** The loop body of `_collect_judgments`' second walk. */
  function CollectNode(runMap: map<string, Question>, judge: string, runId: int, q: Question): Question {
    if Graded(runMap, q) && q.judgments.Some? then
      q.(judgments := Some(q.judgments.value + [NewJudgment(judge, runId, runMap[q.id.value])]))
    else q
  }

  /**
   * `_collect_judgments(accumulator, run_result, judge_name, run_id)`. The
   * source appends to `q["judgments"]` without checking that the key exists,
   * so every graded question must already carry the list.
   */
  function CollectJudgments(acc: Sheet, run: Sheet, judge: string, runId: int): (r: Sheet)
    requires forall n :: n in Flatten(QuestionsOf(acc)) && Graded(RunMap(QuestionsOf(run)), n) ==> n.judgments.Some?
    ensures r.(questions := acc.questions) == acc
    ensures r.questions.Some? == acc.questions.Some?
  {
    var rm := RunMap(QuestionsOf(run));
    OnQuestions(acc, q => CollectNode(rm, judge, runId, q))
  }

  /**
   * Position by position in pre-order, a graded question gains exactly one
   * judgment at the end of its list, any other keeps its list, and nothing
   * else changes anywhere in the tree.
   */
  lemma CollectEffect(acc: Sheet, run: Sheet, judge: string, runId: int)
    requires forall n :: n in Flatten(QuestionsOf(acc)) && Graded(RunMap(QuestionsOf(run)), n) ==> n.judgments.Some?
    ensures |Flatten(QuestionsOf(CollectJudgments(acc, run, judge, runId)))| == |Flatten(QuestionsOf(acc))|
    ensures forall k :: 0 <= k < |Flatten(QuestionsOf(acc))| ==>
              var a := Flatten(QuestionsOf(acc))[k];
              var b := Flatten(QuestionsOf(CollectJudgments(acc, run, judge, runId)))[k];
              var rm := RunMap(QuestionsOf(run));
              && Shallow(b).(judgments := a.judgments) == Shallow(a)
              && (Graded(rm, a) ==> b.judgments == Some(a.judgments.value + [NewJudgment(judge, runId, rm[a.id.value])]))
              && (!Graded(rm, a) ==> b.judgments == a.judgments)
  {
    var rm := RunMap(QuestionsOf(run));
    var f := q => CollectNode(rm, judge, runId, q);
    MapTreeFlatten(f, QuestionsOf(acc));
    var a := Flatten(QuestionsOf(acc));
    forall k | 0 <= k < |a| ensures Graded(rm, a[k]) ==> a[k].judgments.Some? {
      assert a[k] in a;
    }
  }

  // ----- _aggregate_judgments -----

  /** The numeric `awarded_points` of a judgment list, in order. */
  function NumericScores(js: seq<Judgment>): (xs: seq<real>)
    ensures |xs| <= |js|
  {
    if js == [] then []
    else
      var rest := NumericScores(js[1..]);
      if js[0].awarded.Some? && IsNumeric(js[0].awarded.value) then [NumValue(js[0].awarded.value)] + rest else rest
  }

  /** The loop body of `_aggregate_judgments`. */
  function AggregateNode(q: Question): Question {
    if q.judgments.Some? && q.judgments.value != [] then
      var scores := NumericScores(q.judgments.value);
      q.(awarded := Some(if scores != [] then JFloat(Mean(scores)) else JInt(0)))
    else q
  }

  /** `_aggregate_judgments`: each question with judgments gets their mean, `0` if none is numeric. */
  function AggregateJudgments(s: Sheet): (r: Sheet)
    ensures r.(questions := s.questions) == s
    ensures r.questions.Some? == s.questions.Some?
  {
    OnQuestions(s, AggregateNode)
  }

  /**
   * Position by position: a question with a non-empty `judgments` list ends
   * with `awarded_points` equal to the mean of its numeric judgment values
   * (the integer `0` when there are none); a question without judgments keeps
   * what it had; no other key changes.
   */
  lemma AggregateEffect(s: Sheet)
    ensures |Flatten(QuestionsOf(AggregateJudgments(s)))| == |Flatten(QuestionsOf(s))|
    ensures forall k :: 0 <= k < |Flatten(QuestionsOf(s))| ==>
              var a := Flatten(QuestionsOf(s))[k];
              var b := Flatten(QuestionsOf(AggregateJudgments(s)))[k];
              && Shallow(b).(awarded := a.awarded) == Shallow(a)
              && (a.judgments.None? || a.judgments.value == [] ==> b.awarded == a.awarded)
              && (a.judgments.Some? && NumericScores(a.judgments.value) != [] ==>
                    b.awarded == Some(JFloat(Mean(NumericScores(a.judgments.value)))))
              && (a.judgments.Some? && a.judgments.value != [] && NumericScores(a.judgments.value) == [] ==>
                    b.awarded == Some(JInt(0)))
  {
    MapTreeFlatten(AggregateNode, QuestionsOf(s));
  }

  /** The average never leaves the range of the numeric judgment values. */
  lemma AggregateWithinScores(q: Question, lo: real, hi: real)
    requires q.judgments.Some?
    requires forall j :: j in q.judgments.value && j.awarded.Some? && IsNumeric(j.awarded.value) ==>
               lo <= NumValue(j.awarded.value) <= hi
    requires NumericScores(q.judgments.value) != []
    ensures AggregateNode(q).awarded.Some? && AggregateNode(q).awarded.value.JFloat?
    ensures lo <= AggregateNode(q).awarded.value.f <= hi
  {
    var xs := NumericScores(q.judgments.value);
    ScoresFromJudgments(q.judgments.value, lo, hi);
    MeanBounds(xs, lo, hi);
  }

  lemma {:induction false} ScoresFromJudgments(js: seq<Judgment>, lo: real, hi: real)
    requires forall j :: j in js && j.awarded.Some? && IsNumeric(j.awarded.value) ==> lo <= NumValue(j.awarded.value) <= hi
    ensures forall i :: 0 <= i < |NumericScores(js)| ==> lo <= NumericScores(js)[i] <= hi
  {
    if js != [] {
      assert forall j :: j in js[1..] ==> j in js;
      ScoresFromJudgments(js[1..], lo, hi);
    }
  }

  /** Two numeric judgments and one that is not: `2` and `4` average to `3.0`, the string is ignored. */
  lemma AggregateExample(q: Question, judge: string)
    requires q.judgments == Some([Judgment(judge, 1, Some(JInt(2)), None),
                                  Judgment(judge, 2, Some(JInt(4)), None),
                                  Judgment(judge, 3, Some(JStr("bad")), None)])
    ensures AggregateNode(q).awarded == Some(JFloat(3.0))
  {
    var js := q.judgments.value;
    assert NumericScores(js[2..]) == [] by {
      assert js[2..][1..] == [];
    }
    assert js[1..][1..] == js[2..];
    assert NumericScores(js[1..]) == [4.0];
    assert NumericScores(js) == [2.0, 4.0];
    assert Sum([2.0, 4.0]) == 6.0 by {
      assert [2.0, 4.0][1..] == [4.0];
      assert [4.0][1..] == [];
    }
  }

  /** Averaging reads only the judgments, which it leaves alone, so a second run changes nothing. */
  lemma AggregateIdempotent(s: Sheet)
    ensures AggregateJudgments(AggregateJudgments(s)) == AggregateJudgments(s)
  {
    forall q ensures AggregateNode(q) == AggregateNode(Shallow(q)).(subs := q.subs) {
    }
    forall q ensures AggregateNode(AggregateNode(q)) == AggregateNode(q) {
    }
    MapTreeIdempotent(AggregateNode, QuestionsOf(s));
  }

  // ----- _inject_max_points -----

  /** `points_map`: every id carried by a solution question with `points`, mapped to the last such `points`. */
  function MaxPoints(solQs: seq<Question>): (m: map<string, Json>)
    ensures forall n :: n in Flatten(solQs) && n.id.Some? && n.points.Some? ==> n.id.value in m
    ensures forall id :: id in m ==> exists i :: LastPointsWithId(Flatten(solQs), i, id) && Flatten(solQs)[i].points == Some(m[id])
  {
    var walk := Flatten(solQs);
    var idx := PointsIndex(walk);
    map id | id in idx :: walk[idx[id]].points.value
  }

  /** The loop body of `inject`. */
  function InjectNode(pm: map<string, Json>, q: Question): Question {
    if q.id.Some? && q.id.value in pm then q.(points := Some(pm[q.id.value])) else q
  }

  /** `_inject_max_points(graded_answers, solution_sheet)`. */
  function InjectMaxPoints(graded: Sheet, solution: Sheet): (r: Sheet)
    ensures r.(questions := graded.questions) == graded
    ensures r.questions.Some? == graded.questions.Some?
  {
    var pm := MaxPoints(QuestionsOf(solution));
    OnQuestions(graded, q => InjectNode(pm, q))
  }

  /**
   * Position by position: a question whose id has `points` in the solution
   * tree takes them, every other question keeps its own, and no other key
   * changes.
   */
  lemma InjectEffect(graded: Sheet, solution: Sheet)
    ensures |Flatten(QuestionsOf(InjectMaxPoints(graded, solution)))| == |Flatten(QuestionsOf(graded))|
    ensures forall k :: 0 <= k < |Flatten(QuestionsOf(graded))| ==>
              var a := Flatten(QuestionsOf(graded))[k];
              var b := Flatten(QuestionsOf(InjectMaxPoints(graded, solution)))[k];
              var pm := MaxPoints(QuestionsOf(solution));
              && Shallow(b).(points := a.points) == Shallow(a)
              && (a.id.Some? && a.id.value in pm ==> b.points == Some(pm[a.id.value]))
              && (a.id.None? || a.id.value !in pm ==> b.points == a.points)
  {
    var pm := MaxPoints(QuestionsOf(solution));
    MapTreeFlatten(q => InjectNode(pm, q), QuestionsOf(graded));
  }

  /** Injecting the same solution twice is injecting it once. */
  lemma InjectIdempotent(graded: Sheet, solution: Sheet)
    ensures InjectMaxPoints(InjectMaxPoints(graded, solution), solution) == InjectMaxPoints(graded, solution)
  {
    var pm := MaxPoints(QuestionsOf(solution));
    var f := q => InjectNode(pm, q);
    forall q ensures f(q) == f(Shallow(q)).(subs := q.subs) {
    }
    forall q ensures f(f(q)) == f(q) {
    }
    MapTreeIdempotent(f, QuestionsOf(graded));
  }
}
