/**
 * The standalone recompute of `fix_grading.py`: one walk that rewrites
 * every leaf's `awarded_points` from its judgments and gathers the totals,
 * the statistics over the run totals, and the new `grading_summary`.
 */
module Recompute {
  import opened Wrappers
  import opened JsonValues
  import opened Exam
  import opened Forest
  import opened Stats
  import opened Judging
  import opened Summary

  /** The mean of a leaf's numeric judgment values, `0.0` when it has none. */
  function LeafMean(judgments: Option<seq<Judgment>>): (m: real)
    ensures judgments.Some? && NumericScores(judgments.value) != [] ==> IsMeanOf(m, NumericScores(judgments.value))
    ensures judgments.None? || NumericScores(judgments.value) == [] ==> m == 0.0
  {
    if judgments.Some? && NumericScores(judgments.value) != [] then
      MeanTimesCount(NumericScores(judgments.value));
      Mean(NumericScores(judgments.value))
    else 0.0
  }

  /** The leaf step of `aggregate_judgments`: leaves always get a float, parents are left alone. */
  function FixLeafNode(q: Question): (r: Question)
    ensures r.(awarded := q.awarded) == q
    ensures !IsLeaf(q) ==> r == q
    ensures IsLeaf(q) ==> r.awarded.Some? && r.awarded.value.JFloat?
    ensures IsLeaf(q) && q.judgments.Some? && NumericScores(q.judgments.value) != [] ==>
              IsMeanOf(r.awarded.value.f, NumericScores(q.judgments.value))
    ensures IsLeaf(q) && (q.judgments.None? || NumericScores(q.judgments.value) == []) ==>
              r.awarded == Some(JFloat(0.0))
  {
    if IsLeaf(q) then q.(awarded := Some(JFloat(LeafMean(q.judgments)))) else q
  }

  /** What `calculate_statistics` returns, before `main` rounds it. */
  datatype Statistics = Statistics(
    averagePoints: real,
    averagePercentage: real,
    stdDevPoints: real,
    stdDevPercentage: real,
    judgeRuns: seq<(RunKey, RunScore)>)

  /** `calculate_statistics(run_totals, total_max_points)`. */
  function CalculateStatistics(py: Python, totals: seq<(RunKey, real)>, total: real): (st: Statistics)
    ensures totals == [] ==> st == Statistics(0.0, 0.0, 0.0, 0.0, [])
    ensures totals != [] ==> IsMeanOf(st.averagePoints, Scores(totals))
    ensures IsPercentOf(st.averagePercentage, st.averagePoints, total)
    ensures IsPercentOf(st.stdDevPercentage, st.stdDevPoints, total)
    ensures forall k :: HasKey(st.judgeRuns, k) <==> HasKey(totals, k)
    ensures |st.judgeRuns| == |totals|
    ensures forall i :: 0 <= i < |totals| ==>
              st.judgeRuns[i] == (totals[i].0, RunScore(py.round2(totals[i].1), py.round2(Percent(totals[i].1, total))))
  {
    if totals == [] then Statistics(0.0, 0.0, 0.0, 0.0, [])
    else
      RunsReportKeys(py, totals, total);
      Moments(py, Scores(totals), total, RunsReport(py, totals, total))
  }

  /** The statistics over a non-empty list of run totals, with the report already built. */
  function Moments(py: Python, scores: seq<real>, total: real, report: seq<(RunKey, RunScore)>): (st: Statistics)
    requires scores != []
    ensures IsMeanOf(st.averagePoints, scores)
    ensures IsPercentOf(st.averagePercentage, st.averagePoints, total)
    ensures IsPercentOf(st.stdDevPercentage, st.stdDevPoints, total)
    ensures st.stdDevPoints == py.sqrt(Variance(scores))
    ensures st.judgeRuns == report
  {
    var avg := Mean(scores);
    MeanTimesCount(scores);
    var sd := py.sqrt(Variance(scores));
    Statistics(avg, Percent(avg, total), sd, Percent(sd, total), report)
  }

  /** `math.sqrt` returns the non-negative square root of a non-negative argument. */
  ghost predicate SqrtCorrect(py: Python) {
    forall x :: x >= 0.0 ==> py.sqrt(x) >= 0.0 && py.sqrt(x) * py.sqrt(x) == x
  }

  /** `std_dev_points` is a non-negative number whose square is the population variance of the run totals. */
  lemma StdDevSquared(py: Python, totals: seq<(RunKey, real)>, total: real)
    requires SqrtCorrect(py) && totals != []
    ensures CalculateStatistics(py, totals, total).stdDevPoints >= 0.0
    ensures CalculateStatistics(py, totals, total).stdDevPoints * CalculateStatistics(py, totals, total).stdDevPoints
            == Variance(Scores(totals))
  {
  }

  /** The summary `main` builds from the statistics. */
  function FixedSummary(py: Python, total: real, totals: seq<(RunKey, real)>): (g: GradingSummary)
    ensures g.totalPoints == py.round2(total)
    ensures |g.judgeRuns| == |totals|
    ensures forall i :: 0 <= i < |totals| ==>
              g.judgeRuns[i] == (totals[i].0, RunScore(py.round2(totals[i].1), py.round2(Percent(totals[i].1, total))))
    ensures totals == [] ==> g.aggregation == Aggregation(py.round2(0.0), py.round2(0.0), py.round2(0.0), py.round2(0.0))
    ensures totals != [] ==>
              var avg := Sum(Scores(totals)) / (|totals| as real);
              var sd := py.sqrt(Variance(Scores(totals)));
              g.aggregation == Aggregation(py.round2(avg), py.round2(Percent(avg, total)),
                                           py.round2(sd), py.round2(Percent(sd, total)))
  {
    var st := CalculateStatistics(py, totals, total);
    assert totals != [] ==>
             && st.averagePoints == Mean(Scores(totals))
             && st.averagePercentage == Percent(st.averagePoints, total)
             && st.stdDevPercentage == Percent(st.stdDevPoints, total) by {
      if totals != [] {
        MeanOfIsMean(st.averagePoints, Scores(totals));
        PercentOfIsPercent(st.averagePercentage, st.averagePoints, total);
        PercentOfIsPercent(st.stdDevPercentage, st.stdDevPoints, total);
      }
    }
    GradingSummary(py.round2(total), st.judgeRuns,
      Aggregation(py.round2(st.averagePoints), py.round2(st.averagePercentage),
                  py.round2(st.stdDevPoints), py.round2(st.stdDevPercentage)))
  }

  /**
   * The whole tool on one graded sheet: fix every leaf's `awarded_points`
   * and replace `grading_summary`; no other key is written.
   */
  function Recompute(py: Python, s: Sheet): (r: Sheet)
    ensures r.(questions := s.questions, summary := s.summary) == s
    ensures r.questions.Some? == s.questions.Some?
    ensures QuestionsOf(r) == MapTree(FixLeafNode, QuestionsOf(s))
  {
    var vs := Views(Flatten(QuestionsOf(s)));
    OnQuestions(s, FixLeafNode).(summary := Some(FixedSummary(py, LeafTotal(py, vs), RunTotals(Contributions(vs)))))
  }

  /**
   * After the recompute every leaf holds the float mean of its numeric
   * judgments (`0.0` when there are none) and every parent keeps its own
   * `awarded_points`; nothing else in the tree changes.
   */
  lemma RecomputeLeaves(py: Python, s: Sheet)
    ensures |Flatten(QuestionsOf(Recompute(py, s)))| == |Flatten(QuestionsOf(s))|
    ensures forall k :: 0 <= k < |Flatten(QuestionsOf(s))| ==>
              var a := Flatten(QuestionsOf(s))[k];
              var b := Flatten(QuestionsOf(Recompute(py, s)))[k];
              && Shallow(b).(awarded := a.awarded) == Shallow(a)
              && IsLeaf(b) == IsLeaf(a)
              && (IsLeaf(a) ==> b.awarded == Some(JFloat(LeafMean(a.judgments))))
              && (!IsLeaf(a) ==> b.awarded == a.awarded)
  {
    MapTreeFlatten(FixLeafNode, QuestionsOf(s));
  }

  /** The recompute leaves everything the summary reads as it was. */
  lemma RecomputeKeepsViews(py: Python, s: Sheet)
    ensures Views(Flatten(QuestionsOf(Recompute(py, s)))) == Views(Flatten(QuestionsOf(s)))
  {
    RecomputeLeaves(py, s);
    var fa := Flatten(QuestionsOf(s));
    var fb := Flatten(QuestionsOf(Recompute(py, s)));
    var a := Views(fa);
    var b := Views(fb);
    assert |a| == |b|;
    forall k | 0 <= k < |a| ensures a[k] == b[k] {
      assert Shallow(fb[k]).(awarded := fa[k].awarded) == Shallow(fa[k]);
      assert fb[k].points == fa[k].points && fb[k].judgments == fa[k].judgments;
      assert IsLeaf(fb[k]) == IsLeaf(fa[k]);
    }
  }

  /** Running the tool a second time writes the same `grading_summary`. */
  lemma RecomputeSummaryStable(py: Python, s: Sheet)
    ensures Recompute(py, Recompute(py, s)).summary == Recompute(py, s).summary
  {
    RecomputeKeepsViews(py, s);
  }

  /**
   * For the same points and judgments the recompute writes the summary the
   * online grading writes. The only place the two differ in form is the
   * empty case, which writes a literal `0.0` online and `round(0.0, 2)`
   * here; they agree because rounding keeps `0.0`.
   */
  lemma RecomputeMatchesOnline(py: Python, s: Sheet)
    requires py.round2(0.0) == 0.0
    ensures Recompute(py, s).summary == UpdateGradingSummary(py, s).summary
  {
  }

  /** Two runs scoring 7 and 5 out of 10: mean 6, variance 1, 60 percent. */
  lemma StatisticsExample(py: Python, judgeA: string, judgeB: string)
    requires judgeA != judgeB
    ensures CalculateStatistics(py, [(RunKey(judgeA, 1), 7.0), (RunKey(judgeB, 1), 5.0)], 10.0).averagePoints == 6.0
    ensures CalculateStatistics(py, [(RunKey(judgeA, 1), 7.0), (RunKey(judgeB, 1), 5.0)], 10.0).averagePercentage == 60.0
    ensures Variance(Scores([(RunKey(judgeA, 1), 7.0), (RunKey(judgeB, 1), 5.0)])) == 1.0
  {
    var t := [(RunKey(judgeA, 1), 7.0), (RunKey(judgeB, 1), 5.0)];
    var xs := Scores(t);
    assert xs == [7.0, 5.0];
    assert xs[1..] == [5.0] && xs[1..][1..] == [];
    assert Sum(xs[1..]) == 5.0 + Sum(xs[1..][1..]);
    assert Sum(xs) == 12.0;
    assert Mean(xs) == 6.0;
    assert SquaredDeviations(xs[1..], 6.0) == Square(-1.0) + SquaredDeviations(xs[1..][1..], 6.0);
    assert SquaredDeviations(xs, 6.0) == Square(1.0) + SquaredDeviations(xs[1..], 6.0);
    assert Square(1.0) == 1.0 && Square(-1.0) == 1.0;
  }
}
