/**
 * `_update_grading_summary`: the maximum-point total of the leaves, the
 * per-`judge|run` totals of the numeric judgments on leaves, and their mean,
 * spread and percentages. Everything here reads a question through its
 * `View` (leafness, `points`, `judgments`) and nothing else.
 */
module Summary {
  import opened Wrappers
  import opened JsonValues
  import opened Exam
  import opened Forest
  import opened Stats

  /** The part of a question the summary reads. */
  datatype View = View(leaf: bool, points: Option<Json>, judgments: Option<seq<Judgment>>)

  function ViewOf(q: Question): View {
    View(IsLeaf(q), q.points, q.judgments)
  }

  /** The views of a pre-order walk. */
  function Views(walk: seq<Question>): (vs: seq<View>)
    ensures |vs| == |walk| && forall i :: 0 <= i < |walk| ==> vs[i] == ViewOf(walk[i])
  {
    if walk == [] then [] else [ViewOf(walk[0])] + Views(walk[1..])
  }

  /**
   * `float(q.get("points", 0))` guarded by `except (ValueError, TypeError)`:
   * a missing key is `0`, and `null` or an unconvertible value adds nothing.
   */
  function PointsValue(py: Python, points: Option<Json>): (x: real)
    ensures points.None? || points == Some(JNull) ==> x == 0.0
    ensures points.Some? && IsNumeric(points.value) ==> x == NumValue(points.value)
  {
    match points
    case None => 0.0
    case Some(v) => ToFloat(py, v).GetOr(0.0)
  }

  /** `total_max_points`: the points of the leaves, in walk order. */
  function LeafTotal(py: Python, vs: seq<View>): real {
    if vs == [] then 0.0
    else (if vs[0].leaf then PointsValue(py, vs[0].points) else 0.0) + LeafTotal(py, vs[1..])
  }

  /** A judgment counts toward a run total when its `awarded_points` is numeric. */
  predicate Counts(j: Judgment) {
    j.awarded.Some? && IsNumeric(j.awarded.value)
  }

  function KeyOf(j: Judgment): RunKey {
    RunKey(j.judgeName, j.runId)
  }

  /** The `(key, awarded_points)` additions one judgment list makes, in order. */
  function JudgmentContributions(js: seq<Judgment>): (cs: seq<(RunKey, real)>)
    ensures forall k :: HasKey(cs, k) <==> exists j :: 0 <= j < |js| && Counts(js[j]) && KeyOf(js[j]) == k
  {
    if js == [] then []
    else
      var rest := JudgmentContributions(js[1..]);
      var head := if Counts(js[0]) then [(KeyOf(js[0]), NumValue(js[0].awarded.value))] else [];
      forall k ensures HasKey(head + rest, k) <==> exists j :: 0 <= j < |js| && Counts(js[j]) && KeyOf(js[j]) == k {
        HasKeyAppend(head, rest, k);
        if Counts(js[0]) && KeyOf(js[0]) == k {
          assert head[0].0 == k;
        }
        assert forall j :: 1 <= j < |js| ==> js[j] == js[1..][j - 1];
        if exists j :: 0 <= j < |js[1..]| && Counts(js[1..][j]) && KeyOf(js[1..][j]) == k {
          var j :| 0 <= j < |js[1..]| && Counts(js[1..][j]) && KeyOf(js[1..][j]) == k;
          assert js[j + 1] == js[1..][j];
        }
      }
      head + rest
  }

  /** Every addition to `run_totals`, leaf by leaf in walk order. */
  function Contributions(vs: seq<View>): seq<(RunKey, real)> {
    if vs == [] then []
    else
      (if vs[0].leaf && vs[0].judgments.Some? then JudgmentContributions(vs[0].judgments.value) else [])
      + Contributions(vs[1..])
  }

  /** The key has at least one entry in the list of pairs. */
  predicate HasKey<V>(cs: seq<(RunKey, V)>, k: RunKey) {
    exists i :: 0 <= i < |cs| && cs[i].0 == k
  }

  /** Some leaf carries a numeric judgment for this `judge|run` key. */
  predicate RunScored(vs: seq<View>, k: RunKey) {
    exists p, j :: && 0 <= p < |vs| && vs[p].leaf && vs[p].judgments.Some?
                   && 0 <= j < |vs[p].judgments.value|
                   && Counts(vs[p].judgments.value[j]) && KeyOf(vs[p].judgments.value[j]) == k
  }

  /** A key is added to `run_totals` exactly when some leaf has a numeric judgment for it. */
  lemma {:induction false} ContributionKeys(vs: seq<View>, k: RunKey)
    ensures HasKey(Contributions(vs), k) <==> RunScored(vs, k)
  {
    if vs != [] {
      ContributionKeys(vs[1..], k);
      var head := if vs[0].leaf && vs[0].judgments.Some? then JudgmentContributions(vs[0].judgments.value) else [];
      var tail := Contributions(vs[1..]);
      assert Contributions(vs) == head + tail;
      HasKeyAppend(head, tail, k);
      if RunScored(vs, k) {
        var p, j :| && 0 <= p < |vs| && vs[p].leaf && vs[p].judgments.Some?
                    && 0 <= j < |vs[p].judgments.value|
                    && Counts(vs[p].judgments.value[j]) && KeyOf(vs[p].judgments.value[j]) == k;
        if p > 0 {
          assert vs[p] == vs[1..][p - 1];
        }
      }
      if RunScored(vs[1..], k) {
        var p, j :| && 0 <= p < |vs[1..]| && vs[1..][p].leaf && vs[1..][p].judgments.Some?
                    && 0 <= j < |vs[1..][p].judgments.value|
                    && Counts(vs[1..][p].judgments.value[j]) && KeyOf(vs[1..][p].judgments.value[j]) == k;
        assert vs[1..][p] == vs[p + 1];
      }
    }
  }

  lemma HasKeyAppend<V>(a: seq<(RunKey, V)>, b: seq<(RunKey, V)>, k: RunKey)
    ensures HasKey(a + b, k) <==> HasKey(a, k) || HasKey(b, k)
  {
    if HasKey(b, k) {
      var i :| 0 <= i < |b| && b[i].0 == k;
      assert (a + b)[|a| + i] == b[i];
    }
    if HasKey(a, k) {
      var i :| 0 <= i < |a| && a[i].0 == k;
      assert (a + b)[i] == a[i];
    }
  }

  /** The sum of the additions made under key `k`. */
  function SumFor(cs: seq<(RunKey, real)>, k: RunKey): real {
    if cs == [] then 0.0
    else SumFor(cs[..|cs| - 1], k) + (if cs[|cs| - 1].0 == k then cs[|cs| - 1].1 else 0.0)
  }

  /** Nothing was added under a key that never occurs. */
  lemma {:induction false} SumForAbsent(cs: seq<(RunKey, real)>, k: RunKey)
    requires !HasKey(cs, k)
    ensures SumFor(cs, k) == 0.0
  {
    if cs != [] {
      var init := cs[..|cs| - 1];
      assert forall i :: 0 <= i < |init| ==> init[i] == cs[i];
      SumForAbsent(init, k);
    }
  }

  /** Where key `k` sits in the table, `-1` when it is not there. */
  function KeyIndex<V>(t: seq<(RunKey, V)>, k: RunKey): (i: int)
    ensures -1 <= i < |t|
    ensures i >= 0 ==> t[i].0 == k
    ensures i == -1 <==> !HasKey(t, k)
  {
    if t == [] then -1
    else if t[|t| - 1].0 == k then |t| - 1
    else KeyIndex(t[..|t| - 1], k)
  }

  /** `run_totals[key] = run_totals.get(key, 0.0) + value`. */
  function AddRun(t: seq<(RunKey, real)>, c: (RunKey, real)): seq<(RunKey, real)> {
    var i := KeyIndex(t, c.0);
    if i >= 0 then t[i := (c.0, t[i].1 + c.1)] else t + [c]
  }

  /** Keys of a table occur once each. */
  predicate UniqueKeys<V>(t: seq<(RunKey, V)>) {
    forall i, j :: 0 <= i < j < |t| ==> t[i].0 != t[j].0
  }

  /**
   * `run_totals` after all additions: one entry per key that was added to,
   * holding the sum of everything added under it.
   */
  function RunTotals(cs: seq<(RunKey, real)>): (t: seq<(RunKey, real)>)
    ensures UniqueKeys(t)
    ensures forall k :: HasKey(t, k) <==> HasKey(cs, k)
    ensures forall i :: 0 <= i < |t| ==> t[i].1 == SumFor(cs, t[i].0)
  {
    if cs == [] then []
    else
      var init := cs[..|cs| - 1];
      var c := cs[|cs| - 1];
      var prev := RunTotals(init);
      var t := AddRun(prev, c);
      assert cs == init + [c];
      assert cs[..|cs| - 1] == init;
      forall i | 0 <= i < |t| ensures t[i].1 == SumFor(cs, t[i].0) {
        if KeyIndex(prev, c.0) < 0 && i == |prev| {
          SumForAbsent(init, c.0);
        }
      }
      forall k ensures HasKey(t, k) <==> HasKey(cs, k) {
        HasKeyAppend(init, [c], k);
        if KeyIndex(prev, c.0) < 0 {
          HasKeyAppend(prev, [c], k);
        } else if HasKey(prev, k) {
          var i :| 0 <= i < |prev| && prev[i].0 == k;
          assert t[i].0 == k;
        }
      }
      t
  }

  /** The totals in table order. */
  function Scores(t: seq<(RunKey, real)>): (xs: seq<real>)
    ensures |xs| == |t| && forall i :: 0 <= i < |t| ==> xs[i] == t[i].1
  {
    if t == [] then [] else [t[0].1] + Scores(t[1..])
  }

  /** The `judge_runs` report: each run's rounded total and rounded percentage. */
  function RunsReport(py: Python, t: seq<(RunKey, real)>, total: real): (r: seq<(RunKey, RunScore)>)
    ensures |r| == |t|
    ensures forall i :: 0 <= i < |t| ==> r[i] == (t[i].0, RunScore(py.round2(t[i].1), py.round2(Percent(t[i].1, total))))
  {
    if t == [] then []
    else [(t[0].0, RunScore(py.round2(t[0].1), py.round2(Percent(t[0].1, total))))] + RunsReport(py, t[1..], total)
  }

  /** The report has an entry for exactly the keys of the totals. */
  lemma RunsReportKeys(py: Python, t: seq<(RunKey, real)>, total: real)
    ensures forall k :: HasKey(RunsReport(py, t, total), k) <==> HasKey(t, k)
  {
    var report := RunsReport(py, t, total);
    forall k | HasKey(report, k) ensures HasKey(t, k) {
      var i :| 0 <= i < |report| && report[i].0 == k;
      assert t[i].0 == k;
    }
    forall k | HasKey(t, k) ensures HasKey(report, k) {
      var i :| 0 <= i < |t| && t[i].0 == k;
      assert report[i].0 == k;
    }
  }

  /** The all-zero aggregation written when no run scored. */
  const ZeroAggregation: Aggregation := Aggregation(0.0, 0.0, 0.0, 0.0)

  /** The summary `_update_grading_summary` assigns, from the walk's views. */
  function OnlineSummary(py: Python, vs: seq<View>): (g: GradingSummary)
    ensures g.totalPoints == py.round2(LeafTotal(py, vs))
    ensures forall k :: HasKey(g.judgeRuns, k) <==> RunScored(vs, k)
    ensures UniqueKeys(g.judgeRuns)
    ensures g.judgeRuns == [] ==> g.aggregation == ZeroAggregation
    ensures var totals := RunTotals(Contributions(vs));
            && |g.judgeRuns| == |totals|
            && forall i :: 0 <= i < |totals| ==>
                 g.judgeRuns[i] == (totals[i].0, RunScore(py.round2(totals[i].1), py.round2(Percent(totals[i].1, LeafTotal(py, vs)))))
    ensures var totals := RunTotals(Contributions(vs));
            var total := LeafTotal(py, vs);
            totals != [] ==>
              var avg := Sum(Scores(totals)) / (|totals| as real);
              var sd := py.sqrt(Variance(Scores(totals)));
              g.aggregation == Aggregation(py.round2(avg), py.round2(Percent(avg, total)),
                                           py.round2(sd), py.round2(Percent(sd, total)))
  {
    var total := LeafTotal(py, vs);
    var totals := RunTotals(Contributions(vs));
    forall k ensures HasKey(totals, k) <==> RunScored(vs, k) {
      ContributionKeys(vs, k);
    }
    var report := RunsReport(py, totals, total);
    RunsReportKeys(py, totals, total);
    if totals == [] then
      GradingSummary(py.round2(total), [], ZeroAggregation)
    else
      var scores := Scores(totals);
      var avg := Mean(scores);
      var sd := py.sqrt(Variance(scores));
      GradingSummary(py.round2(total), report,
        Aggregation(py.round2(avg), py.round2(Percent(avg, total)), py.round2(sd), py.round2(Percent(sd, total))))
  }

  /** `_update_grading_summary(graded_answers)`: sets `grading_summary` and nothing else. */
  function UpdateGradingSummary(py: Python, s: Sheet): (r: Sheet)
    ensures r.(summary := s.summary) == s
    ensures r.summary == Some(OnlineSummary(py, Views(Flatten(QuestionsOf(s)))))
  {
    s.(summary := Some(OnlineSummary(py, Views(Flatten(QuestionsOf(s))))))
  }

  /** A run's total is the sum of that run's numeric judgment values over all leaves. */
  lemma RunTotalIsSum(vs: seq<View>, i: nat)
    requires i < |RunTotals(Contributions(vs))|
    ensures RunTotals(Contributions(vs))[i].1 == SumFor(Contributions(vs), RunTotals(Contributions(vs))[i].0)
    ensures RunScored(vs, RunTotals(Contributions(vs))[i].0)
  {
    var t := RunTotals(Contributions(vs));
    assert HasKey(t, t[i].0);
    ContributionKeys(vs, t[i].0);
  }
}
