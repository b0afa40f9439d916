/**
 * The RAG runner's per-model flow: merge the generated answers into the
 * answer sheet's shape, report and remove the retrieved chunks, then, per
 * judge, reset a copy of the answers, collect one judgment per graded
 * question for each run `1..num_judge_runs`, and finally average, inject
 * maximum points and summarise, in that order.
 */
module Benchmark {
  import opened Wrappers
  import opened JsonValues
  import opened Exam
  import opened Forest
  import opened Merge
  import opened Judging
  import opened Summary
  import opened Answering
  import opened Chunks

  /**
   * The judgments a question carries after `runs` collected runs of one
   * judge: at most one per run, all naming that judge, with run ids in
   * `1..runs` in increasing order.
   */
  predicate JudgedBy(q: Question, judge: string, runs: nat) {
    && q.judgments.Some?
    && |q.judgments.value| <= runs
    && (forall i :: 0 <= i < |q.judgments.value| ==>
          q.judgments.value[i].judgeName == judge && 1 <= q.judgments.value[i].runId <= runs)
    && (forall i, j :: 0 <= i < j < |q.judgments.value| ==>
          q.judgments.value[i].runId < q.judgments.value[j].runId)
  }

  /** Every question of a sheet, at any depth, satisfies `JudgedBy`. */
  predicate AllJudgedBy(s: Sheet, judge: string, runs: nat) {
    forall n :: n in Flatten(QuestionsOf(s)) ==> JudgedBy(n, judge, runs)
  }

  /** No question of a sheet, at any depth, carries `retrieved_chunks`. */
  predicate ChunkFree(s: Sheet) {
    forall n :: n in Flatten(QuestionsOf(s)) ==> n.chunks.None?
  }

  /** A fresh reset copy has no judgments yet. */
  lemma InitIsJudgedByNone(s: Sheet, judge: string)
    ensures AllJudgedBy(InitJudgments(s), judge, 0)
  {
  }

  /** One question: run `runs + 1` appends at most one judgment, by this judge, after the earlier ones. */
  lemma CollectNodeExtends(rm: map<string, Question>, judge: string, runs: nat, q: Question)
    requires JudgedBy(q, judge, runs)
    ensures JudgedBy(Shallow(CollectNode(rm, judge, runs + 1, q)), judge, runs + 1)
  {
    if Graded(rm, q) {
      var old_js := q.judgments.value;
      var js := old_js + [NewJudgment(judge, runs + 1, rm[q.id.value])];
      assert Shallow(CollectNode(rm, judge, runs + 1, q)).judgments == Some(js);
      assert forall i :: 0 <= i < |old_js| ==> js[i] == old_js[i];
    }
  }

  /** Collecting run `runs + 1` of the same judge keeps the judgments in order and within bounds. */
  lemma CollectExtendsJudged(acc: Sheet, run: Sheet, judge: string, runs: nat)
    requires AllJudgedBy(acc, judge, runs)
    ensures AllJudgedBy(CollectJudgments(acc, run, judge, runs + 1), judge, runs + 1)
  {
    var rm := RunMap(QuestionsOf(run));
    var f := q => CollectNode(rm, judge, runs + 1, q);
    var p := (q: Question) => JudgedBy(q, judge, runs);
    var p2 := (q: Question) => JudgedBy(q, judge, runs + 1);
    forall q | p(q) ensures p2(Shallow(f(q))) {
      CollectNodeExtends(rm, judge, runs, q);
    }
    MapTreeKeeps(f, QuestionsOf(acc), p, p2);
  }

  /** Collecting keeps a chunk-free sheet chunk-free. */
  lemma CollectKeepsChunkFree(acc: Sheet, run: Sheet, judge: string, runId: int)
    requires forall n :: n in Flatten(QuestionsOf(acc)) && Graded(RunMap(QuestionsOf(run)), n) ==> n.judgments.Some?
    ensures ChunkFree(acc) ==> ChunkFree(CollectJudgments(acc, run, judge, runId))
  {
    if ChunkFree(acc) {
      var rm := RunMap(QuestionsOf(run));
      var f := q => CollectNode(rm, judge, runId, q);
      var p := (q: Question) => q.chunks.None?;
      MapTreeKeeps(f, QuestionsOf(acc), p, p);
    }
  }

  /** Resetting keeps a chunk-free sheet chunk-free. */
  lemma InitKeepsChunkFree(s: Sheet)
    ensures ChunkFree(s) ==> ChunkFree(InitJudgments(s))
  {
    if ChunkFree(s) {
      var p := (q: Question) => q.chunks.None?;
      MapTreeKeeps(ResetNode, QuestionsOf(s), p, p);
    }
  }

  /**
   * The `for run_id in range(...)` loop from run `done + 1` on: each run
   * grades the model answers afresh and its judgments are collected into
   * the accumulator.
   */
  function CollectRuns(py: Python, judge: string, chats: seq<ChatOracle>, modelAnswers: Sheet, solution: Sheet,
                       acc: Sheet, done: nat): (r: Sheet)
    requires done <= |chats|
    requires AllJudgedBy(acc, judge, done)
    ensures AllJudgedBy(r, judge, |chats|)
    ensures ChunkFree(acc) ==> ChunkFree(r)
    ensures r.(questions := acc.questions) == acc
    decreases |chats| - done
  {
    if done == |chats| then acc
    else
      var run := GradeSheet(py, chats[done], modelAnswers, solution);
      var next := CollectJudgments(acc, run, judge, done + 1);
      CollectExtendsJudged(acc, run, judge, done);
      CollectKeepsChunkFree(acc, run, judge, done + 1);
      CollectRuns(py, judge, chats, modelAnswers, solution, next, done + 1)
  }

  /** A pass that leaves `judgments` alone keeps every question judged as before. */
  lemma PassKeepsJudged(s: Sheet, f: Question -> Question, judge: string, runs: nat)
    requires forall q :: f(q).judgments == q.judgments
    requires AllJudgedBy(s, judge, runs)
    ensures AllJudgedBy(OnQuestions(s, f), judge, runs)
  {
    var p := (q: Question) => JudgedBy(q, judge, runs);
    var qs := QuestionsOf(s);
    assert forall n :: n in Flatten(MapTree(f, qs)) ==> p(Shallow(n)) by {
      forall q | p(q) ensures p(Shallow(f(q))) {
        assert Shallow(f(q)).judgments == q.judgments;
      }
      MapTreeKeeps(f, qs, p, p);
    }
    var after := QuestionsOf(OnQuestions(s, f));
    assert after == MapTree(f, qs);
    forall n | n in Flatten(after) ensures JudgedBy(n, judge, runs) {
      assert p(Shallow(n));
    }
  }

  /** A pass that leaves `retrieved_chunks` alone keeps a chunk-free sheet chunk-free. */
  lemma PassKeepsChunkFree(s: Sheet, f: Question -> Question)
    requires forall q :: f(q).chunks == q.chunks
    ensures ChunkFree(s) ==> ChunkFree(OnQuestions(s, f))
  {
    if ChunkFree(s) {
      var c := (q: Question) => q.chunks.None?;
      MapTreeKeeps(f, QuestionsOf(s), c, c);
    }
  }

  /** A pass that touches neither `judgments` nor `retrieved_chunks` keeps both invariants. */
  lemma PassKeeps(s: Sheet, f: Question -> Question, judge: string, runs: nat)
    requires forall q :: f(q).judgments == q.judgments && f(q).chunks == q.chunks
    requires AllJudgedBy(s, judge, runs)
    ensures AllJudgedBy(OnQuestions(s, f), judge, runs)
    ensures ChunkFree(s) ==> ChunkFree(OnQuestions(s, f))
  {
    PassKeepsJudged(s, f, judge, runs);
    PassKeepsChunkFree(s, f);
  }

  /** Averaging keeps the judgments and the absence of chunks. */
  lemma AggregateKeeps(s: Sheet, judge: string, runs: nat)
    requires AllJudgedBy(s, judge, runs)
    ensures AllJudgedBy(AggregateJudgments(s), judge, runs)
    ensures ChunkFree(s) ==> ChunkFree(AggregateJudgments(s))
  {
    PassKeeps(s, AggregateNode, judge, runs);
  }

  /** Injecting maximum points keeps the judgments and the absence of chunks. */
  lemma InjectKeeps(s: Sheet, solution: Sheet, judge: string, runs: nat)
    requires AllJudgedBy(s, judge, runs)
    ensures AllJudgedBy(InjectMaxPoints(s, solution), judge, runs)
    ensures ChunkFree(s) ==> ChunkFree(InjectMaxPoints(s, solution))
  {
    var pm := MaxPoints(QuestionsOf(solution));
    PassKeeps(s, q => InjectNode(pm, q), judge, runs);
  }

  /**
   * One judge's pass over the model answers: a reset copy, `|chats|` runs
   * collected, then averaging, maximum points and the summary. The summary
   * is that of the finished tree, after averaging and injection.
   */
  function JudgeRun(py: Python, judge: string, chats: seq<ChatOracle>, modelAnswers: Sheet, solution: Sheet): (r: Sheet)
    ensures AllJudgedBy(r, judge, |chats|)
    ensures ChunkFree(modelAnswers) ==> ChunkFree(r)
    ensures r.summary == Some(OnlineSummary(py, Views(Flatten(QuestionsOf(r)))))
  {
    var acc := InitJudgments(modelAnswers);
    InitIsJudgedByNone(modelAnswers, judge);
    InitKeepsChunkFree(modelAnswers);
    var collected := CollectRuns(py, judge, chats, modelAnswers, solution, acc, 0);
    AggregateKeeps(collected, judge, |chats|);
    InjectKeeps(AggregateJudgments(collected), solution, judge, |chats|);
    UpdateGradingSummary(py, InjectMaxPoints(AggregateJudgments(collected), solution))
  }

  /** What the runner produces for one model: the chunk report, the model answers it writes, one graded sheet per judge. */
  datatype ModelRun = ModelRun(chunkReport: seq<ChunkEntry>, modelAnswers: Sheet, graded: seq<Sheet>)

  /** The judges are the keys of the `judge_models` dictionary, so no name occurs twice. */
  predicate DistinctJudges(judges: seq<string>) {
    forall i, j :: 0 <= i < j < |judges| ==> judges[i] != judges[j]
  }

  /**
   * The body of the per-model loop of `run`, from the generated answers on.
   * `chats(judge, run_id)` is the judge's client in that run.
   */
  function BenchmarkModel(py: Python, generated: Sheet, answerSheet: Sheet, solution: Sheet,
                          judges: seq<string>, numRuns: nat, chats: (string, nat) -> ChatOracle): (r: ModelRun)
    requires DistinctJudges(judges)
    ensures r.chunkReport == Entries(Flatten(QuestionsOf(EnsureAnswerStructure(answerSheet, generated, true))))
    ensures r.modelAnswers == RemoveChunks(EnsureAnswerStructure(answerSheet, generated, true))
    ensures ChunkFree(r.modelAnswers)
    ensures |r.graded| == |judges|
    ensures forall i :: 0 <= i < |judges| ==> AllJudgedBy(r.graded[i], judges[i], numRuns) && ChunkFree(r.graded[i])
  {
    var merged := EnsureAnswerStructure(answerSheet, generated, true);
    var report := ChunkReport(merged);
    var answers := RemoveChunks(merged);
    ModelRun(report, answers, JudgeAll(py, judges, numRuns, chats, answers, solution))
  }

  /** The `for judge_model in judge_models` loop: one finished sheet per judge, in order. */
  function JudgeAll(py: Python, judges: seq<string>, numRuns: nat, chats: (string, nat) -> ChatOracle,
                    answers: Sheet, solution: Sheet): (r: seq<Sheet>)
    requires DistinctJudges(judges)
    ensures |r| == |judges|
    ensures forall i :: 0 <= i < |judges| ==> AllJudgedBy(r[i], judges[i], numRuns)
    ensures ChunkFree(answers) ==> forall i :: 0 <= i < |judges| ==> ChunkFree(r[i])
  {
    var r := seq(|judges|, i requires 0 <= i < |judges| =>
                 JudgeRun(py, judges[i], RunChats(chats, judges[i], numRuns), answers, solution));
    assert forall i :: 0 <= i < |judges| ==> AllJudgedBy(r[i], judges[i], numRuns) by {
      forall i | 0 <= i < |judges| ensures AllJudgedBy(r[i], judges[i], numRuns) {
        assert r[i] == JudgeRun(py, judges[i], RunChats(chats, judges[i], numRuns), answers, solution);
      }
    }
    r
  }

  /** The judge's clients for runs `1..numRuns`. */
  function RunChats(chats: (string, nat) -> ChatOracle, judge: string, numRuns: nat): (r: seq<ChatOracle>)
    ensures |r| == numRuns
  {
    seq(numRuns, k requires 0 <= k < numRuns => chats(judge, k + 1))
  }
}
