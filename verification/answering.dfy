/**
 * The two LLM-driven walks over an exam tree: the evaluated model answering
 * every leaf, and the judge grading every answered leaf against the
 * solution sheet. The chat service is an oracle: the raw reply to the n-th
 * request of a walk, given what was asked. Both walks are pure, so the
 * sheets they are given stay as they were (the source works on deep copies).
 */
module Answering {
  import opened Wrappers
  import opened JsonValues
  import opened Text
  import opened Fences
  import opened Exam
  import opened Forest
  import opened Index
  import opened Judging

  /** What a request asks, as far as the exam tree determines it. */
  datatype Request =
    | ContextRequest(text: Json)
    | AnswerRequest(text: Json)
    | GradeRequest(text: Json, answer: Json, solution: Json, criteria: Json, maxPoints: Json)

  /**
   * The chat client: what `OpenRouterClient.chat` returns for the n-th
   * request of a walk, that is the completion after the client's own
   * clean-up (`Fences.StripMarkdownFences`).
   */
  type ChatOracle = (nat, Request) -> string

  /** Attempts per leaf, for answers and for grades alike. */
  const MaxRetries: nat := 3

  const ErrorFeedback: string := "Error parsing judge response"

  /** `q.get("question_text", "")`. */
  function TextOf(q: Question): Json {
    q.text.GetOr(JStr(""))
  }

  /** A question the walks descend into: `"subquestions" in q and q["subquestions"]`. */
  predicate IsParent(q: Question) {
    Kids(q) != []
  }

  /** A question the walks answer or grade: not a parent, and it has `answer_field`. */
  predicate IsAnswerable(q: Question) {
    !IsParent(q) && q.answer.Some?
  }

  /** The number of chat sites of a walk: every parent (one context request) and every answerable leaf. */
  function Sites(qs: seq<Question>): nat
    decreases Size(qs)
  {
    if qs == [] then 0
    else
      HeadSmaller(qs);
      var q := qs[0];
      (if IsParent(q) then 1 + Sites(Kids(q)) else if IsAnswerable(q) then 1 else 0) + Sites(qs[1..])
  }

  // ----- EvaluatedModel.generate_answers -----

  /** The client's replies to one request sent again and again, each `.strip()`ped, by request index. */
  function StrippedReplies(chat: ChatOracle, req: Request): nat -> string {
    (k: nat) => Strip(chat(k, req))
  }

  /**
   * The retry loop for one leaf with `left` attempts to go, over the
   * stripped replies `get`: the answer written and the next request index.
   * The answer is the first non-empty reply, or `""` once every attempt
   * came back empty.
   */
  function AnswerAttempts(get: nat -> string, n: nat, left: nat): (r: (string, nat))
    ensures left == 0 ==> r == ("", n)
    ensures left > 0 ==> n < r.1 <= n + left
    ensures r.0 != [] ==> r.0 == get(r.1 - 1)
    ensures r.0 != [] ==> forall k :: n <= k < r.1 - 1 ==> get(k) == []
    ensures r.0 == [] ==> r.1 == n + left && forall k :: n <= k < n + left ==> get(k) == []
    decreases left
  {
    if left == 0 then ("", n)
    else if get(n) != [] then (get(n), n + 1)
    else AnswerAttempts(get, n + 1, left - 1)
  }

  /** The answer written is always trimmed: it is empty or one stripped reply. */
  lemma AnswerTrimmed(chat: ChatOracle, req: Request, n: nat)
    ensures Trimmed(AnswerAttempts(StrippedReplies(chat, req), n, MaxRetries).0)
  {
    var get := StrippedReplies(chat, req);
    forall k: nat ensures Trimmed(get(k)) {
      StrippedIsTrimmed(chat(k, req));
    }
    AttemptsKeepTrimmed(get, n, MaxRetries);
  }

  /** When every reply is trimmed, so is the answer the loop settles on. */
  lemma AttemptsKeepTrimmed(get: nat -> string, n: nat, left: nat)
    requires forall k: nat :: Trimmed(get(k))
    ensures Trimmed(AnswerAttempts(get, n, left).0)
  {
    var r := AnswerAttempts(get, n, left);
    if r.0 != [] {
      assert r.0 == get(r.1 - 1);
    }
  }

  lemma StrippedIsTrimmed(s: string)
    ensures Trimmed(Strip(s))
  {
  }

  /** A first reply that is not blank is taken, stripped, with no further request. */
  lemma FirstReplyTaken(chat: ChatOracle, req: Request, n: nat)
    requires Strip(chat(n, req)) != []
    ensures AnswerAttempts(StrippedReplies(chat, req), n, MaxRetries) == (Strip(chat(n, req)), n + 1)
  {
    assert StrippedReplies(chat, req)(n) == Strip(chat(n, req));
  }

  /** Three empty replies give the empty answer and use up three requests. */
  lemma EmptyRepliesGiveUp(get: nat -> string, n: nat)
    requires forall k :: n <= k < n + MaxRetries ==> get(k) == []
    ensures AnswerAttempts(get, n, MaxRetries) == ("", n + MaxRetries)
  {
  }

  /**
   * `process_questions`: the questions with every answerable leaf's
   * `answer_field` filled in, and the next request index. A parent costs one
   * context request and is itself left alone.
   */
  function AnswerQuestions(chat: ChatOracle, qs: seq<Question>, n: nat): (r: (seq<Question>, nat))
    ensures AnsweredFrom(chat, qs, r.0)
    ensures n + Sites(qs) <= r.1 <= n + MaxRetries * Sites(qs)
    decreases Size(qs)
  {
    if qs == [] then ([], n)
    else
      HeadSmaller(qs);
      var q := qs[0];
      var head :=
        if IsParent(q) then
          var kids := AnswerQuestions(chat, Kids(q), n + 1);
          (WithKids(q, kids.0), kids.1)
        else if IsAnswerable(q) then
          var a := AnswerAttempts(StrippedReplies(chat, AnswerRequest(TextOf(q))), n, MaxRetries);
          AnswerTrimmed(chat, AnswerRequest(TextOf(q)), n);
          (q.(answer := Some(JStr(a.0))), a.1)
        else (q, n);
      var tail := AnswerQuestions(chat, qs[1..], head.1);
      var r := ([head.0] + tail.0, tail.1);
      assert r.0[0] == head.0 && r.0[1..] == tail.0;
      r
  }

  /**
   * `b` is `a` after the answer walk, position by position at every depth:
   * a parent keeps every key but its (answered) sub-questions, an answerable
   * leaf changes only `answer_field`, to a trimmed string that the retry
   * loop chose among the replies to that leaf's own question, and every
   * other question is unchanged.
   */
  ghost predicate AnsweredFrom(chat: ChatOracle, a: seq<Question>, b: seq<Question>)
    decreases Size(a)
  {
    if |a| != |b| then false
    else if a == [] then true
    else
      HeadSmaller(a);
      var x, y := a[0], b[0];
      && (if IsParent(x) then y == WithKids(x, Kids(y)) && AnsweredFrom(chat, Kids(x), Kids(y))
          else if IsAnswerable(x) then
            && y == x.(answer := y.answer)
            && y.answer.Some? && y.answer.value.JStr? && Trimmed(y.answer.value.s)
            && exists k: nat :: y.answer.value.s == AnswerAttempts(StrippedReplies(chat, AnswerRequest(TextOf(x))), k, MaxRetries).0
          else y == x)
      && AnsweredFrom(chat, a[1..], b[1..])
  }

  /** `generate_answers`: a sheet with the same keys, whose questions went through the answer walk. */
  function GenerateAnswers(chat: ChatOracle, sheet: Sheet): (r: Sheet)
    ensures r.(questions := sheet.questions) == sheet
    ensures r.questions.Some? == sheet.questions.Some?
    ensures AnsweredFrom(chat, QuestionsOf(sheet), QuestionsOf(r))
  {
    if sheet.questions.Some? then
      sheet.(questions := Some(AnswerQuestions(chat, sheet.questions.value, 0).0))
    else
      assert AnsweredFrom(chat, [], []);
      sheet
  }

  /** The answer walk keeps parents and answerable leaves where they are, so a later walk makes as many requests. */
  lemma {:induction false} AnsweredKeepsSites(chat: ChatOracle, a: seq<Question>, b: seq<Question>)
    requires AnsweredFrom(chat, a, b)
    ensures Sites(b) == Sites(a)
    decreases Size(a)
  {
    if a != [] {
      HeadSmaller(a);
      HeadSmaller(b);
      if IsParent(a[0]) {
        AnsweredKeepsSites(chat, Kids(a[0]), Kids(b[0]));
      }
      AnsweredKeepsSites(chat, a[1..], b[1..]);
    }
  }

  // ----- JudgeModel.grade: reading one reply -----

  /** How one judge reply ends: a score, a caught parse failure, or an exception the loop does not catch. */
  datatype Verdict = Scored(points: real, feedback: Json) | Malformed | Uncaught

  /** `result.get("points")` with `None` replaced by `0`: a missing key and JSON `null` both read as zero. */
  function PointsOf(fields: seq<(string, Json)>): (v: Json)
    ensures Member(fields, "points").None? ==> v == JInt(0)
    ensures v != JNull
  {
    match Member(fields, "points")
    case None => JInt(0)
    case Some(p) => if p == JNull then JInt(0) else p
  }

  /**
   * The `try` body as written, on the result of `json.loads`: read `points`
   * and `feedback`. A parse failure or a `ValueError` from `float(points)`
   * is caught; a value that is not an object (`result.get` raises
   * `AttributeError`) and a `points` value that is a list or an object
   * (`float` raises `TypeError`) are not.
   */
  function ReadVerdictAsWritten(py: Python, parsed: Option<Json>): (v: Verdict)
    ensures parsed.None? ==> v == Malformed
    ensures v.Uncaught? <==>
              parsed.Some? && (!parsed.value.JObj? || PyFloat(py, PointsOf(parsed.value.fields)).TypeErr?)
    ensures !v.Uncaught? ==> v == ReadVerdict(py, parsed)
  {
    match parsed
    case None => Malformed
    case Some(j) =>
      if !j.JObj? then Uncaught
      else
        match PyFloat(py, PointsOf(j.fields))
        case Converted(x) => Scored(x, Member(j.fields, "feedback").GetOr(JStr("")))
        case ValueErr => Malformed
        case TypeErr => Uncaught
  }

  /**
   * The `try` body as evidently intended: every value that does not yield
   * a number of points is a malformed reply, to be retried.
   */
  function ReadVerdict(py: Python, parsed: Option<Json>): (v: Verdict)
    ensures !v.Uncaught?
    ensures v.Scored? <==> parsed.Some? && parsed.value.JObj? && PyFloat(py, PointsOf(parsed.value.fields)).Converted?
  {
    match parsed
    case None => Malformed
    case Some(j) =>
      if !j.JObj? then Malformed
      else
        match PyFloat(py, PointsOf(j.fields))
        case Converted(x) => Scored(x, Member(j.fields, "feedback").GetOr(JStr("")))
        case _ => Malformed
  }

  /** The judge's reply, cleaned of markdown fences as `_clean_json_text` does, then parsed. */
  function ParseReply(py: Python, reply: string): Option<Json> {
    py.loads(CleanJsonText(reply))
  }

  /** The parsed replies to one grading request sent again and again, by request index. */
  function ParsedReplies(py: Python, chat: ChatOracle, req: Request): nat -> Option<Json> {
    (k: nat) => ParseReply(py, chat(k, req))
  }

  /** Missing or `null` points score zero; `feedback` defaults to `""`. */
  lemma MissingPointsScoreZero(py: Python, fields: seq<(string, Json)>)
    requires Member(fields, "points").None? || Member(fields, "points") == Some(JNull)
    ensures ReadVerdict(py, Some(JObj(fields))) == Scored(0.0, Member(fields, "feedback").GetOr(JStr("")))
  {
  }

  /** Numeric points are recorded as the number they stand for. */
  lemma NumericPointsScored(py: Python, fields: seq<(string, Json)>, p: Json)
    requires Member(fields, "points") == Some(p) && IsNumeric(p)
    ensures ReadVerdict(py, Some(JObj(fields))) == Scored(NumValue(p), Member(fields, "feedback").GetOr(JStr("")))
  {
  }

  /** A value that is not an object escapes the loop as written, and is retried as intended. */
  lemma NonObjectEscapes(py: Python, j: Json)
    requires !j.JObj?
    ensures ReadVerdictAsWritten(py, Some(j)) == Uncaught
    ensures ReadVerdict(py, Some(j)) == Malformed
  {
  }

  /** A judge reply that is the bare number `5`, parsed as `json.loads` parses it, escapes the loop as written. */
  lemma BareNumberReplyEscapes(py: Python)
    requires py.loads("5") == Some(JInt(5))
    ensures ReadVerdictAsWritten(py, ParseReply(py, "5")) == Uncaught
    ensures ReadVerdict(py, ParseReply(py, "5")) == Malformed
  {
    assert Trimmed("5");
    assert !StartsWith("5", Fence) && !EndsWith("5", Fence);
    assert CleanJsonText("5") == "5";
  }

  /** A `points` list makes `float` raise `TypeError`, which escapes the loop as written, and is retried as intended. */
  lemma ListPointsEscape(py: Python, fields: seq<(string, Json)>, items: seq<Json>)
    requires Member(fields, "points") == Some(JArr(items))
    ensures ReadVerdictAsWritten(py, Some(JObj(fields))) == Uncaught
    ensures ReadVerdict(py, Some(JObj(fields))) == Malformed
  {
  }

  // ----- JudgeModel.grade: the retry loop -----

  /** The two keys the loop writes on a leaf. */
  datatype Grade = Grade(awarded: Json, feedback: Json)

  /** What the loop writes after its last failed attempt. */
  const FailedGrade: Grade := Grade(JInt(0), JStr(ErrorFeedback))

  /**
   * The retry loop with `left` attempts to go, as intended, over the
   * client's replies `get`: the grade of the first reply that scores, or
   * `FailedGrade` once every attempt failed; and the next request index.
   */
  function JudgeAttempts(py: Python, get: nat -> Option<Json>, n: nat, left: nat): (r: (Grade, nat))
    ensures left == 0 ==> r == (FailedGrade, n)
    ensures left > 0 ==> n < r.1 <= n + left
    ensures r.0.awarded.JFloat? ==>
              ReadVerdict(py, get(r.1 - 1)) == Scored(r.0.awarded.f, r.0.feedback)
    ensures r.0.awarded.JFloat? ==>
              forall k :: n <= k < r.1 - 1 ==> !ReadVerdict(py, get(k)).Scored?
    ensures !r.0.awarded.JFloat? ==>
              && r == (FailedGrade, n + left)
              && forall k :: n <= k < n + left ==> !ReadVerdict(py, get(k)).Scored?
    decreases left
  {
    if left == 0 then (FailedGrade, n)
    else
      var v := ReadVerdict(py, get(n));
      if v.Scored? then (Grade(JFloat(v.points), v.feedback), n + 1)
      else JudgeAttempts(py, get, n + 1, left - 1)
  }

  /**
   * The retry loop as written: `None` when an attempt raises an exception
   * the loop does not catch, which ends the whole `grade` call. Whenever it
   * does not raise, it agrees with the intended loop.
   */
  function JudgeAttemptsAsWritten(py: Python, get: nat -> Option<Json>, n: nat, left: nat): (r: Option<(Grade, nat)>)
    ensures r.Some? ==> r.value == JudgeAttempts(py, get, n, left)
    ensures left > 0 && ReadVerdictAsWritten(py, get(n)).Uncaught? ==> r.None?
    ensures r.None? <==> Escapes(py, get, n, left)
    decreases left
  {
    if left == 0 then
      NoEscapeWithoutAttempts(py, get, n);
      Some((FailedGrade, n))
    else
      EscapeStep(py, get, n, left);
      match ReadVerdictAsWritten(py, get(n))
      case Scored(x, fb) => Some((Grade(JFloat(x), fb), n + 1))
      case Malformed => JudgeAttemptsAsWritten(py, get, n + 1, left - 1)
      case Uncaught => None
  }

  /**
   * Attempt `k` is the one that escapes, when the loop starts at request
   * `n`: its reply raises an uncaught exception and every earlier reply
   * was malformed, so the loop went on to it.
   */
  predicate EscapesAt(py: Python, get: nat -> Option<Json>, n: nat, k: nat) {
    && n <= k
    && ReadVerdictAsWritten(py, get(k)).Uncaught?
    && forall j :: n <= j < k ==> ReadVerdictAsWritten(py, get(j)).Malformed?
  }

  /** One of the `left` attempts from request `n` on escapes. */
  predicate Escapes(py: Python, get: nat -> Option<Json>, n: nat, left: nat) {
    exists k: nat :: k < n + left && EscapesAt(py, get, n, k)
  }

  /** With no attempts left nothing can escape. */
  lemma NoEscapeWithoutAttempts(py: Python, get: nat -> Option<Json>, n: nat)
    ensures !Escapes(py, get, n, 0)
  {
  }

  /** Whether an attempt escapes, read off the first reply. */
  lemma EscapeStep(py: Python, get: nat -> Option<Json>, n: nat, left: nat)
    requires left > 0
    ensures ReadVerdictAsWritten(py, get(n)).Scored? ==> !Escapes(py, get, n, left)
    ensures ReadVerdictAsWritten(py, get(n)).Uncaught? ==> Escapes(py, get, n, left)
    ensures ReadVerdictAsWritten(py, get(n)).Malformed? ==>
              (Escapes(py, get, n, left) <==> Escapes(py, get, n + 1, left - 1))
  {
    var v := ReadVerdictAsWritten(py, get(n));
    if v.Scored? {
      assert forall k: nat :: EscapesAt(py, get, n, k) ==> k == n;
    } else if v.Uncaught? {
      assert EscapesAt(py, get, n, n);
    } else {
      EscapesAfterMalformed(py, get, n);
      if Escapes(py, get, n, left) {
        var k: nat :| k < n + left && EscapesAt(py, get, n, k);
        assert EscapesAt(py, get, n + 1, k);
      }
      if Escapes(py, get, n + 1, left - 1) {
        var k: nat :| k < (n + 1) + (left - 1) && EscapesAt(py, get, n + 1, k);
        assert EscapesAt(py, get, n, k);
      }
    }
  }

  /** After a malformed first reply, the attempt that escapes is one of the later ones. */
  lemma EscapesAfterMalformed(py: Python, get: nat -> Option<Json>, n: nat)
    requires ReadVerdictAsWritten(py, get(n)).Malformed?
    ensures forall k: nat :: EscapesAt(py, get, n, k) <==> EscapesAt(py, get, n + 1, k)
  {
    forall k: nat ensures EscapesAt(py, get, n, k) <==> EscapesAt(py, get, n + 1, k) {
      if EscapesAt(py, get, n + 1, k) {
        assert forall j :: n <= j < k ==> ReadVerdictAsWritten(py, get(j)).Malformed? by {
          forall j | n <= j < k ensures ReadVerdictAsWritten(py, get(j)).Malformed? {
            if j > n {
              assert n + 1 <= j < k;
            }
          }
        }
      }
    }
  }

  /** A first judge reply of `5` ends `grade` as written, while the intended loop asks at least once more. */
  lemma BareNumberEndsGrading(py: Python, get: nat -> Option<Json>, n: nat)
    requires get(n) == Some(JInt(5))
    ensures JudgeAttemptsAsWritten(py, get, n, MaxRetries).None?
    ensures JudgeAttempts(py, get, n, MaxRetries).1 >= n + 2
  {
    NonObjectEscapes(py, JInt(5));
  }

  // ----- JudgeModel.grade: the walk -----

  /**
   * `solution_map`: every question of the solution sheet with a
   * `question_id`, at any depth, under its id; a later question replaces an
   * earlier one with the same id. It is built exactly as `run_map` is.
   */
  function SolutionMap(solution: Sheet): (m: map<string, Question>)
    ensures forall id :: id in m ==> m[id].id == Some(id) && m[id] in Flatten(QuestionsOf(solution))
  {
    RunMap(QuestionsOf(solution))
  }

  /**
   * The request for one leaf: `solution_map.get(qid, {})` supplies the
   * solution, criteria and maximum points, with `"N/A"`, `"N/A"` and `0`
   * for whatever is missing.
   */
  function GradeRequestFor(solMap: map<string, Question>, q: Question): (r: Request)
    ensures r.GradeRequest? && r.text == TextOf(q) && r.answer == q.answer.GetOr(JStr(""))
    ensures q.id.None? || q.id.value !in solMap ==>
              r.solution == JStr("N/A") && r.criteria == JStr("N/A") && r.maxPoints == JInt(0)
    ensures q.id.Some? && q.id.value in solMap ==>
              && r.solution == solMap[q.id.value].solution.GetOr(JStr("N/A"))
              && r.criteria == solMap[q.id.value].criteria.GetOr(JStr("N/A"))
              && r.maxPoints == solMap[q.id.value].points.GetOr(JInt(0))
  {
    var sol := if q.id.Some? && q.id.value in solMap then Some(solMap[q.id.value]) else None;
    GradeRequest(
      TextOf(q),
      q.answer.GetOr(JStr("")),
      if sol.Some? then sol.value.solution.GetOr(JStr("N/A")) else JStr("N/A"),
      if sol.Some? then sol.value.criteria.GetOr(JStr("N/A")) else JStr("N/A"),
      if sol.Some? then sol.value.points.GetOr(JInt(0)) else JInt(0))
  }

  /** A leaf whose id occurs nowhere in the solution sheet is graded against `"N/A"`, `"N/A"` and 0 points. */
  lemma UnknownIdDefaults(solution: Sheet, q: Question)
    requires forall n :: n in Flatten(QuestionsOf(solution)) ==> n.id != q.id
    ensures GradeRequestFor(SolutionMap(solution), q).solution == JStr("N/A")
    ensures GradeRequestFor(SolutionMap(solution), q).criteria == JStr("N/A")
    ensures GradeRequestFor(SolutionMap(solution), q).maxPoints == JInt(0)
  {
    var m := SolutionMap(solution);
    if q.id.Some? && q.id.value in m {
      assert false;
    }
  }

  /** A leaf whose id occurs in the solution sheet is graded against the last question there with that id. */
  lemma KnownIdUsesLast(solution: Sheet, q: Question, i: int)
    requires q.id.Some? && LastWithId(Flatten(QuestionsOf(solution)), i, q.id.value)
    ensures GradeRequestFor(SolutionMap(solution), q).solution ==
              Flatten(QuestionsOf(solution))[i].solution.GetOr(JStr("N/A"))
    ensures GradeRequestFor(SolutionMap(solution), q).criteria ==
              Flatten(QuestionsOf(solution))[i].criteria.GetOr(JStr("N/A"))
    ensures GradeRequestFor(SolutionMap(solution), q).maxPoints ==
              Flatten(QuestionsOf(solution))[i].points.GetOr(JInt(0))
  {
    var walk := Flatten(QuestionsOf(solution));
    var id := q.id.value;
    var idx := NodeIndex(walk);
    assert id in idx;
    var j := idx[id];
    assert j == i;
    assert SolutionMap(solution)[id] == walk[i];
  }

  /**
   * A leaf after grading: only `awarded_points` and `feedback` changed, to a
   * score or to the failure marker, and they are what the retry loop made
   * of the judge's replies to this leaf's own grading request.
   */
  ghost predicate GradedLeaf(py: Python, chat: ChatOracle, solMap: map<string, Question>, x: Question, y: Question) {
    && y == x.(awarded := y.awarded, feedback := y.feedback)
    && y.awarded.Some? && y.feedback.Some?
    && (y.awarded.value.JFloat? || Grade(y.awarded.value, y.feedback.value) == FailedGrade)
    && exists k: nat :: Grade(y.awarded.value, y.feedback.value) ==
                        JudgeAttempts(py, ParsedReplies(py, chat, GradeRequestFor(solMap, x)), k, MaxRetries).0
  }

  /**
   * `b` is `a` after the grading walk, position by position at every depth:
   * a parent keeps every key but its (graded) sub-questions, an answerable
   * leaf is a `GradedLeaf`, and every other question is unchanged.
   */
  ghost predicate GradedFrom(py: Python, chat: ChatOracle, solMap: map<string, Question>, a: seq<Question>, b: seq<Question>)
    decreases Size(a)
  {
    if |a| != |b| then false
    else if a == [] then true
    else
      HeadSmaller(a);
      var x, y := a[0], b[0];
      && (if IsParent(x) then y == WithKids(x, Kids(y)) && GradedFrom(py, chat, solMap, Kids(x), Kids(y))
          else if IsAnswerable(x) then GradedLeaf(py, chat, solMap, x, y)
          else y == x)
      && GradedFrom(py, chat, solMap, a[1..], b[1..])
  }

  /** `process_grading`: the questions with every answerable leaf graded, and the next request index. */
  function GradeQuestions(py: Python, chat: ChatOracle, solMap: map<string, Question>, qs: seq<Question>, n: nat): (r: (seq<Question>, nat))
    ensures GradedFrom(py, chat, solMap, qs, r.0)
    ensures n + Sites(qs) <= r.1 <= n + MaxRetries * Sites(qs)
    decreases Size(qs)
  {
    if qs == [] then ([], n)
    else
      HeadSmaller(qs);
      var q := qs[0];
      var head :=
        if IsParent(q) then
          var kids := GradeQuestions(py, chat, solMap, Kids(q), n + 1);
          (WithKids(q, kids.0), kids.1)
        else if IsAnswerable(q) then
          var g := JudgeAttempts(py, ParsedReplies(py, chat, GradeRequestFor(solMap, q)), n, MaxRetries);
          (q.(awarded := Some(g.0.awarded), feedback := Some(g.0.feedback)), g.1)
        else (q, n);
      var tail := GradeQuestions(py, chat, solMap, qs[1..], head.1);
      var r := ([head.0] + tail.0, tail.1);
      assert r.0[0] == head.0 && r.0[1..] == tail.0;
      r
  }

  /** `grade(model_answers, solution_sheet)`: a sheet with the same keys, whose questions went through the grading walk. */
  function GradeSheet(py: Python, chat: ChatOracle, modelAnswers: Sheet, solution: Sheet): (r: Sheet)
    ensures r.(questions := modelAnswers.questions) == modelAnswers
    ensures r.questions.Some? == modelAnswers.questions.Some?
    ensures GradedFrom(py, chat, SolutionMap(solution), QuestionsOf(modelAnswers), QuestionsOf(r))
  {
    if modelAnswers.questions.Some? then
      var qs := GradeQuestions(py, chat, SolutionMap(solution), modelAnswers.questions.value, 0).0;
      modelAnswers.(questions := Some(qs))
    else
      assert GradedFrom(py, chat, SolutionMap(solution), [], []);
      modelAnswers
  }
}
