/**
 * `_ensure_answer_structure`: forcing a model's answer tree into the shape
 * of the reference answer sheet. The plain runner and the RAG runner carry
 * the same code except that the RAG copy also takes `retrieved_chunks` from
 * the candidate; `rag` selects between them.
 */
module Merge {
  import opened Wrappers
  import opened JsonValues
  import opened Exam
  import opened Forest
  import opened Index

  const FailureMessage: string := "Model answer generation failed"

  /** `merge_questions(ref_qs, cand_qs)`: one node per distinct reference id, in first-seen order. */
  function MergeList(refQs: seq<Question>, candQs: seq<Question>, rag: bool): (r: seq<Question>)
    ensures |r| == |FirstKeys(refQs)|
    ensures forall i :: 0 <= i < |r| ==> r[i].id == FirstKeys(refQs)[i]
    decreases Size(refQs), 2, 0
  {
    MergeKeys(refQs, candQs, FirstKeys(refQs), rag)
  }

  /** The loop over `ref_map.items()` from the given keys on. */
  function MergeKeys(refQs: seq<Question>, candQs: seq<Question>, keys: seq<Option<string>>, rag: bool): (r: seq<Question>)
    requires forall k :: k in keys ==> k in Ids(refQs)
    ensures |r| == |keys|
    ensures forall i :: 0 <= i < |r| ==> r[i].id == keys[i]
    decreases Size(refQs), 1, |keys|
  {
    if keys == [] then []
    else
      IdKeyed(refQs, keys[0]);
      var j := ByKey(refQs)[keys[0]];
      MemberSmaller(refQs, j);
      var rest := MergeKeys(refQs, candQs, keys[1..], rag);
      var head := MergeNode(refQs[j], CandidateFor(candQs, keys[0]), rag);
      ConsKeys(head, rest, keys);
      [head] + rest
  }

  /** A node carrying the first key in front of nodes carrying the remaining keys carries all of them, in order. */
  lemma ConsKeys(head: Question, rest: seq<Question>, keys: seq<Option<string>>)
    requires keys != [] && head.id == keys[0]
    requires |rest| == |keys| - 1 && forall i :: 0 <= i < |rest| ==> rest[i].id == keys[1..][i]
    ensures forall i :: 0 <= i < |keys| ==> ([head] + rest)[i].id == keys[i]
  {
    forall i | 1 <= i < |keys| ensures ([head] + rest)[i].id == keys[i] {
      assert ([head] + rest)[i] == rest[i - 1];
    }
  }

  /** `cand_map.get(qid)`: the last candidate carrying the id. */
  function CandidateFor(candQs: seq<Question>, key: Option<string>): (c: Option<Question>)
    ensures c.None? <==> key !in Ids(candQs)
    ensures c.Some? ==> c.value in candQs && c.value.id == key
    ensures c.Some? ==> exists i :: 0 <= i < |candQs| && candQs[i] == c.value && candQs[i].id == key &&
                                    forall j :: i < j < |candQs| ==> candQs[j].id != key
  {
    var m := ByKey(candQs);
    if key in m then Some(candQs[m[key]]) else None
  }

  /** The body of the loop: a deep copy of the reference node, adjusted. */
  function MergeNode(ref: Question, cand: Option<Question>, rag: bool): (r: Question)
    ensures r.id == ref.id && SameExceptMerged(r, ref, rag)
    ensures cand.Some? && cand.value.answer.Some? ==> r.answer == cand.value.answer
    ensures cand.Some? && cand.value.answer.None? ==> r.answer == ref.answer
    ensures cand.None? ==> r.answer == (if ref.answer.Some? then Some(JStr("")) else None)
    ensures rag && cand.Some? && cand.value.chunks.Some? ==> r.chunks == cand.value.chunks
    ensures (rag && cand.Some? && cand.value.chunks.Some?) || r.chunks == ref.chunks
    decreases NodeCount(ref), 0, 0
  {
    KidsSmaller(ref);
    match cand
    case Some(c) =>
      ref.(answer := if c.answer.Some? then c.answer else ref.answer,
           chunks := if rag && c.chunks.Some? then c.chunks else ref.chunks,
           subs := if ref.subs.Present? then Present(MergeList(ref.subs.items, Kids(c), rag)) else ref.subs)
    case None =>
      ref.(answer := if ref.answer.Some? then Some(JStr("")) else None,
           subs := if ref.subs.Present? then Present(MergeList(ref.subs.items, [], rag)) else ref.subs)
  }

  /** The sub-questions of a merged node are the reference's, merged against the candidate's (or against none). */
  lemma MergeNodeKids(ref: Question, cand: Option<Question>, rag: bool)
    ensures ref.subs.Present? ==> Kids(MergeNode(ref, cand, rag)) == MergeList(Kids(ref), CandKids(cand), rag)
    ensures ref.subs.Absent? ==> Kids(MergeNode(ref, cand, rag)) == []
  {
  }

  /** `cand_q.get("subquestions", [])`, or `[]` when there is no candidate. */
  function CandKids(cand: Option<Question>): seq<Question> {
    if cand.Some? then Kids(cand.value) else []
  }

  /** A merged node agrees with its reference node on every key the merge does not set. */
  predicate SameExceptMerged(r: Question, ref: Question, rag: bool) {
    && r.(answer := ref.answer, subs := ref.subs, chunks := ref.chunks) == ref
    && r.subs.Present? == ref.subs.Present?
    && (!rag ==> r.chunks == ref.chunks)
  }

  /**
   * `_ensure_answer_structure(reference, candidate)`. An empty candidate
   * (the only falsy dictionary) yields a copy of the reference flagged with
   * an error; any other keeps its own top-level keys, receives the merged
   * question list and, when it has none, the reference's `exam_metadata`.
   */
  function EnsureAnswerStructure(reference: Sheet, candidate: Sheet, rag: bool): (r: Sheet)
    ensures candidate == EmptySheet ==>
              && r.questions == Some(QuestionsOf(reference))
              && r.metadata.Some?
              && "error" in r.metadata.value && r.metadata.value["error"] == JStr(FailureMessage)
              && (forall k :: k in reference.metadata.GetOr(map[]) && k != "error" ==>
                    k in r.metadata.value && r.metadata.value[k] == reference.metadata.value[k])
              && (forall k :: k in r.metadata.value ==> k == "error" || k in reference.metadata.GetOr(map[]))
              && r.(metadata := reference.metadata, questions := reference.questions) == reference
    ensures candidate != EmptySheet ==>
              && r.questions == Some(MergeList(QuestionsOf(reference), QuestionsOf(candidate), rag))
              && r.metadata == (if candidate.metadata.Some? then candidate.metadata else Some(reference.metadata.GetOr(map[])))
              && r.(metadata := candidate.metadata, questions := candidate.questions) == candidate
  {
    if candidate == EmptySheet then
      reference.(metadata := Some(reference.metadata.GetOr(map[])["error" := JStr(FailureMessage)]),
                 questions := Some(QuestionsOf(reference)))
    else
      candidate.(questions := Some(MergeList(QuestionsOf(reference), QuestionsOf(candidate), rag)),
                 metadata := if candidate.metadata.Some? then candidate.metadata
                             else Some(reference.metadata.GetOr(map[])))
  }

  /** Position `i` of the loop's output merges the reference node behind the `i`-th key. */
  lemma {:induction false} MergeKeysAt(refQs: seq<Question>, candQs: seq<Question>, keys: seq<Option<string>>, rag: bool, i: nat)
    requires forall k :: k in keys ==> k in Ids(refQs)
    requires i < |keys|
    ensures keys[i] in ByKey(refQs)
    ensures MergeKeys(refQs, candQs, keys, rag)[i] ==
            MergeNode(refQs[ByKey(refQs)[keys[i]]], CandidateFor(candQs, keys[i]), rag)
    decreases i
  {
    assert keys[i] in keys;
    var w :| 0 <= w < |Ids(refQs)| && Ids(refQs)[w] == keys[i];
    assert refQs[w].id == keys[i];
    if i > 0 {
      MergeKeysAt(refQs, candQs, keys[1..], rag, i - 1);
    }
  }

  /**
   * With distinct reference ids the merge returns exactly one node per
   * reference question, in reference order, each merged against the
   * candidate carrying its id.
   */
  lemma MergeListAt(refQs: seq<Question>, candQs: seq<Question>, rag: bool)
    requires DistinctIds(refQs)
    ensures |MergeList(refQs, candQs, rag)| == |refQs|
    ensures forall i :: 0 <= i < |refQs| ==>
              MergeList(refQs, candQs, rag)[i] == MergeNode(refQs[i], CandidateFor(candQs, refQs[i].id), rag)
  {
    DistinctKeysAreIds(refQs);
    forall i | 0 <= i < |refQs|
      ensures MergeList(refQs, candQs, rag)[i] == MergeNode(refQs[i], CandidateFor(candQs, refQs[i].id), rag)
    {
      MergeKeysAt(refQs, candQs, Ids(refQs), rag, i);
      DistinctByKey(refQs, i);
    }
  }

  /** Every merged question, at any depth, is a reference question with only the merged keys changed. */
  lemma {:induction false} MergeFromReference(refQs: seq<Question>, candQs: seq<Question>, rag: bool)
    ensures forall n :: n in Flatten(MergeList(refQs, candQs, rag)) ==>
              exists m :: m in Flatten(refQs) && SameExceptMerged(n, m, rag)
    decreases Size(refQs), 2
  {
    MergeKeysFromReference(refQs, candQs, FirstKeys(refQs), rag);
  }

  lemma {:induction false} MergeKeysFromReference(refQs: seq<Question>, candQs: seq<Question>, keys: seq<Option<string>>, rag: bool)
    requires forall k :: k in keys ==> k in Ids(refQs)
    ensures forall n :: n in Flatten(MergeKeys(refQs, candQs, keys, rag)) ==>
              exists m :: m in Flatten(refQs) && SameExceptMerged(n, m, rag)
    decreases Size(refQs), 1, |keys|
  {
    if keys != [] {
      var r := MergeKeys(refQs, candQs, keys, rag);
      MergeKeysAt(refQs, candQs, keys, rag, 0);
      var j := ByKey(refQs)[keys[0]];
      var ref := refQs[j];
      var cand := CandidateFor(candQs, keys[0]);
      MemberSmaller(refQs, j);
      KidsSmaller(ref);
      assert r[1..] == MergeKeys(refQs, candQs, keys[1..], rag);
      MergeKeysFromReference(refQs, candQs, keys[1..], rag);
      TopLevelVisited(refQs, j);
      SubtreeVisited(refQs, ref);
      MergeNodeKids(ref, cand, rag);
      if ref.subs.Present? {
        MergeFromReference(Kids(ref), CandKids(cand), rag);
      }
      FlattenCons(r);
      forall n | n in Flatten(r) ensures exists m :: m in Flatten(refQs) && SameExceptMerged(n, m, rag) {
        if n == r[0] {
          assert SameExceptMerged(n, ref, rag);
        } else if n in Flatten(Kids(r[0])) {
          var m :| m in Flatten(Kids(ref)) && SameExceptMerged(n, m, rag);
          assert m in Flatten(refQs);
        } else {
          assert n in Flatten(r[1..]);
        }
      }
    }
  }

  /** Ids that occur only in the candidate never reach the merged tree. */
  lemma MergeIdsFromReference(refQs: seq<Question>, candQs: seq<Question>, rag: bool)
    ensures forall n :: n in Flatten(MergeList(refQs, candQs, rag)) ==> n.id in Ids(Flatten(refQs))
  {
    MergeFromReference(refQs, candQs, rag);
    forall n | n in Flatten(MergeList(refQs, candQs, rag)) ensures n.id in Ids(Flatten(refQs)) {
      var m :| m in Flatten(refQs) && SameExceptMerged(n, m, rag);
      var k :| 0 <= k < |Flatten(refQs)| && Flatten(refQs)[k] == m;
      assert Ids(Flatten(refQs))[k] == n.id;
    }
  }

  /** Against an empty candidate list every answer slot, at every depth, becomes `""`. */
  lemma {:induction false} UnmatchedAnswersBlank(refQs: seq<Question>, rag: bool)
    ensures forall n :: n in Flatten(MergeList(refQs, [], rag)) && n.answer.Some? ==> n.answer == Some(JStr(""))
    decreases Size(refQs), 2
  {
    UnmatchedKeysBlank(refQs, FirstKeys(refQs), rag);
  }

  lemma {:induction false} UnmatchedKeysBlank(refQs: seq<Question>, keys: seq<Option<string>>, rag: bool)
    requires forall k :: k in keys ==> k in Ids(refQs)
    ensures forall n :: n in Flatten(MergeKeys(refQs, [], keys, rag)) && n.answer.Some? ==> n.answer == Some(JStr(""))
    decreases Size(refQs), 1, |keys|
  {
    if keys != [] {
      var r := MergeKeys(refQs, [], keys, rag);
      MergeKeysAt(refQs, [], keys, rag, 0);
      var j := ByKey(refQs)[keys[0]];
      var ref := refQs[j];
      MemberSmaller(refQs, j);
      KidsSmaller(ref);
      assert CandidateFor([], keys[0]).None?;
      assert r[0] == MergeNode(ref, None, rag);
      assert r[1..] == MergeKeys(refQs, [], keys[1..], rag);
      UnmatchedKeysBlank(refQs, keys[1..], rag);
      MergeNodeKids(ref, None, rag);
      if ref.subs.Present? {
        UnmatchedAnswersBlank(Kids(ref), rag);
      }
      FlattenCons(r);
    }
  }

  /** A candidate that already has the reference's shape and answers passes through unchanged. */
  lemma {:induction false} MergeSelf(refQs: seq<Question>, rag: bool)
    requires WellKeyed(refQs)
    ensures MergeList(refQs, refQs, rag) == refQs
    decreases Size(refQs), 1
  {
    var r := MergeList(refQs, refQs, rag);
    MergeListAt(refQs, refQs, rag);
    forall i | 0 <= i < |refQs| ensures r[i] == refQs[i] {
      DistinctByKey(refQs, i);
      assert CandidateFor(refQs, refQs[i].id) == Some(refQs[i]);
      MemberSmaller(refQs, i);
      WellKeyedKids(refQs, i);
      MergeNodeSelf(refQs[i], rag);
    }
  }

  /** The node-level step of `MergeSelf`. */
  lemma {:induction false} MergeNodeSelf(q: Question, rag: bool)
    requires WellKeyed(Kids(q))
    ensures MergeNode(q, Some(q), rag) == q
    decreases NodeCount(q), 0
  {
    KidsSmaller(q);
    MergeNodeKids(q, Some(q), rag);
    var r := MergeNode(q, Some(q), rag);
    if q.subs.Present? {
      MergeSelf(Kids(q), rag);
      assert r.subs == q.subs;
    }
    assert r.answer == q.answer && r.chunks == q.chunks;
  }

  /**
   * Merging the merge's output against the same reference changes nothing,
   * also when siblings of the reference share an id: the output carries
   * each key once, so every key finds its own merged node as candidate.
   */
  lemma {:induction false} MergeIdempotent(refQs: seq<Question>, candQs: seq<Question>, rag: bool)
    ensures MergeList(refQs, MergeList(refQs, candQs, rag), rag) == MergeList(refQs, candQs, rag)
    decreases Size(refQs), 2
  {
    var keys := FirstKeys(refQs);
    var m := MergeList(refQs, candQs, rag);
    var mm := MergeList(refQs, m, rag);
    assert DistinctIds(m) by {
      forall i, j | 0 <= i < j < |m| ensures m[i].id != m[j].id {
        assert m[i].id == keys[i] && m[j].id == keys[j];
      }
    }
    forall i | 0 <= i < |keys| ensures mm[i] == m[i] {
      MergeAgainAt(refQs, candQs, m, rag, i);
    }
  }

  /** Position `i` of the second merge is position `i` of the first. */
  lemma {:induction false} MergeAgainAt(refQs: seq<Question>, candQs: seq<Question>, m: seq<Question>, rag: bool, i: nat)
    requires m == MergeList(refQs, candQs, rag) && DistinctIds(m)
    requires i < |FirstKeys(refQs)|
    ensures MergeList(refQs, m, rag)[i] == m[i]
    decreases Size(refQs), 1
  {
    var keys := FirstKeys(refQs);
    MergeKeysAt(refQs, candQs, keys, rag, i);
    MergeKeysAt(refQs, m, keys, rag, i);
    var j := ByKey(refQs)[keys[i]];
    DistinctByKey(m, i);
    assert CandidateFor(m, keys[i]) == Some(m[i]);
    MemberSmaller(refQs, j);
    MergeAgain(refQs[j], CandidateFor(candQs, keys[i]), rag);
  }

  /** The node-level step of `MergeIdempotent`. */
  lemma {:induction false} MergeAgain(ref: Question, cand: Option<Question>, rag: bool)
    ensures MergeNode(ref, Some(MergeNode(ref, cand, rag)), rag) == MergeNode(ref, cand, rag)
    decreases NodeCount(ref), 0
  {
    KidsSmaller(ref);
    var m := MergeNode(ref, cand, rag);
    MergeNodeKids(ref, cand, rag);
    MergeNodeKids(ref, Some(m), rag);
    if ref.subs.Present? {
      MergeIdempotent(Kids(ref), CandKids(cand), rag);
    }
  }
}
