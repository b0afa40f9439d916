/**
 * The retrieved context the RAG runner carries on its answers: the report
 * of every question's `retrieved_chunks`, their removal before anything is
 * written or graded, and how the RAG merge relates to the plain one.
 */
module Chunks {
  import opened Wrappers
  import opened JsonValues
  import opened Exam
  import opened Forest
  import opened Index
  import opened Merge
  import opened Judging

  /** One report entry: `{question_id, question_text, retrieved_chunks}`, with `None` for a missing key. */
  datatype ChunkEntry = ChunkEntry(id: Option<string>, text: Option<Json>, chunks: Json)

  function EntryOf(q: Question): ChunkEntry
    requires q.chunks.Some?
  {
    ChunkEntry(q.id, q.text, q.chunks.value)
  }

  /** A question's own report entry, if it carries chunks. */
  function Own(q: Question): seq<ChunkEntry> {
    if q.chunks.Some? then [EntryOf(q)] else []
  }

  /** The reference reading of the report: the entries of the questions of a flat walk that carry chunks, in walk order. */
  function Entries(walk: seq<Question>): seq<ChunkEntry> {
    if walk == [] then [] else Own(walk[0]) + Entries(walk[1..])
  }

  /** Every question of the walk that carries chunks has its entry, and a walk without chunks reports nothing. */
  lemma {:induction false} EntriesCover(walk: seq<Question>)
    ensures |Entries(walk)| <= |walk|
    ensures forall i :: 0 <= i < |walk| && walk[i].chunks.Some? ==> EntryOf(walk[i]) in Entries(walk)
    ensures (forall i :: 0 <= i < |walk| ==> walk[i].chunks.None?) <==> Entries(walk) == []
  {
    if walk != [] {
      EntriesCover(walk[1..]);
      assert forall i :: 1 <= i < |walk| ==> walk[i] == walk[1..][i - 1];
    }
  }

  lemma {:induction false} EntriesAppend(a: seq<Question>, b: seq<Question>)
    ensures Entries(a + b) == Entries(a) + Entries(b)
  {
    if a == [] {
      assert a + b == b;
    } else {
      assert (a + b)[0] == a[0];
      assert (a + b)[1..] == a[1..] + b;
      EntriesAppend(a[1..], b);
    }
  }

  /** The `recurse` of `_save_retrieved_chunks`: a question's own entry, then its sub-questions', then its siblings'. */
  function ReportOf(qs: seq<Question>): seq<ChunkEntry>
    decreases Size(qs)
  {
    if qs == [] then []
    else
      HeadSmaller(qs);
      Own(qs[0]) + (ReportOf(Kids(qs[0])) + ReportOf(qs[1..]))
  }

  lemma EntriesOfThree(q: Question, a: seq<Question>, b: seq<Question>)
    ensures Entries([q] + (a + b)) == Own(q) + (Entries(a) + Entries(b))
  {
    var w := [q] + (a + b);
    assert w[0] == q && w[1..] == a + b;
    EntriesAppend(a, b);
  }

  /** The filter of a non-empty forest's walk splits like the walk: head, its subtree, the siblings. */
  lemma EntriesOfCons(qs: seq<Question>)
    requires qs != []
    ensures Entries(Flatten(qs)) == Own(qs[0]) + (Entries(Flatten(Kids(qs[0]))) + Entries(Flatten(qs[1..])))
  {
    var kidsWalk := Flatten(Kids(qs[0]));
    var restWalk := Flatten(qs[1..]);
    assert Flatten(qs) == [qs[0]] + (kidsWalk + restWalk) by {
      FlattenCons(qs);
    }
    EntriesOfThree(qs[0], kidsWalk, restWalk);
  }

  /** The recursive report is the filter of the pre-order walk. */
  lemma {:induction false} ReportIsWalkFilter(qs: seq<Question>)
    ensures ReportOf(qs) == Entries(Flatten(qs))
    decreases Size(qs)
  {
    if qs != [] {
      HeadSmaller(qs);
      EntriesOfCons(qs);
      ReportIsWalkFilter(Kids(qs[0]));
      ReportIsWalkFilter(qs[1..]);
    }
  }

  /**
   * `_save_retrieved_chunks`: one entry per question at any depth that
   * carries `retrieved_chunks`, in pre-order, and no other.
   */
  function ChunkReport(s: Sheet): (r: seq<ChunkEntry>)
    ensures r == Entries(Flatten(QuestionsOf(s)))
  {
    ReportIsWalkFilter(QuestionsOf(s));
    ReportOf(QuestionsOf(s))
  }

  /** The loop body of `_remove_retrieved_chunks`. */
  function DropChunks(q: Question): Question {
    q.(chunks := None)
  }

  /** `_remove_retrieved_chunks`: no question at any depth keeps `retrieved_chunks`. */
  function RemoveChunks(s: Sheet): (r: Sheet)
    ensures r.(questions := s.questions) == s
    ensures r.questions.Some? == s.questions.Some?
    ensures forall n :: n in Flatten(QuestionsOf(r)) ==> n.chunks.None?
  {
    MapTreeEverywhere(DropChunks, QuestionsOf(s), (q: Question) => q.chunks.None?);
    OnQuestions(s, DropChunks)
  }

  /** Position by position, removal changes `retrieved_chunks` and nothing else. */
  lemma RemoveOnlyChunks(s: Sheet)
    ensures |Flatten(QuestionsOf(RemoveChunks(s)))| == |Flatten(QuestionsOf(s))|
    ensures forall k :: 0 <= k < |Flatten(QuestionsOf(s))| ==>
              Shallow(Flatten(QuestionsOf(RemoveChunks(s)))[k]) == Shallow(Flatten(QuestionsOf(s))[k]).(chunks := None)
  {
    MapTreeFlatten(DropChunks, QuestionsOf(s));
  }

  /** Removing twice is removing once. */
  lemma RemoveChunksIdempotent(s: Sheet)
    ensures RemoveChunks(RemoveChunks(s)) == RemoveChunks(s)
  {
    forall q ensures DropChunks(q) == DropChunks(Shallow(q)).(subs := q.subs) {
    }
    forall q ensures DropChunks(DropChunks(q)) == DropChunks(q) {
    }
    MapTreeIdempotent(DropChunks, QuestionsOf(s));
  }

  /** After removal the report is empty. */
  lemma ReportAfterRemoval(s: Sheet)
    ensures ChunkReport(RemoveChunks(s)) == []
  {
    var walk := Flatten(QuestionsOf(RemoveChunks(s)));
    assert forall i :: 0 <= i < |walk| ==> walk[i] in walk;
    EntriesCover(walk);
  }

  // ----- the RAG merge against the plain merge -----

  lemma MapTreeCons(f: Question -> Question, a: Question, rest: seq<Question>)
    ensures MapTree(f, [a] + rest) == MapTree(f, [a]) + MapTree(f, rest)
  {
    assert ([a] + rest)[0] == a;
    assert ([a] + rest)[1..] == rest;
    assert [a][1..] == [];
  }

  /**
   * The RAG merge and the plain merge differ in `retrieved_chunks` only:
   * once chunks are removed, their results are equal.
   */
  lemma {:induction false} RagMergeIsPlainMerge(refQs: seq<Question>, candQs: seq<Question>)
    ensures MapTree(DropChunks, MergeList(refQs, candQs, true)) == MapTree(DropChunks, MergeList(refQs, candQs, false))
    decreases Size(refQs), 2, 0
  {
    RagKeysArePlainKeys(refQs, candQs, FirstKeys(refQs));
  }

  lemma {:induction false} RagKeysArePlainKeys(refQs: seq<Question>, candQs: seq<Question>, keys: seq<Option<string>>)
    requires forall k :: k in keys ==> k in Ids(refQs)
    ensures MapTree(DropChunks, MergeKeys(refQs, candQs, keys, true)) == MapTree(DropChunks, MergeKeys(refQs, candQs, keys, false))
    decreases Size(refQs), 1, |keys|
  {
    if keys != [] {
      IdKeyed(refQs, keys[0]);
      var j := ByKey(refQs)[keys[0]];
      MemberSmaller(refQs, j);
      var cand := CandidateFor(candQs, keys[0]);
      RagNodeIsPlainNode(refQs[j], cand);
      RagKeysArePlainKeys(refQs, candQs, keys[1..]);
      MapTreeCons(DropChunks, MergeNode(refQs[j], cand, true), MergeKeys(refQs, candQs, keys[1..], true));
      MapTreeCons(DropChunks, MergeNode(refQs[j], cand, false), MergeKeys(refQs, candQs, keys[1..], false));
    }
  }

  lemma {:induction false} RagNodeIsPlainNode(ref: Question, cand: Option<Question>)
    ensures MapTree(DropChunks, [MergeNode(ref, cand, true)]) == MapTree(DropChunks, [MergeNode(ref, cand, false)])
    decreases NodeCount(ref), 0, 0
  {
    KidsSmaller(ref);
    var t := MergeNode(ref, cand, true);
    var p := MergeNode(ref, cand, false);
    MergeNodeKids(ref, cand, true);
    MergeNodeKids(ref, cand, false);
    if ref.subs.Present? {
      RagMergeIsPlainMerge(Kids(ref), CandKids(cand));
    }
    assert DropChunks(t).(subs := Absent) == DropChunks(p).(subs := Absent);
    assert [t][1..] == [] && [p][1..] == [];
  }

  /** At sheet level: the RAG runner's merged answers, stripped of chunks, are the plain runner's. */
  lemma RagStructureIsPlainStructure(reference: Sheet, candidate: Sheet)
    ensures RemoveChunks(EnsureAnswerStructure(reference, candidate, true)) ==
            RemoveChunks(EnsureAnswerStructure(reference, candidate, false))
  {
    if candidate != EmptySheet {
      RagMergeIsPlainMerge(QuestionsOf(reference), QuestionsOf(candidate));
    }
  }
}
