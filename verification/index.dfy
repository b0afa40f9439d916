/**
 * The dictionaries the pipeline builds over question lists: the
 * `{q.get("question_id"): q for q in qs}` comprehension of the merge, and
 * the last-wins maps that a pre-order walk fills (`run_map`, `points_map`,
 * `solution_map`).
 */
module Index {
  import opened Wrappers
  import opened JsonValues
  import opened Exam
  import opened Forest

  /** The ids of a list, `None` where a question has no id. */
  function Ids(qs: seq<Question>): (r: seq<Option<string>>)
    ensures |r| == |qs| && forall i :: 0 <= i < |qs| ==> r[i] == qs[i].id
  {
    if qs == [] then [] else Ids(qs[..|qs| - 1]) + [qs[|qs| - 1].id]
  }

  /** No two questions of the list share an id (two id-less ones count as sharing). */
  predicate DistinctIds(qs: seq<Question>) {
    forall i, j :: 0 <= i < j < |qs| ==> qs[i].id != qs[j].id
  }

  /** Sibling ids are distinct at every depth of the forest. */
  predicate WellKeyed(qs: seq<Question>) {
    DistinctIds(qs) && forall n :: n in Flatten(qs) ==> DistinctIds(Kids(n))
  }

  /** Well-keyedness passes down to every question's children. */
  lemma WellKeyedKids(qs: seq<Question>, i: nat)
    requires WellKeyed(qs) && i < |qs|
    ensures WellKeyed(Kids(qs[i]))
  {
    TopLevelVisited(qs, i);
    SubtreeVisited(qs, qs[i]);
  }

  /**
   * The keys of the comprehension in insertion order: a key enters when it
   * is first seen, later duplicates only overwrite the value.
   */
  function FirstKeys(qs: seq<Question>): (r: seq<Option<string>>)
    ensures forall i, j :: 0 <= i < j < |r| ==> r[i] != r[j]
    ensures forall k :: k in r <==> k in Ids(qs)
    ensures forall i, j :: 0 <= i < j < |r| ==> FirstAt(qs, r[i]) < FirstAt(qs, r[j])
  {
    if qs == [] then []
    else
      var init := qs[..|qs| - 1];
      var pre := FirstKeys(init);
      assert Ids(qs) == Ids(init) + [qs[|qs| - 1].id];
      FirstAtKept(qs, pre);
      if qs[|qs| - 1].id in pre then pre else pre + [qs[|qs| - 1].id]
  }

  /** The first position of the list carrying the key, or the list's length when none does. */
  function FirstAt(qs: seq<Question>, k: Option<string>): (r: nat)
    ensures r <= |qs|
    ensures r < |qs| ==> qs[r].id == k
    ensures forall i :: 0 <= i < r ==> qs[i].id != k
  {
    if qs == [] then 0
    else
      var f := FirstAt(qs[..|qs| - 1], k);
      if f < |qs| - 1 then f
      else if qs[|qs| - 1].id == k then |qs| - 1
      else |qs|
  }

  /** Appending a question moves no key's first position, and a key first seen there comes after all others. */
  lemma FirstAtKept(qs: seq<Question>, pre: seq<Option<string>>)
    requires qs != []
    requires forall k :: k in pre <==> k in Ids(qs[..|qs| - 1])
    ensures forall k :: k in pre ==> FirstAt(qs, k) == FirstAt(qs[..|qs| - 1], k) < |qs| - 1
    ensures qs[|qs| - 1].id !in pre ==> FirstAt(qs, qs[|qs| - 1].id) == |qs| - 1
  {
    var init := qs[..|qs| - 1];
    forall k | k in pre ensures FirstAt(qs, k) == FirstAt(init, k) < |init| {
      FirstAtSeen(init, k);
    }
    FirstAtSeen(init, qs[|qs| - 1].id);
  }

  /** A key has its first position inside the list exactly when some question carries it. */
  lemma FirstAtSeen(qs: seq<Question>, k: Option<string>)
    ensures k in Ids(qs) <==> FirstAt(qs, k) < |qs|
  {
    if k in Ids(qs) {
      var i :| 0 <= i < |Ids(qs)| && Ids(qs)[i] == k;
      assert qs[i].id == k;
    }
  }

  /** The values of the comprehension, as positions: the last question carrying each key. */
  function ByKey(qs: seq<Question>): (m: map<Option<string>, nat>)
    ensures forall i :: 0 <= i < |qs| ==> qs[i].id in m
    ensures forall k :: k in m ==> m[k] < |qs| && qs[m[k]].id == k
    ensures forall k, j :: k in m && m[k] < j < |qs| ==> qs[j].id != k
  {
    ByKeyBelow(qs, |qs|)
  }

  /** The comprehension after its first `n` steps. */
  function ByKeyBelow(qs: seq<Question>, n: nat): (m: map<Option<string>, nat>)
    requires n <= |qs|
    ensures forall i :: 0 <= i < n ==> qs[i].id in m
    ensures forall k :: k in m ==> m[k] < n && qs[m[k]].id == k
    ensures forall k, j :: k in m && m[k] < j < n ==> qs[j].id != k
  {
    if n == 0 then map[]
    else
      var m := ByKeyBelow(qs, n - 1);
      KeyedBelowStep(qs, n, m);
      m[qs[n - 1].id := n - 1]
  }

  /** The comprehension's step: keying question `n - 1` extends the map of the first `n - 1`. */
  lemma KeyedBelowStep(qs: seq<Question>, n: nat, m: map<Option<string>, nat>)
    requires 0 < n <= |qs|
    requires forall i :: 0 <= i < n - 1 ==> qs[i].id in m
    requires forall k :: k in m ==> m[k] < n - 1 && qs[m[k]].id == k
    requires forall k, j :: k in m && m[k] < j < n - 1 ==> qs[j].id != k
    ensures var m2 := m[qs[n - 1].id := n - 1];
            && (forall i :: 0 <= i < n ==> qs[i].id in m2)
            && (forall k :: k in m2 ==> m2[k] < n && qs[m2[k]].id == k)
            && (forall k, j :: k in m2 && m2[k] < j < n ==> qs[j].id != k)
  {
    var k0 := qs[n - 1].id;
    var m2 := m[k0 := n - 1];
    forall k, j | k in m2 && m2[k] < j < n ensures qs[j].id != k {
      if k != k0 {
        assert m2[k] == m[k];
      }
    }
  }

  /** Every id of the list is a key of the comprehension. */
  lemma IdKeyed(qs: seq<Question>, k: Option<string>)
    requires k in Ids(qs)
    ensures k in ByKey(qs)
  {
    var i :| 0 <= i < |Ids(qs)| && Ids(qs)[i] == k;
    assert qs[i].id == k;
  }

  /** With distinct ids the comprehension keeps every question, in list order. */
  lemma {:induction false} DistinctKeysAreIds(qs: seq<Question>)
    requires DistinctIds(qs)
    ensures FirstKeys(qs) == Ids(qs)
  {
    if qs != [] {
      var init := qs[..|qs| - 1];
      assert DistinctIds(init);
      DistinctKeysAreIds(init);
      assert Ids(qs) == Ids(init) + [qs[|qs| - 1].id];
      assert qs[|qs| - 1].id !in Ids(init);
    }
  }

  /** With distinct ids each key points back at the only question carrying it. */
  lemma DistinctByKey(qs: seq<Question>, i: nat)
    requires DistinctIds(qs) && i < |qs|
    ensures ByKey(qs)[qs[i].id] == i
  {
  }

  /**
   * `run_map` of `_collect_judgments` over a pre-order walk, as positions:
   * every id in the walk, mapped to the last question carrying it.
   */
  function NodeIndex(walk: seq<Question>): (m: map<string, nat>)
    ensures forall i :: 0 <= i < |walk| && walk[i].id.Some? ==> walk[i].id.value in m
    ensures forall id :: id in m ==> m[id] < |walk| && walk[m[id]].id == Some(id)
    ensures forall id, j :: id in m && m[id] < j < |walk| ==> walk[j].id != Some(id)
  {
    IndexBelow(walk, |walk|, (q: Question) => true)
  }

  /**
   * `points_map` of `_inject_max_points` over a pre-order walk, as
   * positions: every id carried by a question that also has `points`,
   * mapped to the last such question.
   */
  function PointsIndex(walk: seq<Question>): (m: map<string, nat>)
    ensures forall i :: 0 <= i < |walk| && walk[i].id.Some? && walk[i].points.Some? ==> walk[i].id.value in m
    ensures forall id :: id in m ==> m[id] < |walk| && walk[m[id]].id == Some(id) && walk[m[id]].points.Some?
    ensures forall id, j :: id in m && m[id] < j < |walk| ==> !(walk[j].id == Some(id) && walk[j].points.Some?)
  {
    IndexBelow(walk, |walk|, (q: Question) => q.points.Some?)
  }

  /** The last-wins map after the walk's first `n` questions, over the questions `keep` admits. */
  function IndexBelow(walk: seq<Question>, n: nat, keep: Question -> bool): (m: map<string, nat>)
    requires n <= |walk|
    ensures IndexedBelow(walk, n, keep, m)
  {
    if n == 0 then map[]
    else
      var m := IndexBelow(walk, n - 1, keep);
      IndexStep(walk, n, keep, m);
      var q := walk[n - 1];
      if q.id.Some? && keep(q) then m[q.id.value := n - 1] else m
  }

  /** `m` maps every kept id among the first `n` questions to the last kept position carrying it. */
  predicate IndexedBelow(walk: seq<Question>, n: nat, keep: Question -> bool, m: map<string, nat>)
    requires n <= |walk|
  {
    && (forall i :: 0 <= i < n && walk[i].id.Some? && keep(walk[i]) ==> walk[i].id.value in m)
    && (forall id :: id in m ==> m[id] < n && walk[m[id]].id == Some(id) && keep(walk[m[id]]))
    && (forall id, j :: id in m && m[id] < j < n ==> !(walk[j].id == Some(id) && keep(walk[j])))
  }

  /** One step of the walk: recording question `n - 1` (if kept) extends the map of the first `n - 1`. */
  lemma IndexStep(walk: seq<Question>, n: nat, keep: Question -> bool, m: map<string, nat>)
    requires 0 < n <= |walk|
    requires IndexedBelow(walk, n - 1, keep, m)
    ensures var q := walk[n - 1];
            IndexedBelow(walk, n, keep, if q.id.Some? && keep(q) then m[q.id.value := n - 1] else m)
  {
    var q := walk[n - 1];
    if q.id.Some? && keep(q) {
      var m2 := m[q.id.value := n - 1];
      forall id, j | id in m2 && m2[id] < j < n ensures !(walk[j].id == Some(id) && keep(walk[j])) {
        if id != q.id.value {
          assert m2[id] == m[id];
        }
      }
    }
  }

  /** Position `i` is the last one in the walk carrying `id`. */
  predicate LastWithId(walk: seq<Question>, i: int, id: string) {
    0 <= i < |walk| && walk[i].id == Some(id) && forall j :: i < j < |walk| ==> walk[j].id != Some(id)
  }

  /** Position `i` is the last one in the walk with this id and a `points` key. */
  predicate LastPointsWithId(walk: seq<Question>, i: int, id: string) {
    && 0 <= i < |walk| && walk[i].id == Some(id) && walk[i].points.Some?
    && forall j :: i < j < |walk| ==> !(walk[j].id == Some(id) && walk[j].points.Some?)
  }
}
