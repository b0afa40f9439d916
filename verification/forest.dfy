/**
 * Traversal of question forests: a size measure for termination, the
 * pre-order walk every recursive helper of the pipeline follows, and the
 * in-place "visit every question" pass that most of them are.
 */
module Forest {
  import opened Wrappers
  import opened Exam

  /** The number of questions in the subtree rooted at `q`. */
  function NodeCount(q: Question): nat
    decreases q, 1
  {
    match q.subs
    case Absent => 1
    case Present(items) => 1 + ChildrenFrom(q, 0)
  }

  /** The number of questions below the children `Kids(q)[i..]`. */
  function ChildrenFrom(q: Question, i: nat): nat
    requires q.subs.Present? && i <= |q.subs.items|
    decreases q, 0, |q.subs.items| - i
  {
    if i == |q.subs.items| then 0
    else NodeCount(q.subs.items[i]) + ChildrenFrom(q, i + 1)
  }

  /** The number of questions in a forest. */
  function Size(qs: seq<Question>): nat {
    if qs == [] then 0 else NodeCount(qs[0]) + Size(qs[1..])
  }

  lemma {:induction false} ChildrenFromIsSize(q: Question, i: nat)
    requires q.subs.Present? && i <= |q.subs.items|
    ensures ChildrenFrom(q, i) == Size(q.subs.items[i..])
    decreases |q.subs.items| - i
  {
    if i < |q.subs.items| {
      ChildrenFromIsSize(q, i + 1);
      assert q.subs.items[i..][1..] == q.subs.items[i + 1..];
    }
  }

  /** A question's children are a strictly smaller forest. */
  lemma KidsSmaller(q: Question)
    ensures Size(Kids(q)) < NodeCount(q)
  {
    if q.subs.Present? {
      ChildrenFromIsSize(q, 0);
      assert q.subs.items[0..] == q.subs.items;
    }
  }

  /** Both recursive calls of a head-first walk are on smaller forests. */
  lemma HeadSmaller(qs: seq<Question>)
    requires qs != []
    ensures Size(Kids(qs[0])) < Size(qs) && Size(qs[1..]) < Size(qs)
  {
    KidsSmaller(qs[0]);
  }

  /** Every member of a forest is at most as large as the forest. */
  lemma {:induction false} MemberSmaller(qs: seq<Question>, j: nat)
    requires j < |qs|
    ensures NodeCount(qs[j]) <= Size(qs)
  {
    if j > 0 {
      MemberSmaller(qs[1..], j - 1);
    }
  }

  /** The pre-order walk: each question, then its sub-questions, then its later siblings. */
  function Flatten(qs: seq<Question>): (r: seq<Question>)
    ensures |r| >= |qs|
    decreases Size(qs)
  {
    if qs == [] then []
    else
      HeadSmaller(qs);
      [qs[0]] + Flatten(Kids(qs[0])) + Flatten(qs[1..])
  }

  lemma {:induction false} FlattenAppend(a: seq<Question>, b: seq<Question>)
    ensures Flatten(a + b) == Flatten(a) + Flatten(b)
    decreases |a|
  {
    if a == [] {
      assert a + b == b;
    } else {
      assert (a + b)[0] == a[0];
      assert (a + b)[1..] == a[1..] + b;
      FlattenAppend(a[1..], b);
    }
  }

  /** Every top-level question is visited by the walk. */
  lemma {:induction false} TopLevelVisited(qs: seq<Question>, i: nat)
    requires i < |qs|
    ensures qs[i] in Flatten(qs)
  {
    HeadSmaller(qs);
    FlattenCons(qs);
    if i > 0 {
      TopLevelVisited(qs[1..], i - 1);
    }
  }

  lemma FlattenCons(qs: seq<Question>)
    requires qs != []
    ensures Flatten(qs) == [qs[0]] + Flatten(Kids(qs[0])) + Flatten(qs[1..])
  {
  }

  /** The children of a visited question are visited too. */
  lemma {:induction false} KidsVisited(qs: seq<Question>, n: Question)
    requires n in Flatten(qs)
    ensures forall m :: m in Kids(n) ==> m in Flatten(qs)
    decreases Size(qs)
  {
    HeadSmaller(qs);
    var f := Flatten(qs);
    assert f == [qs[0]] + Flatten(Kids(qs[0])) + Flatten(qs[1..]);
    if n == qs[0] {
      forall m | m in Kids(n) ensures m in f {
        var k :| 0 <= k < |Kids(n)| && Kids(n)[k] == m;
        TopLevelVisited(Kids(n), k);
      }
    } else if n in Flatten(Kids(qs[0])) {
      KidsVisited(Kids(qs[0]), n);
    } else {
      KidsVisited(qs[1..], n);
    }
  }

  /** The whole subtree below a visited question is visited too. */
  lemma {:induction false} SubtreeVisited(qs: seq<Question>, n: Question)
    requires n in Flatten(qs)
    ensures forall m :: m in Flatten(Kids(n)) ==> m in Flatten(qs)
    decreases Size(qs)
  {
    HeadSmaller(qs);
    FlattenCons(qs);
    if n != qs[0] {
      if n in Flatten(Kids(qs[0])) {
        SubtreeVisited(Kids(qs[0]), n);
      } else {
        SubtreeVisited(qs[1..], n);
      }
    }
  }

  /** A question with all its sub-questions replaced by `kids`. */
  function WithKids(q: Question, kids: seq<Question>): Question
    requires q.subs.Present?
  {
    q.(subs := Present(kids))
  }

  /** The node-level effect of `f`: every key but `subquestions`. */
  function Shallow(q: Question): Question {
    q.(subs := Absent)
  }

  /**
   * The recursive "for q in questions: change q; if 'subquestions' in q:
   * recurse" pass: `f` edits each question's own keys, the recursion keeps
   * the `subquestions` key exactly where it was.
   */
  function MapTree(f: Question -> Question, qs: seq<Question>): (r: seq<Question>)
    ensures |r| == |qs|
    ensures forall i :: 0 <= i < |qs| ==> Shallow(r[i]) == Shallow(f(qs[i]))
    ensures forall i :: 0 <= i < |qs| ==> r[i].subs.Present? == qs[i].subs.Present?
    decreases Size(qs)
  {
    if qs == [] then []
    else
      HeadSmaller(qs);
      var q := qs[0];
      var top := f(q).(subs := match q.subs
                               case Absent => Absent
                               case Present(items) => Present(MapTree(f, items)));
      [top] + MapTree(f, qs[1..])
  }

  /** Kids of a mapped question are the mapped kids. */
  lemma {:induction false} MapTreeKids(f: Question -> Question, qs: seq<Question>, i: nat)
    requires i < |qs|
    ensures Kids(MapTree(f, qs)[i]) == MapTree(f, Kids(qs[i]))
    decreases i
  {
    var r := MapTree(f, qs);
    var rest := MapTree(f, qs[1..]);
    HeadSmaller(qs);
    assert r[1..] == rest;
    if i == 0 {
      match qs[0].subs
      case Absent =>
        assert r[0].subs == Absent;
      case Present(items) =>
        assert r[0].subs == Present(MapTree(f, items));
    } else {
      assert r[i] == rest[i - 1];
      MapTreeKids(f, qs[1..], i - 1);
    }
  }

  /** Position-by-position agreement of two walks, as a pass through `f` leaves them. */
  predicate Corresponds(f: Question -> Question, a: seq<Question>, b: seq<Question>) {
    && |a| == |b|
    && forall k :: 0 <= k < |a| ==>
         && Shallow(b[k]) == Shallow(f(a[k]))
         && b[k].subs.Present? == a[k].subs.Present?
         && |Kids(b[k])| == |Kids(a[k])|
  }

  lemma CorrespondsConcat(f: Question -> Question, a1: seq<Question>, b1: seq<Question>, a2: seq<Question>, b2: seq<Question>)
    requires Corresponds(f, a1, b1) && Corresponds(f, a2, b2)
    ensures Corresponds(f, a1 + a2, b1 + b2)
  {
    forall k | 0 <= k < |a1 + a2|
      ensures && Shallow((b1 + b2)[k]) == Shallow(f((a1 + a2)[k]))
              && (b1 + b2)[k].subs.Present? == (a1 + a2)[k].subs.Present?
              && |Kids((b1 + b2)[k])| == |Kids((a1 + a2)[k])|
    {
      if k < |a1| {
        assert (a1 + a2)[k] == a1[k] && (b1 + b2)[k] == b1[k];
      } else {
        assert (a1 + a2)[k] == a2[k - |a1|] && (b1 + b2)[k] == b2[k - |a1|];
      }
    }
  }

  /**
   * The pass visits every question at every depth exactly once, in pre-order:
   * position `k` of the walk over the result is `f` applied to position `k`
   * of the walk over the input, sub-question list aside.
   */
  lemma {:induction false} MapTreeFlatten(f: Question -> Question, qs: seq<Question>)
    ensures Corresponds(f, Flatten(qs), Flatten(MapTree(f, qs)))
    decreases Size(qs)
  {
    if qs != [] {
      HeadSmaller(qs);
      var r := MapTree(f, qs);
      MapTreeKids(f, qs, 0);
      MapTreeFlatten(f, Kids(qs[0]));
      MapTreeFlatten(f, qs[1..]);
      assert r[1..] == MapTree(f, qs[1..]);
      FlattenCons(qs);
      FlattenCons(r);
      assert Corresponds(f, [qs[0]], [r[0]]);
      CorrespondsConcat(f, [qs[0]], [r[0]], Flatten(Kids(qs[0])), Flatten(Kids(r[0])));
      CorrespondsConcat(f, [qs[0]] + Flatten(Kids(qs[0])), [r[0]] + Flatten(Kids(r[0])), Flatten(qs[1..]), Flatten(r[1..]));
    }
  }

  /** A pass whose `f` turns property `p` into `p2` leaves every question at every depth with `p2`. */
  lemma MapTreeKeeps(f: Question -> Question, qs: seq<Question>, p: Question -> bool, p2: Question -> bool)
    requires forall n :: n in Flatten(qs) ==> p(n)
    requires forall q :: p(q) ==> p2(Shallow(f(q)))
    ensures forall n :: n in Flatten(MapTree(f, qs)) ==> p2(Shallow(n))
  {
    MapTreeFlatten(f, qs);
    var a := Flatten(qs);
    var b := Flatten(MapTree(f, qs));
    forall n | n in b ensures p2(Shallow(n)) {
      var k :| 0 <= k < |b| && b[k] == n;
      assert a[k] in a;
      assert Shallow(n) == Shallow(f(a[k]));
    }
  }

  /** `f` edits only a question's own keys: it neither looks at nor changes `subquestions`. */
  ghost predicate NodeLocal(f: Question -> Question) {
    forall q :: f(q) == f(Shallow(q)).(subs := q.subs)
  }

  /** Running a node-local, idempotent pass twice is running it once. */
  lemma {:induction false} MapTreeIdempotent(f: Question -> Question, qs: seq<Question>)
    requires NodeLocal(f)
    requires forall q :: f(f(q)) == f(q)
    ensures MapTree(f, MapTree(f, qs)) == MapTree(f, qs)
    decreases Size(qs)
  {
    if qs != [] {
      HeadSmaller(qs);
      var r := MapTree(f, qs);
      var q := qs[0];
      assert r[1..] == MapTree(f, qs[1..]);
      MapTreeIdempotent(f, qs[1..]);
      var top := r[0];
      assert Shallow(top) == Shallow(f(q));
      assert f(top) == f(Shallow(top)).(subs := top.subs);
      assert f(Shallow(f(q))) == f(f(q)).(subs := Absent) by {
        assert f(f(q)) == f(Shallow(f(q))).(subs := f(q).subs);
      }
      if q.subs.Present? {
        MapTreeIdempotent(f, q.subs.items);
      }
      assert MapTree(f, r)[0] == top;
    }
  }

  /** A pass whose `f` keeps a property of single questions leaves every question at every depth with it. */
  lemma MapTreeEverywhere(f: Question -> Question, qs: seq<Question>, p: Question -> bool)
    requires forall q :: p(Shallow(f(q)))
    ensures forall n :: n in Flatten(MapTree(f, qs)) ==> p(Shallow(n))
  {
    MapTreeFlatten(f, qs);
    var b := Flatten(MapTree(f, qs));
    forall n | n in b ensures p(Shallow(n)) {
      var k :| 0 <= k < |b| && b[k] == n;
      assert Shallow(n) == Shallow(f(Flatten(qs)[k]));
    }
  }
}
