/** Task records and the list operations the store is built from: `Array.filter`,
    `findIndex` by id, the spread merge of a partial update, and `Math.max` over ids. */
module Tasks {
  import opened Wrappers

  /** One row of the list. `createdAt` is not modelled (it reads the clock). */
  datatype Task = Task(id: int, text: string, date: string, completed: bool)

  /** The fields a caller may pass to an update; an absent field keeps its value.
      Callers never pass an id, so a patch has no id field. */
  datatype Patch = Patch(text: Option<string>, date: Option<string>, completed: Option<bool>)

  /** `{ ...t, ...p }`: the fields `p` carries replace those of `t`; the id stays. */
  function Merge(t: Task, p: Patch): (r: Task)
    ensures r.id == t.id
    ensures r.text == (if p.text.Some? then p.text.value else t.text)
    ensures r.date == (if p.date.Some? then p.date.value else t.date)
    ensures r.completed == (if p.completed.Some? then p.completed.value else t.completed)
  {
    var text := if p.text.Some? then p.text.value else t.text;
    var date := if p.date.Some? then p.date.value else t.date;
    var completed := if p.completed.Some? then p.completed.value else t.completed;
    Task(t.id, text, date, completed)
  }

  /** `s.filter(keep)`: keeps exactly the elements `keep` accepts, each as often as
      it occurs in `s`. */
  function Where<T(==,!new)>(s: seq<T>, keep: T -> bool): (r: seq<T>)
    ensures |r| <= |s|
    ensures forall x :: multiset(r)[x] == if keep(x) then multiset(s)[x] else 0
    ensures forall x :: x in r <==> x in s && keep(x)
  {
    if s == [] then []
    else if keep(s[0]) then
      assert s == [s[0]] + s[1..];
      [s[0]] + Where(s[1..], keep)
    else
      assert s == [s[0]] + s[1..];
      Where(s[1..], keep)
  }

  /** `a` is `b` with some elements left out, the rest in their order. */
  predicate IsSubsequence<T(==,!new)>(a: seq<T>, b: seq<T>)
    decreases |b|
  {
    if a == [] then true
    else if b == [] then false
    else if a[0] == b[0] then IsSubsequence(a[1..], b[1..])
    else IsSubsequence(a, b[1..])
  }

  /** Filtering keeps the survivors in their original order. */
  lemma {:induction false} WhereIsSubsequence<T(!new)>(s: seq<T>, keep: T -> bool)
    ensures IsSubsequence(Where(s, keep), s)
    decreases |s|
  {
    if s != [] {
      WhereIsSubsequence(s[1..], keep);
      var r := Where(s, keep);
      if keep(s[0]) {
        assert r[0] == s[0] && r[1..] == Where(s[1..], keep);
      } else if r != [] {
        assert r[0] in s[1..];
      }
    }
  }

  /** A filter that accepts every element returns its input. */
  lemma {:induction false} WhereKeepsAll<T(!new)>(s: seq<T>, keep: T -> bool)
    requires forall x :: x in s ==> keep(x)
    ensures Where(s, keep) == s
    decreases |s|
  {
    if s != [] {
      WhereKeepsAll(s[1..], keep);
      assert s == [s[0]] + s[1..];
    }
  }

  /** Two filters in a row are one filter by both conditions. */
  lemma {:induction false} WhereWhere<T(!new)>(s: seq<T>, p: T -> bool, q: T -> bool, both: T -> bool)
    requires forall x :: both(x) == (p(x) && q(x))
    ensures Where(Where(s, p), q) == Where(s, both)
    decreases |s|
  {
    if s != [] {
      WhereWhere(s[1..], p, q, both);
      if p(s[0]) {
        var w := Where(s, p);
        assert w[0] == s[0] && w[1..] == Where(s[1..], p);
      }
    }
  }

  /** Filters that agree on every element of `s` pick the same elements. */
  lemma {:induction false} WhereAgree<T(!new)>(s: seq<T>, p: T -> bool, q: T -> bool)
    requires forall x :: x in s ==> p(x) == q(x)
    ensures Where(s, p) == Where(s, q)
    decreases |s|
  {
    if s != [] {
      WhereAgree(s[1..], p, q);
    }
  }

  /** A filter and its complement split the input: their lengths add up. */
  lemma {:induction false} WherePartition<T(!new)>(s: seq<T>, p: T -> bool, notP: T -> bool)
    requires forall x :: notP(x) == !p(x)
    ensures |Where(s, p)| + |Where(s, notP)| == |s|
    decreases |s|
  {
    if s != [] {
      WherePartition(s[1..], p, notP);
    }
  }

  /** No two tasks share an id. */
  predicate DistinctIds(ts: seq<Task>) {
    forall i, j :: 0 <= i < j < |ts| ==> ts[i].id != ts[j].id
  }

  /** Every id in the list is below `n`. */
  predicate IdsBelow(ts: seq<Task>, n: int) {
    forall t :: t in ts ==> t.id < n
  }

  predicate HasId(ts: seq<Task>, id: int) {
    exists t :: t in ts && t.id == id
  }

  /** A filtered list still has distinct ids. */
  lemma {:induction false} WhereKeepsDistinct(ts: seq<Task>, keep: Task -> bool)
    requires DistinctIds(ts)
    ensures DistinctIds(Where(ts, keep))
    decreases |ts|
  {
    if ts != [] {
      WhereKeepsDistinct(ts[1..], keep);
      if keep(ts[0]) {
        var rest := Where(ts[1..], keep);
        forall j | 0 <= j < |rest|
          ensures ts[0].id != rest[j].id
        {
          assert rest[j] in ts[1..];
        }
      }
    }
  }

  /** `ts.findIndex(t => t.id === id)`: the first position holding `id`, or -1. */
  function IndexOf(ts: seq<Task>, id: int): (r: int)
    ensures -1 <= r < |ts|
    ensures r == -1 <==> !HasId(ts, id)
    ensures 0 <= r ==> ts[r].id == id && forall j :: 0 <= j < r ==> ts[j].id != id
    decreases |ts|
  {
    if ts == [] then -1
    else if ts[0].id == id then 0
    else
      var k := IndexOf(ts[1..], id);
      assert forall t :: t in ts[1..] ==> t in ts;
      assert HasId(ts, id) ==> HasId(ts[1..], id);
      if k == -1 then -1 else k + 1
  }

  /** `Math.max(...ts.map(t => t.id))`: an id in the list that no other id exceeds. */
  function MaxId(ts: seq<Task>): (m: int)
    requires ts != []
    ensures HasId(ts, m)
    ensures IdsBelow(ts, m + 1)
    decreases |ts|
  {
    if |ts| == 1 then ts[0].id
    else
      var rest := MaxId(ts[1..]);
      assert forall t :: t in ts ==> t == ts[0] || t in ts[1..];
      if ts[0].id > rest then ts[0].id else rest
  }

  /** The `nextId` the store starts from after loading `ts`: one past the largest id,
      or 1 when there is nothing to look at. */
  function RecoveredNextId(ts: seq<Task>): (n: int)
    ensures IdsBelow(ts, n)
    ensures ts != [] ==> HasId(ts, n - 1)
    ensures ts == [] ==> n == 1
  {
    if ts != [] then MaxId(ts) + 1 else 1
  }

  /** `updateTaskLocally`'s effect on the list: the first task with `id` gets the
      patch merged in; a missing id leaves the list as it is. Positions and ids
      never change, and no other task does. */
  function UpdateById(ts: seq<Task>, id: int, p: Patch): (r: seq<Task>)
    ensures |r| == |ts|
    ensures forall k :: 0 <= k < |ts| ==> r[k].id == ts[k].id
    ensures !HasId(ts, id) ==> r == ts
    ensures HasId(ts, id) ==> r[IndexOf(ts, id)] == Merge(ts[IndexOf(ts, id)], p)
    ensures forall k :: 0 <= k < |ts| && k != IndexOf(ts, id) ==> r[k] == ts[k]
  {
    var i := IndexOf(ts, id);
    if i >= 0 then ts[i := Merge(ts[i], p)] else ts
  }

  /** An update keeps the ids distinct and below any bound they were below. */
  lemma UpdateKeepsIds(ts: seq<Task>, id: int, p: Patch, n: int)
    ensures DistinctIds(ts) ==> DistinctIds(UpdateById(ts, id, p))
    ensures IdsBelow(ts, n) ==> IdsBelow(UpdateById(ts, id, p), n)
  {
    var r := UpdateById(ts, id, p);
    forall t | t in r
      ensures exists u :: u in ts && u.id == t.id
    {
      var k :| 0 <= k < |r| && r[k] == t;
      assert ts[k] in ts;
    }
  }

  /** The predicate `task => task.id !== id`. */
  function OtherThan(id: int): Task -> bool {
    (t: Task) => t.id != id
  }

  /** `todos.filter(task => task.id !== id)`. */
  function WithoutId(ts: seq<Task>, id: int): (r: seq<Task>)
    ensures !HasId(r, id)
    ensures forall t :: t in r <==> t in ts && t.id != id
  {
    Where(ts, OtherThan(id))
  }

  /** Removing by id keeps the other tasks in their order, keeps the ids distinct,
      and with distinct ids removes exactly one task when the id was there. */
  lemma WithoutIdShape(ts: seq<Task>, id: int)
    ensures IsSubsequence(WithoutId(ts, id), ts)
    ensures DistinctIds(ts) ==> DistinctIds(WithoutId(ts, id))
    ensures DistinctIds(ts) ==> |WithoutId(ts, id)| == if HasId(ts, id) then |ts| - 1 else |ts|
  {
    WhereIsSubsequence(ts, OtherThan(id));
    if DistinctIds(ts) {
      WhereKeepsDistinct(ts, OtherThan(id));
      WithoutIdCount(ts, id);
    }
  }

  lemma {:induction false} WithoutIdCount(ts: seq<Task>, id: int)
    requires DistinctIds(ts)
    ensures |WithoutId(ts, id)| == if HasId(ts, id) then |ts| - 1 else |ts|
    decreases |ts|
  {
    if ts != [] {
      var head, rest := ts[0], ts[1..];
      assert DistinctIds(rest);
      WithoutIdCount(rest, id);
      var tail := Where(rest, OtherThan(id));
      assert head in ts;
      if head.id == id {
        assert Where(ts, OtherThan(id)) == tail;
        assert !HasId(rest, id);
      } else {
        assert Where(ts, OtherThan(id)) == [head] + tail;
        if HasId(ts, id) {
          var t :| t in ts && t.id == id;
          assert t in rest;
        }
        if HasId(rest, id) {
          var t :| t in rest && t.id == id;
          assert t in ts;
        }
      }
    }
  }
}
