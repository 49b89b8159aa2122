/** What `renderTasks` puts in the table: the tasks whose text contains the search
    term (ignoring case), then those of the selected status, then sorted by due date
    in the current direction. The DOM rows themselves are not modelled. */
module Projection {
  import opened Text
  import opened Tasks

  /** The three choices of the status selector. */
  datatype StatusFilter = All | CompletedOnly | PendingOnly

  /** `filterSelect.value`: "completed" and "pending" select by status, any other
      value shows every task. */
  function ParseFilter(value: string): (f: StatusFilter)
    ensures f == CompletedOnly <==> value == "completed"
    ensures f == PendingOnly <==> value == "pending"
  {
    if value == "completed" then CompletedOnly
    else if value == "pending" then PendingOnly
    else All
  }

  /** The search keeps a task when its lower-cased text includes the lower-cased term. */
  predicate MatchesSearch(t: Task, term: string) {
    Includes(Lower(t.text), Lower(term))
  }

  predicate MatchesStatus(t: Task, f: StatusFilter) {
    match f
    case All => true
    case CompletedOnly => t.completed
    case PendingOnly => !t.completed
  }

  /** The search callback, for an already lower-cased term. */
  function ContainsTerm(needle: string): Task -> bool {
    (t: Task) => Includes(Lower(t.text), needle)
  }

  function IsDone(t: Task): bool { t.completed }

  function IsPending(t: Task): bool { !t.completed }

  /** The search step: skipped when the lower-cased term is empty. Either way it
      keeps exactly the tasks matching the term, each as often as in the list. */
  function Searched(ts: seq<Task>, term: string): (r: seq<Task>)
    ensures forall t :: multiset(r)[t] == if MatchesSearch(t, term) then multiset(ts)[t] else 0
    ensures forall t :: t in r <==> t in ts && MatchesSearch(t, term)
  {
    var needle := Lower(term);
    if needle != [] then Where(ts, ContainsTerm(needle)) else ts
  }

  /** The status step: keeps exactly the tasks of the selected status. */
  function Filtered(ts: seq<Task>, f: StatusFilter): (r: seq<Task>)
    ensures forall t :: multiset(r)[t] == if MatchesStatus(t, f) then multiset(ts)[t] else 0
    ensures forall t :: t in r <==> t in ts && MatchesStatus(t, f)
  {
    match f
    case All => ts
    case CompletedOnly => Where(ts, IsDone)
    case PendingOnly => Where(ts, IsPending)
  }

  /** Search, then status filter, before sorting: the tasks matching both, each as
      often as in the list. */
  function Selected(ts: seq<Task>, term: string, f: StatusFilter): (r: seq<Task>)
    ensures forall t :: multiset(r)[t] == if MatchesSearch(t, term) && MatchesStatus(t, f) then multiset(ts)[t] else 0
    ensures forall t :: t in r <==> t in ts && MatchesSearch(t, term) && MatchesStatus(t, f)
  {
    Filtered(Searched(ts, term), f)
  }

  /** Both conditions as one predicate. */
  function Matcher(term: string, f: StatusFilter): Task -> bool {
    (t: Task) => MatchesSearch(t, term) && MatchesStatus(t, f)
  }

  function SearchOnly(term: string): Task -> bool {
    (t: Task) => MatchesSearch(t, term)
  }

  /** The two filter steps pick exactly what one filter by both conditions picks,
      in the same order; in particular an empty term lets every task through. */
  lemma SelectedIsOneFilter(ts: seq<Task>, term: string, f: StatusFilter)
    ensures Selected(ts, term, f) == Where(ts, Matcher(term, f))
  {
    var needle := Lower(term);
    var searched := Searched(ts, term);
    if needle != [] {
      WhereAgree(ts, ContainsTerm(needle), SearchOnly(term));
    } else {
      WhereKeepsAll(ts, SearchOnly(term));
    }
    assert searched == Where(ts, SearchOnly(term));
    match f
    case All =>
      WhereAgree(ts, SearchOnly(term), Matcher(term, f));
    case CompletedOnly =>
      WhereWhere(ts, SearchOnly(term), IsDone, Matcher(term, f));
    case PendingOnly =>
      WhereWhere(ts, SearchOnly(term), IsPending, Matcher(term, f));
  }

  /** `a` may stand before `b`: the comparator `dateA - dateB` (ascending) or
      `dateB - dateA` (descending) is not positive. */
  predicate InOrder(a: Task, b: Task, ascending: bool) {
    if ascending then DateLe(a.date, b.date) else DateLe(b.date, a.date)
  }

  predicate SortedByDate(s: seq<Task>, ascending: bool) {
    forall i, j :: 0 <= i < j < |s| ==> InOrder(s[i], s[j], ascending)
  }

  lemma InOrderTotal(a: Task, b: Task, ascending: bool)
    ensures InOrder(a, b, ascending) || InOrder(b, a, ascending)
  {
    DateLeTotal(a.date, b.date);
  }

  lemma InOrderTransitive(a: Task, b: Task, c: Task, ascending: bool)
    requires InOrder(a, b, ascending) && InOrder(b, c, ascending)
    ensures InOrder(a, c, ascending)
  {
    if ascending {
      DateLeTransitive(a.date, b.date, c.date);
    } else {
      DateLeTransitive(c.date, b.date, a.date);
    }
  }

  /** Places `t` before the first element it may precede, so that among tasks with
      the same date the one inserted stays in front: the sort is stable, as
      `Array.prototype.sort` is. */
  function Insert(t: Task, s: seq<Task>, ascending: bool): (r: seq<Task>)
    ensures multiset(r) == multiset(s) + multiset{t}
  {
    if s == [] then [t]
    else if InOrder(t, s[0], ascending) then [t] + s
    else
      assert s == [s[0]] + s[1..];
      [s[0]] + Insert(t, s[1..], ascending)
  }

  /** The sort of `filteredTasks` by due date: an insertion sort. */
  function SortByDate(s: seq<Task>, ascending: bool): (r: seq<Task>)
    ensures multiset(r) == multiset(s)
  {
    if s == [] then []
    else
      assert s == [s[0]] + s[1..];
      Insert(s[0], SortByDate(s[1..], ascending), ascending)
  }

  /** A task that may precede every task of a sorted list may head it. */
  lemma ConsSorted(h: Task, rest: seq<Task>, ascending: bool)
    requires SortedByDate(rest, ascending)
    requires forall x :: x in rest ==> InOrder(h, x, ascending)
    ensures SortedByDate([h] + rest, ascending)
  {
    var r := [h] + rest;
    forall i, j | 0 <= i < j < |r|
      ensures InOrder(r[i], r[j], ascending)
    {
      assert r[j] == rest[j - 1] && rest[j - 1] in rest;
      if i > 0 {
        assert r[i] == rest[i - 1];
      }
    }
  }

  /** Inserting into a list in date order gives a list in date order. */
  lemma {:induction false} InsertSorted(t: Task, s: seq<Task>, ascending: bool)
    requires SortedByDate(s, ascending)
    ensures SortedByDate(Insert(t, s, ascending), ascending)
    decreases |s|
  {
    if s == [] {
    } else if InOrder(t, s[0], ascending) {
      forall x | x in s
        ensures InOrder(t, x, ascending)
      {
        var j :| 0 <= j < |s| && s[j] == x;
        if j > 0 {
          InOrderTransitive(t, s[0], x, ascending);
        }
      }
      ConsSorted(t, s, ascending);
    } else {
      var tail := s[1..];
      assert SortedByDate(tail, ascending) by {
        forall i, j | 0 <= i < j < |tail|
          ensures InOrder(tail[i], tail[j], ascending)
        {
          assert tail[i] == s[i + 1] && tail[j] == s[j + 1];
        }
      }
      var rest := Insert(t, tail, ascending);
      InsertSorted(t, tail, ascending);
      InOrderTotal(t, s[0], ascending);
      forall x | x in rest
        ensures InOrder(s[0], x, ascending)
      {
        assert x in multiset(rest);
        if x != t {
          assert x in tail;
          var j :| 0 <= j < |tail| && tail[j] == x;
          assert s[j + 1] == x;
        }
      }
      ConsSorted(s[0], rest, ascending);
    }
  }

  /** The sort's result is in date order for the chosen direction. */
  lemma {:induction false} SortByDateSorted(s: seq<Task>, ascending: bool)
    ensures SortedByDate(SortByDate(s, ascending), ascending)
    decreases |s|
  {
    if s != [] {
      SortByDateSorted(s[1..], ascending);
      InsertSorted(s[0], SortByDate(s[1..], ascending), ascending);
    }
  }

  /** Sorting a list that is already in order leaves it as it is. */
  lemma {:induction false} SortByDateOfSorted(s: seq<Task>, ascending: bool)
    requires SortedByDate(s, ascending)
    ensures SortByDate(s, ascending) == s
    decreases |s|
  {
    if s != [] {
      var rest := s[1..];
      assert SortedByDate(rest, ascending) by {
        forall i, j | 0 <= i < j < |rest|
          ensures InOrder(rest[i], rest[j], ascending)
        {
          assert rest[i] == s[i + 1] && rest[j] == s[j + 1];
        }
      }
      SortByDateOfSorted(rest, ascending);
      if rest != [] {
        assert InOrder(s[0], rest[0], ascending) by {
          assert rest[0] == s[1];
        }
      }
      assert s == [s[0]] + rest;
    }
  }

  /** Two tasks due on the same day keep their list order in both directions, as a
      stable sort keeps them: flipping the direction does not reverse them. */
  lemma SortKeepsTiedPair(x: Task, y: Task)
    requires x.date == y.date
    ensures SortByDate([x, y], true) == [x, y]
    ensures SortByDate([x, y], false) == [x, y]
  {
    DateLeReflexive(x.date);
    assert [x, y][1..] == [y];
  }

  /** The rows `renderTasks` shows: exactly the tasks that match the search term and
      the status filter, each as often as in the list, in date order. */
  function Project(ts: seq<Task>, term: string, f: StatusFilter, ascending: bool): (r: seq<Task>)
    ensures forall t :: t in r <==> t in ts && MatchesSearch(t, term) && MatchesStatus(t, f)
    ensures forall t :: multiset(r)[t] == if MatchesSearch(t, term) && MatchesStatus(t, f) then multiset(ts)[t] else 0
    ensures SortedByDate(r, ascending)
  {
    SelectedIsOneFilter(ts, term, f);
    SortByDateSorted(Selected(ts, term, f), ascending);
    SortByDate(Selected(ts, term, f), ascending)
  }

  /** The rows are a reordering of a subsequence of the list. */
  lemma ProjectIsSortedSubsequence(ts: seq<Task>, term: string, f: StatusFilter, ascending: bool)
    ensures IsSubsequence(Selected(ts, term, f), ts)
    ensures multiset(Project(ts, term, f, ascending)) == multiset(Selected(ts, term, f))
  {
    SelectedIsOneFilter(ts, term, f);
    WhereIsSubsequence(ts, Matcher(term, f));
  }

  /** With an empty search term only the status filter removes tasks. */
  lemma ProjectEmptyTerm(ts: seq<Task>, f: StatusFilter, ascending: bool)
    ensures forall t :: t in Project(ts, "", f, ascending) <==> t in ts && MatchesStatus(t, f)
  {
    assert Lower("") == [];
  }

  /** Projecting the rows again with the same inputs gives the same rows. */
  lemma ProjectIdempotent(ts: seq<Task>, term: string, f: StatusFilter, ascending: bool)
    ensures Project(Project(ts, term, f, ascending), term, f, ascending) == Project(ts, term, f, ascending)
  {
    var rows := Project(ts, term, f, ascending);
    SelectedIsOneFilter(rows, term, f);
    WhereKeepsAll(rows, Matcher(term, f));
    SortByDateOfSorted(rows, ascending);
  }

  /** Two tasks with different dates: the earlier one comes first in ascending order
      and the later one first in descending order, whichever was listed first. */
  lemma TwoTasksSorted(later: Task, earlier: Task)
    requires !DateLe(later.date, earlier.date)
    ensures Project([later, earlier], "", All, true) == [earlier, later]
    ensures Project([earlier, later], "", All, true) == [earlier, later]
    ensures Project([later, earlier], "", All, false) == [later, earlier]
    ensures Project([earlier, later], "", All, false) == [later, earlier]
  {
    DateLeTotal(later.date, earlier.date);
    assert Lower("") == [];
    assert [later, earlier][1..] == [earlier] && [earlier, later][1..] == [later];
    assert SortByDate([earlier], true) == [earlier] && SortByDate([later], true) == [later];
    assert SortByDate([earlier], false) == [earlier] && SortByDate([later], false) == [later];
  }

  /** Tasks due on 5 and 1 January 2024, listed in that order, are shown 1 January
      first, and 5 January first once the direction is flipped. */
  lemma JanuarySortScenario(jan5: Task, jan1: Task)
    requires jan5.date == "2024-01-05" && jan1.date == "2024-01-01"
    ensures Project([jan5, jan1], "", All, true) == [jan1, jan5]
    ensures Project([jan5, jan1], "", All, false) == [jan5, jan1]
  {
    DateLeFirstDifference(jan1.date, jan5.date, 9);
    TwoTasksSorted(jan5, jan1);
  }
}
