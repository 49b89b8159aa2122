/** The page's state and the handlers that change it: add, update, toggle, delete,
    delete all, the edit mode of the form, the submit button and the sort toggle.
    Saving to and reading from local storage are not modelled; loading takes the
    already-parsed stored list as a parameter. Each confirmation the user gives is a
    `confirmed` parameter, and each message the modal shows is the returned notice. */
module Store {
  import opened Wrappers
  import opened Text
  import opened Tasks
  import opened Projection
  import opened Summary

  /** The message shown after a handler ran; `Silent` when it shows none. */
  datatype Notice =
    | Added
    | Updated
    | NotFound
    | Deleted
    | AllDeleted
    | EmptyText
    | MissingDate
    | Editing
    | SortChanged(ascending: bool)
    | Silent

  class TaskStore {
    var todos: seq<Task>
    var nextId: int
    var isEditing: bool
    var currentEditId: Option<int>
    var sortAscending: bool

    /** Ids are pairwise distinct and below `nextId`, and edit mode is on exactly
        when there is an edit target. */
    ghost predicate Valid()
      reads this
    {
      && DistinctIds(todos)
      && IdsBelow(todos, nextId)
      && (isEditing <==> currentEditId.Some?)
    }

    /** Page load: the initial state, then `loadTasks` on the stored list if there is
        one. The counter restarts one past the largest stored id. The stored list is
        not checked, so the store is valid exactly when its ids are distinct. */
    constructor Load(stored: Option<seq<Task>>)
      ensures todos == (if stored.Some? then stored.value else [])
      ensures nextId == RecoveredNextId(todos)
      ensures !isEditing && currentEditId == None && sortAscending
      ensures Valid() <==> DistinctIds(todos)
    {
      var list := [];
      var next := 1;
      if stored.Some? {
        list := stored.value;
        if |list| > 0 {
          next := MaxId(list) + 1;
        }
      }
      todos := list;
      nextId := next;
      isEditing := false;
      currentEditId := None;
      sortAscending := true;
    }

    /** `addTaskLocally`: appends a pending task numbered with the counter and
        advances the counter; the existing tasks are untouched. */
    method Add(text: string, date: string) returns (notice: Notice)
      modifies this`todos, this`nextId
      ensures todos == old(todos) + [Task(old(nextId), text, date, false)]
      ensures nextId == old(nextId) + 1
      ensures notice == Added
      ensures old(Valid()) ==> Valid()
    {
      todos := todos + [Task(nextId, text, date, false)];
      nextId := nextId + 1;
      notice := Added;
    }

    /** `updateTaskLocally`: merges the patch into the first task with `id`, keeping
        its id and position; a missing id changes nothing and reports an error. */
    method Update(id: int, patch: Patch) returns (notice: Notice)
      modifies this`todos
      ensures todos == UpdateById(old(todos), id, patch)
      ensures notice == if HasId(old(todos), id) then Updated else NotFound
      ensures old(Valid()) ==> Valid()
    {
      UpdateKeepsIds(todos, id, patch, nextId);
      var idx := IndexOf(todos, id);
      if idx > -1 {
        todos := todos[idx := Merge(todos[idx], patch)];
        notice := Updated;
      } else {
        notice := NotFound;
      }
    }

    /** The toggle button: flips `completed` of the task with `id` through an update;
        nothing happens, and nothing is shown, when no task has that id. */
    method ToggleComplete(id: int) returns (notice: Notice)
      modifies this`todos
      ensures HasId(old(todos), id) ==>
        var i := IndexOf(old(todos), id);
        && todos == old(todos)[i := old(todos)[i].(completed := !old(todos)[i].completed)]
        && notice == Updated
      ensures !HasId(old(todos), id) ==> todos == old(todos) && notice == Silent
      ensures old(Valid()) ==> Valid()
    {
      var i := IndexOf(todos, id);
      if i >= 0 {
        notice := Update(id, Patch(None, None, Some(!todos[i].completed)));
      } else {
        notice := Silent;
      }
    }

    /** `deleteTaskLocally`: when the user confirms, every task with `id` goes and the
        rest keep their order; the counter is not touched. */
    method Delete(id: int, confirmed: bool) returns (notice: Notice)
      modifies this`todos
      ensures todos == if confirmed then WithoutId(old(todos), id) else old(todos)
      ensures notice == if confirmed then Deleted else Silent
      ensures old(Valid()) ==> Valid()
    {
      if confirmed {
        WithoutIdShape(todos, id);
        todos := WithoutId(todos, id);
        notice := Deleted;
      } else {
        notice := Silent;
      }
    }

    /** `deleteAllTasksLocally`: when the user confirms, the list empties and the
        counter restarts at 1. */
    method DeleteAll(confirmed: bool) returns (notice: Notice)
      modifies this`todos, this`nextId
      ensures todos == if confirmed then [] else old(todos)
      ensures nextId == if confirmed then 1 else old(nextId)
      ensures notice == if confirmed then AllDeleted else Silent
      ensures old(Valid()) ==> Valid()
    {
      if confirmed {
        todos := [];
        nextId := 1;
        notice := AllDeleted;
      } else {
        notice := Silent;
      }
    }

    /** The edit button: when a task has `id`, edit mode turns on with `id` as its
        target, replacing any earlier target; otherwise nothing happens. */
    method EnterEdit(id: int) returns (notice: Notice)
      modifies this`isEditing, this`currentEditId
      ensures HasId(todos, id) ==> isEditing && currentEditId == Some(id) && notice == Editing
      ensures !HasId(todos, id) ==> unchanged(this) && notice == Silent
      ensures old(Valid()) ==> Valid()
    {
      if IndexOf(todos, id) >= 0 {
        isEditing := true;
        currentEditId := Some(id);
        notice := Editing;
      } else {
        notice := Silent;
      }
    }

    /** The add/update button. A description that trims to nothing, or an empty date,
        is refused with a message and changes nothing. Otherwise, in edit mode the
        target gets the trimmed text and the date and edit mode ends (whether or not
        the target still exists); outside edit mode a task is added. */
    method Submit(input: string, date: string) returns (notice: Notice)
      modifies this`todos, this`nextId, this`isEditing, this`currentEditId
      ensures Trim(input) == [] ==> notice == EmptyText && unchanged(this)
      ensures Trim(input) != [] && date == [] ==> notice == MissingDate && unchanged(this)
      ensures Trim(input) != [] && date != [] && old(isEditing) ==>
        var patch := Patch(Some(Trim(input)), Some(date), None);
        && todos == (if old(currentEditId).Some? then UpdateById(old(todos), old(currentEditId).value, patch) else old(todos))
        && notice == (if old(currentEditId).Some? && HasId(old(todos), old(currentEditId).value) then Updated else NotFound)
        && nextId == old(nextId)
        && !isEditing && currentEditId == None
      ensures Trim(input) != [] && date != [] && !old(isEditing) ==>
        && todos == old(todos) + [Task(old(nextId), Trim(input), date, false)]
        && nextId == old(nextId) + 1
        && notice == Added
        && !isEditing && currentEditId == old(currentEditId)
      ensures old(Valid()) ==> Valid()
    {
      var text := Trim(input);
      if text == [] {
        return EmptyText;
      }
      if date == [] {
        return MissingDate;
      }
      if isEditing {
        match currentEditId {
          case Some(target) =>
            notice := Update(target, Patch(Some(text), Some(date), None));
          case None =>
            notice := NotFound;
        }
        isEditing := false;
        currentEditId := None;
      } else {
        notice := Add(text, date);
      }
    }

    /** The sort button flips the direction of the date sort. */
    method ToggleSort() returns (notice: Notice)
      modifies this`sortAscending
      ensures sortAscending == !old(sortAscending)
      ensures notice == SortChanged(sortAscending)
      ensures old(Valid()) ==> Valid()
    {
      sortAscending := !sortAscending;
      notice := SortChanged(sortAscending);
    }

    /** The rows the table shows for the current search box and selector values:
        the matching tasks, in date order for the current direction. */
    function Rows(term: string, filterValue: string): (r: seq<Task>)
      reads this
      ensures forall t :: t in r <==> t in todos && MatchesSearch(t, term) && MatchesStatus(t, ParseFilter(filterValue))
      ensures forall t :: multiset(r)[t] == if MatchesSearch(t, term) && MatchesStatus(t, ParseFilter(filterValue)) then multiset(todos)[t] else 0
      ensures SortedByDate(r, sortAscending)
    {
      Project(todos, term, ParseFilter(filterValue), sortAscending)
    }

    /** The figures under the table for the current list. */
    function Figures(): (s: Stats)
      reads this
      ensures s.total == |todos| && s.completed == |Where(todos, IsDone)|
      ensures s.completed + s.pending == s.total
      ensures 0 <= s.progress <= 100
      ensures s.total == 0 ==> s.progress == 0
      ensures s.total > 0 && s.completed == s.total ==> s.progress == 100
      ensures s.completed == 0 ==> s.progress == 0
    {
      ComputeStats(todos)
    }
  }

  /** Whatever was stored, deleting everything and adding a task numbers it 1. */
  method DeleteAllThenAdd(stored: Option<seq<Task>>, text: string, date: string) returns (id: int)
    ensures id == 1
  {
    var store := new TaskStore.Load(stored);
    var notice := store.DeleteAll(true);
    notice := store.Add(text, date);
    id := store.todos[|store.todos| - 1].id;
  }

  /** One task through its life: added, completed, kept on a declined delete, then
      deleted, with the figures after each step. */
  method SingleTaskScenario(text: string, date: string)
    returns (added: seq<Task>, before: Stats, after: Stats, kept: nat, final: Stats)
    ensures added == [Task(1, text, date, false)]
    ensures before == Stats(1, 0, 1, 0)
    ensures after == Stats(1, 1, 0, 100)
    ensures kept == 1
    ensures final == Stats(0, 0, 0, 0)
  {
    var store := new TaskStore.Load(None);
    var notice := store.Add(text, date);
    added := store.todos;
    before := store.Figures();
    notice := store.ToggleComplete(1);
    after := store.Figures();
    notice := store.Delete(1, false);
    kept := |store.todos|;
    notice := store.Delete(1, true);
    final := store.Figures();
  }

  /** A fresh store with two tasks added, the first then the second chosen for
      editing. */
  method TwoTasksEditingSecond(text1: string, date1: string, text2: string, date2: string)
    returns (store: TaskStore)
    ensures fresh(store)
    ensures store.todos == [Task(1, text1, date1, false), Task(2, text2, date2, false)]
    ensures store.isEditing && store.currentEditId == Some(2)
  {
    store := new TaskStore.Load(None);
    var notice := store.Add(text1, date1);
    notice := store.Add(text2, date2);
    var listed := [Task(1, text1, date1, false), Task(2, text2, date2, false)];
    assert store.todos == listed;
    assert listed[0] in listed && listed[1] in listed;
    notice := store.EnterEdit(1);
    assert store.todos == listed;
    notice := store.EnterEdit(2);
  }

  /** Choosing a second task to edit retargets the form: the submit updates the last
      one chosen with the trimmed text, leaves the first alone and ends edit mode. */
  method EditRetargetScenario(text1: string, date1: string, text2: string, date2: string, edited: string, newDate: string)
    returns (first: Task, second: Task, editing: bool)
    requires Trim(edited) != [] && newDate != []
    ensures first == Task(1, text1, date1, false)
    ensures second == Task(2, Trim(edited), newDate, false)
    ensures !editing
  {
    var store := TwoTasksEditingSecond(text1, date1, text2, date2);
    var listed := store.todos;
    assert IndexOf(listed, 2) == 1;
    var patch := Patch(Some(Trim(edited)), Some(newDate), None);
    var notice := store.Submit(edited, newDate);
    assert store.todos == UpdateById(listed, 2, patch);
    first, second, editing := store.todos[0], store.todos[1], store.isEditing;
  }

  /** Tasks due on 5 and 1 January 2024, added in that order, are listed 1 January
      first; after the sort button, 5 January first. */
  method SortToggleScenario(text5: string, text1: string) returns (ascending: seq<Task>, descending: seq<Task>)
    ensures ascending == [Task(2, text1, "2024-01-01", false), Task(1, text5, "2024-01-05", false)]
    ensures descending == [Task(1, text5, "2024-01-05", false), Task(2, text1, "2024-01-01", false)]
  {
    var store := new TaskStore.Load(None);
    var notice := store.Add(text5, "2024-01-05");
    notice := store.Add(text1, "2024-01-01");
    var jan5, jan1 := Task(1, text5, "2024-01-05", false), Task(2, text1, "2024-01-01", false);
    assert store.todos == [jan5, jan1] && store.sortAscending;
    JanuarySortScenario(jan5, jan1);
    assert ParseFilter("all") == All;
    ascending := store.Rows("", "all");
    assert ascending == Project([jan5, jan1], "", All, true);
    notice := store.ToggleSort();
    assert store.todos == [jan5, jan1] && !store.sortAscending;
    descending := store.Rows("", "all");
    assert descending == Project([jan5, jan1], "", All, false);
  }

  /** The counter is rebuilt from the stored ids on load, so after the task with the
      largest id is deleted and the page reloads, its id is handed out again. */
  method ReloadReusesIdScenario(text1: string, text2: string, text3: string, date: string)
    returns (deleted: int, reissued: int)
    ensures deleted == 2 && reissued == 2
  {
    var store := new TaskStore.Load(None);
    var notice := store.Add(text1, date);
    notice := store.Add(text2, date);
    deleted := store.todos[1].id;
    notice := store.Delete(deleted, true);
    var reloaded := new TaskStore.Load(Some(store.todos));
    notice := reloaded.Add(text3, date);
    reissued := reloaded.todos[|reloaded.todos| - 1].id;
  }
}
