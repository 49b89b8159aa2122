# Task list: a Dafny model

This project models the logic of a browser to-do list whose only code is one closure,
`js/script.js`. The page holds an ordered list of tasks (`id`, `text`, due `date`,
`completed`), an id counter `nextId`, an edit mode (`isEditing` with its target
`currentEditId`) and a sort direction. The handlers add, update, complete, delete and
delete all tasks. The table shows a projection of the list: search by text with case
ignored, then filter by status, then sort by due date. Under the table are counts
and a progress percentage.

Modules, one per component of the closure:

- `Wrappers`: the `Option` type.
- `Text`: the string operations the page uses: `trim`, `toLowerCase` (ASCII),
  `includes`, and the order of due dates.
- `Tasks`: the task record, the partial-update merge, `filter`, `findIndex` by id,
  `Math.max` over ids, update-by-id and remove-by-id on lists, with their lemmas.
- `Projection`: the search, status filter and stable date sort of `renderTasks`.
- `Summary`: `updateStats`.
- `Store`: the class `TaskStore`, whose fields are the closure's state variables.
  Its methods are the handlers that change them. After the class come client
  methods that run the store through whole scenarios.

Each store method states the new state exactly, in terms of the old one. It also
keeps the invariant `Valid()`: ids are pairwise distinct, every id is below
`nextId`, and edit mode is on exactly when it has a target. The methods do not
require `Valid()`. A stored list is loaded without any check, so they promise
`old(Valid()) ==> Valid()` instead.

Due dates are the strings a date input yields, such as `2024-01-05`, or the empty
string. They are compared lexicographically. For dates whose year has four digits
this is chronological order; years past 9999 are discussed under "Left out".

Three behaviours of the code are easy to overlook. The model follows the code in each:

- Ids can be reissued. `loadTasks` sets the counter one past the largest stored id,
  so after the newest task is deleted and the page is reloaded, its id is issued
  again (`Store.ReloadReusesIdScenario`).
- A missing target is reported only on the submit path. The toggle button does
  nothing and shows nothing when no task has its id (`Store.TaskStore.ToggleComplete`).
- The submit button checks and stores the trimmed description. For the date it
  checks only that it is non-empty.

## Model

| member | source | states |
|---|---|---|
| `Text.TrimStart` | js/script.js:230 | the result is a suffix of the input, every dropped character is JavaScript white space, and the result does not start with white space |
| `Text.TrimEnd` | js/script.js:230 | the result is a prefix of the input, every dropped character is white space, and the result does not end with white space |
| `Text.Trim` | js/script.js:230 | `trim()` gives a slice of the input with only white space around it and none at its ends; it is empty exactly when the input is all white space |
| `Text.Lower` | js/script.js:121-124 | same length, no upper-case ASCII letter remains, and each position folds to the same letter as the input |
| `Text.Includes` | js/script.js:123-125 | `includes` holds exactly when the term occurs at some position of the text; the empty term is included in every text |
| `Text.DateLe` | js/script.js:137-140 | one due date may precede another exactly when it is a prefix of it or is smaller at the first position where they differ |
| `Text.DateLeReflexive` | js/script.js:137-140 | every date is ordered before or equal to itself |
| `Text.DateLeTotal` | js/script.js:137-140 | any two due dates are comparable |
| `Text.DateLeTransitive` | js/script.js:137-140 | the date order is transitive |
| `Text.DateLeAntisymmetric` | js/script.js:137-140 | two dates ordered both ways are equal |
| `Text.DateLeFirstDifference` | js/script.js:137-140 | dates that agree up to position k are ordered by their characters at k, strictly |
| `Tasks.Merge` | js/script.js:82 | the spread `{...task, ...updates}` keeps the id and takes each field from the patch when the patch carries it, else from the task |
| `Tasks.Where` | js/script.js:95 | `filter` keeps exactly the accepted elements, each with its multiplicity, and never grows the list |
| `Tasks.WhereIsSubsequence` | js/script.js:118-134 | a filter keeps the survivors in their original order |
| `Tasks.WhereKeepsAll` | js/script.js:122-126 | a filter that accepts everything returns its input unchanged |
| `Tasks.WhereWhere` | js/script.js:123-133 | two filters in a row equal one filter by both conditions |
| `Tasks.WhereAgree` | js/script.js:123-133 | filters that agree on the list's elements give the same result |
| `Tasks.WherePartition` | js/script.js:218-219 | a filter and its complement split the list: their lengths add up to its length |
| `Tasks.WhereKeepsDistinct` | js/script.js:95 | filtering a list with distinct ids leaves distinct ids |
| `Tasks.IndexOf` | js/script.js:80 | `findIndex` gives -1 exactly when no task has the id, and otherwise the first position holding it |
| `Tasks.MaxId` | js/script.js:53 | `Math.max` over the ids is an id of the list that no id exceeds |
| `Tasks.RecoveredNextId` | js/script.js:50-54 | the counter after loading is above every stored id and one past an existing id, or 1 for an empty list |
| `Tasks.UpdateById` | js/script.js:80-88 | an update keeps length, positions and every id; a missing id changes nothing; otherwise only the first task with the id changes, to its merge with the patch |
| `Tasks.UpdateKeepsIds` | js/script.js:82 | an update keeps ids distinct and below any bound they were below |
| `Tasks.WithoutId` | js/script.js:95 | removing by id leaves no task with that id and keeps every task with another id |
| `Tasks.WithoutIdShape` | js/script.js:95 | removal keeps the other tasks in order, keeps ids distinct, and with distinct ids removes exactly one task when the id was present |
| `Tasks.WithoutIdCount` | js/script.js:95 | with distinct ids the list shrinks by one exactly when the id was present |
| `Projection.ParseFilter` | js/script.js:129-134 | the selector value "completed" selects completed tasks, "pending" pending ones, anything else all |
| `Projection.Searched` | js/script.js:121-126 | the search step keeps exactly the tasks whose lower-cased text includes the lower-cased term, each as often as in the list, and keeps everything for an empty term |
| `Projection.Filtered` | js/script.js:128-134 | the status step keeps exactly the tasks of the selected status, each as often as in the list |
| `Projection.Selected` | js/script.js:118-134 | search then status filter keeps exactly the tasks matching both, each as often as in the list |
| `Projection.SelectedIsOneFilter` | js/script.js:120-134 | the search step followed by the status step equals one filter by both conditions, the skipped search for an empty term included |
| `Projection.InOrderTotal` | js/script.js:137-141 | any two tasks may stand in some order under the comparator, in either direction |
| `Projection.InOrderTransitive` | js/script.js:137-141 | the comparator's order is transitive in either direction |
| `Projection.Insert` | js/script.js:137-141 | inserting adds exactly the one task to the list's contents |
| `Projection.SortByDate` | js/script.js:137-141 | the sort is a permutation of its input |
| `Projection.InsertSorted` | js/script.js:137-141 | inserting into a list in date order gives a list in date order |
| `Projection.SortByDateSorted` | js/script.js:137-141 | the sorted list is in date order, non-decreasing when ascending and non-increasing when descending |
| `Projection.SortByDateOfSorted` | js/script.js:137-141 | sorting a list already in date order returns it unchanged |
| `Projection.Project` | js/script.js:118-141 | the rows are exactly the tasks that match the search term and the status filter, each as often as in the list, in date order for the current direction |
| `Projection.ProjectIsSortedSubsequence` | js/script.js:118-141 | the rows are a reordering of a subsequence of the list |
| `Projection.ProjectEmptyTerm` | js/script.js:121-126 | with an empty search term only the status filter removes tasks |
| `Projection.ProjectIdempotent` | js/script.js:118-141 | projecting the rows again with the same inputs yields the same rows |
| `Projection.SortKeepsTiedPair` | js/script.js:137-141 | two tasks due on the same day keep their list order in both directions: the direction does not reverse ties |
| `Projection.TwoTasksSorted` | js/script.js:137-141 | of two tasks with different dates, ascending order puts the earlier first and descending order the later, whatever their order in the list |
| `Projection.JanuarySortScenario` | js/script.js:137-141 | tasks due 2024-01-05 and 2024-01-01 show 01-01 first ascending and 01-05 first descending |
| `Summary.Percent` | js/script.js:220 | the exact value that `Math.round(completed / total * 100)` approximates in floating point: the integer p with p - 1/2 <= 100 * completed / total < p + 1/2, the nearest integer with halves rounded up |
| `Summary.PercentRounds` | js/script.js:220 | the percentage lies in 0..100 when completed <= total, is 0 with nothing completed and 100 with everything completed |
| `Summary.ComputeStats` | js/script.js:216-220 | total is the list's length; completed and pending are the lengths of the two status filters and add up to total; progress lies in 0..100, is 0 for an empty list or nothing completed, 100 when all are completed, else the rounded percentage |
| `Store.TaskStore.Load` | js/script.js:48-58 | the initial state then `loadTasks`: the stored list or an empty one, the counter one past the largest stored id or 1, edit mode off, ascending sort; valid exactly when the stored ids are distinct |
| `Store.TaskStore.Add` | js/script.js:65-77 | appends exactly one pending task with the old counter as id and the given text and date, raises the counter by one, keeps the invariant |
| `Store.TaskStore.Update` | js/script.js:79-90 | the list becomes its update by id; reports success when the id is present and not-found otherwise; keeps the invariant |
| `Store.TaskStore.ToggleComplete` | js/script.js:184-189 | flips `completed` of the first task with the id and changes nothing else; a missing id changes nothing and shows nothing |
| `Store.TaskStore.Delete` | js/script.js:92-101 | declined: nothing changes; confirmed: every task with the id is removed, the others keep their order; the counter never changes; keeps the invariant |
| `Store.TaskStore.DeleteAll` | js/script.js:103-113 | declined: nothing changes; confirmed: the list is empty and the counter is 1 |
| `Store.TaskStore.EnterEdit` | js/script.js:192-206 | for an existing id, edit mode turns on with that id as target, replacing any earlier one; otherwise nothing changes |
| `Store.TaskStore.Submit` | js/script.js:229-253 | blank trimmed text or empty date: refused with its message, nothing changes; in edit mode: the target gets the trimmed text and date, edit mode ends; otherwise a task with the trimmed text is added; keeps the invariant |
| `Store.TaskStore.ToggleSort` | js/script.js:258-262 | the sort direction flips and the message names the new direction; keeps the invariant |
| `Store.TaskStore.Rows` | js/script.js:116-141 | the rows shown for a search box and selector value are exactly the stored tasks matching both, each as often as stored, in date order for the current direction |
| `Store.TaskStore.Figures` | js/script.js:216-226 | the figures show the number of stored tasks and of completed ones, the pending count completes the total, and the progress lies in 0..100, is 0 for no tasks or none completed and 100 when all are completed |
| `Store.DeleteAllThenAdd` | js/script.js:103-107 | whatever was stored, a confirmed delete-all followed by an add gives the new task id 1 |
| `Store.SingleTaskScenario` | js/script.js:65-113 | one added task has id 1 and is pending (figures 1/0/1/0%); completing it gives 1/1/0/100%; a declined delete keeps it; a confirmed delete gives 0/0/0/0% |
| `Store.EditRetargetScenario` | js/script.js:192-253 | choosing a second task to edit retargets the form: the submit gives the last one chosen the trimmed text and the new date, leaves the first alone and ends edit mode |
| `Store.SortToggleScenario` | js/script.js:258-262 | tasks due 2024-01-05 and 2024-01-01, added in that order, are listed 01-01 first; after the sort button, 01-05 first |
| `Store.ReloadReusesIdScenario` | js/script.js:48-54 | after the newest task is deleted and the list reloaded, the next add reissues its id |

## Left out

- Local storage and JSON (js/script.js:49-51, 60-62): the store is given the parsed list, or `None` when nothing is stored. Saving after each change is not modelled. A malformed blob is not modelled either.
- `createdAt` (js/script.js:71): it reads the clock.
- DOM rendering and UI details: table rows, the "no tasks" placeholder row, button labels and colours, copying a task into the form on edit, clearing the form after submit, element lookups and event wiring.
- The notification modal (js/script.js:31-45): a confirmation is a `confirmed` parameter, and each message shown is the `Notice` a method returns. Each handler is modelled as one atomic step. That is right only if no other handler runs while a modal is open, which depends on page markup outside `js/script.js`.
- Interleaved handlers: each handler awaits `showNotification`, and a new notification replaces the pending callback (js/script.js:37, 44-45). So a handler still waiting at its `await` when another notification opens never resumes. A delete whose confirmation is superseded never removes the task (line 95). An edit-mode submit whose acknowledgment is superseded never leaves edit mode (lines 244-245). The model does not capture this.
- Parsing dates with `new Date`: due dates are compared as strings. The comparator gives NaN for a string that is not a date; that case is not modelled.
- `Text.DateLe`: matches the calendar only for years of four digits. A date input also accepts years past 9999, and then the string order goes against the calendar: `10000-01-01` comes before `9999-12-31`. `new Date` orders such dates by the calendar or yields NaN.
- `Text.Lower`: does not model full Unicode `toLowerCase`, only ASCII letters, because Unicode case mapping tables are outside the model.
- `Summary.Percent`: is the exact half-up rounding, not the floating-point expression of js/script.js:220; see the next line.
- `Summary.ComputeStats`: computes the exact rounded percentage, not the floating-point one. The two can differ when the exact value ends in .5. For 29 of 200 tasks, `29 / 200 * 100` is 14.499999999999998 in floating point, so the page shows 14 while the model gives 15.
- Ids are unbounded integers. JavaScript numbers lose precision above 2^53.
- `Projection.SortByDate`: is stable like `Array.prototype.sort`: tasks due on the same day keep their list order in both directions, so descending order is not the reverse of ascending order when dates repeat. `Projection.SortKeepsTiedPair` states this for two tasks; no lemma states stability for longer lists.
- `parseInt` of a row's `data-id` attribute: the handlers receive the id as an integer.
