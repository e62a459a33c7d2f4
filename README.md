# To-do list state machine in Dafny

A model of the single-page to-do list application in `script.js`: the in-memory
state (`lists`, an ordered sequence of lists, each with an ordered sequence of
tasks; `selectedListId`, an id or null), the six event handlers that change it,
and the projection `render` draws from it (sidebar rows, detail panel,
remaining-task label).

Modules:

- `Wrappers` (wrappers.dfy): `Option`, the model of a value that may be null.
- `Seqs` (seqs.dfy): `Filter` and `FindFirst`, the model of `Array.prototype.filter`
  and `Array.prototype.find`, with their order, membership and length facts.
- `TodoModel` (model.dfy): the `Task` and `TodoList` records, `createList` /
  `createTask`, the selection invariant, and the remaining-task label with its
  decimal numeral.
- `TodoApp` (app.dfy): class `App` whose fields `lists` and `selectedListId`
  the six handlers reassign in place. Each handler's postcondition gives the
  whole new state in terms of the old one. Each also says what happens to the
  selection invariant `Valid()`.
- `TodoView` (view.dfy): `renderLists`, `renderTasks` and `render` as methods
  whose loops build the rows. They return the view as a value.
- `Persistence` (persistence.dfy): the selected-list storage key, with the
  defect listed under Findings.
- `Scenarios` (scenarios.dfy): four worked examples, which the verifier checks
  through the handlers' and Render's contracts: the groceries walk-through
  ending in "0 tasks remaining", clear completed on [A, B(done), C] giving
  [A, C], deleting the selected second list, and the reload after a delete
  that leaves a dangling selection.

Behaviour of the code that the model follows deliberately:

- Toggle, clear completed and add task (with a non-empty name) dereference the
  result of `find` without a check. When no list is selected they throw; they
  are not no-ops. The model makes "the selected list exists" a precondition.
  Toggle also requires the checkbox's task id to be in that list.
- Delete removes every list whose id equals the selection, not just one.
  With no selection it removes nothing.
- Ids come from the clock and are not guaranteed unique. They are parameters
  here, and no uniqueness is assumed. `find` takes the first match.
- Saving with no selection does not leave the key absent. It stores `"null"`
  (see Findings).

## Model

| member | source | states |
|---|---|---|
| `Seqs.Filter` | script.js:45 | the result holds only elements that pass the predicate, holds every input element that passes, and is no longer than the input; with `FilterIsSubsequence` and `FilterPartition` this fixes it as exactly the passing elements, in order, with their multiplicity |
| `Seqs.FindFirst` | script.js:34-35 | returns the index of an element that matches, with no match before it; returns None exactly when no element matches |
| `Seqs.FilterIsSubsequence` | script.js:51 | a filter's result is an ordered subsequence of its input, so kept lists and tasks keep their relative order |
| `Seqs.FilterIdempotent` | script.js:45 | filtering out completed tasks a second time changes nothing |
| `TodoModel.CreateList` | script.js:80-82 | a new list has the given id and name and no tasks, so nothing remaining |
| `TodoModel.CreateTask` | script.js:85-87 | a new task has the given id and name and is incomplete, counting as one remaining task |
| `TodoModel.SelectedIndex` | script.js:34 | the index of the first list whose id is the selected id; None exactly when no list has it, and so None when nothing is selected |
| `TodoModel.RemainingCount` | script.js:134 | the number of incomplete tasks: at most the number of tasks, 0 iff every task is complete, all of them iff none is complete |
| `Seqs.FilterEmpty` | script.js:134 | a filter keeps nothing iff no element passes |
| `Seqs.FilterFull` | script.js:134 | a filter keeps every element iff every element passes |
| `TodoModel.SelectionConsistentFinds` | script.js:106-111 | the selection invariant holds iff nothing is selected or `find` locates the selected list |
| `TodoModel.SelectionConsistentSameIds` | script.js:32-47 | a change that keeps every list's id at its position keeps the selection invariant |
| `TodoModel.DecimalString` | script.js:136 | the numeral is non-empty, all decimal digits, and has no leading zero except for 0 |
| `TodoModel.ParseDecimalString` | script.js:136 | reading the numeral back gives the number |
| `TodoModel.RemainingLabel` | script.js:133-136 | the label is "N task remaining" iff N, the number of incomplete tasks, is 1, and "N tasks remaining" iff N is not 1 |
| `TodoModel.RemainingLabelShowsCount` | script.js:134-136 | the number before the label's first space is the number of incomplete tasks |
| `TodoModel.RemainingLabelInjective` | script.js:133-136 | equal labels imply equal numbers of incomplete tasks |
| `TodoModel.RemainingPlusComplete` | script.js:134 | incomplete plus complete tasks is all the tasks, so N tasks with K complete leave N - K remaining |
| `TodoModel.ClearedTasksKeepLabel` | script.js:43-47 | after clearing, every task left is remaining, as many as were remaining before, and the label is unchanged |
| `TodoModel.ToggledRemainingCount` | script.js:34-38 | setting one task's flag changes the remaining count by +1, -1 or 0 according to the old and new flag |
| `TodoModel.AppendedTaskRemainingCount` | script.js:72-75 | appending a newly created task adds exactly one to the remaining count |
| `TodoApp.App.constructor` | script.js:20-21 | the start-up state is the loaded lists and selection |
| `TodoApp.App.SelectList` | script.js:24-29 | the selection becomes the row's id and the lists are unchanged; the invariant holds afterwards iff some list has that id |
| `TodoApp.App.ToggleTask` | script.js:32-40 | in the first list with the selected id, only the first task with the checkbox's id gets `complete := checked`; all other tasks, lists and the selection are unchanged; the invariant is preserved |
| `TodoApp.App.ClearCompleted` | script.js:43-47 | the first selected list's tasks become its incomplete tasks in order; other lists and the selection are unchanged; the invariant is preserved |
| `TodoApp.App.DeleteSelectedList` | script.js:50-54 | every list with the selected id is removed, the rest keep their order, and the selection becomes null (so the invariant holds) |
| `TodoApp.App.AddList` | script.js:57-65 | a null or empty name changes nothing; otherwise exactly one list with the given id, name and no tasks is appended; the selection is untouched and the invariant preserved |
| `TodoApp.App.AddTask` | script.js:68-77 | a null or empty name changes nothing; otherwise an incomplete task with the given id and name is appended to the first selected list; other lists and the selection are unchanged; the invariant is preserved |
| `TodoView.RenderLists` | script.js:140-151 | one sidebar row per list, in list order, carrying its id and name, marked active iff its id equals the selected id |
| `TodoView.RenderTasks` | script.js:119-130 | one task row per task, in order, with the task's id, name and completion as the checkbox state |
| `TodoView.Render` | script.js:102-116 | the detail panel is hidden iff nothing is selected; otherwise it shows the selected list's name, its remaining-task label and its task rows; the sidebar is as in RenderLists |
| `Persistence.SavedNoSelectionReloadsDangling` | script.js:98 | saving no selection and reloading gives the id "null", which breaks the selection invariant for any lists not named "null" |
| `Persistence.SaveSelectionFixed` | script.js:98 | the intended save: loading what it stores gives back the selection exactly, so a consistent selection stays consistent across a reload |

## Left out

- DOM plumbing: element lookup (script.js:1-13), template cloning and label wiring, the `clearElement` loop (script.js:154-158), and the `tagName` checks on event targets (script.js:25, 33). The rows and panel are modelled as values.
- Clearing the input fields after a submit (script.js:62, 73) changes only the page.
- The lists storage key: `JSON.stringify` / `JSON.parse` and the `|| []` fallback for a missing key (script.js:20, 97) are library calls and are not modelled. Only the selected-id key is.
- `Persistence.LoadSelection` and `Persistence.SaveSelection` are not proved against anything: they state the assumed behaviour of `localStorage.getItem` (null for an absent key, else the stored string) and of `setItem` (the value converted to a string, so null becomes "null"), on which the Findings row rests.
- Id generation with `Date.now()` (script.js:81, 86) depends on the clock. Ids are parameters of `AddList` and `AddTask`.
- The order of save and render after each handler (`saveAndRender`, script.js:90-93) is not modelled. A handler changes the state; `Render` projects any state that meets its precondition.
- After a toggle the source redraws only the label (script.js:38), not the whole page. The model has no partial redraw; `ToggledRemainingCount` states what happens to the count.
- `TodoApp.App.ToggleTask`, `ClearCompleted`, `AddTask` and `TodoView.Render`: where the source would throw a TypeError on a missing list or task, the model has a precondition. The thrown error is not modelled.

## Findings

| source | as written | input that shows it | evidently intended | confidence | as-written member | corrected member |
|---|---|---|---|---|---|---|
| script.js:98 | `setItem` with a null selection stores the string "null" | delete the selected list, then reload: `selectedListId` is "null", no list matches, and `render` reads `.name` of undefined (script.js:106-111) | leave the key absent when nothing is selected, so a reload gives null | not executed; high | `Persistence.SavedNoSelectionReloadsDangling` | `Persistence.SaveSelectionFixed` |
