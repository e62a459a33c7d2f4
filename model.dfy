/**
 * The records the to-do application keeps in memory (script.js:20-21, 80-87):
 * lists of tasks, the selection that points at one list, and the remaining-task
 * text shown for the selected list (script.js:133-136).
 */
module TodoModel {
  import opened Wrappers
  import opened Seqs

  /** A task: `{ id, name, complete }` (script.js:86). */
  datatype Task = Task(id: string, name: string, complete: bool)

  /** A list: `{ id, name, tasks }` (script.js:81). */
  datatype TodoList = TodoList(id: string, name: string, tasks: seq<Task>)

  /** `createList(name)`, with the clock-derived id passed in. */
  function CreateList(id: string, name: string): (list: TodoList)
    ensures list.id == id && list.name == name
    ensures list.tasks == [] && RemainingCount(list.tasks) == 0
  {
    TodoList(id, name, [])
  }

  /** `createTask(name)`, with the clock-derived id passed in. */
  function CreateTask(id: string, name: string): (task: Task)
    ensures task.id == id && task.name == name
    ensures IsIncomplete(task) && RemainingCount([task]) == 1
  {
    Task(id, name, false)
  }

  /** `task => !task.complete` */
  predicate IsIncomplete(t: Task) { !t.complete }

  /** `task => task.complete` */
  predicate IsComplete(t: Task) { t.complete }

  /** `list => list.id === selectedListId`; no list id is null. */
  function HasId(selected: Option<string>): TodoList -> bool
  {
    (l: TodoList) => Some(l.id) == selected
  }

  /** `list => list.id !== selectedListId` */
  function LacksId(selected: Option<string>): TodoList -> bool
  {
    (l: TodoList) => Some(l.id) != selected
  }

  /** `task => task.id === e.target.id` */
  function HasTaskId(id: string): Task -> bool
  {
    (t: Task) => t.id == id
  }

  /** Index of `lists.find(list => list.id === selectedListId)`. */
  function SelectedIndex(lists: seq<TodoList>, selected: Option<string>): (k: Option<nat>)
    ensures k.Some? ==> k.value < |lists| && Some(lists[k.value].id) == selected
    ensures k.Some? ==> forall j :: 0 <= j < k.value ==> Some(lists[j].id) != selected
    ensures k.None? <==> forall j :: 0 <= j < |lists| ==> Some(lists[j].id) != selected
  {
    FindFirst(lists, HasId(selected))
  }

  /**
   * The selection invariant `render` depends on: no selection, or the
   * selected id is the id of some list.
   */
  predicate SelectionConsistent(lists: seq<TodoList>, selected: Option<string>)
  {
    selected.None? || exists i :: 0 <= i < |lists| && lists[i].id == selected.value
  }

  /** The selection invariant holds exactly when `find` succeeds or nothing is selected. */
  lemma SelectionConsistentFinds(lists: seq<TodoList>, selected: Option<string>)
    ensures SelectionConsistent(lists, selected) <==>
            selected.None? || SelectedIndex(lists, selected).Some?
  {
    if selected.Some? && SelectionConsistent(lists, selected) {
      var i :| 0 <= i < |lists| && lists[i].id == selected.value;
      assert HasId(selected)(lists[i]);
    }
  }

  /** Only list ids matter to the selection invariant. */
  lemma SelectionConsistentSameIds(a: seq<TodoList>, b: seq<TodoList>, selected: Option<string>)
    requires |a| == |b|
    requires forall i :: 0 <= i < |a| ==> a[i].id == b[i].id
    requires SelectionConsistent(a, selected)
    ensures SelectionConsistent(b, selected)
  {
    if selected.Some? {
      var i :| 0 <= i < |a| && a[i].id == selected.value;
      assert b[i].id == selected.value;
    }
  }

  // ---------------------------------------------------------------------------
  // The remaining-task label (script.js:133-136)

  predicate IsDigit(c: char) { '0' <= c <= '9' }

  predicate IsSpace(c: char) { c == ' ' }

  predicate AllDigits(s: string)
  {
    forall i :: 0 <= i < |s| ==> IsDigit(s[i])
  }

  /** The decimal numeral JavaScript's template literal writes for `n`. */
  function DecimalString(n: nat): (s: string)
    ensures |s| >= 1 && AllDigits(s)
    ensures s[0] == '0' ==> n == 0
  {
    if n < 10 then [(n as int + '0' as int) as char]
    else DecimalString(n / 10) + [(n % 10 + '0' as int) as char]
  }

  /** Reads a string of decimal digits back as a number. */
  function ParseDecimal(s: string): nat
    requires AllDigits(s)
  {
    if s == [] then 0
    else ParseDecimal(s[..|s| - 1]) * 10 + (s[|s| - 1] as int - '0' as int)
  }

  lemma {:induction false} ParseDecimalString(n: nat)
    ensures ParseDecimal(DecimalString(n)) == n
  {
    if n >= 10 {
      var s := DecimalString(n);
      assert s[..|s| - 1] == DecimalString(n / 10);
      ParseDecimalString(n / 10);
    }
  }

  /** The number written before the first space of a label, if it is a numeral. */
  function LeadingCount(text: string): Option<nat>
  {
    match FindFirst(text, IsSpace)
    case None => None
    case Some(i) => if AllDigits(text[..i]) then Some(ParseDecimal(text[..i])) else None
  }

  /** `selectedList.tasks.filter(task => !task.complete).length` */
  function RemainingCount(tasks: seq<Task>): (n: nat)
    ensures n <= |tasks|
    ensures n == 0 <==> forall i :: 0 <= i < |tasks| ==> tasks[i].complete
    ensures n == |tasks| <==> forall i :: 0 <= i < |tasks| ==> !tasks[i].complete
  {
    FilterEmpty(tasks, IsIncomplete);
    FilterFull(tasks, IsIncomplete);
    |Filter(tasks, IsIncomplete)|
  }

  /** `${incompleteTaskCount} ${taskString} remaining` */
  function RemainingLabel(tasks: seq<Task>): (text: string)
    ensures var n := RemainingCount(tasks);
            (text == DecimalString(n) + " task remaining" <==> n == 1) &&
            (text == DecimalString(n) + " tasks remaining" <==> n != 1)
  {
    var n := RemainingCount(tasks);
    DecimalString(n) + " " + (if n == 1 then "task" else "tasks") + " remaining"
  }

  /** The label starts with the number of incomplete tasks, as a decimal numeral. */
  lemma RemainingLabelShowsCount(tasks: seq<Task>)
    ensures LeadingCount(RemainingLabel(tasks)) == Some(RemainingCount(tasks))
  {
    var n := RemainingCount(tasks);
    var d := DecimalString(n);
    var text := RemainingLabel(tasks);
    assert text[|d|] == ' ';
    assert forall j :: 0 <= j < |d| ==> text[j] == d[j];
    var k := FindFirst(text, IsSpace);
    assert IsSpace(text[|d|]);
    assert forall j :: 0 <= j < |d| ==> !IsSpace(text[j]);
    assert k == Some(|d|);
    assert text[..|d|] == d;
    ParseDecimalString(n);
  }

  /** Two equal labels report the same number of remaining tasks. */
  lemma RemainingLabelInjective(a: seq<Task>, b: seq<Task>)
    requires RemainingLabel(a) == RemainingLabel(b)
    ensures RemainingCount(a) == RemainingCount(b)
  {
    RemainingLabelShowsCount(a);
    RemainingLabelShowsCount(b);
  }

  /** Incomplete and complete tasks partition a list's tasks. */
  lemma RemainingPlusComplete(tasks: seq<Task>)
    ensures RemainingCount(tasks) + |Filter(tasks, IsComplete)| == |tasks|
  {
    FilterPartition(tasks, IsIncomplete, IsComplete);
  }

  /** After clearing completed tasks every task left is counted as remaining, and the label is unchanged. */
  lemma ClearedTasksKeepLabel(tasks: seq<Task>)
    ensures var cleared := Filter(tasks, IsIncomplete);
            RemainingCount(cleared) == |cleared| == RemainingCount(tasks) &&
            RemainingLabel(cleared) == RemainingLabel(tasks)
  {
    FilterIdempotent(tasks, IsIncomplete);
  }

  /** Setting one task's flag moves the remaining count by at most one, in the flag's direction. */
  lemma ToggledRemainingCount(tasks: seq<Task>, j: nat, checked: bool)
    requires j < |tasks|
    ensures RemainingCount(tasks[j := tasks[j].(complete := checked)]) ==
            RemainingCount(tasks)
            + (if tasks[j].complete && !checked then 1 else 0)
            - (if !tasks[j].complete && checked then 1 else 0)
  {
    FilterUpdateLength(tasks, j, tasks[j].(complete := checked), IsIncomplete);
  }

  /** A newly created task is incomplete, so appending it adds one to the remaining count. */
  lemma AppendedTaskRemainingCount(tasks: seq<Task>, id: string, name: string)
    ensures RemainingCount(tasks + [CreateTask(id, name)]) == RemainingCount(tasks) + 1
  {
    FilterAppend(tasks, [CreateTask(id, name)], IsIncomplete);
  }
}
