/**
 * What `render` (script.js:102-116) puts on the page, as values: the sidebar
 * rows built by `renderLists` (script.js:140-151), and, when a list is
 * selected, the detail panel with its title, the remaining-task label
 * (script.js:133-136) and one row per task (script.js:119-130).
 */
module TodoView {
  import opened Wrappers
  import opened Seqs
  import opened TodoModel

  /** An `<li>` in the sidebar: `data-list-id`, its text, and the `active-list` class. */
  datatype ListRow = ListRow(listId: string, name: string, active: bool)

  /** A task row: the checkbox's id and checked state, and the label text. */
  datatype TaskRow = TaskRow(taskId: string, name: string, checked: bool)

  /** The list display container when it is shown. */
  datatype Detail = Detail(title: string, countLabel: string, tasks: seq<TaskRow>)

  /** The page: the sidebar, and the detail panel or None when it is hidden. */
  datatype View = View(sidebar: seq<ListRow>, detail: Option<Detail>)

  /** `renderLists`: one row per list, in order, marked active iff its id is the selected one. */
  method RenderLists(lists: seq<TodoList>, selectedListId: Option<string>) returns (rows: seq<ListRow>)
    ensures |rows| == |lists|
    ensures forall i :: 0 <= i < |lists| ==>
              rows[i].listId == lists[i].id && rows[i].name == lists[i].name &&
              (rows[i].active <==> selectedListId == Some(lists[i].id))
  {
    rows := [];
    var i := 0;
    while i < |lists|
      invariant 0 <= i <= |lists|
      invariant |rows| == i
      invariant forall j :: 0 <= j < i ==>
                  rows[j].listId == lists[j].id && rows[j].name == lists[j].name &&
                  (rows[j].active <==> selectedListId == Some(lists[j].id))
    {
      var list := lists[i];
      rows := rows + [ListRow(list.id, list.name, selectedListId == Some(list.id))];
      i := i + 1;
    }
  }

  /** `renderTasks`: one row per task, in order, bound to the task's id and state. */
  method RenderTasks(tasks: seq<Task>) returns (rows: seq<TaskRow>)
    ensures |rows| == |tasks|
    ensures forall i :: 0 <= i < |tasks| ==>
              rows[i] == TaskRow(tasks[i].id, tasks[i].name, tasks[i].complete)
  {
    rows := [];
    var i := 0;
    while i < |tasks|
      invariant 0 <= i <= |tasks|
      invariant |rows| == i
      invariant forall j :: 0 <= j < i ==> rows[j] == TaskRow(tasks[j].id, tasks[j].name, tasks[j].complete)
    {
      var task := tasks[i];
      rows := rows + [TaskRow(task.id, task.name, task.complete)];
      i := i + 1;
    }
  }

  /**
   * `render`: the sidebar always; the detail panel hidden iff nothing is
   * selected, otherwise showing the first list with the selected id. It reads
   * `selectedList.name` without a check, so the selection must be consistent.
   */
  method Render(lists: seq<TodoList>, selectedListId: Option<string>) returns (view: View)
    requires SelectionConsistent(lists, selectedListId)
    ensures |view.sidebar| == |lists|
    ensures forall i :: 0 <= i < |lists| ==>
              view.sidebar[i].listId == lists[i].id && view.sidebar[i].name == lists[i].name &&
              (view.sidebar[i].active <==> selectedListId == Some(lists[i].id))
    ensures view.detail.None? <==> selectedListId.None?
    ensures view.detail.Some? ==>
              var k := SelectedIndex(lists, selectedListId).value;
              var d := view.detail.value;
              d.title == lists[k].name && d.countLabel == RemainingLabel(lists[k].tasks) &&
              |d.tasks| == |lists[k].tasks| &&
              forall j :: 0 <= j < |d.tasks| ==>
                d.tasks[j] == TaskRow(lists[k].tasks[j].id, lists[k].tasks[j].name, lists[k].tasks[j].complete)
  {
    var sidebar := RenderLists(lists, selectedListId);
    if selectedListId == None {
      view := View(sidebar, None);
    } else {
      SelectionConsistentFinds(lists, selectedListId);
      var selectedList := lists[SelectedIndex(lists, selectedListId).value];
      var taskRows := RenderTasks(selectedList.tasks);
      view := View(sidebar, Some(Detail(selectedList.name, RemainingLabel(selectedList.tasks), taskRows)));
    }
  }
}
