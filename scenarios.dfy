/**
 * Worked examples of the handlers and the render projection, checked by the
 * verifier from the contracts alone (as a client of TodoApp and TodoView).
 */
module Scenarios {
  import opened Wrappers
  import opened Seqs
  import opened TodoModel
  import opened TodoApp
  import opened TodoView
  import opened Persistence

  /** Empty start, new list "Groceries", select it, add "Milk", tick it. */
  method GroceriesScenario()
  {
    var milk := Task("2", "Milk", false);
    var app := new App([], None);
    app.AddList(Some("Groceries"), "1");
    assert app.lists == [TodoList("1", "Groceries", [])];
    app.SelectList("1");
    assert SelectedIndex(app.lists, app.selectedListId) == Some(0);
    app.AddTask(Some(milk.name), milk.id);
    assert app.lists[0].tasks == [milk];
    assert FindFirst(app.lists[0].tasks, HasTaskId("2")) == Some(0);
    app.ToggleTask("2", true);
    assert |app.lists| == 1 && app.lists[0].id == "1" && app.lists[0].name == "Groceries";
    assert app.lists[0].tasks == [milk][0 := milk.(complete := true)] == [milk.(complete := true)];
    assert app.lists == [TodoList("1", "Groceries", [milk.(complete := true)])];
    GroceriesView(app.lists, app.selectedListId);
  }

  /** The state the groceries walk-through ends in renders "0 tasks remaining". */
  method GroceriesView(lists: seq<TodoList>, selectedListId: Option<string>)
    requires lists == [TodoList("1", "Groceries", [Task("2", "Milk", true)])]
    requires selectedListId == Some("1")
  {
    assert SelectedIndex(lists, selectedListId) == Some(0);
    assert RemainingCount(lists[0].tasks) == 0;
    assert DecimalString(0) == "0";
    assert RemainingLabel(lists[0].tasks) == "0 tasks remaining";
    assert SelectionConsistent(lists, selectedListId);
    var view := Render(lists, selectedListId);
    assert view.detail.value.countLabel == "0 tasks remaining";
  }

  /** Tasks A (open), B (done), C (open): clearing completed leaves A, C. */
  method ClearScenario(a: Task, b: Task, c: Task)
    requires !a.complete && b.complete && !c.complete
  {
    var app := new App([TodoList("L", "Chores", [a, b, c])], Some("L"));
    assert SelectedIndex(app.lists, app.selectedListId) == Some(0);
    app.ClearCompleted();
    assert [a, b, c][1..] == [b, c] && [b, c][1..] == [c] && [c][1..] == [];
    assert Filter([c], IsIncomplete) == [c];
    assert Filter([b, c], IsIncomplete) == [c];
    assert Filter([a, b, c], IsIncomplete) == [a] + [c] == [a, c];
    assert app.lists[0].tasks == [a, c];
  }

  /** Two lists, the second selected: deleting it hides the detail panel and drops its row. */
  method DeleteScenario(first: TodoList, second: TodoList)
    requires first.id != second.id
  {
    var app := new App([first, second], Some(second.id));
    app.DeleteSelectedList();
    assert Filter([first, second], LacksId(Some(second.id))) == [first];
    var view := Render(app.lists, app.selectedListId);
    assert view.detail.None?;
    assert |view.sidebar| == 1 && view.sidebar[0].listId == first.id;
  }

  /**
   * Delete the selected list, save, reload: the start-up selection read back
   * from storage is "null", which names no list, so the reloaded App breaks
   * the invariant that Render requires.
   */
  method ReloadAfterDeleteScenario(first: TodoList, second: TodoList)
    requires first.id != second.id && first.id != "null" && second.id != "null"
  {
    var app := new App([first, second], Some(second.id));
    app.DeleteSelectedList();
    assert Filter([first, second], LacksId(Some(second.id))) == [first];
    var reloaded := new App(app.lists, LoadSelection(SaveSelection(app.selectedListId)));
    SavedNoSelectionReloadsDangling(reloaded.lists);
    assert !reloaded.Valid();
  }
}
