/**
 * The application state `lists` / `selectedListId` (script.js:20-21) and the
 * six event handlers that change it in place (script.js:24-77). Each handler's
 * contract gives the whole new state in terms of the old one; rendering after
 * the change is the separate projection in module TodoView.
 */
module TodoApp {
  import opened Wrappers
  import opened Seqs
  import opened TodoModel

  class App {
    var lists: seq<TodoList>
    var selectedListId: Option<string>

    /** The invariant `render` needs: the selection is null or names an existing list. */
    ghost predicate Valid()
      reads this
    {
      SelectionConsistent(lists, selectedListId)
    }

    /** Start-up state, as read from storage (storage itself is not modelled). */
    constructor (initialLists: seq<TodoList>, initialSelection: Option<string>)
      ensures lists == initialLists && selectedListId == initialSelection
    {
      lists := initialLists;
      selectedListId := initialSelection;
    }

    /** Click on a sidebar row: select that row's list. */
    method SelectList(listId: string)
      modifies this
      ensures selectedListId == Some(listId) && lists == old(lists)
      ensures Valid() <==> exists i :: 0 <= i < |lists| && lists[i].id == listId
    {
      selectedListId := Some(listId);
    }

    /**
     * Click on a task's checkbox: the first task of the selected list whose id
     * is the checkbox's gets `complete := checked`.
     */
    method ToggleTask(taskId: string, checked: bool)
      requires SelectedIndex(lists, selectedListId).Some?
      requires FindFirst(lists[SelectedIndex(lists, selectedListId).value].tasks, HasTaskId(taskId)).Some?
      modifies this
      ensures selectedListId == old(selectedListId)
      ensures var k := SelectedIndex(old(lists), old(selectedListId)).value;
              var tasks := old(lists)[k].tasks;
              var j := FindFirst(tasks, HasTaskId(taskId)).value;
              lists == old(lists)[k := old(lists)[k].(tasks := tasks[j := tasks[j].(complete := checked)])]
      ensures old(Valid()) ==> Valid()
    {
      var k := SelectedIndex(lists, selectedListId).value;
      var selectedList := lists[k];
      var j := FindFirst(selectedList.tasks, HasTaskId(taskId)).value;
      var selectedTask := selectedList.tasks[j];
      lists := lists[k := selectedList.(tasks := selectedList.tasks[j := selectedTask.(complete := checked)])];
      if old(Valid()) {
        SelectionConsistentSameIds(old(lists), lists, selectedListId);
      }
    }

    /** "Clear completed": the selected list keeps only its incomplete tasks, in order. */
    method ClearCompleted()
      requires SelectedIndex(lists, selectedListId).Some?
      modifies this
      ensures selectedListId == old(selectedListId)
      ensures var k := SelectedIndex(old(lists), old(selectedListId)).value;
              lists == old(lists)[k := old(lists)[k].(tasks := Filter(old(lists)[k].tasks, IsIncomplete))]
      ensures old(Valid()) ==> Valid()
    {
      var k := SelectedIndex(lists, selectedListId).value;
      var selectedList := lists[k];
      lists := lists[k := selectedList.(tasks := Filter(selectedList.tasks, IsIncomplete))];
      if old(Valid()) {
        SelectionConsistentSameIds(old(lists), lists, selectedListId);
      }
    }

    /** "Delete list": every list with the selected id goes, the rest keep their order, nothing stays selected. */
    method DeleteSelectedList()
      modifies this
      ensures lists == Filter(old(lists), LacksId(old(selectedListId)))
      ensures forall i :: 0 <= i < |lists| ==> Some(lists[i].id) != old(selectedListId)
      ensures IsSubsequence(lists, old(lists))
      ensures selectedListId == None && Valid()
    {
      FilterIsSubsequence(lists, LacksId(selectedListId));
      lists := Filter(lists, LacksId(selectedListId));
      selectedListId := None;
    }

    /** "New list" form: a null or empty name is ignored, otherwise a new empty list is appended. */
    method AddList(listName: Option<string>, id: string)
      modifies this
      ensures selectedListId == old(selectedListId)
      ensures listName.None? || listName.value == "" ==> lists == old(lists)
      ensures listName.Some? && listName.value != "" ==>
                lists == old(lists) + [CreateList(id, listName.value)]
      ensures old(Valid()) ==> Valid()
    {
      if listName.None? || listName.value == "" {
        return;
      }
      var list := CreateList(id, listName.value);
      lists := lists + [list];
      if old(Valid()) && selectedListId.Some? {
        var i :| 0 <= i < |old(lists)| && old(lists)[i].id == selectedListId.value;
        assert lists[i] == old(lists)[i];
      }
    }

    /**
     * "New task" form: a null or empty name is ignored; otherwise an incomplete
     * task is appended to the selected list, which must then exist.
     */
    method AddTask(taskName: Option<string>, id: string)
      requires taskName.Some? && taskName.value != "" ==> SelectedIndex(lists, selectedListId).Some?
      modifies this
      ensures selectedListId == old(selectedListId)
      ensures taskName.None? || taskName.value == "" ==> lists == old(lists)
      ensures taskName.Some? && taskName.value != "" ==>
                var k := SelectedIndex(old(lists), old(selectedListId)).value;
                lists == old(lists)[k := old(lists)[k].(tasks := old(lists)[k].tasks + [CreateTask(id, taskName.value)])]
      ensures old(Valid()) ==> Valid()
    {
      if taskName.None? || taskName.value == "" {
        return;
      }
      var task := CreateTask(id, taskName.value);
      var k := SelectedIndex(lists, selectedListId).value;
      var selectedList := lists[k];
      lists := lists[k := selectedList.(tasks := selectedList.tasks + [task])];
      if old(Valid()) {
        SelectionConsistentSameIds(old(lists), lists, selectedListId);
      }
    }
  }
}
