/**
 * The selected-list key of local storage (script.js:17, 21, 98). A stored key
 * is modelled as `Option<string>`: None when the key is absent, which is when
 * `getItem` returns null. The lists key (JSON) is not part of this model.
 */
module Persistence {
  import opened Wrappers
  import opened TodoModel

  /** `localStorage.getItem(key)` at start-up: null when absent, else the stored string. */
  function LoadSelection(item: Option<string>): (selected: Option<string>)
    ensures selected.None? <==> item.None?
    ensures item.Some? ==> selected == Some(item.value)
  {
    item
  }

  /**
   * `localStorage.setItem(key, selectedListId)` as written: the key is always
   * written, and storage converts its value to a string, so null is stored as
   * the four characters "null".
   */
  function SaveSelection(selected: Option<string>): (item: Option<string>)
    ensures item.Some?
    ensures selected.Some? ==> item == selected
    ensures selected.None? ==> item == Some("null")
    ensures LoadSelection(item) == selected <==> selected.Some?
  {
    match selected
    case None => Some("null")
    case Some(id) => Some(id)
  }

  /**
   * As written, "no selection" does not survive a save and reload: it comes
   * back as the id "null", which names no list (list ids are clock numerals),
   * so the start-up `render` dereferences a missing list.
   */
  lemma SavedNoSelectionReloadsDangling(lists: seq<TodoList>)
    requires forall i :: 0 <= i < |lists| ==> lists[i].id != "null"
    ensures SelectionConsistent(lists, None)
    ensures LoadSelection(SaveSelection(None)) != None
    ensures !SelectionConsistent(lists, LoadSelection(SaveSelection(None)))
  {
    var reloaded := LoadSelection(SaveSelection(None));
    assert reloaded == Some("null");
  }

  /** The intended save: remove the key when nothing is selected, store the id otherwise. */
  function SaveSelectionFixed(selected: Option<string>): (item: Option<string>)
    ensures LoadSelection(item) == selected
  {
    match selected
    case None => None
    case Some(id) => Some(id)
  }
}
