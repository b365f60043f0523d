/**
 * frontend/src/components/chat/threads-sidebar.tsx: the thread list with its selection, delete
 * and rename dialogs. The list belongs to the parent (`threads`, written through `setThreads`);
 * the model keeps it as a field the handlers reassign, and records the threads handed to
 * `onThreadSelect`, in order. `Date.now()` is an input.
 */
module ThreadsSidebar {
  import opened Wrappers
  import opened Json
  import opened Text
  import opened Client

  /** The thread `handleNewThreadClick` creates when the list has `count` threads. */
  function NewThread(now: nat, count: nat): (t: JsObject)
    ensures t.Keys == {"id", "title", "messages"}
    ensures t["messages"] == Arr([])
    ensures t["title"] == Str("New Thread " + NatToString(count + 1))
    ensures t["id"] == Str("thread-" + NatToString(now))
  {
    map["id" := Str("thread-" + NatToString(now)), "title" := Str("New Thread " + NatToString(count + 1)),
        "messages" := Arr([])]
  }

  /** Renaming keeps every thread with another id as it was, and changes only the title of the rest. */
  lemma RenameOnlyTitle(threads: seq<JsObject>, id: Value, title: Value)
    ensures var r := SetWhere(threads, "id", id, "title", title);
            && |r| == |threads|
            && (forall i :: 0 <= i < |threads| && !FieldIs(threads[i], "id", id) ==> r[i] == threads[i])
            && (forall i :: 0 <= i < |threads| && FieldIs(threads[i], "id", id) ==>
                  r[i] == threads[i]["title" := title] && FieldIs(r[i], "id", id))
  {
  }

  /** Deleting keeps exactly the threads with another id, and deleting again changes nothing. */
  lemma {:induction false} DeleteIdempotent(threads: seq<JsObject>, id: Value)
    ensures Without(Without(threads, "id", id), "id", id) == Without(threads, "id", id)
  {
    var rest := Without(threads, "id", id);
    WithoutMembers(threads, "id", id);
    forall i | 0 <= i < |rest| ensures !FieldIs(rest[i], "id", id) {
      assert rest[i] in rest;
    }
    WithoutAbsent(rest, "id", id);
  }

  class Sidebar {
    var threads: seq<JsObject>
    var activeThreadId: Value
    var isDeleteDialogOpen: bool
    var isRenameDialogOpen: bool
    var currentThread: Option<JsObject>
    var newTitle: Value
    var selected: seq<JsObject>

    constructor (threads: seq<JsObject>)
      ensures this.threads == threads && activeThreadId == Null && currentThread.None? && newTitle == Str("")
      ensures !isDeleteDialogOpen && !isRenameDialogOpen && selected == []
    {
      this.threads := threads;
      activeThreadId := Null;
      isDeleteDialogOpen := false;
      isRenameDialogOpen := false;
      currentThread := None;
      newTitle := Str("");
      selected := [];
    }

    /** `handleThreadClick`: the thread becomes active and is handed to the parent. */
    method ThreadClick(thread: JsObject)
      modifies this
      ensures activeThreadId == Field(thread, "id") && selected == old(selected) + [thread]
      ensures threads == old(threads) && currentThread == old(currentThread) && newTitle == old(newTitle)
      ensures isDeleteDialogOpen == old(isDeleteDialogOpen) && isRenameDialogOpen == old(isRenameDialogOpen)
    {
      activeThreadId := Field(thread, "id");
      selected := selected + [thread];
    }

    /** `handleNewThreadClick`: a fresh empty thread goes first, becomes active and is selected. */
    method NewThreadClick(now: nat)
      modifies this
      ensures var t := NewThread(now, |old(threads)|);
              && threads == [t] + old(threads)
              && activeThreadId == t["id"]
              && selected == old(selected) + [t]
      ensures currentThread == old(currentThread) && newTitle == old(newTitle)
      ensures isDeleteDialogOpen == old(isDeleteDialogOpen) && isRenameDialogOpen == old(isRenameDialogOpen)
    {
      var t := NewThread(now, |threads|);
      threads := [t] + threads;
      activeThreadId := t["id"];
      selected := selected + [t];
    }

    /** `handleDeleteClick`: remembers the thread and opens the delete dialog. */
    method DeleteClick(thread: JsObject)
      modifies this
      ensures currentThread == Some(thread) && isDeleteDialogOpen
      ensures threads == old(threads) && activeThreadId == old(activeThreadId) && selected == old(selected)
      ensures newTitle == old(newTitle) && isRenameDialogOpen == old(isRenameDialogOpen)
    {
      currentThread := Some(thread);
      isDeleteDialogOpen := true;
    }

    /**
     * `confirmDelete`: nothing without a remembered thread. Otherwise the threads with its id are
     * filtered out, the active id is cleared if it was that one, and the dialog closes.
     */
    method ConfirmDelete()
      modifies this
      ensures old(currentThread).None? ==>
                threads == old(threads) && activeThreadId == old(activeThreadId)
                && isDeleteDialogOpen == old(isDeleteDialogOpen) && currentThread.None?
      ensures old(currentThread).Some? ==>
                var id := Field(old(currentThread).value, "id");
                && threads == Without(old(threads), "id", id)
                && (old(activeThreadId) == id ==> activeThreadId == Null)
                && (old(activeThreadId) != id ==> activeThreadId == old(activeThreadId))
                && !isDeleteDialogOpen && currentThread.None?
      ensures selected == old(selected) && newTitle == old(newTitle) && isRenameDialogOpen == old(isRenameDialogOpen)
    {
      if currentThread.None? {
        return;
      }
      var id := Field(currentThread.value, "id");
      threads := Without(threads, "id", id);
      if activeThreadId == id {
        activeThreadId := Null;
      }
      isDeleteDialogOpen := false;
      currentThread := None;
    }

    /** `handleRenameClick`: remembers the thread, loads its title and opens the rename dialog. */
    method RenameClick(thread: JsObject)
      modifies this
      ensures currentThread == Some(thread) && newTitle == Field(thread, "title") && isRenameDialogOpen
      ensures threads == old(threads) && activeThreadId == old(activeThreadId) && selected == old(selected)
      ensures isDeleteDialogOpen == old(isDeleteDialogOpen)
    {
      currentThread := Some(thread);
      newTitle := Field(thread, "title");
      isRenameDialogOpen := true;
    }

    /**
     * `confirmRename`: nothing without a remembered thread. Otherwise the threads with its id take
     * the new title; when it is the active one, the remembered thread with the new title is handed
     * to the parent. The dialog closes and the title input is cleared.
     */
    method ConfirmRename()
      modifies this
      ensures old(currentThread).None? ==>
                threads == old(threads) && selected == old(selected) && newTitle == old(newTitle)
                && isRenameDialogOpen == old(isRenameDialogOpen) && currentThread.None?
      ensures old(currentThread).Some? ==>
                var t := old(currentThread).value;
                var id := Field(t, "id");
                && threads == SetWhere(old(threads), "id", id, "title", old(newTitle))
                && (activeThreadId == id ==> selected == old(selected) + [t["title" := old(newTitle)]])
                && (activeThreadId != id ==> selected == old(selected))
                && !isRenameDialogOpen && currentThread.None? && newTitle == Str("")
      ensures activeThreadId == old(activeThreadId) && isDeleteDialogOpen == old(isDeleteDialogOpen)
    {
      if currentThread.None? {
        return;
      }
      var t := currentThread.value;
      var id := Field(t, "id");
      threads := SetWhere(threads, "id", id, "title", newTitle);
      if activeThreadId == id {
        selected := selected + [t["title" := newTitle]];
      }
      isRenameDialogOpen := false;
      currentThread := None;
      newTitle := Str("");
    }
  }
}
