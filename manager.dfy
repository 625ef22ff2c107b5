/**
 * The `TaskManager` component's state and handlers (src/App.jsx), as a
 * class whose methods make the state changes the `set...` calls make.
 *
 * Every request's answer is a parameter, applied at once to the current
 * state: `response` is the record the server sends back (`None` when the
 * request or the JSON parse fails, which the source ignores), `success`
 * says whether a DELETE resolved. `confirmed` is the user's answer to
 * `window.confirm`. A handler returns what it did: raised an alert, was
 * declined, or sent a request (and which).
 */
module Manager {
  import opened Tasks
  import opened Text
  import opened Patch
  import opened Selection
  import opened Pagination
  import Editing

  /** The requests the handlers send to the todo API. */
  datatype Request =
    | Post(body: Object)              // POST /todos
    | PatchTask(id: int, body: Object) // PATCH /todos/{id}
    | Delete(ids: seq<int>)           // DELETE /todos/{ids joined by ','}

  /** What a handler did. */
  datatype Outcome =
    | Alerted          // validation failed: an alert, no request
    | Declined         // the confirmation was answered "Cancel"
    | Threw            // a JavaScript TypeError stopped the handler
    | Closed           // the editor was closed without a request
    | Sent(request: Request)

  /**
   * What `handleSaveTask` does given the list it reads the title from: throw
   * when no task has the id, alert on a blank title, stop when declined,
   * otherwise send the title alone.
   */
  function SaveOutcome(tasks: seq<Task>, task: Task, confirmed: bool): (o: Outcome)
    ensures o == Threw <==> forall i :: 0 <= i < |tasks| ==> tasks[i].id != task.id
    ensures o == Alerted <==> FindById(tasks, task.id).Some? && IsBlank(FindById(tasks, task.id).value.title)
    ensures o == Declined <==> FindById(tasks, task.id).Some? && !IsBlank(FindById(tasks, task.id).value.title) && !confirmed
    ensures o.Sent? <==> confirmed && FindById(tasks, task.id).Some? && !IsBlank(FindById(tasks, task.id).value.title)
    ensures o.Sent? ==> o.request == PatchTask(task.id, map[TitleField := Str(FindById(tasks, task.id).value.title)])
    ensures o != Closed
  {
    var found := FindById(tasks, task.id);
    if found.None? then Threw
    else if IsBlank(found.value.title) then Alerted
    else if !confirmed then Declined
    else Sent(PatchTask(task.id, map[TitleField := Str(found.value.title)]))
  }

  /**
   * With the blur comparing against the title at edit start, a rename
   * reaches the server: once `EditTask` has recorded `task.title` and
   * `EditTitle` has written `value` into the list, a confirmed blur with
   * changed, non-blank text sends exactly `value` as the title. The test as
   * written, applied to the record line 212 has just rewritten, sees no
   * change.
   */
  lemma RenameSendsTypedTitle(tasks: seq<Task>, task: Task, value: string)
    requires FindById(tasks, task.id).Some?
    requires value != task.title && !IsBlank(value)
    ensures Editing.BlurSaves(task.title, value)
    ensures FindById(Retitle(tasks, task.id, value), task.id).Some?
    ensures SaveOutcome(Retitle(tasks, task.id, value), task, true) == Sent(PatchTask(task.id, map[TitleField := Str(value)]))
    ensures !Editing.BlurSavesAsWritten(FindById(Retitle(tasks, task.id, value), task.id).value, value)
  {
    FindAfterRetitle(tasks, task.id, value);
  }

  class TaskManager {
    var tasks: seq<Task>          // tasks
    var input: string             // newTask, the text of the "New task" field
    var editingId: Option<int>    // editingTaskId
    var editStart: string         // the title of the edited task when editing began
    var selected: seq<int>        // selectedTasks
    var filter: TaskFilter        // taskFilter
    var page: int                 // currentPage

    /** Pages are numbered from 1, and the selection never lists an id twice. */
    ghost predicate Valid()
      reads this
    {
      page >= 1 && NoDuplicates(selected)
    }

    /** The initial state of lines 8-16. */
    constructor ()
      ensures Valid()
      ensures tasks == [] && input == "" && editingId == None && selected == [] && filter == All && page == 1
    {
      tasks, input, editingId, editStart := [], "", None, "";
      selected, filter, page := [], All, 1;
    }

    /** Lines 19-23: the startup fetch replaces the list; a failed fetch leaves it as it is. */
    method Load(data: Option<seq<Task>>)
      modifies this`tasks
      ensures tasks == if data.Some? then data.value else old(tasks)
    {
      if data.Some? {
        tasks := data.value;
      }
    }

    /** Line 161: typing into the "New task" field. */
    method TypeNewTask(value: string)
      modifies this`input
      ensures input == value
    {
      input := value;
    }

    /**
     * `handleCreateTask` (lines 37-56). A blank title raises the alert and
     * changes nothing. A confirmed create posts the title as typed with
     * `completed: false` and clears the field whether or not the request
     * succeeds; the server's record, when it comes, is put first.
     */
    method CreateTask(confirmed: bool, response: Option<Task>) returns (outcome: Outcome)
      modifies this`tasks, this`input
      ensures outcome == if IsBlank(old(input)) then Alerted
                         else if !confirmed then Declined
                         else Sent(Post(map[TitleField := Str(old(input)), CompletedField := Bool(false)]))
      ensures tasks == if outcome.Sent? && response.Some? then [response.value] + old(tasks) else old(tasks)
      ensures input == if outcome.Sent? then "" else old(input)
    {
      if IsBlank(input) {
        return Alerted;
      }
      if !confirmed {
        return Declined;
      }
      var newTaskData := map[TitleField := Str(input), CompletedField := Bool(false)];
      outcome := Sent(Post(newTaskData));
      if response.Some? {
        tasks := [response.value] + tasks;
      }
      input := "";
    }

    /**
     * `handleTaskUpdate` (lines 58-72): PATCH the task's id with the patch
     * built from `updates`, then replace every task with that id by the
     * server's record.
     */
    method TaskUpdate(task: Task, updates: Object, response: Option<Task>) returns (request: Request)
      modifies this`tasks
      ensures request == PatchTask(task.id, updates)
      ensures tasks == if response.Some? then ReplaceById(old(tasks), task.id, response.value) else old(tasks)
    {
      var patchData := BuildPatch(task, updates);
      PatchIsUpdates(task, updates);
      request := PatchTask(task.id, patchData);
      if response.Some? {
        tasks := ReplaceById(tasks, task.id, response.value);
      }
    }

    /** `handleUpdateTask` (lines 74-76): the check icon sends `{ completed: !task.completed }` alone. */
    method UpdateTask(task: Task, response: Option<Task>) returns (outcome: Outcome)
      modifies this`tasks
      ensures outcome == Sent(PatchTask(task.id, map[CompletedField := Bool(!task.completed)]))
      ensures tasks == if response.Some? then ReplaceById(old(tasks), task.id, response.value) else old(tasks)
      ensures |tasks| == |old(tasks)|
    {
      var request := TaskUpdate(task, ToggleUpdates(task), response);
      outcome := Sent(request);
    }

    /**
     * `handleSaveTask` (lines 78-88). The title sent is the one the list
     * holds for the task's id (line 212 keeps it up to date while typing);
     * no such task makes `.title` of `undefined` throw. A blank title raises
     * the alert and the editor stays open; a confirmed save sends the title
     * alone and closes the editor.
     */
    method SaveTask(task: Task, confirmed: bool, response: Option<Task>) returns (outcome: Outcome)
      modifies this`tasks, this`editingId
      ensures outcome == SaveOutcome(old(tasks), task, confirmed)
      ensures tasks == if outcome.Sent? && response.Some? then ReplaceById(old(tasks), task.id, response.value)
                       else old(tasks)
      ensures editingId == if outcome.Sent? then None else old(editingId)
    {
      ghost var expected := SaveOutcome(tasks, task, confirmed);
      var found := FindById(tasks, task.id);
      if found.None? {
        assert expected == Threw;
        return Threw;
      }
      var newTitle := found.value.title;
      if IsBlank(newTitle) {
        assert expected == Alerted;
        return Alerted;
      }
      if !confirmed {
        assert expected == Declined;
        return Declined;
      }
      assert expected == Sent(PatchTask(task.id, TitleUpdates(newTitle)));
      var request := TaskUpdate(task, TitleUpdates(newTitle), response);
      outcome := Sent(request);
      editingId := None;
    }

    /** `handleSelectTask` (lines 90-96): the checkbox toggles the id in or out of the selection. */
    method SelectTask(task: Task)
      requires Valid()
      modifies this`selected
      ensures Valid()
      ensures selected == Toggle(old(selected), task.id)
    {
      ToggleKeepsNoDuplicates(selected, task.id);
      selected := Toggle(selected, task.id);
    }

    /**
     * `handleDeleteSelectedTasks` (lines 98-112). An empty selection raises
     * the alert. A confirmed, successful delete drops every task whose id is
     * selected, keeps the others in order, and empties the selection.
     */
    method DeleteSelectedTasks(confirmed: bool, success: bool) returns (outcome: Outcome)
      requires Valid()
      modifies this`tasks, this`selected
      ensures Valid()
      ensures outcome == if old(selected) == [] then Alerted
                         else if !confirmed then Declined
                         else Sent(Delete(old(selected)))
      ensures tasks == if outcome.Sent? && success then Without(old(tasks), old(selected)) else old(tasks)
      ensures selected == if outcome.Sent? && success then [] else old(selected)
      ensures outcome.Sent? && success ==>
        && (forall t :: t in tasks ==> t.id !in old(selected))
        && (forall t :: t in old(tasks) && t.id !in old(selected) ==> t in tasks)
        && Seqs.IsSubsequence(tasks, old(tasks))
    {
      if |selected| == 0 {
        return Alerted;
      }
      if !confirmed {
        return Declined;
      }
      outcome := Sent(Delete(selected));
      if success {
        DeletionKeepsOthers(tasks, selected);
        tasks := Without(tasks, selected);
        selected := [];
      }
    }

    /**
     * `handleDeleteTask` (lines 114-123): a confirmed, successful delete
     * drops exactly the tasks with this id. The selection is left as it is,
     * so it may still list the deleted id.
     */
    method DeleteTask(task: Task, confirmed: bool, success: bool) returns (outcome: Outcome)
      modifies this`tasks
      ensures outcome == if confirmed then Sent(Delete([task.id])) else Declined
      ensures tasks == if confirmed && success then Without(old(tasks), [task.id]) else old(tasks)
      ensures confirmed && success ==> Seqs.IsSubsequence(tasks, old(tasks))
    {
      if !confirmed {
        return Declined;
      }
      outcome := Sent(Delete([task.id]));
      if success {
        DeletionKeepsOthers(tasks, [task.id]);
        tasks := Without(tasks, [task.id]);
      }
    }

    /** `handleEditTask` (lines 125-127): open the editor on this task. */
    method EditTask(task: Task)
      modifies this`editingId, this`editStart
      ensures editingId == Some(task.id) && editStart == task.title
    {
      editingId := Some(task.id);
      editStart := task.title;
    }

    /** Line 212: each keystroke in the editor writes the text into every task with that id. */
    method EditTitle(task: Task, value: string)
      modifies this`tasks
      ensures tasks == Retitle(old(tasks), task.id, value)
    {
      tasks := Retitle(tasks, task.id, value);
    }

    /** Line 225: the Cancel button closes the editor; what was typed stays in the list. */
    method CancelEdit()
      modifies this`editingId
      ensures editingId == None
    {
      editingId := None;
    }

    /**
     * The editor's blur handler (lines 215-221), with the comparison made
     * against the title the task had when editing began: unchanged text
     * closes the editor, changed text goes through `handleSaveTask`.
     */
    method Blur(task: Task, value: string, confirmed: bool, response: Option<Task>) returns (outcome: Outcome)
      modifies this`tasks, this`editingId
      ensures !Editing.BlurSaves(old(editStart), value) ==>
        outcome == Closed && editingId == None && tasks == old(tasks)
      ensures Editing.BlurSaves(old(editStart), value) ==>
        && outcome == SaveOutcome(old(tasks), task, confirmed)
        && tasks == (if outcome.Sent? && response.Some? then ReplaceById(old(tasks), task.id, response.value)
                     else old(tasks))
        && editingId == if outcome.Sent? then None else old(editingId)
    {
      if !Editing.BlurSaves(editStart, value) {
        editingId := None;
        return Closed;
      }
      outcome := SaveTask(task, confirmed, response);
    }

    /** `handleFilterChange` (lines 129-132): a filter button always goes back to page 1. */
    method FilterChange(filterType: TaskFilter)
      requires Valid()
      modifies this`filter, this`page
      ensures Valid()
      ensures filter == filterType && page == 1
    {
      filter := filterType;
      page := 1;
    }

    /** `handlePageChange` (lines 134-136): the page buttons pass their number, from 1 up. */
    method PageChange(newPage: int)
      requires Valid() && newPage >= 1
      modifies this`page
      ensures Valid()
      ensures page == newPage
    {
      page := newPage;
    }

    /** What the list area shows for the current filter and page (lines 138-151). */
    function Visible(): (d: Display)
      reads this
      requires Valid()
      ensures d == PageOf(ViewOf(tasks, filter), page)
      ensures d.NoTasksFound? <==> ViewOf(tasks, filter) == []
      ensures d.Rows? ==> var view := ViewOf(tasks, filter);
        d.rows == view[Min((page - 1) * PageSize, |view|)..Min(page * PageSize, |view|)]
      ensures d.Rows? ==> |d.rows| <= PageSize && forall t :: t in d.rows ==> t in tasks
    {
      var view := ViewOf(tasks, filter);
      if view != [] then PageWindow(view, page); PageOf(view, page)
      else PageOf(view, page)
    }

    /** The header numbers "Showing from to to of total" (lines 258-263). */
    function Header(): (h: (int, int, nat))
      reads this
      ensures h.2 == |ViewOf(tasks, filter)|
      ensures h.0 == ShowingFrom(page) && h.1 == Min(page * PageSize, h.2)
      ensures h.1 <= h.2 && h.1 <= page * PageSize
    {
      var n := |ViewOf(tasks, filter)|;
      (ShowingFrom(page), ShowingTo(page, n), n)
    }

    /**
     * On a non-empty view and a page that has a button, the header names
     * exactly the rows the list area shows, counting from 1.
     */
    lemma HeaderMatchesVisible()
      requires Valid() && ViewOf(tasks, filter) != [] && page <= Buttons()
      ensures Visible().Rows?
      ensures 1 <= Header().0 <= Header().1 <= Header().2
      ensures Visible().rows == ViewOf(tasks, filter)[Header().0 - 1..Header().1]
    {
      HeaderMatchesRows(ViewOf(tasks, filter), page);
    }

    /** The number of page buttons (lines 266-268). */
    function Buttons(): (b: nat)
      reads this
      ensures b * PageSize >= |ViewOf(tasks, filter)|
      ensures b == 0 || (b - 1) * PageSize < |ViewOf(tasks, filter)|
    {
      PageCount(|ViewOf(tasks, filter)|)
    }
  }
}
