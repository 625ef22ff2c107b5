# TaskManager: the task-list bookkeeping, in Dafny

TaskManager is a single-page to-do list (`src/App.jsx`) that keeps a list of
tasks `{id, title, completed}` in sync with a remote todo API. This project
models the state the `TaskManager` component keeps and the handlers that
change it, lifted out of React and `fetch`:

- the list of tasks, the text of the "New task" field, the id of the task
  being edited, the list of checked ids, the filter (all, completed,
  pending) and the current page, with 25 tasks per page;
- the handlers: create, toggle completion, rename (type, blur, save,
  cancel), check/uncheck, delete one, delete the checked ones, change the
  filter, change the page;
- the derived views: the completed and pending lists, the list the filter
  puts on screen, the page of it that is shown, the page buttons and the
  "Showing a to b of n total tasks" header.

Each server round trip is a parameter of the handler that starts it: the
record the server returns (`None` when the request fails, which the source
silently ignores) or a success flag for a DELETE. The answer to
`window.confirm` is a boolean parameter; an `alert` is the outcome
`Alerted`, with nothing changed and no request sent. Each handler returns
the request it sends, so "no request" is stated outright.

Modules, one per concern of `src/App.jsx`:

- `Text` (text.dfy): `String.prototype.trim` and the blank-title test.
- `Seqs` (seqs.dfy): `Array.prototype.filter` and order preservation.
- `Tasks` (tasks.dfy): the task record, the completed/pending views, the
  filtered view, replace-by-id, the in-place title edit, find and delete.
- `Patch` (patch.dfy): the PATCH body built from `{...task, ...updates}`.
- `Selection` (selection.dfy): the checkbox toggle on the list of checked ids.
- `Pagination` (pagination.dfy): `slice`, pages, page buttons, header.
- `Editing` (editing.dfy): the blur handler's "was the title changed" test.
- `Manager` (manager.dfy): the class `TaskManager` with the handlers.

Behaviour of the code worth knowing, which the model follows:

- The selection is a list, not a set: a checked id is appended at the end,
  and unchecking removes every occurrence.
- A confirmed create clears the "New task" field at once (line 54 runs
  outside the `.then`), whether or not the POST succeeds.
- A single delete does not uncheck the deleted id, so the selection can name
  a task that is gone.
- The title sent by a save is the one the list already holds (line 79), since
  every keystroke is written into the list (line 212); a rejected or
  cancelled edit leaves the typed text in the list.
- The blur handler's save branch (line 216) is never taken as the code is
  written; the model uses the comparison with the title at edit start
  (see Findings).

## Model

| member | source | states |
|---|---|---|
| `Text.TrimStart` | src/App.jsx:38 | the result is the longest suffix of the input that does not begin with a character `trim` removes; everything dropped is such a character |
| `Text.TrimEnd` | src/App.jsx:38 | the result is the longest prefix that does not end with a trimmable character; everything dropped is trimmable |
| `Text.Trim` | src/App.jsx:38 | the result is the part of the title that starts where `TrimStart` starts; everything before it and everything after it is trimmable, and it neither begins nor ends with a trimmable character |
| `Text.TrimParts` | src/App.jsx:38 | dropping a trimmable prefix and then a trimmable suffix of what is left drops a trimmable prefix and a trimmable suffix of the title, leaving the part in between |
| `Text.IsBlank` | src/App.jsx:38 | the blank test, every character trimmable; it has no contract of its own, and `Text.BlankIffTrimIsEmpty` proves it is `trim() === ''` |
| `Text.BlankIffTrimIsEmpty` | src/App.jsx:38-41 | a title is rejected as empty (`trim() === ''`) exactly when all its characters are whitespace or line terminators, the empty title included |
| `Seqs.Filter` | src/App.jsx:30-31 | a filter keeps exactly the elements that pass the test and is never longer than its input |
| `Seqs.FilterConcat` | src/App.jsx:30-31 | filtering a concatenation is the concatenation of the filtered parts, so a filter never reorders |
| `Seqs.FilterAllPass` | src/App.jsx:108 | when every element passes the test, the filter returns its input unchanged |
| `Seqs.FilterIsSubsequence` | src/App.jsx:30-31 | a filter's result is a subsequence of its input: the original order is kept |
| `Seqs.SubsequenceOfTail` | src/App.jsx:30-31 | a subsequence of a list's tail is a subsequence of the list |
| `Seqs.SubsequenceDropHead` | src/App.jsx:30-31 | dropping the first element of a subsequence leaves a subsequence |
| `Seqs.SubsequenceRefl` | src/App.jsx:139 | a list keeps its own order, so the 'all' view, the list itself, does |
| `Seqs.FilterSplit` | src/App.jsx:30-31 | two complementary filters split a list: their multisets add up to the list's, so do their lengths |
| `Tasks.CompletedTasks` | src/App.jsx:30 | the completed view keeps the list's order and holds exactly the tasks of the list whose flag is set |
| `Tasks.PendingTasks` | src/App.jsx:31 | the pending view keeps the list's order and holds exactly the tasks of the list whose flag is clear |
| `Tasks.ViewOf` | src/App.jsx:139-142 | the view a filter selects keeps the list's order and holds exactly the tasks of the list that match the filter |
| `Tasks.ViewsPartition` | src/App.jsx:29-35 | each task is in exactly one of the completed and pending views; each view keeps the list's order and holds only tasks of its kind; together they hold every task as often as the list does, and their lengths sum to the list's |
| `Tasks.MapMatching` | src/App.jsx:71 | a map over the list rewrites every task with the given id and leaves every other task, and the length, as they were |
| `Tasks.ReplaceById` | src/App.jsx:71 | applying the server's record keeps the length, puts the record wherever the old id was, and leaves every other task identical |
| `Tasks.Retitle` | src/App.jsx:212 | a keystroke in the editor gives every task with that id the typed title and keeps its id and flag; all other tasks are unchanged |
| `Tasks.FindById` | src/App.jsx:79 | `find` returns nothing exactly when no task has the id, and otherwise the first task that has it |
| `Tasks.FindAfterMap` | src/App.jsx:79 | after a map that rewrites the tasks with an id and keeps every id, `find` returns the rewritten first task with that id |
| `Tasks.FindAfterRetitle` | src/App.jsx:79 | after line 212 has written a title into the tasks with an id, the save handler's `find` returns the first of them with that title, id and flag otherwise as before |
| `Tasks.Without` | src/App.jsx:108 | after a delete the list holds exactly the old tasks whose id is not deleted |
| `Tasks.DeletionKeepsOthers` | src/App.jsx:108-120 | a delete keeps the survivors in their order, removes exactly the tasks whose id is listed (survivors plus removed make up the old list), and changes nothing when no listed id is present |
| `Tasks.ReplaceKeepsTotal` | src/App.jsx:71-75 | after any record is applied the completed and pending views together still hold as many tasks as the list had |
| `Tasks.ToggleMovesBetweenViews` | src/App.jsx:71-75 | toggling a task with a unique id moves it across: one view gains one task, the other loses one, the list keeps its length |
| `Tasks.ToggleExample` | src/App.jsx:74-76 | one pending task, toggled, is the whole completed view and the pending view is empty |
| `Patch.ToObject` | src/App.jsx:59 | a task as an object has exactly the keys id, title and completed |
| `Patch.Spread` | src/App.jsx:59 | `{...task, ...updates}` has the keys of both, and the value of `updates` wherever it has the key |
| `Patch.PatchOf` | src/App.jsx:59-63 | the patch has exactly the keys of `updates` |
| `Patch.BuildPatch` | src/App.jsx:60-63 | the loop over `Object.keys(updates)` produces the patch: the keys of `updates`, each with the merged record's value |
| `Patch.PatchIsUpdates` | src/App.jsx:58-63 | the patch has exactly the keys of `updates` with the caller's values: only the changed fields are sent |
| `Patch.TogglePatchSendsOnlyCompleted` | src/App.jsx:75 | a toggle sends the single key `completed`, holding the negation of the task's flag |
| `Patch.TitlePatchSendsOnlyTitle` | src/App.jsx:85 | a save sends the single key `title`, holding the new title |
| `Selection.Toggle` | src/App.jsx:90-96 | the id ends up checked exactly when it was not; every other id keeps its membership; an unchecked id is appended at the end |
| `Selection.UncheckKeepsOrder` | src/App.jsx:92 | unchecking keeps the other ids in order and removes exactly the occurrences of the id: one of them when the selection has no duplicates |
| `Selection.SplitAt` | src/App.jsx:92 | in a selection without duplicates, unchecking the id at position k leaves the ids before it followed by the ids after it |
| `Selection.OnlyAtK` | src/App.jsx:91 | in a selection without duplicates an id occurs only at its own position |
| `Selection.DropAbsent` | src/App.jsx:92 | unchecking an id that is not in the selection leaves the selection unchanged |
| `Selection.ToggleTwiceFromUnchecked` | src/App.jsx:90-96 | checking an unchecked id and unchecking it again restores the selection exactly |
| `Selection.ToggleTwiceFromChecked` | src/App.jsx:90-96 | unchecking and re-checking an id moves it to the end: the same ids, and the same list exactly when it already was last |
| `Selection.ToggleKeepsNoDuplicates` | src/App.jsx:90-96 | a selection without duplicate ids keeps none after a toggle |
| `Selection.RemoveAtKeepsNoDuplicates` | src/App.jsx:92 | removing one position from a list without duplicates leaves a list without duplicates |
| `Pagination.Min` | src/App.jsx:258 | `Math.min` returns one of its arguments and is at most both |
| `Pagination.RelativeIndex` | src/App.jsx:150 | `slice` reads an index into `0 .. length`, and a non-negative index as itself clamped to the length |
| `Pagination.JsSlice` | src/App.jsx:150 | for `0 <= start <= end`, `slice` returns the elements from `start` to `end`, both clamped to the length |
| `Pagination.PageOf` | src/App.jsx:138-151 | `paginatedTasks` returns the "No tasks found." element exactly when the active view is empty, and a slice otherwise |
| `Pagination.PageCount` | src/App.jsx:266-268 | the number of page buttons is `ceil(n / 25)`: the least count of 25-row pages that holds n rows |
| `Pagination.ShowingFrom` | src/App.jsx:258 | the header's first number is at least 1 on every page from 1, one past a multiple of 25 |
| `Pagination.ShowingTo` | src/App.jsx:258-260 | the header's second number is `Math.min` of `page * 25` and the total: at most both, and equal to one of them |
| `Pagination.PageWindow` | src/App.jsx:148-150 | for a non-empty view and page p from 1, the page is `view[(p-1)*25 .. min((p-1)*25+25, n)]` (clamped), at most 25 rows |
| `Pagination.PagesBeforeLastAreFull` | src/App.jsx:148-150 | every page before the last button holds exactly 25 rows |
| `Pagination.LastPageHoldsRemainder` | src/App.jsx:148-150 | the last button's page holds `n - 25 * (buttons - 1)` rows, at least one |
| `Pagination.PastLastPageIsEmpty` | src/App.jsx:144-150 | a page number beyond the last button shows an empty page, not the marker |
| `Pagination.HeaderMatchesRows` | src/App.jsx:258-263 | on every page with a button, `1 <= from <= to <= n` and the rows shown are rows `from` to `to` of the view |
| `Pagination.PagesUpToIsPrefix` | src/App.jsx:266-276 | pages 1 to k, one after the other, are the first `min(25k, n)` rows of the view |
| `Pagination.PagesCoverView` | src/App.jsx:266-276 | paging through every button shows each row of the view once, in order |
| `Pagination.ThirtyRowsExample` | src/App.jsx:148-150 | 30 rows make two buttons: rows 0-24 on page 1 and rows 25-29 on page 2 |
| `Editing.BlurSavesAsWritten` | src/App.jsx:216 | the blur test as written, the field's text against the rendered record's title; no contract of its own, `Editing.TypedTitleIsNeverSaved` proves it is never true after line 212 |
| `Editing.TypedTitleIsNeverSaved` | src/App.jsx:212-221 | once line 212 has stored the typed text, the blur test as written sees no change, so the save branch is never taken |
| `Editing.RenameExample` | src/App.jsx:212-221 | renaming task "A" to "B": the test as written closes the editor, the intended test saves |
| `Manager.SaveOutcome` | src/App.jsx:78-88 | a save throws exactly when no task has the id; it alerts exactly when `find`'s first match has a blank title; it is declined exactly when that title is not blank and the user cancels; it sends a request exactly when confirmed with a non-blank title, and the request carries that first match's title and nothing else; it never just closes the editor |
| `Manager.RenameSendsTypedTitle` | src/App.jsx:210-221 | after `EditTask` records the title and `EditTitle` writes changed, non-blank text into the list, the corrected blur's test saves and a confirmed save sends exactly the typed text as the title; the test as written, on the rewritten record, sees no change |
| `Manager.TaskManager.constructor` | src/App.jsx:8-16 | the initial state: no tasks, empty field, no editor, nothing checked, filter 'all', page 1 |
| `Manager.TaskManager.Load` | src/App.jsx:19-23 | the startup fetch's result replaces the list; a failed fetch leaves it |
| `Manager.TaskManager.TypeNewTask` | src/App.jsx:161 | typing sets the "New task" field and nothing else |
| `Manager.TaskManager.CreateTask` | src/App.jsx:37-56 | a blank title alerts and changes nothing; a declined one changes nothing; a confirmed one posts the title with `completed: false`, clears the field, and puts the server's record in front of the old list |
| `Manager.TaskManager.TaskUpdate` | src/App.jsx:58-72 | sends a PATCH on the task's id whose body is exactly `updates`, and applies the server's record by id |
| `Manager.TaskManager.UpdateTask` | src/App.jsx:74-76 | the check icon sends `{completed: !task.completed}` alone and keeps the list's length |
| `Manager.TaskManager.SaveTask` | src/App.jsx:78-88 | the outcome is `SaveOutcome` of the old list; only a sent save applies the server's record and closes the editor |
| `Manager.TaskManager.SelectTask` | src/App.jsx:90-96 | the selection becomes its toggle by the task's id and stays free of duplicates |
| `Manager.TaskManager.DeleteSelectedTasks` | src/App.jsx:98-112 | an empty selection alerts with no change; a confirmed success leaves no task with a checked id, keeps every other task in order, and empties the selection |
| `Manager.TaskManager.DeleteTask` | src/App.jsx:114-123 | a confirmed success removes exactly the tasks with the id and keeps the rest in order; the selection is untouched |
| `Manager.TaskManager.EditTask` | src/App.jsx:125-127 | the editor opens on the task (its title at that moment is remembered) |
| `Manager.TaskManager.EditTitle` | src/App.jsx:212 | each keystroke writes the text into the tasks with that id |
| `Manager.TaskManager.CancelEdit` | src/App.jsx:225 | Cancel closes the editor and leaves the list as it is |
| `Manager.TaskManager.Blur` | src/App.jsx:215-221 | unchanged text closes the editor with no request; changed text does exactly what the save handler does |
| `Manager.TaskManager.FilterChange` | src/App.jsx:129-132 | a filter button sets the filter and always goes back to page 1 |
| `Manager.TaskManager.PageChange` | src/App.jsx:134-136 | a page button sets the page and nothing else |
| `Manager.TaskManager.Visible` | src/App.jsx:138-151 | `paginatedTasks` of the current state: the "No tasks found." element exactly when the active view is empty, otherwise the rows of the view from `(page - 1) * 25` to `min(page * 25, n)`, at most 25, all from the list |
| `Manager.TaskManager.Header` | src/App.jsx:258-263 | the header's total is the active view's length, its first number is `(page - 1) * 25 + 1` and its second `min(page * 25, total)` |
| `Manager.TaskManager.HeaderMatchesVisible` | src/App.jsx:258-263 | on a non-empty view and a page with a button, `1 <= from <= to <= total` and the rows shown are exactly rows `from` to `to` of the active view |
| `Manager.TaskManager.Buttons` | src/App.jsx:266-268 | the button count is the least number of 25-row pages that holds the active view |

## Findings

| source | as written | input that shows it | evidently intended | confidence | as-written member | corrected member |
|---|---|---|---|---|---|---|
| src/App.jsx:216 | the blur handler compares the field's value with `task.title` of the latest render, which the change handler at line 212 has already set to that value, so it always closes the editor and never calls `handleSaveTask`: a rename is never sent and a blank title is never rejected | one task `{id: 1, title: "A", completed: false}`; open the editor, type "B", leave the field | compare with the title the task had when editing began, so changed text goes to the save confirmation | not executed; follows from React re-rendering the controlled input after each change | `Editing.TypedTitleIsNeverSaved` | `Manager.TaskManager.Blur` |

## Left out

- `fetch`, JSON encoding and the API's URLs: each response is a parameter, and the batch DELETE is recorded by its list of ids rather than by the comma-joined URL.
- `alert` and `window.confirm`: an alert is the outcome `Alerted`, a confirmation a boolean parameter.
- Rendering: JSX, icons, CSS classes and the tutorial button. The list rendering at line 199 is not modelled: it calls `.map` on what `paginatedTasks` returns, and for an empty active view that is the `<p>No tasks found.</p>` element, which has no `map` method, so as written an empty view (the first render included, since the list starts empty) fails to render instead of showing the marker. The model stops at the value `paginatedTasks` returns. `useEffect` scheduling is not modelled: the completed and pending views are functions of the list instead of separate state kept in sync.
- Asynchronous hazards: responses arriving out of order, and `.then` callbacks that use the `tasks` captured when the request was sent. Each response is applied at once to the current state.
- src/TutorialModal.jsx and `isTutorialOpen`: a panel shown or hidden, with no logic.
- Fields of the API's records other than id, title and completed (such as `userId`).
- Trimming works on Unicode scalar values, not UTF-16 code units; every character `trim` removes is a single code unit, so the result agrees for every title made of Unicode scalar values. Titles holding lone surrogates, which a JavaScript string can hold, are not represented.
- `Manager.TaskManager.PageChange`: requires a page number of at least 1, the only numbers its caller (the page buttons, `index + 1`) passes.
- Floating-point arithmetic in the page numbers and `Math.ceil`: the model uses exact integers, which agree for every list length and page number the UI produces.
