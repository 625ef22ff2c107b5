/**
 * The decision the title field's blur handler makes (src/App.jsx lines
 * 215-221): close the editor when the text is unchanged, otherwise go
 * through `handleSaveTask`.
 */
module Editing {
  import opened Tasks

  /**
   * Line 216 as written: the handler saves when the field's value differs
   * from `task.title`, where `task` is the record of the latest render. The
   * change handler at line 212 has already written every keystroke into that
   * record, so this compares the text with itself.
   */
  predicate BlurSavesAsWritten(rendered: Task, value: string)
  {
    value != rendered.title
  }

  /**
   * Whatever was typed, once line 212 has stored it, the as-written test
   * sees no change: the save branch of the blur handler is never taken.
   */
  lemma TypedTitleIsNeverSaved(tasks: seq<Task>, i: int, value: string)
    requires 0 <= i < |tasks|
    ensures !BlurSavesAsWritten(Retitle(tasks, tasks[i].id, value)[i], value)
  {
  }

  /** The intended test: the text differs from the title the task had when editing began. */
  predicate BlurSaves(titleAtEditStart: string, value: string)
  {
    value != titleAtEditStart
  }

  /**
   * One task "A", renamed to "B" in the editor: the as-written test closes
   * the editor and sends nothing, the intended test saves.
   */
  lemma RenameExample()
    ensures var typed := Retitle([Task(1, "A", false)], 1, "B");
      && typed == [Task(1, "B", false)]
      && !BlurSavesAsWritten(typed[0], "B")
      && BlurSaves("A", "B")
  {
  }
}
