/**
 * The body of a partial update (`handleTaskUpdate`, src/App.jsx lines
 * 58-63): the task and the updates as JavaScript objects, the merged
 * record `{ ...task, ...updates }`, and the patch that copies into a fresh
 * object, key by key, the merged value of every key of `updates`.
 */
module Patch {
  import opened Tasks

  /** The keys a task object can have. */
  datatype Field = IdField | TitleField | CompletedField

  /** The JSON values those keys hold. */
  datatype Value = Int(i: int) | Str(s: string) | Bool(b: bool)

  /** A plain JavaScript object restricted to task keys. */
  type Object = map<Field, Value>

  /** A task record as an object with its three keys. */
  function ToObject(t: Task): (o: Object)
    ensures o.Keys == {IdField, TitleField, CompletedField}
  {
    map[IdField := Int(t.id), TitleField := Str(t.title), CompletedField := Bool(t.completed)]
  }

  /** Object spread `{ ...o, ...u }`: the keys of both, and where both have a key the value of `u`. */
  function Spread(o: Object, u: Object): (r: Object)
    ensures r.Keys == o.Keys + u.Keys
    ensures forall k :: k in u ==> r[k] == u[k]
    ensures forall k :: k in o && k !in u ==> r[k] == o[k]
  {
    o + u
  }

  /** The patch the handler sends: for each key of `updates`, the value the merged record holds. */
  function PatchOf(task: Task, updates: Object): (r: Object)
    ensures r.Keys == updates.Keys
  {
    var updated := Spread(ToObject(task), updates);
    map k | k in updates :: updated[k]
  }

  /**
   * Lines 59-63: start from an empty object and assign, for each key of
   * `updates` in turn, `patchData[key] = updatedTask[key]`.
   */
  method BuildPatch(task: Task, updates: Object) returns (patch: Object)
    ensures patch == PatchOf(task, updates)
  {
    var updated := Spread(ToObject(task), updates);
    patch := map[];
    var keys := updates.Keys;
    while keys != {}
      invariant keys <= updates.Keys
      invariant patch.Keys == updates.Keys - keys
      invariant forall k :: k in patch ==> patch[k] == updated[k]
      decreases keys
    {
      var k :| k in keys;
      patch := patch[k := updated[k]];
      keys := keys - {k};
    }
  }

  /**
   * The patch has exactly the keys of `updates`, each with the value the
   * caller supplied: merging the task in first contributes nothing, so only
   * the changed fields go over the wire.
   */
  lemma PatchIsUpdates(task: Task, updates: Object)
    ensures PatchOf(task, updates).Keys == updates.Keys
    ensures PatchOf(task, updates) == updates
  {
  }

  /** Line 75: the updates a completion toggle passes. */
  function ToggleUpdates(task: Task): Object
  {
    map[CompletedField := Bool(!task.completed)]
  }

  /** Line 85: the updates a title save passes. */
  function TitleUpdates(title: string): Object
  {
    map[TitleField := Str(title)]
  }

  /** A toggle sends one key, `completed`, holding the negation of the task's flag. */
  lemma TogglePatchSendsOnlyCompleted(task: Task)
    ensures PatchOf(task, ToggleUpdates(task)).Keys == {CompletedField}
    ensures PatchOf(task, ToggleUpdates(task))[CompletedField] == Bool(!task.completed)
  {
    PatchIsUpdates(task, ToggleUpdates(task));
  }

  /** A save sends one key, `title`, holding the new title. */
  lemma TitlePatchSendsOnlyTitle(task: Task, title: string)
    ensures PatchOf(task, TitleUpdates(title)).Keys == {TitleField}
    ensures PatchOf(task, TitleUpdates(title))[TitleField] == Str(title)
  {
    PatchIsUpdates(task, TitleUpdates(title));
  }
}
