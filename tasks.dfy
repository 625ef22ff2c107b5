/**
 * The task list and the pure views and rewrites the TaskManager component
 * computes from it (src/App.jsx): the completed and pending views, the
 * view a filter selects, replace-by-id, the in-place title edit, lookup by
 * id and deletion by id.
 */
module Tasks {
  import Seqs

  datatype Option<T> = None | Some(value: T)

  /** A task record as the todo API returns it; the id is assigned by the server. */
  datatype Task = Task(id: int, title: string, completed: bool)

  /** The three filter buttons: 'all', 'completed' and 'pending'. */
  datatype TaskFilter = All | Completed | Pending

  predicate IsDone(t: Task) { t.completed }

  predicate IsOpen(t: Task) { !t.completed }

  /** `tasks.filter(task => task.completed)` */
  function CompletedTasks(tasks: seq<Task>): (r: seq<Task>)
    ensures Seqs.IsSubsequence(r, tasks)
    ensures forall t :: t in r <==> t in tasks && t.completed
  {
    Seqs.FilterIsSubsequence(tasks, IsDone);
    Seqs.Filter(tasks, IsDone)
  }

  /** `tasks.filter(task => !task.completed)` */
  function PendingTasks(tasks: seq<Task>): (r: seq<Task>)
    ensures Seqs.IsSubsequence(r, tasks)
    ensures forall t :: t in r <==> t in tasks && !t.completed
  {
    Seqs.FilterIsSubsequence(tasks, IsOpen);
    Seqs.Filter(tasks, IsOpen)
  }

  /** The list a filter puts on screen: the whole list, or one of the two views. */
  function ViewOf(tasks: seq<Task>, filter: TaskFilter): (v: seq<Task>)
    ensures Seqs.IsSubsequence(v, tasks)
    ensures forall t :: t in v <==> t in tasks && (filter.Completed? ==> t.completed) && (filter.Pending? ==> !t.completed)
  {
    match filter
    case All => Seqs.SubsequenceRefl(tasks); tasks
    case Completed => CompletedTasks(tasks)
    case Pending => PendingTasks(tasks)
  }

  /**
   * The completed and pending views partition the list: each task lies in
   * exactly one of them, each keeps the list's order, and together they
   * hold every task as many times as the list does.
   */
  lemma ViewsPartition(tasks: seq<Task>)
    ensures forall t :: t in tasks ==> (t in CompletedTasks(tasks) <==> t !in PendingTasks(tasks))
    ensures forall t :: t in CompletedTasks(tasks) ==> t in tasks && t.completed
    ensures forall t :: t in PendingTasks(tasks) ==> t in tasks && !t.completed
    ensures Seqs.IsSubsequence(CompletedTasks(tasks), tasks)
    ensures Seqs.IsSubsequence(PendingTasks(tasks), tasks)
    ensures multiset(CompletedTasks(tasks)) + multiset(PendingTasks(tasks)) == multiset(tasks)
    ensures |CompletedTasks(tasks)| + |PendingTasks(tasks)| == |tasks|
  {
    Seqs.FilterSplit(tasks, IsDone, IsOpen);
  }

  /**
   * `tasks.map(t => t.id === id ? f(t) : t)`: every task with the given id
   * is rewritten by `f`, every other one is kept, positions are unchanged.
   */
  function MapMatching(tasks: seq<Task>, id: int, f: Task -> Task): (r: seq<Task>)
    ensures |r| == |tasks|
    ensures forall i :: 0 <= i < |tasks| && tasks[i].id == id ==> r[i] == f(tasks[i])
    ensures forall i :: 0 <= i < |tasks| && tasks[i].id != id ==> r[i] == tasks[i]
  {
    if tasks == [] then []
    else [if tasks[0].id == id then f(tasks[0]) else tasks[0]] + MapMatching(tasks[1..], id, f)
  }

  /** Line 71: every task whose id is `id` becomes the server's record, all others stay as they are. */
  function ReplaceById(tasks: seq<Task>, id: int, record: Task): (r: seq<Task>)
    ensures |r| == |tasks|
    ensures forall i :: 0 <= i < |tasks| && tasks[i].id == id ==> r[i] == record
    ensures forall i :: 0 <= i < |tasks| && tasks[i].id != id ==> r[i] == tasks[i]
  {
    MapMatching(tasks, id, _ => record)
  }

  /** Line 212: every task whose id is `id` takes the typed title and keeps its id and completion flag. */
  function Retitle(tasks: seq<Task>, id: int, title: string): (r: seq<Task>)
    ensures |r| == |tasks|
    ensures forall i :: 0 <= i < |tasks| && tasks[i].id == id ==> r[i] == Task(id, title, tasks[i].completed)
    ensures forall i :: 0 <= i < |tasks| && tasks[i].id != id ==> r[i] == tasks[i]
  {
    MapMatching(tasks, id, Titled(title))
  }

  /** The rewrite line 212 applies to a matching task: `{ ...t, title }`. */
  function Titled(title: string): Task -> Task
  {
    (t: Task) => t.(title := title)
  }

  /** `tasks.find(t => t.id === id)`: the first task with that id, if there is one. */
  function FindById(tasks: seq<Task>, id: int): (r: Option<Task>)
    ensures r.None? <==> forall i :: 0 <= i < |tasks| ==> tasks[i].id != id
    ensures r.Some? ==> exists i :: 0 <= i < |tasks| && tasks[i] == r.value && r.value.id == id &&
                                    forall j :: 0 <= j < i ==> tasks[j].id != id
  {
    if tasks == [] then None
    else if tasks[0].id == id then Some(tasks[0])
    else
      var r := FindById(tasks[1..], id);
      if r.Some? then
        var i :| 0 <= i < |tasks[1..]| && tasks[1..][i] == r.value && r.value.id == id &&
                 forall j :: 0 <= j < i ==> tasks[1..][j].id != id;
        assert tasks[i + 1] == r.value;
        r
      else r
  }

  /** `find` after a map that keeps every id finds the rewritten first match. */
  lemma {:induction false} FindAfterMap(tasks: seq<Task>, id: int, f: Task -> Task)
    requires forall t :: f(t).id == t.id
    requires FindById(tasks, id).Some?
    ensures FindById(MapMatching(tasks, id, f), id) == Some(f(FindById(tasks, id).value))
  {
    var mapped := MapMatching(tasks, id, f);
    if tasks[0].id != id {
      assert mapped[1..] == MapMatching(tasks[1..], id, f);
      FindAfterMap(tasks[1..], id, f);
    }
  }

  /** After line 212 has written `title` into the tasks with this id, `find` returns the first of them, retitled. */
  lemma FindAfterRetitle(tasks: seq<Task>, id: int, title: string)
    requires FindById(tasks, id).Some?
    ensures FindById(Retitle(tasks, id, title), id) == Some(FindById(tasks, id).value.(title := title))
  {
    FindAfterMap(tasks, id, Titled(title));
  }

  /** The test a deletion keeps a task by: its id is not among `ids`. */
  function Keeps(ids: seq<int>): Task -> bool
  {
    (t: Task) => t.id !in ids
  }

  /** The complementary test: the task's id is among `ids`. */
  function Hits(ids: seq<int>): Task -> bool
  {
    (t: Task) => t.id in ids
  }

  /**
   * Lines 108 and 120: `tasks.filter(t => !ids.includes(t.id))`. A single
   * delete passes the one id `[task.id]`.
   */
  function Without(tasks: seq<Task>, ids: seq<int>): (r: seq<Task>)
    ensures forall t :: t in r <==> t in tasks && t.id !in ids
    ensures forall i :: 0 <= i < |r| ==> r[i].id !in ids
  {
    Seqs.Filter(tasks, Keeps(ids))
  }

  /**
   * A deletion removes exactly the tasks whose id is listed: the survivors
   * keep their order, and survivors plus removed tasks are the old list.
   */
  lemma DeletionKeepsOthers(tasks: seq<Task>, ids: seq<int>)
    ensures Seqs.IsSubsequence(Without(tasks, ids), tasks)
    ensures multiset(Without(tasks, ids)) + multiset(Seqs.Filter(tasks, Hits(ids))) == multiset(tasks)
    ensures |Without(tasks, ids)| == |tasks| - |Seqs.Filter(tasks, Hits(ids))|
    ensures (forall i :: 0 <= i < |tasks| ==> tasks[i].id !in ids) ==> Without(tasks, ids) == tasks
  {
    Seqs.FilterIsSubsequence(tasks, Keeps(ids));
    Seqs.FilterSplit(tasks, Keeps(ids), Hits(ids));
    if forall i :: 0 <= i < |tasks| ==> tasks[i].id !in ids {
      Seqs.FilterAllPass(tasks, Keeps(ids));
    }
  }

  /** Rewriting records never changes how many tasks the two views hold together. */
  lemma ReplaceKeepsTotal(tasks: seq<Task>, id: int, record: Task)
    ensures |CompletedTasks(ReplaceById(tasks, id, record))| + |PendingTasks(ReplaceById(tasks, id, record))| == |tasks|
  {
    ViewsPartition(ReplaceById(tasks, id, record));
  }

  /** No other task shares the id of the task at position `i`. */
  predicate IdIsUnique(tasks: seq<Task>, i: int)
    requires 0 <= i < |tasks|
  {
    forall j :: 0 <= j < |tasks| && j != i ==> tasks[j].id != tasks[i].id
  }

  /**
   * Toggling a task whose id is unique, with the server's record carrying the
   * flipped flag, moves it from one view to the other: one view gains one
   * task, the other loses one, and the list keeps its length.
   */
  lemma ToggleMovesBetweenViews(tasks: seq<Task>, i: int, record: Task)
    requires 0 <= i < |tasks| && IdIsUnique(tasks, i)
    requires record.completed == !tasks[i].completed
    ensures var r := ReplaceById(tasks, tasks[i].id, record);
      && |r| == |tasks|
      && |CompletedTasks(r)| == |CompletedTasks(tasks)| + (if record.completed then 1 else -1)
      && |PendingTasks(r)| == |PendingTasks(tasks)| + (if record.completed then -1 else 1)
  {
    var id := tasks[i].id;
    var r := ReplaceById(tasks, id, record);
    var a, b := tasks[..i], tasks[i + 1..];
    Seqs.SplitAround(tasks, i);
    assert r == a + [record] + b by {
      assert r[..i] == a;
      assert r[i + 1..] == b;
      Seqs.SplitAround(r, i);
    }
    Seqs.FilterConcat(a + [tasks[i]], b, IsDone);
    Seqs.FilterConcat(a, [tasks[i]], IsDone);
    Seqs.FilterConcat(a + [record], b, IsDone);
    Seqs.FilterConcat(a, [record], IsDone);
    Seqs.FilterConcat(a + [tasks[i]], b, IsOpen);
    Seqs.FilterConcat(a, [tasks[i]], IsOpen);
    Seqs.FilterConcat(a + [record], b, IsOpen);
    Seqs.FilterConcat(a, [record], IsOpen);
  }

  /** The worked example: one pending task, toggled, ends up alone in the completed view. */
  lemma ToggleExample()
    ensures var r := ReplaceById([Task(1, "A", false)], 1, Task(1, "A", true));
      CompletedTasks(r) == [Task(1, "A", true)] && PendingTasks(r) == []
  {
    var r := ReplaceById([Task(1, "A", false)], 1, Task(1, "A", true));
    assert r == [Task(1, "A", true)];
  }
}
