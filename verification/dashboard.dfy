/** The dashboard's task list: the four list operations, the load-time
    correction pass and the status filter, each a pure function from the old
    list to the new one. The id of a new task (`Date.now()` in the dashboard)
    and today's date are parameters. */
module Dashboard {
  import opened Tasks
  import opened Seqs
  import opened JsString
  import opened TaskForm
  import opened TaskList

  /** `addTask`: the draft, given `id` and `completed = false`, is appended;
      the old list stays in front, unchanged. */
  function AddTask(tasks: seq<Task>, draft: Draft, id: int): (r: seq<Task>)
    ensures |r| == |tasks| + 1
    ensures r[..|tasks|] == tasks
    ensures r[|tasks|].id == id && !r[|tasks|].completed
    ensures r[|tasks|].title == draft.title && r[|tasks|].description == draft.description
    ensures r[|tasks|].dueDate == draft.dueDate && r[|tasks|].priority == draft.priority
    ensures r[|tasks|].status == draft.status
  {
    tasks + [Task(id, draft.title, draft.description, draft.dueDate, draft.priority, draft.status, false)]
  }

  /** Submitting the form: a blank title leaves the list as it was; otherwise
      exactly one Pending task with the typed fields is appended. */
  function SubmitTask(tasks: seq<Task>, title: string, description: string, dueDate: string,
                      priority: Priority, id: int): (r: seq<Task>)
    ensures IsBlank(title) ==> r == tasks
    ensures !IsBlank(title) ==>
      && |r| == |tasks| + 1 && r[..|tasks|] == tasks
      && r[|tasks|] == Task(id, title, description, dueDate, priority, Pending, false)
  {
    match HandleSubmit(title, description, dueDate, priority)
    case Some(draft) => AddTask(tasks, draft, id)
    case None => tasks
  }

  /** The per-entry step of `updateTask`. */
  function ReplaceIfSameId(updated: Task): Task -> Task {
    (t: Task) => if t.id == updated.id then updated else t
  }

  /** `updateTask`: every entry carrying the updated task's id becomes the
      updated task; every other entry stays as and where it was. */
  function UpdateTask(tasks: seq<Task>, updated: Task): (r: seq<Task>)
    ensures |r| == |tasks|
    ensures forall i :: 0 <= i < |tasks| && tasks[i].id == updated.id ==> r[i] == updated
    ensures forall i :: 0 <= i < |tasks| && tasks[i].id != updated.id ==> r[i] == tasks[i]
    ensures forall i :: 0 <= i < |tasks| ==> r[i].id == tasks[i].id
  {
    Map(tasks, ReplaceIfSameId(updated))
  }

  /** The per-entry test of `deleteTask`. */
  function KeepIfOtherId(id: int): Task -> bool {
    (t: Task) => t.id != id
  }

  /** `deleteTask`: afterwards no entry carries `id`; the survivors are the
      entries with other ids, in their original order. */
  function DeleteTask(tasks: seq<Task>, id: int): (r: seq<Task>)
    ensures !HasId(r, id)
    ensures forall i :: 0 <= i < |tasks| && tasks[i].id != id ==> tasks[i] in r
    ensures IsSubsequence(r, tasks)
    ensures |r| == |tasks| - CountId(tasks, id)
    ensures !HasId(tasks, id) ==> r == tasks
  {
    var r := Filter(tasks, KeepIfOtherId(id));
    DeleteLength(tasks, id);
    assert !HasId(tasks, id) ==> r == tasks by {
      if !HasId(tasks, id) {
        FilterKeepsAll(tasks, KeepIfOtherId(id));
      }
    }
    assert forall i :: 0 <= i < |r| ==> KeepIfOtherId(id)(r[i]);
    r
  }

  /** Filtering out `id` drops exactly as many entries as carry it. */
  lemma {:induction false} DeleteLength(tasks: seq<Task>, id: int)
    ensures |Filter(tasks, KeepIfOtherId(id))| == |tasks| - CountId(tasks, id)
    decreases |tasks|
  {
    if |tasks| > 0 {
      DeleteLength(tasks[1..], id);
    }
  }

  /** The per-task step of the load-time correction pass. */
  function Correct(today: string): Task -> Task {
    (t: Task) => if IsOverdue(t, today) then t.(status := Overdue) else t
  }

  /** The load-time correction pass: every task stored as Pending with a due
      date before today is rewritten to Overdue. Nothing else changes: the
      length, the order, and every field but the status of every task stay. */
  function CorrectionPass(tasks: seq<Task>, today: string): (r: seq<Task>)
    ensures |r| == |tasks|
    ensures forall i :: 0 <= i < |tasks| ==> r[i].(status := tasks[i].status) == tasks[i]
    ensures forall i :: 0 <= i < |tasks| && IsOverdue(tasks[i], today) ==> r[i].status == Overdue
    ensures forall i :: 0 <= i < |tasks| && !IsOverdue(tasks[i], today) ==> r[i] == tasks[i]
  {
    Map(tasks, Correct(today))
  }

  /** Whether the filter mode shows a task, judged on the STORED status:
      "all" shows every task, "completed" and "overdue" match their stored
      status, and every other mode ("pending", and "new" too) matches Pending. */
  predicate Shows(mode: string, t: Task) {
    if mode == "all" then true
    else if mode == "completed" then t.status == Completed
    else if mode == "overdue" then t.status == Overdue
    else t.status == Pending
  }

  /** The per-task test of the filter. */
  function ModeTest(mode: string): Task -> bool {
    (t: Task) => Shows(mode, t)
  }

  /** `filteredTasks`: an order-preserving selection by filter mode. */
  function FilterByMode(tasks: seq<Task>, mode: string): (r: seq<Task>)
    ensures IsSubsequence(r, tasks)
    ensures mode == "all" ==> r == tasks
    ensures mode == "completed" ==>
      (forall i :: 0 <= i < |r| ==> r[i].status == Completed)
      && (forall i :: 0 <= i < |tasks| && tasks[i].status == Completed ==> tasks[i] in r)
    ensures mode == "overdue" ==>
      (forall i :: 0 <= i < |r| ==> r[i].status == Overdue)
      && (forall i :: 0 <= i < |tasks| && tasks[i].status == Overdue ==> tasks[i] in r)
    ensures mode != "all" && mode != "completed" && mode != "overdue" ==>
      (forall i :: 0 <= i < |r| ==> r[i].status == Pending)
      && (forall i :: 0 <= i < |tasks| && tasks[i].status == Pending ==> tasks[i] in r)
  {
    var p := ModeTest(mode);
    var r := Filter(tasks, p);
    assert mode == "all" ==> r == tasks by {
      if mode == "all" {
        FilterKeepsAll(tasks, p);
      }
    }
    assert forall i :: 0 <= i < |r| ==> p(r[i]);
    r
  }
}
