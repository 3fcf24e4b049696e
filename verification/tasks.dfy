/** The task record the dashboard keeps in its list, and the draft the
    creation form hands over before an id is assigned. */
module Tasks {

  datatype Option<+T> = None | Some(value: T)

  /** The stored `status` string. The form writes `Pending`, the toggle writes
      `Pending` or `Completed`, and the load-time correction pass writes `Overdue`. */
  datatype Status = Pending | Completed | Overdue

  /** The `priority` string chosen in the form's select. */
  datatype Priority = High | Medium | Low

  /** What the form submits: every field of a task except `id` and `completed`. */
  datatype Draft = Draft(
    title: string,
    description: string,
    dueDate: string,
    priority: Priority,
    status: Status)

  /** A stored task. `completed` is the boolean the dashboard still writes on
      creation; the status logic reads only `status`. */
  datatype Task = Task(
    id: int,
    title: string,
    description: string,
    dueDate: string,
    priority: Priority,
    status: Status,
    completed: bool)

  /** Some entry of `tasks` carries `id`. */
  predicate HasId(tasks: seq<Task>, id: int) {
    exists i :: 0 <= i < |tasks| && tasks[i].id == id
  }

  /** How many entries carry `id`. */
  function CountId(tasks: seq<Task>, id: int): (n: nat)
    ensures n <= |tasks|
    ensures n == 0 <==> !HasId(tasks, id)
  {
    if |tasks| == 0 then 0
    else
      var rest := CountId(tasks[1..], id);
      assert HasId(tasks, id) <==> tasks[0].id == id || HasId(tasks[1..], id) by {
        if HasId(tasks[1..], id) {
          var i :| 0 <= i < |tasks| - 1 && tasks[1..][i].id == id;
          assert tasks[i + 1].id == id;
        }
        if HasId(tasks, id) && tasks[0].id != id {
          var i :| 0 <= i < |tasks| && tasks[i].id == id;
          assert tasks[1..][i - 1].id == id;
        }
      }
      (if tasks[0].id == id then 1 else 0) + rest
  }

  /** No two entries share an id. The dashboard draws ids from the clock and
      does not check this, so it appears only as an assumption. */
  predicate UniqueIds(tasks: seq<Task>) {
    forall i, j :: 0 <= i < j < |tasks| ==> tasks[i].id != tasks[j].id
  }
}
