/** The list view inside the dashboard: the status each row shows, and the
    row's toggle button. "Today" is a parameter standing for the date part of
    `new Date().toISOString()`. */
module TaskList {
  import opened Tasks
  import opened JsString

  /** `isOverdue`: stored as Pending and due strictly before today. */
  predicate IsOverdue(t: Task, today: string) {
    Less(t.dueDate, today) && t.status == Pending
  }

  /** The status a row displays. It reads Overdue exactly for a task stored as
      Overdue or stored as Pending and past due; any other task displays its
      stored status, so a Completed task never reads Overdue and a task reads
      Pending only while it is not past due. */
  function DisplayStatus(t: Task, today: string): (r: Status)
    ensures r == Overdue <==> t.status == Overdue || (t.status == Pending && Less(t.dueDate, today))
    ensures r != Overdue ==> r == t.status
    ensures t.status == Completed ==> r == Completed
    ensures r == Pending ==> !Less(t.dueDate, today)
  {
    if IsOverdue(t, today) then Overdue else t.status
  }

  /** The toggle button's new record: a Pending task becomes Completed and any
      other (Completed or Overdue) becomes Pending; every other field is copied. */
  function Toggle(t: Task): (r: Task)
    ensures r.status == Completed <==> t.status == Pending
    ensures r.status != Overdue
    ensures r.(status := t.status) == t
  {
    t.(status := if t.status == Pending then Completed else Pending)
  }

  /** Toggling twice restores a Pending or Completed task; an Overdue task
      ends up Completed. */
  lemma ToggleTwice(t: Task)
    ensures t.status != Overdue ==> Toggle(Toggle(t)) == t
    ensures t.status == Overdue ==> Toggle(Toggle(t)).status == Completed
  {
  }

  /** A task reopened after its due date shows Overdue at once: the display
      derives from the stored status and the date, nothing is cached. */
  lemma ReopenedPastDueShowsOverdue(t: Task, today: string)
    requires t.status == Completed && Less(t.dueDate, today)
    ensures DisplayStatus(Toggle(t), today) == Overdue
  {
  }

  /** Once a task displays Overdue it keeps doing so on every later day
      (and on the same day). */
  lemma OverdueStaysOverdue(t: Task, today: string, later: string)
    requires DisplayStatus(t, today) == Overdue
    requires !Less(later, today)
    ensures DisplayStatus(t, later) == Overdue
  {
    if t.status == Pending {
      LessTrichotomy(today, later);
      if today != later {
        LessTransitive(t.dueDate, today, later);
      }
    }
  }
}
