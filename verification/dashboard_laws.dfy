/** Laws relating the dashboard's list operations to one another: inverses,
    idempotence, last-write-wins, and agreement between the stored and the
    displayed status. */
module DashboardLaws {
  import opened Tasks
  import opened Seqs
  import opened TaskList
  import opened Dashboard

  /** Deleting a freshly added task by its id gives back the list as it was. */
  lemma AddThenDelete(tasks: seq<Task>, draft: Draft, id: int)
    requires !HasId(tasks, id)
    ensures DeleteTask(AddTask(tasks, draft, id), id) == tasks
  {
    var added := AddTask(tasks, draft, id);
    var keep := KeepIfOtherId(id);
    assert added == tasks + [added[|tasks|]];
    FilterConcat(tasks, [added[|tasks|]], keep);
    FilterKeepsAll(tasks, keep);
    FilterSingleton(added[|tasks|], keep);
  }

  /** Adding under an id no entry carries keeps ids unique. */
  lemma AddKeepsUniqueIds(tasks: seq<Task>, draft: Draft, id: int)
    requires UniqueIds(tasks) && !HasId(tasks, id)
    ensures UniqueIds(AddTask(tasks, draft, id))
  {
    var added := AddTask(tasks, draft, id);
    forall i, j | 0 <= i < j < |added|
      ensures added[i].id != added[j].id
    {
      if j == |tasks| {
        assert added[i] == tasks[i];
      } else {
        assert added[i] == tasks[i] && added[j] == tasks[j];
      }
    }
  }

  /** Applying the same update twice is applying it once. */
  lemma UpdateIdempotent(tasks: seq<Task>, updated: Task)
    ensures UpdateTask(UpdateTask(tasks, updated), updated) == UpdateTask(tasks, updated)
  {
  }

  /** Of two updates to the same id, the later one wins. */
  lemma UpdateLastWins(tasks: seq<Task>, first: Task, second: Task)
    requires first.id == second.id
    ensures UpdateTask(UpdateTask(tasks, first), second) == UpdateTask(tasks, second)
  {
  }

  /** An update that matches what is already stored under its id changes
      nothing; in particular an update to an absent id is a no-op. */
  lemma UpdateWithStoredIsNoop(tasks: seq<Task>, t: Task)
    requires forall i :: 0 <= i < |tasks| && tasks[i].id == t.id ==> tasks[i] == t
    ensures UpdateTask(tasks, t) == tasks
  {
  }

  /** Pressing a row's toggle twice (the second press acting on the record
      the first produced) restores the list, for a Pending or Completed task
      whose id is unique. */
  lemma ToggleRoundTrip(tasks: seq<Task>, k: int)
    requires UniqueIds(tasks) && 0 <= k < |tasks| && tasks[k].status != Overdue
    ensures UpdateTask(UpdateTask(tasks, Toggle(tasks[k])), Toggle(Toggle(tasks[k]))) == tasks
  {
    var t := tasks[k];
    UpdateLastWins(tasks, Toggle(t), Toggle(Toggle(t)));
    ToggleTwice(t);
    UpdateWithStoredIsNoop(tasks, t);
  }

  /** Deleting an id a second time changes nothing. */
  lemma DeleteIdempotent(tasks: seq<Task>, id: int)
    ensures DeleteTask(DeleteTask(tasks, id), id) == DeleteTask(tasks, id)
  {
  }

  /** Every survivor of a delete is an entry of the original list. */
  lemma DeleteSurvivorsAreEntries(tasks: seq<Task>, id: int)
    ensures forall i :: 0 <= i < |DeleteTask(tasks, id)| ==> DeleteTask(tasks, id)[i] in tasks
  {
    SubsequenceMembers(DeleteTask(tasks, id), tasks);
  }

  /** Deleting from a list split in two deletes from each part. */
  lemma DeleteConcat(a: seq<Task>, b: seq<Task>, id: int)
    ensures DeleteTask(a + b, id) == DeleteTask(a, id) + DeleteTask(b, id)
  {
    FilterConcat(a, b, KeepIfOtherId(id));
  }

  /** With unique ids, deleting the id at position `k` removes exactly that
      entry and shortens the list by one. */
  lemma DeleteRemovesOne(tasks: seq<Task>, k: int)
    requires UniqueIds(tasks) && 0 <= k < |tasks|
    ensures DeleteTask(tasks, tasks[k].id) == tasks[..k] + tasks[k + 1..]
    ensures |DeleteTask(tasks, tasks[k].id)| == |tasks| - 1
  {
    var id := tasks[k].id;
    var front, back := tasks[..k], tasks[k + 1..];
    assert tasks == front + [tasks[k]] + back;
    forall i | 0 <= i < |front|
      ensures KeepIfOtherId(id)(front[i])
    {
      assert front[i] == tasks[i];
    }
    forall i | 0 <= i < |back|
      ensures KeepIfOtherId(id)(back[i])
    {
      assert back[i] == tasks[k + 1 + i];
    }
    FilterDropsOne(front, tasks[k], back, KeepIfOtherId(id));
  }

  /** Running the correction pass a second time changes nothing. */
  lemma CorrectionIdempotent(tasks: seq<Task>, today: string)
    ensures CorrectionPass(CorrectionPass(tasks, today), today) == CorrectionPass(tasks, today)
  {
    var once := CorrectionPass(tasks, today);
    var twice := CorrectionPass(once, today);
    forall i | 0 <= i < |tasks|
      ensures twice[i] == once[i]
    {
      assert !IsOverdue(once[i], today);
    }
  }

  /** The correction pass stores exactly the status the list would display. */
  lemma CorrectionStoresDisplayStatus(tasks: seq<Task>, today: string)
    ensures forall i :: 0 <= i < |tasks| ==>
      CorrectionPass(tasks, today)[i].status == DisplayStatus(tasks[i], today)
  {
  }

  /** After the correction pass, stored and displayed status coincide, and no
      task is stored as Pending with a past due date. */
  lemma CorrectedListDisplaysStored(tasks: seq<Task>, today: string)
    ensures forall i :: 0 <= i < |tasks| ==>
      var t := CorrectionPass(tasks, today)[i];
      DisplayStatus(t, today) == t.status && !IsOverdue(t, today)
  {
  }

  /** Filtering a view again by its own mode gives the same view. */
  lemma ViewIdempotent(tasks: seq<Task>, mode: string)
    ensures FilterByMode(FilterByMode(tasks, mode), mode) == FilterByMode(tasks, mode)
  {
    FilterIdempotent(tasks, ModeTest(mode));
  }

  /** The number of tasks a filter mode shows. */
  function CountShown(tasks: seq<Task>, mode: string): nat {
    |FilterByMode(tasks, mode)|
  }

  /** The "pending", "overdue" and "completed" views split the list: every
      task appears in exactly one of them. */
  lemma {:induction false} StatusViewsPartition(tasks: seq<Task>)
    ensures CountShown(tasks, "pending") + CountShown(tasks, "overdue")
            + CountShown(tasks, "completed") == |tasks|
    decreases |tasks|
  {
    if |tasks| > 0 {
      StatusViewsPartition(tasks[1..]);
    }
  }
}
