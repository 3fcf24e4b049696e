/** The status filter judged on the status each row DISPLAYS rather than on
    the stored one. The dashboard's own filter (`Dashboard.FilterByMode`)
    compares the stored status, which matches the display only right after
    the load-time correction pass; a Pending task that falls past due later,
    or is created or reopened with a past due date, displays Overdue yet is
    listed under "pending" and missing from "overdue". */
module DisplayFilter {
  import opened Tasks
  import opened Seqs
  import opened TaskList
  import opened Dashboard
  import opened Scenarios

  /** Whether the filter mode shows a task, judged on its displayed status. */
  predicate ShowsDisplayed(mode: string, t: Task, today: string) {
    if mode == "all" then true
    else if mode == "completed" then DisplayStatus(t, today) == Completed
    else if mode == "overdue" then DisplayStatus(t, today) == Overdue
    else DisplayStatus(t, today) == Pending
  }

  function DisplayModeTest(mode: string, today: string): Task -> bool {
    (t: Task) => ShowsDisplayed(mode, t, today)
  }

  /** The filter a user of the Overdue and Pending buttons expects: each view
      holds exactly the tasks whose row shows that status, in list order. */
  function FilterByDisplay(tasks: seq<Task>, mode: string, today: string): (r: seq<Task>)
    ensures IsSubsequence(r, tasks)
    ensures mode == "all" ==> r == tasks
    ensures mode == "completed" ==>
      (forall i :: 0 <= i < |r| ==> DisplayStatus(r[i], today) == Completed)
      && (forall i :: 0 <= i < |tasks| && DisplayStatus(tasks[i], today) == Completed ==> tasks[i] in r)
    ensures mode == "overdue" ==>
      (forall i :: 0 <= i < |r| ==> DisplayStatus(r[i], today) == Overdue)
      && (forall i :: 0 <= i < |tasks| && DisplayStatus(tasks[i], today) == Overdue ==> tasks[i] in r)
    ensures mode != "all" && mode != "completed" && mode != "overdue" ==>
      (forall i :: 0 <= i < |r| ==> DisplayStatus(r[i], today) == Pending)
      && (forall i :: 0 <= i < |tasks| && DisplayStatus(tasks[i], today) == Pending ==> tasks[i] in r)
  {
    var p := DisplayModeTest(mode, today);
    var r := Filter(tasks, p);
    assert mode == "all" ==> r == tasks by {
      if mode == "all" {
        FilterKeepsAll(tasks, p);
      }
    }
    assert forall i :: 0 <= i < |r| ==> p(r[i]);
    r
  }

  /** The dashboard's filter as written: the task the form stores for
      "Pay bills" due 2020-01-01 (`Scenarios.SubmitPayBills`) displays Overdue
      on 2025-01-01, since the correction pass only runs on load, yet the "overdue" view is empty and
      the "pending" view lists it. */
  lemma StoredFilterMissesDisplayedOverdue()
    ensures DisplayStatus(PayBills, Today) == Overdue
    ensures FilterByMode([PayBills], "overdue") == []
    ensures FilterByMode([PayBills], "pending") == [PayBills]
  {
    assert DisplayStatus(PayBills, Today) == Overdue by {
      PayBillsIsPastDue();
    }
    assert FilterByMode([PayBills], "overdue") == [] by {
      FilterKeepsNone([PayBills], ModeTest("overdue"));
    }
    assert FilterByMode([PayBills], "pending") == [PayBills] by {
      FilterKeepsAll([PayBills], ModeTest("pending"));
    }
  }

  /** The corrected filter lists that task under "overdue" and not under "pending". */
  lemma DisplayFilterShowsDisplayedOverdue()
    ensures FilterByDisplay([PayBills], "overdue", Today) == [PayBills]
    ensures FilterByDisplay([PayBills], "pending", Today) == []
  {
    PayBillsIsPastDue();
    assert FilterByDisplay([PayBills], "overdue", Today) == [PayBills] by {
      FilterKeepsAll([PayBills], DisplayModeTest("overdue", Today));
    }
    assert FilterByDisplay([PayBills], "pending", Today) == [] by {
      FilterKeepsNone([PayBills], DisplayModeTest("pending", Today));
    }
  }

  /** On a list the correction pass has just produced, the two filters
      coincide: this is why the stored-status filter looks right on load. */
  lemma FiltersAgreeAfterCorrection(tasks: seq<Task>, mode: string, today: string)
    ensures var c := CorrectionPass(tasks, today);
      FilterByDisplay(c, mode, today) == FilterByMode(c, mode)
  {
    var c := CorrectionPass(tasks, today);
    forall i | 0 <= i < |c|
      ensures DisplayModeTest(mode, today)(c[i]) == ModeTest(mode)(c[i])
    {
      assert DisplayStatus(c[i], today) == c[i].status;
    }
    FilterCongruent(c, DisplayModeTest(mode, today), ModeTest(mode));
  }

  /** Under the corrected filter the "pending", "overdue" and "completed"
      views also split the list, each task landing in the view its row shows. */
  lemma {:induction false} DisplayViewsPartition(tasks: seq<Task>, today: string)
    ensures |FilterByDisplay(tasks, "pending", today)| + |FilterByDisplay(tasks, "overdue", today)|
            + |FilterByDisplay(tasks, "completed", today)| == |tasks|
    decreases |tasks|
  {
    if |tasks| > 0 {
      DisplayViewsPartition(tasks[1..], today);
    }
  }
}
