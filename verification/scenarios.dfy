/** One concrete task walked through the dashboard: created from the form with
    a due date long past, then seen again after a reload. */
module Scenarios {
  import opened Tasks
  import opened Seqs
  import opened JsString
  import opened TaskList
  import opened Dashboard

  const Today: string := "2025-01-01"

  /** The record the form and `addTask` produce for title "Pay bills",
      due 2020-01-01, priority High, under id 1. */
  const PayBills: Task := Task(1, "Pay bills", "", "2020-01-01", High, Pending, false)

  lemma PayBillsIsPastDue()
    ensures Less(PayBills.dueDate, Today)
  {
    var a, b := PayBills.dueDate, Today;
    assert a[0] == b[0] && a[1] == b[1] && a[2] == b[2] && a[3] < b[3];
    assert a[1..][1..][1..][0] == a[3];
    assert b[1..][1..][1..][0] == b[3];
  }

  /** Submitting the form on an empty dashboard stores exactly `PayBills`, Pending. */
  lemma SubmitPayBills()
    ensures SubmitTask([], "Pay bills", "", "2020-01-01", High, 1) == [PayBills]
  {
    assert !IsWhitespace("Pay bills"[0]);
  }

  /** After a reload the correction pass stores it as Overdue, and the
      "overdue" view shows exactly that task. */
  lemma ReloadMarksPayBillsOverdue()
    ensures CorrectionPass([PayBills], Today) == [PayBills.(status := Overdue)]
    ensures FilterByMode(CorrectionPass([PayBills], Today), "overdue") == [PayBills.(status := Overdue)]
  {
    PayBillsIsPastDue();
    var c := CorrectionPass([PayBills], Today);
    assert c == [PayBills.(status := Overdue)];
    FilterKeepsAll(c, ModeTest("overdue"));
  }
}
