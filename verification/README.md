# TaskEase dashboard: task-list logic in Dafny

TaskEase is a browser task tracker. Its `Dashboard` component holds an
ordered list of task records. Users add tasks through a form, toggle them
between Pending and Completed, delete them and filter the list by status.
On page load, a correction pass rewrites stored Pending tasks whose due date
has passed to Overdue.

This project models that logic without React. The list is an immutable
`seq<Task>`. Every list operation is a pure function from the old list to the
new one, and the lemmas relate the operations to one another.

Modules, leaf first:

- `Seqs` (seqs.dfy): `Map` and `Filter` with the meaning of JavaScript's
  `Array.prototype.map` and `filter`; an order-preserving subsequence
  predicate; laws of filtering (concatenation, idempotence, congruence).
- `JsString` (jsstring.dfy): `String.prototype.trim` over the ECMAScript
  WhiteSpace and LineTerminator characters, and JavaScript's `<` on strings
  (`Less`), with its first-difference characterisation and order laws.
  Dafny's own `<` on sequences means "proper prefix", so it is not used for dates.
- `IsoDate` (isodate.dfy): for `YYYY-MM-DD` strings, `Less` is proved to be
  the chronological order (the order of the number YYYYMMDD).
- `Tasks` (tasks.dfy): `Status` (Pending | Completed | Overdue), `Priority`,
  the form's `Draft`, the stored `Task`, and the id predicates.
- `TaskForm` (task_form.dfy): the submit gate.
- `TaskList` (task_list.dfy): the displayed status and the toggle.
- `Dashboard` (dashboard.dfy): `addTask`, `updateTask`, `deleteTask`, the
  correction pass and the status filter.
- `DashboardLaws` (dashboard_laws.dfy): inverses, idempotence,
  last-write-wins, and agreement between stored and displayed status.
- `Scenarios` (scenarios.dfy): one task taken from the form through a reload.
- `DisplayFilter` (display_filter.dfy): the filter by displayed status (see Findings).

The new task's id (`Date.now()` in the source) and "today" (the date part of
`new Date().toISOString()`) are parameters. Id uniqueness is not guaranteed
by the source. It appears only as a precondition (`Tasks.UniqueIds`) of the
lemmas that need it.

In these places the code departs from a simpler two-state design, and the model follows the code:

- The code stores Overdue as a third status value (correction pass, line 128).
  It is not only a derived value, so `Status` has three constructors.
- The code's filter compares the stored status, not the displayed one
  (lines 148-156).
- `updateTask` replaces every entry with a matching id (`map`), and
  `deleteTask` removes every such entry (`filter`). They are not limited to a
  single record.
- The code does not guard `JSON.parse` on load. Persistence is left out here.

## Model

| member | source | states |
|---|---|---|
| TaskForm.HandleSubmit | task-manager/src/components/Dashboard.js:10-13 | A draft is submitted exactly when the title contains a character that is not JavaScript whitespace. The draft carries the untrimmed title, the other typed fields, and status Pending. |
| JsString.Trim | task-manager/src/components/Dashboard.js:12 | `trim()` returns the contiguous slice of the title between a blank leading stretch and a blank trailing stretch. The slice neither starts nor ends with whitespace. It is empty exactly when the title is blank. |
| JsString.TrimIdempotent | task-manager/src/components/Dashboard.js:12 | Trimming a trimmed title changes nothing. |
| Dashboard.SubmitTask | task-manager/src/components/Dashboard.js:10-13 | A blank title leaves the list unchanged. Otherwise the old list is kept as a prefix and one Pending task with the typed fields, the given id and `completed = false` is appended. |
| Dashboard.AddTask | task-manager/src/components/Dashboard.js:135-137 | The list grows by exactly one and keeps the old list as its prefix. The last record has the given id, `completed = false` and the draft's fields. |
| Dashboard.UpdateTask | task-manager/src/components/Dashboard.js:139-141 | The length is preserved. Every entry whose id matches becomes the updated task, and every other entry stays unchanged at its position. The id at each position is unchanged. |
| Dashboard.DeleteTask | task-manager/src/components/Dashboard.js:143-145 | Afterwards no entry has the id. The result is an order-preserving subsequence that keeps every entry with another id. Its length is the old length minus the number of entries with the id, so exactly those entries are dropped. Deleting an absent id changes nothing. |
| Dashboard.CorrectionPass | task-manager/src/components/Dashboard.js:123-133 | Length, order and every field except status are preserved. Each Pending task with a due date before today becomes Overdue, and no other task changes. |
| Dashboard.FilterByMode | task-manager/src/components/Dashboard.js:147-156 | Returns an order-preserving subsequence. "all" returns the whole list. "completed" and "overdue" select exactly the tasks with that stored status. Every other mode, "pending" and "new" included, selects exactly the stored Pending tasks. |
| TaskList.DisplayStatus | task-manager/src/components/Dashboard.js:66-67 | A row shows Overdue exactly when the task is stored as Overdue, or is stored as Pending with a due date before today. Otherwise it shows the stored status, so a Completed task never shows Overdue. |
| TaskList.Toggle | task-manager/src/components/Dashboard.js:84-87 | Pending becomes Completed. Completed and Overdue both become Pending. Every other field is copied. |
| TaskList.ToggleTwice | task-manager/src/components/Dashboard.js:84-87 | Toggling twice restores a Pending or Completed task. An Overdue task ends up Completed. |
| TaskList.ReopenedPastDueShowsOverdue | task-manager/src/components/Dashboard.js:66-67 | A Completed task with a past due date shows Overdue as soon as it is toggled back. |
| TaskList.OverdueStaysOverdue | task-manager/src/components/Dashboard.js:61-67 | A task that shows Overdue on some day still shows Overdue on the same day and on every later day. |
| JsString.Less | task-manager/src/components/Dashboard.js:66 | String `<`, used for the due-date test here and in the correction pass (line 127). It is never true of equal strings. A proper prefix is always smaller. `LessAtFirstDifference` gives its full characterisation. |
| JsString.LessAtFirstDifference | task-manager/src/components/Dashboard.js:66 | String `<` compares at the first position where the strings differ. A proper prefix is smaller. |
| JsString.LessTransitive | task-manager/src/components/Dashboard.js:66 | The date comparison is transitive. |
| JsString.LessTrichotomy | task-manager/src/components/Dashboard.js:66 | Two different date strings are ordered one way and never both ways. |
| IsoDate.IsoLessIsChronological | task-manager/src/components/Dashboard.js:127 | For `YYYY-MM-DD` strings, string `<` holds exactly when the first date's YYYYMMDD number is smaller. |
| DashboardLaws.AddThenDelete | task-manager/src/components/Dashboard.js:135-145 | Deleting a just-added task by its fresh id restores the original list. |
| DashboardLaws.AddKeepsUniqueIds | task-manager/src/components/Dashboard.js:135-137 | Adding under an id that no entry has keeps ids unique. |
| DashboardLaws.UpdateIdempotent | task-manager/src/components/Dashboard.js:139-141 | Applying the same update twice gives the same list as applying it once. |
| DashboardLaws.UpdateLastWins | task-manager/src/components/Dashboard.js:139-141 | Of two updates to the same id, the second determines the result. |
| DashboardLaws.UpdateWithStoredIsNoop | task-manager/src/components/Dashboard.js:139-141 | An update equal to every stored entry with its id leaves the list unchanged. An update to an absent id also leaves it unchanged. |
| DashboardLaws.ToggleRoundTrip | task-manager/src/components/Dashboard.js:84-87 | With unique ids, pressing a Pending or Completed task's toggle twice restores the list. |
| DashboardLaws.DeleteSurvivorsAreEntries | task-manager/src/components/Dashboard.js:143-145 | Every task left after a delete was an entry of the old list. |
| DashboardLaws.DeleteConcat | task-manager/src/components/Dashboard.js:143-145 | Deleting from a joined list is the same as deleting from each part and joining the results. |
| DashboardLaws.DeleteIdempotent | task-manager/src/components/Dashboard.js:143-145 | Deleting the same id again changes nothing. |
| DashboardLaws.DeleteRemovesOne | task-manager/src/components/Dashboard.js:143-145 | With unique ids, deleting the id at position k removes exactly entry k and shortens the list by one. |
| DashboardLaws.CorrectionIdempotent | task-manager/src/components/Dashboard.js:123-133 | Running the correction pass twice is the same as running it once. |
| DashboardLaws.CorrectionStoresDisplayStatus | task-manager/src/components/Dashboard.js:123-133 | The pass stores, for every task, exactly the status its row would show. |
| DashboardLaws.CorrectedListDisplaysStored | task-manager/src/components/Dashboard.js:123-133 | After the pass, displayed and stored status agree, and no stored Pending task is past due. |
| DashboardLaws.ViewIdempotent | task-manager/src/components/Dashboard.js:147-156 | Filtering a view again by the same mode returns the same view. |
| DashboardLaws.StatusViewsPartition | task-manager/src/components/Dashboard.js:147-156 | Every task appears in exactly one of the "pending", "overdue" and "completed" views, so their sizes add up to the list's length. |
| Scenarios.SubmitPayBills | task-manager/src/components/Dashboard.js:10-13 | Submitting "Pay bills" due 2020-01-01 on an empty list stores exactly one Pending task. |
| Scenarios.ReloadMarksPayBillsOverdue | task-manager/src/components/Dashboard.js:123-133 | On 2025-01-01 the correction pass stores that task as Overdue, and the "overdue" view shows exactly that task. |
| DisplayFilter.StoredFilterMissesDisplayedOverdue | task-manager/src/components/Dashboard.js:148-156 | Without a reload, that task shows Overdue, but the "overdue" view is empty and the "pending" view lists it. |
| DisplayFilter.FilterByDisplay | task-manager/src/components/Dashboard.js:147-156 | The corrected filter returns an order-preserving subsequence. Each status view holds exactly the tasks whose row shows that status. |
| DisplayFilter.DisplayFilterShowsDisplayedOverdue | task-manager/src/components/Dashboard.js:148-156 | The corrected filter lists that task under "overdue" and not under "pending". |
| DisplayFilter.FiltersAgreeAfterCorrection | task-manager/src/components/Dashboard.js:123-156 | On a list the correction pass has just produced, the stored-status filter and the display filter return the same tasks. |
| DisplayFilter.DisplayViewsPartition | task-manager/src/components/Dashboard.js:147-156 | Under the corrected filter, every task lands in exactly one of the three status views. |

## Left out

- Persistence: `localStorage` read and write and `JSON.parse`/`JSON.stringify` (lines 113-120) are browser I/O. The list is passed in and returned instead. The unguarded parse promises no recovery from malformed data.
- Id generation with `Date.now()` (line 136) is a clock read. The id is a parameter, and uniqueness is only a precondition.
- "Today" from `new Date().toISOString()` (lines 61, 124) is a clock read. It is a parameter.
- Form field state, the resets after submit (lines 14-17), all JSX, CSS classes and button labels are presentation. The HTML `required` attributes are enforced by the browser, not by this code.
- The toggle's `disabled` state for rows that show Overdue (line 89) is a UI policy. `Toggle` models what the handler does when it is called.
- The view-mode switch that shows the form for mode "new" (lines 205-209) is rendering. `FilterByMode` still computes the list for that mode, as the code does.
- React scheduling and the order of the `useEffect` hooks are framework behaviour. The correction pass is modelled as one function applied to the loaded list.
- task-manager/src/components/TaskList.js is an unused alternative view. Its only logic is a boolean negation of `completed`, and it is not modelled.
- Stored status or priority strings outside the values the code writes cannot be represented. Status has three values and priority has High, Medium and Low.
- `Less` orders characters by code point. JavaScript orders strings by UTF-16 code unit. The two orders agree for all characters of the Basic Multilingual Plane, including every character of a date.

## Findings

| source | as written | input that shows it | evidently intended | confidence | as-written member | corrected member |
|---|---|---|---|---|---|---|
| task-manager/src/components/Dashboard.js:148-156 | The "overdue" and "pending" views select by stored status. Only the load-time pass ever stores Overdue. | Submit "Pay bills" due 2020-01-01 and view the list on 2025-01-01 without reloading. The row shows Overdue (line 67), the "overdue" view is empty, and the "pending" view lists the task. | Each view selects the tasks whose row shows that status. | medium; not executed | DisplayFilter.StoredFilterMissesDisplayedOverdue | DisplayFilter.FilterByDisplay |
