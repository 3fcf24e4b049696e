/** The creation form's submit handler: the only gate between what the user
    typed and `addTask`. */
module TaskForm {
  import opened Tasks
  import opened JsString

  /** `handleSubmit`: the draft handed to `addTask`, or `None` when nothing is
      submitted. A draft goes out exactly when the title has a character that
      is not whitespace; it carries the title as typed (untrimmed), the other
      fields unchanged, and status `Pending`. */
  function HandleSubmit(title: string, description: string, dueDate: string, priority: Priority)
    : (r: Option<Draft>)
    ensures r.Some? <==> exists i :: 0 <= i < |title| && !IsWhitespace(title[i])
    ensures r.Some? ==> r.value.status == Pending
    ensures r.Some? ==> r.value.title == title && r.value.description == description
                        && r.value.dueDate == dueDate && r.value.priority == priority
  {
    if Trim(title) != [] then Some(Draft(title, description, dueDate, priority, Pending))
    else None
  }
}
