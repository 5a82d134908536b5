/** The task-creation form: one title input, the request it sends, and the
    status and message it shows afterwards. The request's outcome is a
    parameter. */
module TaskCreation {
  import opened Js
  import opened Text
  import opened Entities

  datatype SubmissionStatus = Idle | Pending | Success | Error

  datatype TaskForm = TaskForm(title: string, status: SubmissionStatus, errorMessage: string)

  const InitialForm := TaskForm("", Idle, "")

  /** The request body: trimmed title, initial status and creator. */
  datatype TaskPayload = TaskPayload(title: string, status: string, createdBy: string)

  /** How the request ended: an HTTP response with its status code, or a
      thrown error carrying the server's `error` field when there was one. */
  datatype Outcome = Responded(code: int) | Threw(serverError: Option<string>)

  const EmptyTitleMessage := "Task title cannot be empty."
  const FailedMessage := "Failed to create task. Please try again."
  const FallbackMessage := "An error occurred while creating the task."

  /** `createTask`: the form afterwards and the payload sent, if any. */
  function CreateTask(v: TaskForm, currentUser: Option<User>, outcome: Outcome): (r: (TaskForm, Option<TaskPayload>))
    ensures IsBlank(v.title) <==> r.1.None?
    ensures r.1.None? ==> r.0 == v.(errorMessage := EmptyTitleMessage)
    ensures r.1.Some? ==> r.1.value.title == Trim(v.title) && r.1.value.status == "to_do"
    ensures r.1.Some? ==> r.1.value.createdBy == (if currentUser.Some? then currentUser.value.uid else "")
    ensures r.1.Some? && outcome.Responded? && outcome.code in {200, 201} ==>
      r.0 == TaskForm("", Success, "")
    ensures r.1.Some? && outcome.Responded? && outcome.code !in {200, 201} ==>
      r.0 == v.(status := Error, errorMessage := FailedMessage)
    ensures r.1.Some? && outcome.Threw? ==>
      r.0 == v.(status := Error, errorMessage := StrOr(outcome.serverError, FallbackMessage))
  {
    if Trim(v.title) == "" then (v.(errorMessage := EmptyTitleMessage), None)
    else
      var payload := TaskPayload(Trim(v.title), "to_do", if currentUser.Some? then currentUser.value.uid else "");
      var pending := v.(errorMessage := "", status := Pending);
      var after := match outcome
        case Responded(code) =>
          if code == 201 || code == 200 then pending.(title := "", status := Success)
          else pending.(status := Error, errorMessage := FailedMessage)
        case Threw(serverError) =>
          pending.(status := Error, errorMessage := StrOr(serverError, FallbackMessage));
      (after, Some(payload))
  }

  /** A sent title is never blank and carries no surrounding whitespace. */
  lemma SentTitleIsClean(v: TaskForm, currentUser: Option<User>, outcome: Outcome)
    requires CreateTask(v, currentUser, outcome).1.Some?
    ensures var t := CreateTask(v, currentUser, outcome).1.value.title;
      t != "" && Trimmed(t) && |t| <= |v.title|
  {
  }

  /** Every failed attempt leaves a non-empty message and keeps the typed
      title so it can be retried. */
  lemma FailureExplains(v: TaskForm, currentUser: Option<User>, outcome: Outcome)
    requires !(outcome.Responded? && outcome.code in {200, 201})
    ensures var r := CreateTask(v, currentUser, outcome).0;
      r.errorMessage != "" && r.title == v.title
  {
  }

  /** `handleInputChange`: the typed value replaces the title and any
      message is cleared. */
  function InputChange(v: TaskForm, value: string): (r: TaskForm)
    ensures r.title == value && r.errorMessage == "" && r.status == v.status
  {
    if v.errorMessage != "" then v.(title := value, errorMessage := "") else v.(title := value)
  }

  /** Only the last keystroke counts: typing `a` then `b` is typing `b`,
      and what is sent afterwards is `b` trimmed, or nothing when `b` is
      blank. */
  lemma LastInputIsSent(v: TaskForm, a: string, b: string, currentUser: Option<User>, outcome: Outcome)
    ensures InputChange(InputChange(v, a), b) == InputChange(v, b)
    ensures var sent := CreateTask(InputChange(v, b), currentUser, outcome).1;
      && (sent.None? <==> IsBlank(b))
      && (sent.Some? ==> sent.value.title == Trim(b))
  {
  }
}
