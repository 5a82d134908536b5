/** The task-detail view: auto-save of one field on blur, "Mark as
    Complete", delete with its navigation target, comments newest first and
    the sub-task visibility switch. A request's outcome is a parameter: the
    server's row, `None` when the request throws. */
module TaskDetail {
  import opened Js
  import opened Text
  import ProjectDetail
  import ProjectCreation

  datatype Comment = Comment(uid: string, userUid: string, content: string, createdAt: int)

  datatype TaskDetail = TaskDetail(
    uid: string,
    title: string,
    description: string,
    dueDate: string,
    priority: string,
    status: string,
    comments: Option<seq<Comment>>,
    projectUid: Option<string>)

  /** The five inputs that save on blur. */
  datatype Field = Title | Description | DueDate | Priority | Status

  function Get(t: TaskDetail, f: Field): string {
    match f
    case Title => t.title
    case Description => t.description
    case DueDate => t.dueDate
    case Priority => t.priority
    case Status => t.status
  }

  /** `{ ...task, [field]: value }`. */
  function Set(t: TaskDetail, f: Field, value: string): (r: TaskDetail)
    ensures Get(r, f) == value
    ensures forall g: Field :: g != f ==> Get(r, g) == Get(t, g)
    ensures r.uid == t.uid && r.comments == t.comments && r.projectUid == t.projectUid
  {
    match f
    case Title => t.(title := value)
    case Description => t.(description := value)
    case DueDate => t.(dueDate := value)
    case Priority => t.(priority := value)
    case Status => t.(status := value)
  }

  /** Setting a field to the value it already holds changes nothing, which
      is why the blur handler may skip that case. */
  lemma SetSameValue(t: TaskDetail, f: Field)
    ensures Set(t, f, Get(t, f)) == t
  {
  }

  /** The view's local state: the loaded task (None until loaded), the
      sub-task switch, the comment input and the confirmation message. */
  datatype TaskView = TaskView(task: Option<TaskDetail>, showSubtasks: bool, commentText: string, saveMsg: string)

  /** `handleFieldBlur`: nothing happens without a task or when the value is
      unchanged. Otherwise the field changes at once; the server's row then
      replaces the whole task and "Saved!" shows, while a failed request
      leaves the optimistic value in place. */
  function FieldBlur(v: TaskView, f: Field, value: string, server: Option<TaskDetail>): (r: TaskView)
    ensures v.task.None? || Get(v.task.value, f) == value ==> r == v
    ensures v.task.Some? && Get(v.task.value, f) != value && server.None? ==>
      r == v.(task := Some(Set(v.task.value, f, value)))
    ensures v.task.Some? && Get(v.task.value, f) != value && server.Some? ==>
      r == v.(task := server, saveMsg := "Saved!")
  {
    match v.task
    case None => v
    case Some(t) =>
      if Get(t, f) == value then v
      else
        var optimistic := v.(task := Some(Set(t, f, value)));
        match server
        case Some(row) => optimistic.(task := Some(row), saveMsg := "Saved!")
        case None => optimistic
  }

  /** After a failed save the view shows exactly the typed value in that
      field and the old values everywhere else. */
  lemma FailedSaveKeepsOptimistic(v: TaskView, f: Field, value: string)
    requires v.task.Some?
    ensures var r := FieldBlur(v, f, value, None);
      && r.task.Some? && Get(r.task.value, f) == value
      && (forall g: Field :: g != f ==> Get(r.task.value, g) == Get(v.task.value, g))
  {
  }

  /** The status "Mark as Complete" sends; it is none of the Kanban
      column statuses. */
  const CompletedStatus := "completed"

  /** `markTaskComplete`: the request body is always `{status: "completed"}`;
      the server's row replaces the task and the message shows; a failure
      changes nothing. */
  function MarkTaskComplete(v: TaskView, server: Option<TaskDetail>): (r: (string, TaskView))
    ensures r.0 == CompletedStatus
    ensures server.None? ==> r.1 == v
    ensures server.Some? ==> r.1 == v.(task := server, saveMsg := "Task marked as complete!")
  {
    match server
    case Some(row) => (CompletedStatus, v.(task := Some(row), saveMsg := "Task marked as complete!"))
    case None => (CompletedStatus, v)
  }

  /** Once the status "Mark as Complete" sends is applied to the project
      view's list, every task with that uid has left the three Kanban
      columns and is listed only among the off-board tasks. */
  lemma CompletedLeavesBoard(v: TaskView, server: Option<TaskDetail>, tasks: seq<ProjectDetail.Task>, uid: string)
    ensures var r := ProjectDetail.WithStatus(tasks, uid, MarkTaskComplete(v, server).0);
      forall i :: 0 <= i < |r| && tasks[i].uid == uid ==>
        && r[i] in ProjectDetail.OffBoard(r)
        && forall s :: s in ProjectDetail.BoardStatuses ==> r[i] !in ProjectDetail.Column(r, s)
  {
    var r := ProjectDetail.WithStatus(tasks, uid, MarkTaskComplete(v, server).0);
    forall i | 0 <= i < |r| && tasks[i].uid == uid
      ensures r[i] in ProjectDetail.OffBoard(r)
      ensures forall s :: s in ProjectDetail.BoardStatuses ==> r[i] !in ProjectDetail.Column(r, s)
    {
      ProjectDetail.CompletedInNoColumn(r, i);
    }
  }

  /** `deleteTask`'s navigation: none when the confirmation is declined or
      the request fails; afterwards the task's project page when the task
      names one, the dashboard otherwise. */
  function DeleteTask(v: TaskView, confirmed: bool, ok: bool): (path: Option<string>)
    ensures path.Some? <==> confirmed && ok
    ensures path.Some? && v.task.Some? && Truthy(v.task.value.projectUid) ==>
      path.value == "/project/" + v.task.value.projectUid.value
    ensures path.Some? && !(v.task.Some? && Truthy(v.task.value.projectUid)) ==> path.value == "/dashboard"
  {
    if !confirmed || !ok then None
    else if v.task.Some? && Truthy(v.task.value.projectUid) then
      Some("/project/" + v.task.value.projectUid.value)
    else Some("/dashboard")
  }

  /** Deleting a task of project `p` returns to the very page that
      creating project `p` opened. */
  lemma DeleteReturnsToProjectPage(v: TaskView, p: string, form: ProjectCreation.ProjectForm, errors: ProjectCreation.Errors)
    requires v.task.Some? && v.task.value.projectUid == Some(p) && p != ""
    ensures var created := ProjectCreation.Submit(form, errors, Some(p));
      created.Created? ==> DeleteTask(v, true, true) == Some(created.path)
  {
  }

  /** The comment list after a new comment: newest first, or a one-element
      list when the task had none. */
  function PrependComment(c: Comment, comments: Option<seq<Comment>>): (r: seq<Comment>)
    ensures r == [c] + comments.GetOr([])
  {
    match comments
    case Some(cs) => [c] + cs
    case None => [c]
  }

  /** `addComment`: a blank comment sends nothing; a failed request changes
      nothing; after success the comment is put first (when a task is
      loaded) and the input is cleared even without a task. */
  function AddComment(v: TaskView, server: Option<Comment>): (r: TaskView)
    ensures IsBlank(v.commentText) || server.None? ==> r == v
    ensures !IsBlank(v.commentText) && server.Some? ==>
      && r.commentText == ""
      && r.showSubtasks == v.showSubtasks && r.saveMsg == v.saveMsg
      && (v.task.None? ==> r.task.None?)
      && (v.task.Some? ==> r.task == Some(v.task.value.(comments := Some(PrependComment(server.value, v.task.value.comments)))))
  {
    if IsBlank(v.commentText) then v
    else match server
      case None => v
      case Some(c) =>
        var task := match v.task
          case Some(t) => Some(t.(comments := Some(PrependComment(c, t.comments))))
          case None => None;
        v.(task := task, commentText := "")
  }

  /** Two successful comments show the later one first, then the earlier,
      then the older ones. */
  lemma CommentsNewestFirst(v: TaskView, text2: string, c1: Comment, c2: Comment)
    requires v.task.Some? && !IsBlank(v.commentText) && !IsBlank(text2)
    ensures var once := AddComment(v, Some(c1));
      var twice := AddComment(once.(commentText := text2), Some(c2));
      twice.task.value.comments == Some([c2, c1] + v.task.value.comments.GetOr([]))
  {
    var earlier := v.task.value.comments.GetOr([]);
    var once := AddComment(v, Some(c1));
    assert once.task.value.comments == Some([c1] + earlier);
    var twice := AddComment(once.(commentText := text2), Some(c2));
    assert twice.task.value.comments == Some([c2] + ([c1] + earlier));
    assert [c2] + ([c1] + earlier) == [c2, c1] + earlier;
  }

  /** `toggleSubtasksVisibility`. */
  function ToggleSubtasks(v: TaskView): (r: TaskView)
    ensures r.showSubtasks == !v.showSubtasks
    ensures r.(showSubtasks := v.showSubtasks) == v
  {
    v.(showSubtasks := !v.showSubtasks)
  }

  lemma ToggleSubtasksTwice(v: TaskView)
    ensures ToggleSubtasks(ToggleSubtasks(v)) == v
  {
  }
}
