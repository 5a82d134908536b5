/** The project-detail view: the task list it holds, the per-task status
    change, quick-add with an optimistic temporary task, the Kanban columns,
    the list/board switch and drag-and-drop onto a column. A request's
    outcome is a parameter (`ok`, or the server's row). */
module ProjectDetail {
  import opened Js
  import opened Text
  import opened Entities
  import opened Lists

  datatype Task = Task(
    uid: string,
    projectUid: string,
    title: string,
    description: string,
    dueDate: string,
    priority: string,
    status: string,
    createdBy: string,
    createdAt: int,
    updatedAt: int)

  datatype ViewMode = ListView | BoardView

  /** The view's local state: its task list, the list/board switch and the
      quick-add input. */
  datatype DetailView = DetailView(tasks: seq<Task>, viewMode: ViewMode, newTaskTitle: string)

  /** `toggleViewMode`: "list" becomes "board" and back. */
  function ToggleViewMode(m: ViewMode): (r: ViewMode)
    ensures r != m
  {
    if m == ListView then BoardView else ListView
  }

  lemma ToggleViewModeInvolution(m: ViewMode)
    ensures ToggleViewMode(ToggleViewMode(m)) == m
  {
  }

  /** The list after a status change of `uid`: every task carrying that uid
      takes `status`; positions, other tasks and other fields stay. */
  function WithStatus(tasks: seq<Task>, uid: string, status: string): (r: seq<Task>)
    ensures |r| == |tasks|
    ensures forall i :: 0 <= i < |r| && tasks[i].uid == uid ==> r[i].status == status
    ensures forall i :: 0 <= i < |r| ==> r[i].(status := tasks[i].status) == tasks[i]
    ensures forall i :: 0 <= i < |r| && tasks[i].uid != uid ==> r[i] == tasks[i]
  {
    seq(|tasks|, i requires 0 <= i < |tasks| =>
      if tasks[i].uid == uid then tasks[i].(status := status) else tasks[i])
  }

  /** Applying the same change twice is applying it once. */
  lemma WithStatusIdempotent(tasks: seq<Task>, uid: string, status: string)
    ensures WithStatus(WithStatus(tasks, uid, status), uid, status) == WithStatus(tasks, uid, status)
  {
  }

  /** `updateTaskStatus`: without a token nothing is sent; the list changes
      only after the server accepted the change (`ok`). */
  function UpdateTaskStatus(v: DetailView, token: string, uid: string, status: string, ok: bool): (r: DetailView)
    ensures token == "" || !ok ==> r == v
    ensures token != "" && ok ==> r == v.(tasks := WithStatus(v.tasks, uid, status))
  {
    if token == "" then v
    else if ok then v.(tasks := WithStatus(v.tasks, uid, status))
    else v
  }

  /** `onDrop`: the dragged uid (`""` when the drag carried none) is moved to
      the column's status; an empty uid issues no update. */
  function OnDrop(v: DetailView, token: string, dragged: string, column: string, ok: bool): (r: DetailView)
    ensures dragged == "" ==> r == v
    ensures dragged != "" ==> r == UpdateTaskStatus(v, token, dragged, column, ok)
  {
    if dragged != "" then UpdateTaskStatus(v, token, dragged, column, ok) else v
  }

  /** `"temp-" + Date.now()`. */
  function TempUid(now: nat): (u: string)
    ensures |u| > 5 && u[..5] == "temp-"
    ensures forall i :: 5 <= i < |u| ==> '0' <= u[i] <= '9'
  {
    "temp-" + NatToString(now)
  }

  /** The optimistic task quick-add shows before the server answers. */
  function TempTask(title: string, projectUid: string, createdBy: string, now: nat): (t: Task)
    ensures t.uid == TempUid(now) && t.projectUid == projectUid && t.title == title
    ensures t.status == "to_do" && t.priority == "normal"
    ensures t.description == "" && t.dueDate == ""
    ensures t.createdBy == createdBy && t.createdAt == t.updatedAt == now
  {
    Task(TempUid(now), projectUid, title, "", "", "normal", "to_do", createdBy, now, now)
  }

  /** Every task carrying `uid` replaced by `row`: a list without `uid` is
      unchanged, and once the row has a uid of its own the temporary uid is
      gone from the list. */
  function ReplaceUid(tasks: seq<Task>, uid: string, row: Task): (r: seq<Task>)
    ensures |r| == |tasks|
    ensures forall i :: 0 <= i < |r| ==> r[i] == (if tasks[i].uid == uid then row else tasks[i])
    ensures UidAbsent(tasks, uid) ==> r == tasks
    ensures row.uid != uid ==> UidAbsent(r, uid)
    ensures forall t :: t in r && t != row ==> t in tasks
  {
    seq(|tasks|, i requires 0 <= i < |tasks| => if tasks[i].uid == uid then row else tasks[i])
  }

  /** No task in the list carries `uid`. */
  predicate UidAbsent(tasks: seq<Task>, uid: string) {
    forall i :: 0 <= i < |tasks| ==> tasks[i].uid != uid
  }

  /** `quickAddTask`: a blank title, a missing project uid or a missing
      token changes nothing. Otherwise a temporary task is put first and the
      input cleared; the server's row (`server`) then takes the temporary
      task's place, and on failure the temporary task stays. The creator is
      the signed-in user's uid, or "" without one. */
  function QuickAdd(v: DetailView, projectUid: Option<string>, token: string,
                    currentUser: Option<User>, now: nat, server: Option<Task>): (r: DetailView)
    ensures IsBlank(v.newTaskTitle) || !Truthy(projectUid) || token == "" ==> r == v
    ensures !(IsBlank(v.newTaskTitle) || !Truthy(projectUid) || token == "") ==>
      && r.viewMode == v.viewMode && r.newTaskTitle == ""
      && |r.tasks| == |v.tasks| + 1
      && r.tasks[0] == (if server.Some? then server.value
                        else TempTask(v.newTaskTitle, projectUid.value,
                                      if currentUser.Some? then currentUser.value.uid else "", now))
  {
    if IsBlank(v.newTaskTitle) || !Truthy(projectUid) || token == "" then v
    else
      var createdBy := if currentUser.Some? then currentUser.value.uid else "";
      var temp := TempTask(v.newTaskTitle, projectUid.value, createdBy, now);
      var listed := [temp] + v.tasks;
      match server
      case None => v.(tasks := listed, newTaskTitle := "")
      case Some(row) => v.(tasks := ReplaceUid(listed, temp.uid, row), newTaskTitle := "")
  }

  /** When no earlier task carries the temporary uid, quick-add leaves the
      old list intact behind the new first entry, whatever the server says. */
  lemma QuickAddKeepsList(v: DetailView, projectUid: Option<string>, token: string,
                          currentUser: Option<User>, now: nat, server: Option<Task>)
    requires !IsBlank(v.newTaskTitle) && Truthy(projectUid) && token != ""
    requires UidAbsent(v.tasks, TempUid(now))
    ensures QuickAdd(v, projectUid, token, currentUser, now, server).tasks[1..] == v.tasks
  {
    var r := QuickAdd(v, projectUid, token, currentUser, now, server);
    assert forall i :: 0 <= i < |v.tasks| ==> r.tasks[i + 1] == v.tasks[i];
  }

  /** The three Kanban columns, left to right. */
  const BoardStatuses: seq<string> := ["to_do", "in_progress", "done"]

  /** A Kanban column: the tasks whose status is exactly `status`. */
  function Column(tasks: seq<Task>, status: string): (r: seq<Task>)
    ensures forall i :: 0 <= i < |r| ==> r[i].status == status
    ensures forall t :: t in r <==> t in tasks && t.status == status
  {
    Filter(tasks, (t: Task) => t.status == status)
  }

  /** A column keeps list order: the column of a concatenation is the
      concatenation of the columns. */
  lemma ColumnKeepsOrder(a: seq<Task>, b: seq<Task>, status: string)
    ensures Column(a + b, status) == Column(a, status) + Column(b, status)
  {
    FilterAppend(a, b, (t: Task) => t.status == status);
  }

  /** Tasks shown on no column: any status outside the three. */
  function OffBoard(tasks: seq<Task>): (r: seq<Task>)
    ensures forall t :: t in r <==> t in tasks && t.status !in BoardStatuses
  {
    Filter(tasks, (t: Task) => t.status !in BoardStatuses)
  }

  /** Every task is counted exactly once across the three columns and the
      off-board rest (such as a task marked "completed"). */
  lemma {:induction false} ColumnsPartition(tasks: seq<Task>)
    ensures |Column(tasks, "to_do")| + |Column(tasks, "in_progress")| + |Column(tasks, "done")|
            + |OffBoard(tasks)| == |tasks|
    decreases |tasks|
  {
    if tasks != [] {
      ColumnsPartition(tasks[1..]);
    }
  }

  /** A task with a status outside the three columns (the detail view's
      "completed") appears in no column. */
  lemma CompletedInNoColumn(tasks: seq<Task>, i: nat)
    requires i < |tasks| && tasks[i].status == "completed"
    ensures forall s :: s in BoardStatuses ==> tasks[i] !in Column(tasks, s)
    ensures tasks[i] in OffBoard(tasks)
  {
  }

  /** After an accepted drop on a column, every task with the dropped uid is
      shown in that column. */
  lemma DropLandsInColumn(v: DetailView, token: string, dragged: string, column: string)
    requires token != "" && dragged != ""
    ensures var r := OnDrop(v, token, dragged, column, true);
      forall i :: 0 <= i < |r.tasks| && v.tasks[i].uid == dragged ==> r.tasks[i] in Column(r.tasks, column)
  {
  }
}
