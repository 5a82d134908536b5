/** Records that cross the client/server boundary: the client-side user, a
    notification row, and the payloads of the two realtime events the server
    broadcasts. Timestamps are abstract integers (ISO-8601 strings of one
    format order the same way). */
module Entities {
  import opened Js

  /** The signed-in user as the client keeps it. */
  datatype User = User(
    uid: string,
    name: string,
    email: string,
    role: string,
    avatarUrl: Option<string>,
    createdAt: int,
    updatedAt: int)

  /** A row of the notifications table, also held by the client store. */
  datatype Notification = Notification(
    uid: string,
    userUid: string,
    notificationType: string,
    content: string,
    isRead: bool,
    createdAt: int)

  const TaskStatusUpdatedName := "task_status_updated"
  const NewCommentAddedName := "new_comment_added"

  /** A realtime broadcast: its event name and its payload. */
  datatype Event =
    | TaskStatusUpdated(taskUid: string, status: string, updatedAt: int)
    | NewCommentAdded(commentUid: string, taskUid: string, userUid: string, content: string, createdAt: int)
  {
    /** The Socket.io event name the payload travels under. */
    function Name(): (n: string)
      ensures n == TaskStatusUpdatedName <==> TaskStatusUpdated?
      ensures n == NewCommentAddedName <==> NewCommentAdded?
    {
      match this
      case TaskStatusUpdated(_, _, _) => TaskStatusUpdatedName
      case NewCommentAdded(_, _, _, _, _) => NewCommentAddedName
    }
  }
}
