/** The path of a status change from the server to a client: the handler's
    broadcast is recorded by the store's socket listener, which makes the
    dashboard refresh. */
module Realtime {
  import opened Js
  import opened Entities
  import Server
  import Store
  import Dashboard

  /** A client receiving every event of one handler run, in order. */
  function Deliver(s: Store.GlobalState, events: seq<Event>): (r: Store.GlobalState)
    ensures Store.SameOutsideRealtime(s, r)
    ensures |r.realtimeUpdates.taskStatusUpdated| >= |s.realtimeUpdates.taskStatusUpdated|
    ensures |r.realtimeUpdates.newCommentAdded| >= |s.realtimeUpdates.newCommentAdded|
    ensures |r.realtimeUpdates.taskStatusUpdated| + |r.realtimeUpdates.newCommentAdded|
            == |s.realtimeUpdates.taskStatusUpdated| + |s.realtimeUpdates.newCommentAdded| + |events|
    decreases |events|
  {
    if events == [] then s else Deliver(Store.OnServerEvent(s, events[0]), events[1..])
  }

  /** One delivered event: it lands at the end of its own buffer, and the
      client's dashboard refreshes. */
  lemma DeliverOne(client: Store.GlobalState, e: Event)
    ensures var after := Deliver(client, [e]);
      && after == Store.OnServerEvent(client, e)
      && Dashboard.RefreshOnChange(client.realtimeUpdates, after.realtimeUpdates)
  {
    assert Deliver(client, [e]) == Deliver(Store.OnServerEvent(client, e), []);
    Dashboard.EventTriggersRefresh(client, e);
  }

  /** A successful status change, with the activity row's `from` chosen
      either way, reaches every client as exactly one new
      `task_status_updated` entry with the task, status and time of the
      update; the client's other state is untouched, and its dashboard
      refreshes. */
  lemma StatusChangeReachesDashboard(svc: Server.Services, db: Server.DB, header: Option<string>,
                                     taskUid: string, status: Option<string>, gen: Server.Fresh,
                                     fault: Option<nat>, client: Store.GlobalState)
    requires Server.UpdateTaskStatus(svc, db, header, taskUid, status, gen, fault).response.status == 200
    ensures var e := TaskStatusUpdated(taskUid, status.value, gen.now);
      && Server.UpdateTaskStatusFixed(svc, db, header, taskUid, status, gen, fault).response.status == 200
      && forall out :: out in {Server.UpdateTaskStatus(svc, db, header, taskUid, status, gen, fault),
                               Server.UpdateTaskStatusFixed(svc, db, header, taskUid, status, gen, fault)} ==>
           var after := Deliver(client, out.events);
           && after.realtimeUpdates.taskStatusUpdated == client.realtimeUpdates.taskStatusUpdated + [e]
           && after.realtimeUpdates.newCommentAdded == client.realtimeUpdates.newCommentAdded
           && Store.SameOutsideRealtime(client, after)
           && Dashboard.RefreshOnChange(client.realtimeUpdates, after.realtimeUpdates)
  {
    DeliverOne(client, TaskStatusUpdated(taskUid, status.value, gen.now));
  }

  /** A successful comment reaches every client as exactly one new
      `new_comment_added` entry carrying the stored comment, and its
      dashboard refreshes. */
  lemma CommentReachesDashboard(svc: Server.Services, db: Server.DB, header: Option<string>,
                                taskUid: string, content: Option<string>, mentions: Option<seq<string>>,
                                gen: Server.Fresh, fault: Option<nat>, client: Store.GlobalState)
    requires Server.AddComment(svc, db, header, taskUid, content, mentions, gen, fault).response.status == 201
    ensures var out := Server.AddComment(svc, db, header, taskUid, content, mentions, gen, fault);
      var c := out.db.comments[|db.comments|];
      var after := Deliver(client, out.events);
      && after.realtimeUpdates.newCommentAdded
         == client.realtimeUpdates.newCommentAdded + [NewCommentAdded(c.uid, taskUid, c.userUid, c.content, c.createdAt)]
      && after.realtimeUpdates.taskStatusUpdated == client.realtimeUpdates.taskStatusUpdated
      && Dashboard.RefreshOnChange(client.realtimeUpdates, after.realtimeUpdates)
  {
    var out := Server.AddComment(svc, db, header, taskUid, content, mentions, gen, fault);
    var c := out.db.comments[|db.comments|];
    DeliverOne(client, NewCommentAdded(c.uid, c.taskUid, c.userUid, c.content, c.createdAt));
  }
}
