/** The client's global store: one `GlobalState` record and the pure
    reducers of the `global` slice, plus the two `setup_socket` outcomes.
    The central invariant is that `unreadCount` is the number of unread
    notifications. */
module Store {
  import opened Js
  import opened Entities
  import opened Lists

  /** The two append-only buffers of inbound realtime events. */
  datatype RealtimeUpdates = RealtimeUpdates(taskStatusUpdated: seq<Event>, newCommentAdded: seq<Event>)

  datatype GlobalState = GlobalState(
    authToken: string,
    currentUser: Option<User>,
    isAuthenticated: bool,
    notifications: seq<Notification>,
    unreadCount: int,
    socketConnected: bool,
    realtimeUpdates: RealtimeUpdates,
    isSidebarCollapsed: bool,
    globalSearchQuery: string,
    activeModal: string)

  const InitialState := GlobalState("", None, false, [], 0, false, RealtimeUpdates([], []), false, "", "")

  /** Every action the slice accepts, and the two outcomes of the
      `setup_socket` thunk. */
  datatype Action =
    | SetAuthToken(token: string)
    | SetCurrentUser(user: User)
    | SetIsAuthenticated(flag: bool)
    | SetNotifications(list: seq<Notification>)
    | AddNotification(notification: Notification)
    | MarkNotificationRead(uid: string)
    | SetSocketConnected(connected: bool)
    | AddRealtimeUpdate(eventType: string, payload: Event)
    | ClearRealtimeUpdates(eventType: string)
    | ToggleSidebar
    | SetGlobalSearchQuery(query: string)
    | SetActiveModal(modal: string)
    | ResetAuth
    | SetupSocketFulfilled
    | SetupSocketRejected

  /** Number of notifications whose `isRead` flag is false. */
  function CountUnread(ns: seq<Notification>): (n: nat)
    ensures n <= |ns|
    ensures n == 0 <==> forall i :: 0 <= i < |ns| ==> ns[i].isRead
    ensures n == |ns| <==> forall i :: 0 <= i < |ns| ==> !ns[i].isRead
  {
    if ns == [] then 0 else (if ns[0].isRead then 0 else 1) + CountUnread(ns[1..])
  }

  /** The store's invariant: the counter agrees with the list. */
  predicate Consistent(s: GlobalState) {
    s.unreadCount == CountUnread(s.notifications)
  }

  /** `r` differs from `s` at most in the notification list and counter. */
  predicate SameOutsideNotifications(s: GlobalState, r: GlobalState) {
    r.(notifications := s.notifications, unreadCount := s.unreadCount) == s
  }

  /** `r` differs from `s` at most in the realtime buffers. */
  predicate SameOutsideRealtime(s: GlobalState, r: GlobalState) {
    r.(realtimeUpdates := s.realtimeUpdates) == s
  }

  /** `set_notifications`: the list is replaced and the counter recomputed. */
  function ReplaceNotifications(s: GlobalState, list: seq<Notification>): (r: GlobalState)
    ensures r.notifications == list
    ensures Consistent(r)
    ensures SameOutsideNotifications(s, r)
  {
    s.(notifications := list, unreadCount := CountUnread(list))
  }

  /** `add_notification`: the new entry goes in front, and the counter grows
      by one exactly when the entry is unread. */
  function PushNotification(s: GlobalState, n: Notification): (r: GlobalState)
    ensures r.notifications == [n] + s.notifications
    ensures r.unreadCount == s.unreadCount + (if n.isRead then 0 else 1)
    ensures Consistent(s) ==> Consistent(r)
    ensures SameOutsideNotifications(s, r)
  {
    s.(notifications := [n] + s.notifications,
       unreadCount := if n.isRead then s.unreadCount else s.unreadCount + 1)
  }

  /** The test `Array.prototype.find` applies when marking a notification
      read: the entry carries `uid`. */
  function HasUid(uid: string): Notification -> bool {
    (n: Notification) => n.uid == uid
  }

  /** Marking one unread entry read lowers the count by exactly one. */
  lemma {:induction false} CountUnreadMarkOne(ns: seq<Notification>, k: nat)
    requires k < |ns| && !ns[k].isRead
    ensures CountUnread(ns[k := ns[k].(isRead := true)]) == CountUnread(ns) - 1
    decreases k
  {
    var ms := ns[k := ns[k].(isRead := true)];
    if k > 0 {
      CountUnreadMarkOne(ns[1..], k - 1);
      assert ms[1..] == ns[1..][k - 1 := ns[k].(isRead := true)];
    } else {
      assert ms[1..] == ns[1..];
    }
  }

  /** `mark_notification_read`: only the first notification with `uid`
      changes, and only if it was unread; otherwise the state is untouched. */
  function MarkRead(s: GlobalState, uid: string): (r: GlobalState)
    ensures var ns, k := s.notifications, FindIndex(s.notifications, HasUid(uid));
      && |r.notifications| == |ns|
      && (forall i :: 0 <= i < |ns| && i != k ==> r.notifications[i] == ns[i])
      && (k < |ns| ==> r.notifications[k] == ns[k].(isRead := true))
      && (k == |ns| || ns[k].isRead ==> r == s)
      && (Consistent(s) && k < |ns| && !ns[k].isRead ==> r.unreadCount == s.unreadCount - 1)
    ensures Consistent(s) ==> Consistent(r)
    ensures SameOutsideNotifications(s, r)
  {
    var ns := s.notifications;
    var k := FindIndex(ns, HasUid(uid));
    if k < |ns| && !ns[k].isRead then
      var marked := ns[k := ns[k].(isRead := true)];
      CountUnreadMarkOne(ns, k);
      s.(notifications := marked, unreadCount := CountUnread(marked))
    else
      s
  }

  /** Marking the same notification twice is the same as marking it once. */
  lemma MarkReadIdempotent(s: GlobalState, uid: string)
    ensures MarkRead(MarkRead(s, uid), uid) == MarkRead(s, uid)
  {
    var r := MarkRead(s, uid);
    var k := FindIndex(s.notifications, HasUid(uid));
    if k < |s.notifications| {
      assert r.notifications[k].uid == uid;
    }
  }

  /** `add_realtime_update`: the payload is appended to the buffer named by
      `eventType` and to no other; an unknown name changes nothing. */
  function AppendRealtimeUpdate(s: GlobalState, eventType: string, payload: Event): (r: GlobalState)
    ensures SameOutsideRealtime(s, r)
    ensures var old_, new_ := s.realtimeUpdates, r.realtimeUpdates;
      && (eventType == TaskStatusUpdatedName ==>
            new_.taskStatusUpdated == old_.taskStatusUpdated + [payload]
            && new_.newCommentAdded == old_.newCommentAdded)
      && (eventType == NewCommentAddedName ==>
            new_.newCommentAdded == old_.newCommentAdded + [payload]
            && new_.taskStatusUpdated == old_.taskStatusUpdated)
      && (eventType != TaskStatusUpdatedName && eventType != NewCommentAddedName ==> r == s)
      && |new_.taskStatusUpdated| >= |old_.taskStatusUpdated|
      && |new_.newCommentAdded| >= |old_.newCommentAdded|
  {
    var rt := s.realtimeUpdates;
    if eventType == TaskStatusUpdatedName then
      s.(realtimeUpdates := rt.(taskStatusUpdated := rt.taskStatusUpdated + [payload]))
    else if eventType == NewCommentAddedName then
      s.(realtimeUpdates := rt.(newCommentAdded := rt.newCommentAdded + [payload]))
    else
      s
  }

  /** The socket listeners: every broadcast the server emits is dispatched
      under its own name, so it lands at the end of its own buffer. */
  function OnServerEvent(s: GlobalState, e: Event): (r: GlobalState)
    ensures SameOutsideRealtime(s, r)
    ensures e.TaskStatusUpdated? ==>
      r.realtimeUpdates == s.realtimeUpdates.(taskStatusUpdated := s.realtimeUpdates.taskStatusUpdated + [e])
    ensures e.NewCommentAdded? ==>
      r.realtimeUpdates == s.realtimeUpdates.(newCommentAdded := s.realtimeUpdates.newCommentAdded + [e])
  {
    AppendRealtimeUpdate(s, e.Name(), e)
  }

  /** `clear_realtime_updates`: empties the buffer named by `eventType` and
      no other; an unknown name changes nothing. */
  function ClearRealtimeBuffer(s: GlobalState, eventType: string): (r: GlobalState)
    ensures SameOutsideRealtime(s, r)
    ensures var old_, new_ := s.realtimeUpdates, r.realtimeUpdates;
      && (eventType == TaskStatusUpdatedName ==>
            new_.taskStatusUpdated == [] && new_.newCommentAdded == old_.newCommentAdded)
      && (eventType == NewCommentAddedName ==>
            new_.newCommentAdded == [] && new_.taskStatusUpdated == old_.taskStatusUpdated)
      && (eventType != TaskStatusUpdatedName && eventType != NewCommentAddedName ==> r == s)
  {
    var rt := s.realtimeUpdates;
    if eventType == TaskStatusUpdatedName then
      s.(realtimeUpdates := rt.(taskStatusUpdated := []))
    else if eventType == NewCommentAddedName then
      s.(realtimeUpdates := rt.(newCommentAdded := []))
    else
      s
  }

  /** Clearing twice is clearing once, and clearing discards whatever was
      appended to that buffer just before. */
  lemma ClearRealtimeBufferLaws(s: GlobalState, eventType: string, payload: Event)
    ensures ClearRealtimeBuffer(ClearRealtimeBuffer(s, eventType), eventType) == ClearRealtimeBuffer(s, eventType)
    ensures ClearRealtimeBuffer(AppendRealtimeUpdate(s, eventType, payload), eventType) == ClearRealtimeBuffer(s, eventType)
  {
  }

  /** `toggle_sidebar`: flips the collapsed flag and nothing else. */
  function ToggleSidebarCollapsed(s: GlobalState): (r: GlobalState)
    ensures r.isSidebarCollapsed == !s.isSidebarCollapsed
    ensures r.(isSidebarCollapsed := s.isSidebarCollapsed) == s
  {
    s.(isSidebarCollapsed := !s.isSidebarCollapsed)
  }

  /** `reset_auth`: every authentication field is cleared and the socket
      flag dropped; the buffers, the sidebar, the search query and the
      modal survive. */
  function ResetAuthState(s: GlobalState): (r: GlobalState)
    ensures r.authToken == "" && r.currentUser == None && !r.isAuthenticated
    ensures r.notifications == [] && r.unreadCount == 0 && !r.socketConnected
    ensures r.realtimeUpdates == s.realtimeUpdates
    ensures r.isSidebarCollapsed == s.isSidebarCollapsed
    ensures r.globalSearchQuery == s.globalSearchQuery
    ensures r.activeModal == s.activeModal
    ensures Consistent(r)
  {
    s.(authToken := "", currentUser := None, isAuthenticated := false,
       notifications := [], unreadCount := 0, socketConnected := false)
  }

  /** The `setup_socket` extra reducers: a fulfilled connection leaves the
      state alone, a rejected one forces the socket flag off. */
  function SocketSetupSettled(s: GlobalState, fulfilled: bool): (r: GlobalState)
    ensures fulfilled ==> r == s
    ensures !fulfilled ==> !r.socketConnected && r.(socketConnected := s.socketConnected) == s
  {
    if fulfilled then s else s.(socketConnected := false)
  }

  /** The slice reducer: dispatches an action to its case reducer. Every
      action keeps the unread counter in step with the list. */
  function Reduce(s: GlobalState, a: Action): (r: GlobalState)
    ensures Consistent(s) ==> Consistent(r)
    ensures !a.AddRealtimeUpdate? && !a.ClearRealtimeUpdates? ==> r.realtimeUpdates == s.realtimeUpdates
  {
    match a
    case SetAuthToken(t) => s.(authToken := t)
    case SetCurrentUser(u) => s.(currentUser := Some(u))
    case SetIsAuthenticated(b) => s.(isAuthenticated := b)
    case SetNotifications(ns) => ReplaceNotifications(s, ns)
    case AddNotification(n) => PushNotification(s, n)
    case MarkNotificationRead(uid) => MarkRead(s, uid)
    case SetSocketConnected(b) => s.(socketConnected := b)
    case AddRealtimeUpdate(t, p) => AppendRealtimeUpdate(s, t, p)
    case ClearRealtimeUpdates(t) => ClearRealtimeBuffer(s, t)
    case ToggleSidebar => ToggleSidebarCollapsed(s)
    case SetGlobalSearchQuery(q) => s.(globalSearchQuery := q)
    case SetActiveModal(m) => s.(activeModal := m)
    case ResetAuth => ResetAuthState(s)
    case SetupSocketFulfilled => SocketSetupSettled(s, true)
    case SetupSocketRejected => SocketSetupSettled(s, false)
  }

  /** The store after dispatching `actions` in order. */
  function Run(s: GlobalState, actions: seq<Action>): GlobalState
    decreases |actions|
  {
    if actions == [] then s else Run(Reduce(s, actions[0]), actions[1..])
  }

  /** From the initial state, no sequence of dispatches can make the unread
      counter disagree with the notification list. */
  lemma {:induction false} RunKeepsConsistent(s: GlobalState, actions: seq<Action>)
    requires Consistent(s)
    ensures Consistent(Run(s, actions))
    decreases |actions|
  {
    if actions != [] {
      RunKeepsConsistent(Reduce(s, actions[0]), actions[1..]);
    }
  }

  lemma ReachableConsistent(actions: seq<Action>)
    ensures Consistent(Run(InitialState, actions))
  {
    RunKeepsConsistent(InitialState, actions);
  }

  /** Dispatching `toggle_sidebar` twice restores the state. */
  lemma ToggleSidebarInvolution(s: GlobalState)
    ensures Run(s, [ToggleSidebar, ToggleSidebar]) == s
  {
    assert [ToggleSidebar, ToggleSidebar][1..] == [ToggleSidebar];
  }
}
