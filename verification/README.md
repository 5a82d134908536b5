# A project and task manager, modelled in Dafny

This system is a project and task manager. An Express + Socket.io
backend keeps users, projects, tasks, comments, an activity feed and
notifications in Postgres. It broadcasts task-status and comment events.
A React client keeps a Redux store of the signed-in user, notifications
with their unread counter, and buffers of realtime events.

This project models three parts of it as pure functions over immutable
records:

- the store's reducers (`Store`);
- the REST handlers and the socket handshake, each from a request and an
  abstract database to a response, a new database and the broadcasts
  emitted (`Server`);
- the list and form logic inside the views (`ProjectCreation`,
  `ProjectDetail`, `TeamManagement`, `TaskDetail`, `Dashboard`,
  `Onboarding`, `Sidebar`, `HamburgerMenu`, `TaskCreation`,
  `UserProfile`).

Shared modules:

- `Js`: optional values and JavaScript truthiness of strings.
- `Text`: ASCII `trim`, `toLowerCase`, `includes`, `split`, `replace`.
- `Lists`: `filter` and `slice(0, n)`.
- `Entities`: records that cross the wire.
- `Realtime`: follows one status change from the handler through the
  store to the dashboard.

## Modelling conventions

- Libraries are uninterpreted functions in `Server.Services`: bcrypt's
  hash and compare, jsonwebtoken's sign and verify, and `JSON.stringify`.
- The uuid and the clock reading of one request are the `Server.Fresh`
  parameter.
- Timestamps are integers. ISO-8601 strings of one format sort the same
  way. A date string that does not parse is `None`.
- `fault: Option<nat>` names the awaited database call that throws.
  Calls are numbered from 0 in the order the handler makes them. The
  handler then answers 500, and earlier writes stay.
- A client request's outcome is a parameter. It is the server's row or
  status code, or `None` when axios throws.
- Request-body fields are `Option<string>`. A field is falsy when it is
  absent or `""`.

## Model

| member | source | states |
|---|---|---|
| Js.OrNull | backend/server.js:111 | `v \|\| null` keeps exactly the truthy strings and maps every falsy one to null |
| Text.Trim | vitereact/src/components/views/UV_ProjectCreation.tsx:56 | `trim()` returns the input with an all-whitespace prefix and suffix removed, leaving no blank at either end; it is empty exactly when the input is all whitespace, and already-trimmed text is unchanged |
| Text.TrimIdempotent | vitereact/src/components/views/UV_ProjectCreation.tsx:89 | trimming twice equals trimming once |
| Text.ToLower | vitereact/src/components/views/UV_Dashboard.tsx:69 | `toLowerCase()` keeps the length, leaves no capital letter, keeps every non-capital character, and turns each capital into its small letter |
| Text.Contains | vitereact/src/components/views/UV_Dashboard.tsx:69 | `includes` holds exactly when the needle occurs at some position of the haystack |
| Text.Split | vitereact/src/components/views/UV_ProjectCreation.tsx:89 | `split(",")` gives one more piece than there are separators; no piece contains the separator; joining the pieces gives the input back |
| Text.SplitJoin | vitereact/src/components/views/UV_ProjectCreation.tsx:89 | pieces free of the separator survive join followed by split |
| Text.ReplaceFirst | vitereact/src/components/views/UV_ProjectCreation.tsx:57 | `replace("_", " ")` with a string pattern replaces only the first occurrence and keeps the length |
| Text.NatToString | vitereact/src/components/views/UV_ProjectDetail.tsx:82 | a number appended to a string renders as a non-empty run of decimal digits |
| Lists.Filter | vitereact/src/components/views/UV_Dashboard.tsx:66-70 | `filter` keeps exactly the elements passing the test; it is the identity when all pass |
| Lists.FilterAppend | vitereact/src/components/views/UV_ProjectDetail.tsx:235 | filtering distributes over concatenation, so kept elements stay in list order |
| Lists.FilterSplits | vitereact/src/components/views/UV_TeamManagement.tsx:86 | what a filter keeps and what its complement keeps add up to the whole list |
| Lists.FindIndex | vitereact/src/store/main.tsx:131 | `find` picks the first element passing the test; every element before it fails the test, and the length means none passed |
| Lists.Take | vitereact/src/components/views/UV_Dashboard.tsx:88 | `slice(0, n)` is the first `min(n, length)` elements |
| Entities.Event.Name | vitereact/src/store/main.tsx:81-88 | the event name is `task_status_updated` exactly for status payloads and `new_comment_added` exactly for comment payloads |
| Store.CountUnread | vitereact/src/store/main.tsx:121 | the count of unread notifications is zero exactly when all are read and the full length exactly when none are |
| Store.ReplaceNotifications | vitereact/src/store/main.tsx:118-122 | `set_notifications` replaces the list, makes the counter equal the number of unread entries, and changes nothing else |
| Store.PushNotification | vitereact/src/store/main.tsx:123-128 | `add_notification` puts the entry first with the old list as tail; the counter grows by one exactly for an unread entry; consistency is preserved |
| Store.CountUnreadMarkOne | vitereact/src/store/main.tsx:133-134 | marking one unread entry read lowers the unread count by exactly one |
| Store.MarkRead | vitereact/src/store/main.tsx:129-136 | `mark_notification_read` changes only the first entry with the uid, and only when it was unread; no match or an already-read match leaves the state unchanged; consistency is preserved |
| Store.MarkReadIdempotent | vitereact/src/store/main.tsx:129-136 | marking the same uid twice equals marking it once |
| Store.AppendRealtimeUpdate | vitereact/src/store/main.tsx:140-147 | `add_realtime_update` appends to the end of the named buffer only; an unknown type is a no-op; no buffer shrinks; all other fields are untouched |
| Store.OnServerEvent | vitereact/src/store/main.tsx:81-88 | the socket listeners file each broadcast under its own name, appended to the matching buffer |
| Store.ClearRealtimeBuffer | vitereact/src/store/main.tsx:148-154 | `clear_realtime_updates` empties only the named buffer; an unknown type is a no-op |
| Store.ClearRealtimeBufferLaws | vitereact/src/store/main.tsx:148-154 | clearing twice equals clearing once, and clearing discards an update appended just before |
| Store.ToggleSidebarCollapsed | vitereact/src/store/main.tsx:155-157 | `toggle_sidebar` flips the collapsed flag and nothing else |
| Store.ToggleSidebarInvolution | vitereact/src/store/main.tsx:155-157 | dispatching `toggle_sidebar` twice restores the state |
| Store.ResetAuthState | vitereact/src/store/main.tsx:164-176 | `reset_auth` clears token, user, authentication, notifications, counter and socket flag; buffers, sidebar, search query and modal survive |
| Store.SocketSetupSettled | vitereact/src/store/main.tsx:178-184 | a fulfilled `setup_socket` leaves the state unchanged; a rejected one forces `socket_connected` false and changes nothing else |
| Store.Reduce | vitereact/src/store/main.tsx:105-186 | every action preserves "unread_count equals the number of unread notifications"; only the two realtime actions touch the buffers |
| Store.RunKeepsConsistent | vitereact/src/store/main.tsx:105-186 | any sequence of dispatches from a consistent state ends consistent |
| Store.ReachableConsistent | vitereact/src/store/main.tsx:47-61 | every state reachable from `initial_state` is consistent |
| Server.BearerToken | backend/server.js:50-52 | a token exists exactly for a truthy header with a space; it is the space-free word after the first space, followed by the end of the header or another space |
| Server.BearerTokenOfWellFormedHeader | backend/server.js:52 | a header `<scheme> <token>` yields the token whatever the scheme word |
| Server.Authenticate | backend/server.js:49-59 | no token, a token that fails verification, or exactly the identity verification returned |
| Server.Rejection | backend/server.js:53-55 | a missing token answers 401 "No token provided"; a failed verification answers 403 "Invalid token" |
| Server.Handshake | backend/server.js:62-72 | the socket handshake refuses a missing token ("token required") and an invalid one ("Invalid token"), and accepts exactly verified tokens with their identity |
| Server.Register | backend/server.js:89-120 | falsy fields give 400 before any access; a taken email gives 400 with no insert; 201 exactly when both checks pass and no call fails; success appends one row holding the submitted name, email and role, the password's hash, `created_at == updated_at`, and the avatar URL or null when it is falsy, and returns a token for that row; emails stay unique |
| Server.RegistrationTokenIdentifiesRow | backend/server.js:114-115 | the returned token verifies to the new row's uid and role |
| Server.RegisterTwiceRefused | backend/server.js:96-103 | registering an email a second time is refused and writes nothing |
| Server.Login | backend/server.js:132-153 | missing fields give 400; an unknown email gives 401; 200 exactly for a known email whose hash matches; success returns a token for the row's uid and role; nothing is written |
| Server.LoginFailuresIndistinguishable | backend/server.js:140-147 | an unknown email and a wrong password produce identical outcomes |
| Server.RegisterThenLogin | backend/server.js:89-149 | a freshly registered user logs in with the same credentials and gets the registered uid and role |
| Server.CreateProject | backend/server.js:167-185 | unauthenticated requests stop in the middleware; missing fields give 400 with no insert; success appends one project holding the submitted title, description, due date and priority, status "active", creator the authenticated uid, equal timestamps and milestones null when absent |
| Server.RegisteredUserOwnsProject | backend/server.js:89-185 | the token a registration returns, sent as `Bearer <token>`, creates a project whose creator is the registered uid, and no user row changes |
| Server.SetStatus | backend/server.js:208-209 | the UPDATE gives every row with the uid the new status and time and leaves other rows alone |
| Server.StatusRoute | backend/server.js:199-227 | missing status gives 400; an unknown task gives 400 "Task not found" with no activity row and no emit; success writes exactly one `updated_status` activity row stamped with the new `updated_at` and emits exactly one `task_status_updated` |
| Server.UpdateTaskStatus | backend/server.js:208-218 | as written, every logged change records `from` equal to `to` |
| Server.ActivityFromIsNewStatus | backend/server.js:218 | moving a `to_do` task to `in_progress` logs `{from: "in_progress", to: "in_progress"}`, which is not the prior status |
| Server.UpdateTaskStatusFixed | backend/server.js:208-218 | with the correction, the logged `from` is the task's status before the UPDATE |
| Server.FixedActivityRecordsPrior | backend/server.js:208-218 | the corrected handler logs `{from: "to_do", to: "in_progress"}` for that move |
| Server.StatusWithoutAuditOnSecondFault | backend/server.js:209-219 | when the activity INSERT throws, the status stays written with no activity row and no broadcast |
| Server.AddComment | backend/server.js:241-267 | empty content gives 400 with no insert; success inserts one comment by the authenticated user with mentions JSON-encoded or null and broadcasts the same uid, task, user, content and time; task existence is not checked |
| Server.OwnedBy | backend/server.js:280 | `WHERE user_uid = $1` keeps exactly the caller's rows with their multiplicity |
| Server.SortNewestFirst | backend/server.js:280 | `ORDER BY created_at DESC` is a permutation ordered newest first |
| Server.GetNotifications | backend/server.js:278-287 | the list holds exactly the caller's notifications, newest first, and nothing is written |
| ProjectCreation.RequiredMessage | vitereact/src/components/views/UV_ProjectCreation.tsx:57 | the message is the field name followed by " is required"; when the name has an underscore, its first one becomes a space |
| ProjectCreation.UnderscoreMessage | vitereact/src/components/views/UV_ProjectCreation.tsx:57 | only the first underscore becomes a space, so `due_date` reads "due date is required" |
| ProjectCreation.ValidateField | vitereact/src/components/views/UV_ProjectCreation.tsx:47-61 | a blank required field gets its message; a filled one loses its entry; any other field leaves the map unchanged; other keys never change |
| ProjectCreation.ValidateAll | vitereact/src/components/views/UV_ProjectCreation.tsx:62-72 | whole-form validation applies the same rule to exactly the four required fields and keeps every other key |
| ProjectCreation.FormValidIff | vitereact/src/components/views/UV_ProjectCreation.tsx:73-75 | `validateForm()` is true exactly when the four fields are filled and no other key was recorded |
| ProjectCreation.SubmitErrorSticks | vitereact/src/components/views/UV_ProjectCreation.tsx:49-75 | a recorded `submit` error is copied forward and never deleted, so whole-form validation keeps failing |
| ProjectCreation.ParseTags | vitereact/src/components/views/UV_ProjectCreation.tsx:89 | tags are non-empty, carry no surrounding whitespace or comma, and number at most the commas plus one |
| ProjectCreation.KeepNonEmpty | vitereact/src/components/views/UV_ProjectCreation.tsx:89 | `filter(tag => tag !== "")` keeps exactly the non-empty pieces, and all of them when none is empty |
| ProjectCreation.TagsAppend | vitereact/src/components/views/UV_ProjectCreation.tsx:89 | trimming and dropping empty pieces work piece by piece, so tags keep the order they were written in |
| ProjectCreation.ParseTagsOfJoin | vitereact/src/components/views/UV_ProjectCreation.tsx:89 | comma-free pieces written with commas, with any spacing, parse to the trimmed non-blank pieces in order |
| ProjectCreation.ParseTagsOfCleanJoin | vitereact/src/components/views/UV_ProjectCreation.tsx:89 | a comma-joined list of clean tags parses back to itself |
| ProjectCreation.SetField | vitereact/src/components/views/UV_ProjectCreation.tsx:81 | `{...prev, [name]: value}` sets the named field and leaves every other field as it was |
| ProjectCreation.InputChange | vitereact/src/components/views/UV_ProjectCreation.tsx:79-82 | the edit changes only the named field, and only that field's error is re-validated |
| ProjectCreation.ToggleArchived | vitereact/src/components/views/UV_ProjectCreation.tsx:100-102 | the flag becomes the negation of its truth value and nothing else changes |
| ProjectCreation.ToggleArchivedTwice | vitereact/src/components/views/UV_ProjectCreation.tsx:100-102 | two toggles restore the flag's truth value, and the flag itself once it is set |
| ProjectCreation.Submit | vitereact/src/components/views/UV_ProjectCreation.tsx:105-127 | nothing is sent exactly when whole-form validation fails; success navigates to `/project/<uid>`; a failure records the `submit` message |
| ProjectCreation.FailedSubmitBlocksLaterSubmits | vitereact/src/components/views/UV_ProjectCreation.tsx:125 | a valid form whose request fails records the `submit` error, after which no later submit sends anything |
| ProjectDetail.ToggleViewMode | vitereact/src/components/views/UV_ProjectDetail.tsx:54-56 | the view mode always switches |
| ProjectDetail.ToggleViewModeInvolution | vitereact/src/components/views/UV_ProjectDetail.tsx:54-56 | two switches restore the mode |
| ProjectDetail.WithStatus | vitereact/src/components/views/UV_ProjectDetail.tsx:68-70 | every task with the uid gets the new status; length, order, other tasks and other fields are unchanged |
| ProjectDetail.WithStatusIdempotent | vitereact/src/components/views/UV_ProjectDetail.tsx:68-70 | applying the same status change twice equals applying it once |
| ProjectDetail.UpdateTaskStatus | vitereact/src/components/views/UV_ProjectDetail.tsx:59-74 | without a token or after a failed request the list is unchanged; otherwise it is the status-updated list |
| ProjectDetail.OnDrop | vitereact/src/components/views/UV_ProjectDetail.tsx:125-131 | a drop with an empty uid issues no update; otherwise it is a status change to the column |
| ProjectDetail.TempUid | vitereact/src/components/views/UV_ProjectDetail.tsx:82 | the temporary uid is "temp-" followed by decimal digits |
| ProjectDetail.TempTask | vitereact/src/components/views/UV_ProjectDetail.tsx:81-92 | the temporary task has status "to_do", priority "normal", empty description and due date, and the typed title |
| ProjectDetail.ReplaceUid | vitereact/src/components/views/UV_ProjectDetail.tsx:103-105 | entries with the temporary uid become the server's row in place and others are unchanged; a list without that uid is returned as is; when the row has its own uid the temporary uid is gone; no task other than the row is added |
| ProjectDetail.QuickAdd | vitereact/src/components/views/UV_ProjectDetail.tsx:77-109 | a blank title, missing project uid or missing token changes nothing; otherwise one task is put first and the input is cleared; the first task is the server's row on success and the temporary task on failure |
| ProjectDetail.QuickAddKeepsList | vitereact/src/components/views/UV_ProjectDetail.tsx:93-105 | when no earlier task holds the temporary uid, the old list follows the new first entry untouched |
| ProjectDetail.Column | vitereact/src/components/views/UV_ProjectDetail.tsx:224-235 | a Kanban column holds exactly the tasks whose status equals the column's |
| ProjectDetail.ColumnKeepsOrder | vitereact/src/components/views/UV_ProjectDetail.tsx:235 | a column keeps list order |
| ProjectDetail.OffBoard | vitereact/src/components/views/UV_ProjectDetail.tsx:224 | the tasks on no column are exactly those whose status is none of the three |
| ProjectDetail.ColumnsPartition | vitereact/src/components/views/UV_ProjectDetail.tsx:224-235 | the three columns and the off-board rest together count every task exactly once |
| ProjectDetail.CompletedInNoColumn | vitereact/src/components/views/UV_TaskDetail.tsx:130 | a task marked "completed" appears in no Kanban column |
| ProjectDetail.DropLandsInColumn | vitereact/src/components/views/UV_ProjectDetail.tsx:125-131 | after an accepted drop, every task with the dropped uid is in the target column |
| TeamManagement.ShouldFetch | vitereact/src/components/views/UV_TeamManagement.tsx:23-41 | members are fetched exactly with a token and a user whose role is exactly "admin" or "manager" |
| TeamManagement.Payload | vitereact/src/components/views/UV_TeamManagement.tsx:52-56 | the payload carries the typed name and role and is never without an avatar: the typed URL, or else the picsum seed URL for the encoded name |
| TeamManagement.StartAddMember | vitereact/src/components/views/UV_TeamManagement.tsx:45-57 | a blank name sends nothing and changes nothing; otherwise the payload is sent and the status becomes loading |
| TeamManagement.CompleteAddMember | vitereact/src/components/views/UV_TeamManagement.tsx:58-75 | success appends the server's member and resets the form to "", "Member", "" and hides it; the status returns to idle on both outcomes |
| TeamManagement.AddMemberSettles | vitereact/src/components/views/UV_TeamManagement.tsx:57-73 | a sent add goes through loading and ends idle, with the earlier members still first |
| TeamManagement.RemoveMember | vitereact/src/components/views/UV_TeamManagement.tsx:79-91 | after success every member with the uid is gone and exactly the others remain |
| TeamManagement.RemoveMemberLaws | vitereact/src/components/views/UV_TeamManagement.tsx:86 | removal is idempotent and keeps the remaining members' order |
| TeamManagement.UpdateRole | vitereact/src/components/views/UV_TeamManagement.tsx:94-111 | only matching members change, only in their role, which becomes the server-returned role; a failure changes nothing |
| TeamManagement.UpdateRoleTouchesOnlyUid | vitereact/src/components/views/UV_TeamManagement.tsx:102-106 | a role update keeps every uid in place and touches only members a removal of that uid would drop |
| TaskDetail.Set | vitereact/src/components/views/UV_TaskDetail.tsx:90 | `{...task, [field]: value}` changes only the named field |
| TaskDetail.SetSameValue | vitereact/src/components/views/UV_TaskDetail.tsx:89 | setting a field to its current value is the identity, so skipping that case loses nothing |
| TaskDetail.FieldBlur | vitereact/src/components/views/UV_TaskDetail.tsx:86-105 | a missing task or an unchanged value is a no-op; otherwise the server's row replaces the task; on error the optimistic value stays |
| TaskDetail.FailedSaveKeepsOptimistic | vitereact/src/components/views/UV_TaskDetail.tsx:90-104 | after a failed save the field shows the typed value and every other field its old value |
| TaskDetail.MarkTaskComplete | vitereact/src/components/views/UV_TaskDetail.tsx:128-141 | the request always carries status "completed"; success replaces the task; failure changes nothing |
| TaskDetail.CompletedLeavesBoard | vitereact/src/components/views/UV_TaskDetail.tsx:128-133 | applied to the project view's list, the status this sends takes the task off all three Kanban columns and into the off-board rest |
| TaskDetail.DeleteTask | vitereact/src/components/views/UV_TaskDetail.tsx:108-125 | navigation happens exactly when confirmed and the request succeeds; the target is `/project/<uid>` when the task names a project, else `/dashboard` |
| TaskDetail.DeleteReturnsToProjectPage | vitereact/src/components/views/UV_TaskDetail.tsx:108-125 | deleting a task of project `p` returns to the page that creating `p` navigated to |
| TaskDetail.AddComment | vitereact/src/components/views/UV_TaskDetail.tsx:144-164 | a blank comment or a failed request changes nothing; success prepends the comment when a task is loaded and clears the input even without one |
| TaskDetail.CommentsNewestFirst | vitereact/src/components/views/UV_TaskDetail.tsx:157 | two comments in a row show the later one first |
| TaskDetail.ToggleSubtasks | vitereact/src/components/views/UV_TaskDetail.tsx:167-169 | the visibility flag flips and nothing else changes |
| TaskDetail.ToggleSubtasksTwice | vitereact/src/components/views/UV_TaskDetail.tsx:167-169 | two toggles restore the view |
| Dashboard.FilteredProjects | vitereact/src/components/views/UV_Dashboard.tsx:66-70 | an empty query keeps all projects; otherwise exactly the projects whose lower-cased title contains the lower-cased query |
| Dashboard.FilteredKeepsOrder | vitereact/src/components/views/UV_Dashboard.tsx:66 | the search keeps list order |
| Dashboard.SearchIgnoresCase | vitereact/src/components/views/UV_Dashboard.tsx:69 | a query and its lower-cased form select the same projects |
| Dashboard.RefreshOnChange | vitereact/src/components/views/UV_Dashboard.tsx:52-58 | a change of the buffers refreshes exactly when either buffer is non-empty |
| Dashboard.EventTriggersRefresh | vitereact/src/components/views/UV_Dashboard.tsx:54-56 | every event the store records makes the dashboard refresh |
| Dashboard.Upcoming | vitereact/src/components/views/UV_Dashboard.tsx:88 | exactly the first three projects due strictly after now, in list order, or all of them when fewer are due |
| Dashboard.UpcomingKeepsOrder | vitereact/src/components/views/UV_Dashboard.tsx:88 | once three projects are due, projects further down the list never reach the panel |
| Dashboard.UpcomingEmptyIff | vitereact/src/components/views/UV_Dashboard.tsx:88-95 | "No upcoming deadlines" shows exactly when the list is empty, exactly when no project has a parsable due date after now |
| Dashboard.FirstActivities | vitereact/src/components/views/UV_Dashboard.tsx:104 | a project contributes its first two activities, or all of them when it has fewer, and none exactly when it has none |
| Dashboard.ShownActivities | vitereact/src/components/views/UV_Dashboard.tsx:103-109 | at most two activities per project are shown |
| Dashboard.ShownActivitiesSingle | vitereact/src/components/views/UV_Dashboard.tsx:104 | one project shows its own first two activities |
| Dashboard.ShownActivitiesAppend | vitereact/src/components/views/UV_Dashboard.tsx:103-109 | the panel follows project order: two runs of projects show the first run's activities, then the second's |
| Dashboard.NoActivityIff | vitereact/src/components/views/UV_Dashboard.tsx:103-112 | "No recent activity" shows exactly when no activity is listed |
| Onboarding.PrimaryButton | vitereact/src/components/views/UV_Onboarding.tsx:71-85 | "Next" shows exactly before the last step, "Finish" otherwise |
| Onboarding.Press | vitereact/src/components/views/UV_Onboarding.tsx:30-51 | Next advances by one before the last step and finishes on it without moving; Finish navigates to /dashboard; Skip sets the skipped flag and navigates to /dashboard |
| Onboarding.RunStaysValid | vitereact/src/components/views/UV_Onboarding.tsx:30-36 | from a valid step, any presses keep the step valid and never move it back |
| Onboarding.ReachableValid | vitereact/src/components/views/UV_Onboarding.tsx:7 | from step 0 the step always stays in [0, 2] |
| Onboarding.PrimaryButtonAdvances | vitereact/src/components/views/UV_Onboarding.tsx:71-85 | pressing the shown button moves one step forward, or leaves for the dashboard on the last step |
| Sidebar.HandleResize | vitereact/src/components/views/GV_Sidebar.tsx:38-44 | at most one `toggle_sidebar` is dispatched, and none exactly when the collapsed flag already equals `width < 768` |
| Sidebar.ResizeSettles | vitereact/src/components/views/GV_Sidebar.tsx:38-44 | after one run the sidebar is collapsed exactly below 768, nothing else changed, and a second run dispatches nothing |
| Sidebar.ToggleButton | vitereact/src/components/views/GV_Sidebar.tsx:32-34 | the collapse button dispatches exactly one toggle, which flips the flag |
| Sidebar.MenuItemClick | vitereact/src/components/views/GV_Sidebar.tsx:26-29 | a click selects the item's key and navigates to its link |
| Sidebar.Render | vitereact/src/components/views/GV_Sidebar.tsx:54-77 | nothing renders for a signed-out user; labels show only when expanded; an item is highlighted exactly when its key is selected |
| Sidebar.ClickHighlightsOne | vitereact/src/components/views/GV_Sidebar.tsx:17-29 | after a click exactly the clicked item is highlighted |
| HamburgerMenu.Items | vitereact/src/components/views/GV_HamburgerMenu.tsx:24-35 | the five base items come first in order; "Team" is the sixth and last item exactly for role "admin" |
| HamburgerMenu.OnlyExactAdminSeesTeam | vitereact/src/components/views/GV_HamburgerMenu.tsx:33 | any other role string, including "Admin" or "manager", gets no Team item |
| HamburgerMenu.ToggleMenu | vitereact/src/components/views/GV_HamburgerMenu.tsx:14-16 | the menu flips open or closed |
| HamburgerMenu.SelectItem | vitereact/src/components/views/GV_HamburgerMenu.tsx:19-21 | selecting an item always closes the menu |
| HamburgerMenu.ToggleMenuTwice | vitereact/src/components/views/GV_HamburgerMenu.tsx:14-21 | two toggles restore the menu; a selection after a toggle still closes it |
| TaskCreation.CreateTask | vitereact/src/components/views/UV_TaskCreation.tsx:18-65 | a blank title sets "Task title cannot be empty." and sends nothing; the request carries the trimmed title, status "to_do" and the user's uid or ""; 200/201 clears the input with "success"; other codes give "error" and the failure text; a thrown error gives "error" and the server's message or the fallback |
| TaskCreation.SentTitleIsClean | vitereact/src/components/views/UV_TaskCreation.tsx:20-34 | a sent title is never empty and has no surrounding whitespace |
| TaskCreation.FailureExplains | vitereact/src/components/views/UV_TaskCreation.tsx:53-63 | every failed attempt leaves a non-empty message and keeps the typed title |
| TaskCreation.InputChange | vitereact/src/components/views/UV_TaskCreation.tsx:76-81 | typing replaces the title and clears any message |
| TaskCreation.LastInputIsSent | vitereact/src/components/views/UV_TaskCreation.tsx:18-34 | only the last keystroke counts, and what is sent is that value trimmed, or nothing when it is blank |
| UserProfile.FromUser | vitereact/src/components/views/UV_UserProfile.tsx:92-99 | the local profile mirrors the user, with the avatar "" when missing |
| UserProfile.Cancel | vitereact/src/components/views/UV_UserProfile.tsx:90-103 | cancel restores the profile from the store's user when there is one, clears the password and leaves edit mode |
| UserProfile.Submit | vitereact/src/components/views/UV_UserProfile.tsx:106-147 | an empty name or email sends nothing; the payload has name, email and avatar, and a password exactly when one was typed; success sets the store's user through `set_current_user`, mirrors it locally, clears the password and leaves edit mode |
| UserProfile.SubmitAgreesWithStore | vitereact/src/components/views/UV_UserProfile.tsx:130-141 | after success the store holds the new user, a cancel changes nothing, and the store's counter invariant still holds |
| UserProfile.UploadAvatar | vitereact/src/components/views/UV_UserProfile.tsx:150-175 | without a file nothing happens; after upload only the avatar URL changes, to the server's |
| UserProfile.UploadAvatarPartners | vitereact/src/components/views/UV_UserProfile.tsx:90-175 | a second upload overwrites the first; cancel drops an upload; the next submit sends the uploaded URL |
| Realtime.Deliver | vitereact/src/store/main.tsx:81-88 | delivering events changes only the realtime buffers, shrinks neither, and files every event in exactly one of them |
| Realtime.DeliverOne | vitereact/src/components/views/UV_Dashboard.tsx:52-58 | one delivered event is the store's listener applied once, and the dashboard refreshes |
| Realtime.StatusChangeReachesDashboard | backend/server.js:199-227 | a successful status change, as written or corrected, reaches a client as exactly one new `task_status_updated` entry with the task, status and time; nothing else changes; the dashboard refreshes |
| Realtime.CommentReachesDashboard | backend/server.js:241-263 | a successful comment reaches a client as exactly one new `new_comment_added` entry carrying the stored comment; the status buffer is untouched; the dashboard refreshes |

## Left out

- Postgres, bcrypt, jsonwebtoken and uuid internals are parameters. The
  `Services` record carries hash, compare, sign, verify and stringify.
  Token expiry (`24h`) and the bcrypt cost factor are not modelled.
- Connection-pool handling is not modelled. This includes `pool.connect`
  failing separately from a query, and the missing `client.release()` on
  the 500 paths. Concurrent requests and races between status updates
  are left out too.
- Express routing, HTTP framing, server start-up and connection logging
  are plumbing.
- Socket.io delivery is not modelled. Handlers return the list of events
  they emit. `Realtime.Deliver` hands that list to one client in order.
- The socket client lifecycle, the `connect`/`disconnect` listeners and
  redux-persist storage are external libraries. Only the reducers and
  the event-to-buffer mapping are modelled.
- Dates are integers. `toISOString`, `toLocaleString` and parsing
  `new Date(due_date)` are not modelled. A due date that does not parse
  is `None`.
- `trim` and `toLowerCase` cover ASCII only. Unicode whitespace and
  case mapping are left out.
- Request-body values that are not strings, such as numbers, objects or
  arrays in string fields, are not modelled. `milestones` and `mentions`
  are modelled as string arrays.
- The order of notifications with equal `created_at` is chosen as table
  order. SQL leaves it unspecified.
- axios calls are outcome parameters. The `alert`, `console.error` and
  `setTimeout` that clears the save message are not modelled.
- Responses that interleave with later edits are not modelled. Each
  handler reads the state it started from. The source's functional
  `setState(prev => …)` updates would apply to newer state.
- Fetch effects that load lists are not modelled: project detail, task
  detail, team members, dashboard data and the sample activity log. They
  call endpoints the backend does not define.
- GV_TopNav, GV_Footer, App.tsx and UV_Login are presentation, routing
  or glue. They are not part of this model.
- The project-creation multi-select for team members and the cancel
  navigation (`navigate(-1)`) are plain assignments. They are not
  modelled.
- The dashboard's realtime effect also runs once on mount. With a
  non-empty buffer it then only repeats the mount-time data load, because
  no view dispatches `clear_realtime_updates`. That mount run is not
  modelled; `Dashboard.RefreshOnChange` covers the runs after a change.
- TeamManagement.UpdateRole: a 2xx response without a `role` field would set the member's role to undefined. The model takes the server's role as a string and does not cover that case.
- UserProfile.UploadAvatar: a 2xx response without an `avatar_url` field would set the avatar to undefined. The model takes the server's URL as a string and does not cover that case.
- ProjectCreation.ToggleArchived: a form whose flag is still undefined
  toggles to `true` and then `false`. Two toggles therefore restore the
  flag's truth value, not the undefined flag itself.

## Findings

| source | as written | input that shows it | evidently intended | confidence | as-written member | corrected member |
|---|---|---|---|---|---|---|
| backend/server.js:208-218 | the activity row's `from` is read from the row returned by `UPDATE ... RETURNING *`, which already holds the new status | a task in `to_do` moved to `in_progress` logs `{from: "in_progress", to: "in_progress"}` | `from` is the status before the update: `{from: "to_do", to: "in_progress"}` | high, not executed | Server.ActivityFromIsNewStatus | Server.FixedActivityRecordsPrior |

`Server.UpdateTaskStatus` models the handler as written.
`Server.UpdateTaskStatusFixed` is the corrected handler.
`Realtime.StatusChangeReachesDashboard` holds for both, since the
broadcast does not depend on the activity row.
