/** The dashboard: the title search over the project summaries, the
    realtime refresh trigger, the "upcoming deadlines" panel and the
    recent-activity panel. A due date that does not parse is `None`: every
    comparison with it is false, as with an invalid `Date`. */
module Dashboard {
  import opened Js
  import opened Text
  import opened Entities
  import opened Lists
  import Store

  datatype Activity = Activity(description: string, createdAt: int)

  datatype ProjectSummary = ProjectSummary(
    uid: string,
    title: string,
    description: string,
    dueDate: Option<int>,
    activities: Option<seq<Activity>>)

  /** The search test: an empty query matches everything, any other query
      matches titles containing it, ignoring case. */
  function MatchesQuery(query: string): ProjectSummary -> bool {
    (p: ProjectSummary) => query == "" || Contains(ToLower(p.title), ToLower(query))
  }

  /** `filteredProjects`: the summaries the search keeps, in list order. */
  function FilteredProjects(projects: seq<ProjectSummary>, query: string): (r: seq<ProjectSummary>)
    ensures query == "" ==> r == projects
    ensures forall p :: p in r <==> p in projects && (query == "" || Contains(ToLower(p.title), ToLower(query)))
    ensures |r| <= |projects|
  {
    Filter(projects, MatchesQuery(query))
  }

  /** The search keeps list order across any split of the list. */
  lemma FilteredKeepsOrder(a: seq<ProjectSummary>, b: seq<ProjectSummary>, query: string)
    ensures FilteredProjects(a + b, query) == FilteredProjects(a, query) + FilteredProjects(b, query)
  {
    FilterAppend(a, b, MatchesQuery(query));
  }

  /** Case does not matter: a query and its lower-cased form select the
      same projects. */
  lemma SearchIgnoresCase(projects: seq<ProjectSummary>, query: string)
    ensures FilteredProjects(projects, ToLower(query)) == FilteredProjects(projects, query)
  {
    ToLowerIdempotent(query);
    assert MatchesQuery(ToLower(query)) == MatchesQuery(query);
  }

  /** The realtime effect: it runs when the buffers object changed, and
      refreshes only when either buffer holds an event. */
  function RefreshOnChange(before: Store.RealtimeUpdates, after: Store.RealtimeUpdates): (b: bool)
    ensures b ==> before != after
    ensures before != after ==> (b <==> after.taskStatusUpdated != [] || after.newCommentAdded != [])
  {
    before != after && (|after.taskStatusUpdated| > 0 || |after.newCommentAdded| > 0)
  }

  /** Every event the store records makes the dashboard refresh. */
  lemma EventTriggersRefresh(s: Store.GlobalState, e: Event)
    ensures RefreshOnChange(s.realtimeUpdates, Store.OnServerEvent(s, e).realtimeUpdates)
  {
    var r := Store.OnServerEvent(s, e);
    if e.TaskStatusUpdated? {
      assert |r.realtimeUpdates.taskStatusUpdated| == |s.realtimeUpdates.taskStatusUpdated| + 1;
    } else {
      assert |r.realtimeUpdates.newCommentAdded| == |s.realtimeUpdates.newCommentAdded| + 1;
    }
  }

  /** The deadline test: a parsable due date strictly after `now`. */
  function DueAfter(now: int): ProjectSummary -> bool {
    (p: ProjectSummary) => p.dueDate.Some? && p.dueDate.value > now
  }

  /** The "Upcoming Deadlines" list: the first three projects due after
      `now`, in list order, or all of them when fewer are due. */
  function Upcoming(projects: seq<ProjectSummary>, now: int): (r: seq<ProjectSummary>)
    ensures |r| <= 3
    ensures forall i :: 0 <= i < |r| ==> r[i] in projects && r[i].dueDate.Some? && r[i].dueDate.value > now
    ensures |r| == if |Filter(projects, DueAfter(now))| < 3 then |Filter(projects, DueAfter(now))| else 3
    ensures r == Filter(projects, DueAfter(now))[..|r|]
  {
    var due := Filter(projects, DueAfter(now));
    assert forall i :: 0 <= i < |due| ==> due[i] in due;
    Take(due, 3)
  }

  /** Once three projects are due, projects further down the list never
      reach the panel. */
  lemma UpcomingKeepsOrder(a: seq<ProjectSummary>, b: seq<ProjectSummary>, now: int)
    requires |Filter(a, DueAfter(now))| >= 3
    ensures Upcoming(a + b, now) == Upcoming(a, now)
  {
    FilterAppend(a, b, DueAfter(now));
  }

  /** "No upcoming deadlines" is shown. */
  predicate NoUpcomingMessage(projects: seq<ProjectSummary>, now: int) {
    |Filter(projects, DueAfter(now))| == 0
  }

  /** The message shows exactly when the list is empty, which is exactly
      when no project is due after `now`; a project without a parsable date
      is never upcoming. */
  lemma UpcomingEmptyIff(projects: seq<ProjectSummary>, now: int)
    ensures NoUpcomingMessage(projects, now) <==> Upcoming(projects, now) == []
    ensures NoUpcomingMessage(projects, now) <==>
      forall i :: 0 <= i < |projects| ==> projects[i].dueDate.None? || projects[i].dueDate.value <= now
  {
    var due := Filter(projects, DueAfter(now));
    if !NoUpcomingMessage(projects, now) {
      assert due[0] in due;
      var i :| 0 <= i < |projects| && projects[i] == due[0];
      assert DueAfter(now)(projects[i]);
    } else {
      forall i | 0 <= i < |projects| ensures projects[i].dueDate.None? || projects[i].dueDate.value <= now {
        if DueAfter(now)(projects[i]) {
          assert projects[i] in due;
        }
      }
    }
  }

  /** The activities a project contributes: its first two, if any. */
  function FirstActivities(p: ProjectSummary): (r: seq<Activity>)
    ensures |r| <= 2
    ensures p.activities.None? ==> r == []
    ensures p.activities.Some? ==> |r| == if |p.activities.value| < 2 then |p.activities.value| else 2
    ensures p.activities.Some? ==> |r| <= |p.activities.value| && r == p.activities.value[..|r|]
    ensures r == [] <==> p.activities.None? || p.activities.value == []
  {
    match p.activities
    case None => []
    case Some(acts) => Take(acts, 2)
  }

  /** The "Recent Activity" list: each project's first two activities, in
      project order. */
  function ShownActivities(projects: seq<ProjectSummary>): (r: seq<Activity>)
    ensures |r| <= 2 * |projects|
  {
    if projects == [] then [] else FirstActivities(projects[0]) + ShownActivities(projects[1..])
  }

  /** The panel for a single project is that project's first two
      activities. */
  lemma ShownActivitiesSingle(p: ProjectSummary)
    ensures ShownActivities([p]) == FirstActivities(p)
  {
    assert [p][1..] == [];
  }

  /** The panel follows project order: the activities shown for two runs
      of projects are those of the first run, then those of the second. */
  lemma {:induction false} ShownActivitiesAppend(a: seq<ProjectSummary>, b: seq<ProjectSummary>)
    ensures ShownActivities(a + b) == ShownActivities(a) + ShownActivities(b)
    decreases |a|
  {
    if a == [] {
      assert a + b == b;
    } else {
      assert (a + b)[0] == a[0] && (a + b)[1..] == a[1..] + b;
      ShownActivitiesAppend(a[1..], b);
    }
  }

  /** "No recent activity" is shown: every project lacks activities. */
  predicate NoActivityMessage(projects: seq<ProjectSummary>) {
    forall i :: 0 <= i < |projects| ==> projects[i].activities.None? || projects[i].activities.value == []
  }

  /** The message shows exactly when the activity list is empty. */
  lemma {:induction false} NoActivityIff(projects: seq<ProjectSummary>)
    ensures NoActivityMessage(projects) <==> ShownActivities(projects) == []
    decreases |projects|
  {
    if projects != [] {
      NoActivityIff(projects[1..]);
      assert NoActivityMessage(projects) <==>
        (projects[0].activities.None? || projects[0].activities.value == []) && NoActivityMessage(projects[1..]) by {
        if NoActivityMessage(projects[1..]) && (projects[0].activities.None? || projects[0].activities.value == []) {
          forall i | 0 <= i < |projects|
            ensures projects[i].activities.None? || projects[i].activities.value == []
          {
            if i > 0 {
              assert projects[i] == projects[1..][i - 1];
            }
          }
        }
        if NoActivityMessage(projects) {
          forall i | 0 <= i < |projects[1..]|
            ensures projects[1..][i].activities.None? || projects[1..][i].activities.value == []
          {
            assert projects[1..][i] == projects[i + 1];
          }
        }
      }
    }
  }
}
