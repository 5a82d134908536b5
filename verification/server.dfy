/** The REST handlers and the realtime handshake, each a pure function from
    the request and an abstract database to a response, a new database and
    the list of broadcasts it emits. bcrypt, jsonwebtoken and JSON encoding
    are the `Services` parameter; the fresh uuid and the clock reading of a
    request are the `Fresh` parameter; `fault` names the database call that
    throws, if any. */
module Server {
  import opened Js
  import opened Text
  import opened Entities
  import opened Lists

  /** The identity a token carries. */
  datatype Claims = Claims(uid: string, role: string)

  /** The libraries the handlers call, as uninterpreted functions. */
  datatype Services = Services(
    hash: string -> string,
    compare: (string, string) -> bool,
    sign: Claims -> string,
    verify: string -> Option<Claims>,
    stringify: seq<string> -> string)

  /** What `uuidv4()` and `new Date()` return during one request. */
  datatype Fresh = Fresh(uid: string, now: int)

  datatype UserRow = UserRow(
    uid: string, name: string, email: string, passwordHash: string, role: string,
    avatarUrl: Option<string>, createdAt: int, updatedAt: int)

  datatype ProjectRow = ProjectRow(
    uid: string, title: string, description: string, dueDate: string, priority: string,
    status: string, milestones: Option<seq<string>>, createdBy: string, createdAt: int, updatedAt: int)

  datatype TaskRow = TaskRow(
    uid: string, projectUid: string, title: string, description: string, dueDate: string,
    priority: string, status: string, createdBy: string, createdAt: int, updatedAt: int)

  datatype CommentRow = CommentRow(
    uid: string, taskUid: string, userUid: string, content: string, createdAt: int,
    mentions: Option<string>)

  /** The `details` column of an activity row. */
  datatype StatusChange = StatusChange(from: string, to: string)

  datatype ActivityRow = ActivityRow(
    uid: string, taskUid: string, userUid: string, action: string, details: StatusChange,
    createdAt: int)

  datatype DB = DB(
    users: seq<UserRow>,
    projects: seq<ProjectRow>,
    tasks: seq<TaskRow>,
    comments: seq<CommentRow>,
    activity: seq<ActivityRow>,
    notifications: seq<Notification>)

  datatype Body =
    | Error(message: string)
    | CreatedUser(user: User, token: string)
    | LoggedIn(token: string, uid: string, role: string)
    | ProjectBody(project: ProjectRow)
    | TaskBody(task: TaskRow)
    | CommentBody(comment: CommentRow)
    | NotificationList(list: seq<Notification>)

  datatype Response = Response(status: int, body: Body)

  /** A handler's whole effect. */
  datatype Outcome = Outcome(response: Response, db: DB, events: seq<Event>)

  const InternalError := Response(500, Error("Internal server error"))

  /** The `k`-th awaited database call of the request throws. */
  predicate FailsAt(fault: Option<nat>, k: nat) {
    fault == Some(k)
  }

  // ---------------------------------------------------------------------
  // Authentication

  /** `authHeader && authHeader.split(' ')[1]`: the second space-separated
      piece of the header. The first piece (the scheme) is never looked at. */
  function BearerToken(header: Option<string>): (t: Option<string>)
    ensures t.Some? <==> Truthy(header) && ' ' in header.value
    ensures t.Some? ==> ' ' !in t.value
    ensures t.Some? ==> exists w, rest :: ' ' !in w && header.value == w + " " + t.value + rest
                                          && (rest == [] || rest[0] == ' ')
  {
    if !Truthy(header) then None
    else
      var parts := Split(header.value, ' ');
      if |parts| >= 2 then
        TokenSitsAfterFirstSpace(header.value, parts, ' ');
        assert ' ' !in parts[0];
        assert header.value == parts[0] + " " + parts[1] + AfterSecond(parts, ' ');
        Some(parts[1])
      else None
  }

  /** What follows the second piece of a join: nothing, or a separator and
      the remaining pieces. */
  function AfterSecond(parts: seq<string>, sep: char): (rest: string)
    requires |parts| >= 2
    ensures rest == [] || rest[0] == sep
  {
    if |parts| == 2 then [] else [sep] + Join(parts[2..], sep)
  }

  /** In a header joined at spaces, the second piece follows the first
      space. */
  lemma TokenSitsAfterFirstSpace(h: string, parts: seq<string>, sep: char)
    requires |parts| >= 2 && Join(parts, sep) == h
    ensures h == parts[0] + [sep] + parts[1] + AfterSecond(parts, sep)
  {
    JoinCons(parts, sep);
    var tail := parts[1..];
    if |tail| >= 2 {
      JoinCons(tail, sep);
      assert tail[1..] == parts[2..];
    }
  }

  /** A header `<scheme> <token>` yields `token`, whatever the scheme word. */
  lemma BearerTokenOfWellFormedHeader(scheme: string, token: string)
    requires ' ' !in scheme && ' ' !in token
    ensures BearerToken(Some(scheme + " " + token)) == Some(token)
  {
    var h := scheme + " " + token;
    assert Join([scheme, token], ' ') == h by {
      assert [scheme, token][1..] == [token];
    }
    SplitJoin([scheme, token], ' ');
    assert ' ' in h by { assert h[|scheme|] == ' '; }
  }

  datatype AuthResult = NoToken | BadToken | Authenticated(claims: Claims)

  /** `authenticateToken`: no token, a token that fails verification, or the
      verified identity. */
  function Authenticate(svc: Services, header: Option<string>): (r: AuthResult)
    ensures r.NoToken? <==> !Truthy(BearerToken(header))
    ensures r.BadToken? <==> Truthy(BearerToken(header)) && svc.verify(BearerToken(header).value).None?
    ensures r.Authenticated? ==> svc.verify(BearerToken(header).value) == Some(r.claims)
  {
    var t := BearerToken(header);
    if !Truthy(t) then NoToken
    else
      match svc.verify(t.value)
      case None => BadToken
      case Some(c) => Authenticated(c)
  }

  /** The response of the middleware when it stops the request. */
  function Rejection(a: AuthResult): (r: Response)
    requires !a.Authenticated?
    ensures a.NoToken? ==> r == Response(401, Error("No token provided"))
    ensures a.BadToken? ==> r == Response(403, Error("Invalid token"))
  {
    if a.NoToken? then Response(401, Error("No token provided"))
    else Response(403, Error("Invalid token"))
  }

  /** An authenticated route that never reached its handler. */
  predicate Stopped(a: AuthResult, db: DB, r: Outcome) {
    !a.Authenticated? && r == Outcome(Rejection(a), db, [])
  }

  datatype HandshakeResult = HandshakeRejected(message: string) | HandshakeAccepted(user: Claims)

  /** The `io.use` middleware on the `token` query parameter: a missing
      token and an invalid one are refused with different messages, before
      any identity is attached to the socket. */
  function Handshake(svc: Services, token: Option<string>): (r: HandshakeResult)
    ensures !Truthy(token) ==> r == HandshakeRejected("Authentication error: token required")
    ensures Truthy(token) && svc.verify(token.value).None? ==>
      r == HandshakeRejected("Authentication error: Invalid token")
    ensures r.HandshakeAccepted? <==> Truthy(token) && svc.verify(token.value).Some?
    ensures r.HandshakeAccepted? ==> svc.verify(token.value) == Some(r.user)
  {
    if !Truthy(token) then HandshakeRejected("Authentication error: token required")
    else
      match svc.verify(token.value)
      case None => HandshakeRejected("Authentication error: Invalid token")
      case Some(c) => HandshakeAccepted(c)
  }

  // ---------------------------------------------------------------------
  // Registration and login

  datatype RegisterBody = RegisterBody(
    name: Option<string>, email: Option<string>, password: Option<string>, role: Option<string>,
    avatarUrl: Option<string>)

  predicate HasRegisterFields(b: RegisterBody) {
    Truthy(b.name) && Truthy(b.email) && Truthy(b.password) && Truthy(b.role)
  }

  /** Some user row already holds `email`. */
  predicate EmailTaken(db: DB, email: string) {
    exists i | 0 <= i < |db.users| :: db.users[i].email == email
  }

  /** The database invariant registration maintains. */
  predicate UniqueEmails(db: DB) {
    forall i, j | 0 <= i < j < |db.users| :: db.users[i].email != db.users[j].email
  }

  /** The columns the INSERT returns. */
  function PublicUser(u: UserRow): User {
    User(u.uid, u.name, u.email, u.role, u.avatarUrl, u.createdAt, u.updatedAt)
  }

  /** The row a successful registration inserts. */
  function NewUserRow(svc: Services, b: RegisterBody, gen: Fresh): UserRow
    requires HasRegisterFields(b)
  {
    UserRow(gen.uid, b.name.value, b.email.value, svc.hash(b.password.value), b.role.value,
            OrNull(b.avatarUrl), gen.now, gen.now)
  }

  /** `POST /api/users`. Database calls: 0 the email lookup, 1 the INSERT. */
  function Register(svc: Services, db: DB, b: RegisterBody, gen: Fresh, fault: Option<nat>): (r: Outcome)
    ensures r.events == []
    ensures !HasRegisterFields(b) ==> r == Outcome(Response(400, Error("Missing required fields")), db, [])
    ensures HasRegisterFields(b) && !FailsAt(fault, 0) && EmailTaken(db, b.email.value) ==>
      r == Outcome(Response(400, Error("Email already exists")), db, [])
    ensures r.response.status == 201 <==>
      HasRegisterFields(b) && !FailsAt(fault, 0) && !EmailTaken(db, b.email.value) && !FailsAt(fault, 1)
    ensures r.response.status != 201 ==> r.db == db
    ensures r.response.status == 201 ==> |r.db.users| == |db.users| + 1
    ensures r.response.status == 201 ==>
      var row := r.db.users[|db.users|];
      && r.db == db.(users := db.users + [row])
      && row.uid == gen.uid && row.name == b.name.value
      && row.email == b.email.value && row.role == b.role.value
      && row.passwordHash == svc.hash(b.password.value)
      && row.createdAt == row.updatedAt == gen.now
      && (row.avatarUrl.None? <==> !Truthy(b.avatarUrl))
      && (row.avatarUrl.Some? ==> row.avatarUrl == b.avatarUrl)
      && r.response.body == CreatedUser(PublicUser(row), svc.sign(Claims(row.uid, row.role)))
    ensures UniqueEmails(db) ==> UniqueEmails(r.db)
  {
    if !HasRegisterFields(b) then
      Outcome(Response(400, Error("Missing required fields")), db, [])
    else if FailsAt(fault, 0) then
      Outcome(InternalError, db, [])
    else if EmailTaken(db, b.email.value) then
      Outcome(Response(400, Error("Email already exists")), db, [])
    else if FailsAt(fault, 1) then
      Outcome(InternalError, db, [])
    else
      var row := NewUserRow(svc, b, gen);
      var db' := db.(users := db.users + [row]);
      assert db'.users[|db'.users| - 1] == row;
      Outcome(Response(201, CreatedUser(PublicUser(row), svc.sign(Claims(row.uid, row.role)))), db', [])
  }

  /** jsonwebtoken's guarantee: a token verifies to the claims it was signed with. */
  ghost predicate TokensRoundTrip(svc: Services) {
    forall c :: svc.verify(svc.sign(c)) == Some(c)
  }

  /** bcrypt's guarantee: a password matches its own hash. */
  ghost predicate HashesMatch(svc: Services) {
    forall p :: svc.compare(p, svc.hash(p))
  }

  /** The token a registration returns verifies to the new row's uid and role. */
  lemma RegistrationTokenIdentifiesRow(svc: Services, db: DB, b: RegisterBody, gen: Fresh, fault: Option<nat>)
    requires TokensRoundTrip(svc)
    requires Register(svc, db, b, gen, fault).response.status == 201
    ensures var r := Register(svc, db, b, gen, fault);
      r.response.body.CreatedUser? &&
      svc.verify(r.response.body.token) == Some(Claims(r.response.body.user.uid, r.response.body.user.role))
  {
  }

  /** Registering the same email twice: the second attempt is refused and
      writes nothing. */
  lemma RegisterTwiceRefused(svc: Services, db: DB, b: RegisterBody, b': RegisterBody,
                             f1: Fresh, f2: Fresh, fault: Option<nat>)
    requires Register(svc, db, b, f1, None).response.status == 201
    requires HasRegisterFields(b') && b'.email == b.email && !FailsAt(fault, 0)
    ensures var db1 := Register(svc, db, b, f1, None).db;
      Register(svc, db1, b', f2, fault) == Outcome(Response(400, Error("Email already exists")), db1, [])
  {
    var db1 := Register(svc, db, b, f1, None).db;
    assert db1.users[|db1.users| - 1].email == b.email.value;
  }

  datatype LoginBody = LoginBody(email: Option<string>, password: Option<string>)

  /** The login lookup's test: the row carries `email`. The first such row
      is the one the query returns. */
  function HasEmail(email: string): UserRow -> bool {
    (u: UserRow) => u.email == email
  }

  const InvalidCredentials := Response(401, Error("Invalid credentials"))

  /** `POST /api/auth/login`. Database call 0 is the lookup. It never
      writes and never broadcasts. */
  function Login(svc: Services, db: DB, b: LoginBody, fault: Option<nat>): (r: Outcome)
    ensures r.db == db && r.events == []
    ensures !Truthy(b.email) || !Truthy(b.password) ==>
      r.response == Response(400, Error("Missing email or password"))
    ensures Truthy(b.email) && Truthy(b.password) && !FailsAt(fault, 0) && !EmailTaken(db, b.email.value) ==>
      r.response == InvalidCredentials
    ensures r.response.status == 200 <==>
      Truthy(b.email) && Truthy(b.password) && !FailsAt(fault, 0) && EmailTaken(db, b.email.value)
      && svc.compare(b.password.value, db.users[FindIndex(db.users, HasEmail(b.email.value))].passwordHash)
    ensures r.response.status == 200 ==>
      var u := db.users[FindIndex(db.users, HasEmail(b.email.value))];
      r.response.body == LoggedIn(svc.sign(Claims(u.uid, u.role)), u.uid, u.role)
    ensures r.response.status in {200, 400, 401, 500}
  {
    if !Truthy(b.email) || !Truthy(b.password) then
      Outcome(Response(400, Error("Missing email or password")), db, [])
    else if FailsAt(fault, 0) then
      Outcome(InternalError, db, [])
    else
      var k := FindIndex(db.users, HasEmail(b.email.value));
      if k == |db.users| then
        Outcome(InvalidCredentials, db, [])
      else
        var u := db.users[k];
        if !svc.compare(b.password.value, u.passwordHash) then
          Outcome(InvalidCredentials, db, [])
        else
          Outcome(Response(200, LoggedIn(svc.sign(Claims(u.uid, u.role)), u.uid, u.role)), db, [])
  }

  /** An unknown email and a wrong password are indistinguishable to the
      caller. */
  lemma LoginFailuresIndistinguishable(svc: Services, db: DB, unknown: LoginBody, wrong: LoginBody)
    requires Truthy(unknown.email) && Truthy(unknown.password) && !EmailTaken(db, unknown.email.value)
    requires Truthy(wrong.email) && Truthy(wrong.password) && EmailTaken(db, wrong.email.value)
    requires !svc.compare(wrong.password.value, db.users[FindIndex(db.users, HasEmail(wrong.email.value))].passwordHash)
    ensures Login(svc, db, unknown, None) == Login(svc, db, wrong, None)
  {
  }

  /** A freshly registered user can log in with the same credentials and
      gets back the registered uid and role. */
  lemma RegisterThenLogin(svc: Services, db: DB, b: RegisterBody, gen: Fresh)
    requires HashesMatch(svc) && UniqueEmails(db)
    requires Register(svc, db, b, gen, None).response.status == 201
    ensures var db1 := Register(svc, db, b, gen, None).db;
      Login(svc, db1, LoginBody(b.email, b.password), None).response
        == Response(200, LoggedIn(svc.sign(Claims(gen.uid, b.role.value)), gen.uid, b.role.value))
  {
    var db1 := Register(svc, db, b, gen, None).db;
    var n := |db.users|;
    assert db1.users[n].email == b.email.value;
    var k := FindIndex(db1.users, HasEmail(b.email.value));
    assert k == n;
  }

  // ---------------------------------------------------------------------
  // Projects

  datatype ProjectRequest = ProjectRequest(
    title: Option<string>, description: Option<string>, dueDate: Option<string>,
    priority: Option<string>, milestones: Option<seq<string>>)

  predicate HasProjectFields(b: ProjectRequest) {
    Truthy(b.title) && Truthy(b.description) && Truthy(b.dueDate) && Truthy(b.priority)
  }

  /** `POST /api/projects`. Database call 0 is the INSERT. */
  function CreateProject(svc: Services, db: DB, header: Option<string>, b: ProjectRequest,
                         gen: Fresh, fault: Option<nat>): (r: Outcome)
    ensures r.events == []
    ensures !Authenticate(svc, header).Authenticated? ==> Stopped(Authenticate(svc, header), db, r)
    ensures Authenticate(svc, header).Authenticated? && !HasProjectFields(b) ==>
      r == Outcome(Response(400, Error("Missing required project fields")), db, [])
    ensures r.response.status == 201 <==>
      Authenticate(svc, header).Authenticated? && HasProjectFields(b) && !FailsAt(fault, 0)
    ensures r.response.status != 201 ==> r.db == db
    ensures r.response.status == 201 ==> |r.db.projects| == |db.projects| + 1
    ensures r.response.status == 201 ==>
      var p := r.db.projects[|db.projects|];
      && r.db == db.(projects := db.projects + [p])
      && r.response.body == ProjectBody(p)
      && p.uid == gen.uid && p.title == b.title.value && p.priority == b.priority.value
      && p.description == b.description.value && p.dueDate == b.dueDate.value
      && p.status == "active"
      && p.createdBy == Authenticate(svc, header).claims.uid
      && p.createdAt == p.updatedAt == gen.now
      && p.milestones == b.milestones
  {
    var a := Authenticate(svc, header);
    if !a.Authenticated? then Outcome(Rejection(a), db, [])
    else if !HasProjectFields(b) then
      Outcome(Response(400, Error("Missing required project fields")), db, [])
    else if FailsAt(fault, 0) then
      Outcome(InternalError, db, [])
    else
      var p := ProjectRow(gen.uid, b.title.value, b.description.value, b.dueDate.value, b.priority.value,
                          "active", b.milestones, a.claims.uid, gen.now, gen.now);
      var db' := db.(projects := db.projects + [p]);
      assert db'.projects[|db'.projects| - 1] == p;
      Outcome(Response(201, ProjectBody(p)), db', [])
  }

  /** The token a registration hands out, sent back as
      `Authorization: Bearer <token>`, creates a project owned by the
      registered user. A signed token is a non-empty word, as a JWT is. */
  lemma RegisteredUserOwnsProject(svc: Services, db: DB, b: RegisterBody, gen: Fresh,
                                  pb: ProjectRequest, gen': Fresh)
    requires TokensRoundTrip(svc)
    requires Register(svc, db, b, gen, None).response.status == 201
    requires var token := Register(svc, db, b, gen, None).response.body.token;
      token != "" && ' ' !in token
    requires HasProjectFields(pb)
    ensures var reg := Register(svc, db, b, gen, None);
      var header := Some("Bearer " + reg.response.body.token);
      var r := CreateProject(svc, reg.db, header, pb, gen', None);
      && r.response.status == 201
      && r.db.projects[|reg.db.projects|].createdBy == gen.uid
      && r.db.users == reg.db.users
  {
    var reg := Register(svc, db, b, gen, None);
    var token := reg.response.body.token;
    assert "Bearer" + " " + token == "Bearer " + token;
    BearerTokenOfWellFormedHeader("Bearer", token);
  }

  // ---------------------------------------------------------------------
  // Task status

  predicate TaskExists(tasks: seq<TaskRow>, uid: string) {
    exists i | 0 <= i < |tasks| :: tasks[i].uid == uid
  }

  /** `UPDATE tasks SET status, updated_at WHERE uid`: every row with the uid
      takes the new status and time, every other row is untouched. */
  function SetStatus(tasks: seq<TaskRow>, uid: string, status: string, now: int): (r: seq<TaskRow>)
    ensures |r| == |tasks|
    ensures forall i :: 0 <= i < |tasks| ==>
      r[i] == if tasks[i].uid == uid then tasks[i].(status := status, updatedAt := now) else tasks[i]
    ensures !TaskExists(tasks, uid) ==> r == tasks
  {
    seq(|tasks|, i requires 0 <= i < |tasks| =>
      if tasks[i].uid == uid then tasks[i].(status := status, updatedAt := now) else tasks[i])
  }

  /** Position of the first task row with `uid`, or `|tasks|`. */
  function FirstTask(tasks: seq<TaskRow>, uid: string): (k: nat)
    ensures k <= |tasks|
    ensures k < |tasks| ==> tasks[k].uid == uid
    ensures forall j :: 0 <= j < k ==> tasks[j].uid != uid
    ensures k == |tasks| <==> !TaskExists(tasks, uid)
  {
    if tasks == [] then 0
    else if tasks[0].uid == uid then 0
    else
      var k := 1 + FirstTask(tasks[1..], uid);
      assert k < |tasks| ==> tasks[k] == tasks[1..][k - 1];
      k
  }

  /** `PATCH /api/tasks/:task_uid/status`, parameterised by how the activity
      row's `from` is chosen: `recordPrior` false reads it from the row the
      UPDATE returned, as the source does; true reads the status the task
      had before. Database calls: 0 the UPDATE, 1 the activity INSERT. */
  function StatusRoute(svc: Services, db: DB, header: Option<string>, taskUid: string,
                       status: Option<string>, gen: Fresh, fault: Option<nat>, recordPrior: bool): (r: Outcome)
    ensures !Authenticate(svc, header).Authenticated? ==> Stopped(Authenticate(svc, header), db, r)
    ensures Authenticate(svc, header).Authenticated? && !Truthy(status) ==>
      r == Outcome(Response(400, Error("Missing status in request body")), db, [])
    ensures Authenticate(svc, header).Authenticated? && Truthy(status) && !FailsAt(fault, 0)
            && !TaskExists(db.tasks, taskUid) ==>
      r == Outcome(Response(400, Error("Task not found")), db, [])
    ensures r.response.status == 200 <==>
      Authenticate(svc, header).Authenticated? && Truthy(status) && !FailsAt(fault, 0)
      && TaskExists(db.tasks, taskUid) && !FailsAt(fault, 1)
    ensures r.response.status != 200 ==> r.events == [] && r.db.activity == db.activity
    ensures r.response.status == 200 ==>
      var k := FirstTask(db.tasks, taskUid);
      var row := db.tasks[k].(status := status.value, updatedAt := gen.now);
      var act := ActivityRow(gen.uid, taskUid, Authenticate(svc, header).claims.uid, "updated_status",
                             StatusChange(if recordPrior then db.tasks[k].status else status.value, status.value),
                             gen.now);
      && r.db == db.(tasks := SetStatus(db.tasks, taskUid, status.value, gen.now),
                     activity := db.activity + [act])
      && r.events == [TaskStatusUpdated(taskUid, status.value, gen.now)]
      && r.response.body == TaskBody(row)
  {
    var a := Authenticate(svc, header);
    if !a.Authenticated? then Outcome(Rejection(a), db, [])
    else if !Truthy(status) then
      Outcome(Response(400, Error("Missing status in request body")), db, [])
    else if FailsAt(fault, 0) then
      Outcome(InternalError, db, [])
    else
      var k := FirstTask(db.tasks, taskUid);
      var updated := SetStatus(db.tasks, taskUid, status.value, gen.now);
      if k == |db.tasks| then
        Outcome(Response(400, Error("Task not found")), db, [])
      else if FailsAt(fault, 1) then
        Outcome(InternalError, db.(tasks := updated), [])
      else
        var returned := updated[k];
        var from := if recordPrior then db.tasks[k].status else returned.status;
        var act := ActivityRow(gen.uid, taskUid, a.claims.uid, "updated_status",
                               StatusChange(from, status.value), gen.now);
        Outcome(Response(200, TaskBody(returned)),
                db.(tasks := updated, activity := db.activity + [act]),
                [TaskStatusUpdated(taskUid, status.value, gen.now)])
  }

  /** The handler as written: `from` is read from the UPDATE's RETURNING row. */
  function UpdateTaskStatus(svc: Services, db: DB, header: Option<string>, taskUid: string,
                            status: Option<string>, gen: Fresh, fault: Option<nat>): (r: Outcome)
    ensures r.response.status == 200 ==> Truthy(status) && TaskExists(db.tasks, taskUid)
    ensures r.response.status == 200 ==>
      && |r.db.activity| == |db.activity| + 1
      && r.db.activity[|db.activity|].details == StatusChange(status.value, status.value)
  {
    StatusRoute(svc, db, header, taskUid, status, gen, fault, false)
  }

  /** The handler with the evident intent: `from` is the status before the
      UPDATE. */
  function UpdateTaskStatusFixed(svc: Services, db: DB, header: Option<string>, taskUid: string,
                                 status: Option<string>, gen: Fresh, fault: Option<nat>): (r: Outcome)
    ensures r.response.status == 200 ==> Truthy(status) && TaskExists(db.tasks, taskUid)
    ensures r.response.status == 200 ==>
      && |r.db.activity| == |db.activity| + 1
      && r.db.activity[|db.activity|].details
           == StatusChange(db.tasks[FirstTask(db.tasks, taskUid)].status, status.value)
  {
    StatusRoute(svc, db, header, taskUid, status, gen, fault, true)
  }

  /** As written, every logged status change claims the task moved from its
      new status to its new status: moving a `to_do` task to `in_progress`
      records `{from: "in_progress", to: "in_progress"}`. */
  lemma ActivityFromIsNewStatus(svc: Services, db: DB, header: Option<string>, taskUid: string,
                                gen: Fresh)
    requires Authenticate(svc, header).Authenticated?
    requires TaskExists(db.tasks, taskUid) && db.tasks[FirstTask(db.tasks, taskUid)].status == "to_do"
    ensures var r := UpdateTaskStatus(svc, db, header, taskUid, Some("in_progress"), gen, None);
      r.response.status == 200
      && r.db.activity[|db.activity|].details == StatusChange("in_progress", "in_progress")
      && r.db.activity[|db.activity|].details.from != db.tasks[FirstTask(db.tasks, taskUid)].status
  {
  }

  /** With the correction, the same move records `{from: "to_do", to: "in_progress"}`. */
  lemma FixedActivityRecordsPrior(svc: Services, db: DB, header: Option<string>, taskUid: string, gen: Fresh)
    requires Authenticate(svc, header).Authenticated?
    requires TaskExists(db.tasks, taskUid) && db.tasks[FirstTask(db.tasks, taskUid)].status == "to_do"
    ensures var r := UpdateTaskStatusFixed(svc, db, header, taskUid, Some("in_progress"), gen, None);
      r.response.status == 200
      && r.db.activity[|db.activity|].details == StatusChange("to_do", "in_progress")
  {
  }

  /** A failure of the activity INSERT leaves the status written but no
      activity row and no broadcast: the two writes are not atomic. */
  lemma StatusWithoutAuditOnSecondFault(svc: Services, db: DB, header: Option<string>, taskUid: string,
                                        status: string, gen: Fresh)
    requires Authenticate(svc, header).Authenticated? && status != ""
    requires TaskExists(db.tasks, taskUid)
    ensures var r := UpdateTaskStatusFixed(svc, db, header, taskUid, Some(status), gen, Some(1));
      && r.response == InternalError
      && r.db.tasks == SetStatus(db.tasks, taskUid, status, gen.now)
      && r.db.activity == db.activity
      && r.events == []
  {
  }

  // ---------------------------------------------------------------------
  // Comments

  /** `POST /api/tasks/:task_uid/comments`. Database call 0 is the INSERT;
      whether the task exists is never checked. */
  function AddComment(svc: Services, db: DB, header: Option<string>, taskUid: string,
                      content: Option<string>, mentions: Option<seq<string>>,
                      gen: Fresh, fault: Option<nat>): (r: Outcome)
    ensures !Authenticate(svc, header).Authenticated? ==> Stopped(Authenticate(svc, header), db, r)
    ensures Authenticate(svc, header).Authenticated? && !Truthy(content) ==>
      r == Outcome(Response(400, Error("Comment content is required")), db, [])
    ensures r.response.status == 201 <==>
      Authenticate(svc, header).Authenticated? && Truthy(content) && !FailsAt(fault, 0)
    ensures r.response.status != 201 ==> r.db == db && r.events == []
    ensures r.response.status == 201 ==> |r.db.comments| == |db.comments| + 1
    ensures r.response.status == 201 ==>
      var c := r.db.comments[|db.comments|];
      var user := Authenticate(svc, header).claims.uid;
      && r.db == db.(comments := db.comments + [c])
      && c == CommentRow(gen.uid, taskUid, user, content.value, gen.now,
                         if mentions.Some? then Some(svc.stringify(mentions.value)) else None)
      && r.response.body == CommentBody(c)
      && r.events == [NewCommentAdded(c.uid, c.taskUid, c.userUid, c.content, c.createdAt)]
  {
    var a := Authenticate(svc, header);
    if !a.Authenticated? then Outcome(Rejection(a), db, [])
    else if !Truthy(content) then
      Outcome(Response(400, Error("Comment content is required")), db, [])
    else if FailsAt(fault, 0) then
      Outcome(InternalError, db, [])
    else
      var encoded := if mentions.Some? then Some(svc.stringify(mentions.value)) else None;
      var c := CommentRow(gen.uid, taskUid, a.claims.uid, content.value, gen.now, encoded);
      var db' := db.(comments := db.comments + [c]);
      assert db'.comments[|db'.comments| - 1] == c;
      Outcome(Response(201, CommentBody(c)), db',
              [NewCommentAdded(gen.uid, taskUid, a.claims.uid, content.value, gen.now)])
  }

  // ---------------------------------------------------------------------
  // Notifications

  /** `WHERE user_uid = $1`, keeping order and multiplicity. */
  function OwnedBy(ns: seq<Notification>, uid: string): (r: seq<Notification>)
    ensures |r| <= |ns|
    ensures forall i :: 0 <= i < |r| ==> r[i].userUid == uid
    ensures forall n: Notification :: n.userUid == uid ==> multiset(r)[n] == multiset(ns)[n]
    ensures forall n: Notification :: n.userUid != uid ==> multiset(r)[n] == 0
  {
    if ns == [] then []
    else
      var rest := OwnedBy(ns[1..], uid);
      assert ns == [ns[0]] + ns[1..];
      if ns[0].userUid == uid then [ns[0]] + rest else rest
  }

  predicate NewestFirst(ns: seq<Notification>) {
    forall i, j :: 0 <= i < j < |ns| ==> ns[i].createdAt >= ns[j].createdAt
  }

  /** An entry at least as new as the head of a newest-first list can go
      in front of it. */
  lemma ConsNewestFirst(x: Notification, ns: seq<Notification>)
    requires NewestFirst(ns)
    requires ns != [] ==> ns[0].createdAt <= x.createdAt
    ensures NewestFirst([x] + ns)
  {
    var r := [x] + ns;
    forall i, j | 0 <= i < j < |r| ensures r[i].createdAt >= r[j].createdAt {
      if i == 0 {
        assert r[j] == ns[j - 1];
        if j > 1 {
          assert ns[0].createdAt >= ns[j - 1].createdAt;
        }
      } else {
        assert r[i] == ns[i - 1] && r[j] == ns[j - 1];
      }
    }
  }

  /** Inserts `n` into a list after every leading entry newer than it. */
  function InsertNewestFirst(n: Notification, ns: seq<Notification>): (r: seq<Notification>)
    ensures |r| == |ns| + 1
    ensures r[0] == n || (ns != [] && r[0] == ns[0])
    ensures multiset(r) == multiset(ns) + multiset{n}
  {
    if ns == [] || ns[0].createdAt <= n.createdAt then [n] + ns
    else
      assert ns == [ns[0]] + ns[1..];
      [ns[0]] + InsertNewestFirst(n, ns[1..])
  }

  /** Insertion keeps a newest-first list newest first. */
  lemma {:induction false} InsertKeepsNewestFirst(n: Notification, ns: seq<Notification>)
    requires NewestFirst(ns)
    ensures NewestFirst(InsertNewestFirst(n, ns))
    decreases |ns|
  {
    if ns == [] || ns[0].createdAt <= n.createdAt {
      ConsNewestFirst(n, ns);
    } else {
      assert NewestFirst(ns[1..]) by {
        forall i, j | 0 <= i < j < |ns[1..]| ensures ns[1..][i].createdAt >= ns[1..][j].createdAt {
          assert ns[1..][i] == ns[i + 1] && ns[1..][j] == ns[j + 1];
        }
      }
      var rest := InsertNewestFirst(n, ns[1..]);
      InsertKeepsNewestFirst(n, ns[1..]);
      assert rest[0].createdAt <= ns[0].createdAt;
      ConsNewestFirst(ns[0], rest);
    }
  }

  /** `ORDER BY created_at DESC` (ties kept in table order). */
  function SortNewestFirst(ns: seq<Notification>): (r: seq<Notification>)
    ensures NewestFirst(r)
    ensures multiset(r) == multiset(ns)
  {
    if ns == [] then []
    else
      assert ns == [ns[0]] + ns[1..];
      InsertKeepsNewestFirst(ns[0], SortNewestFirst(ns[1..]));
      InsertNewestFirst(ns[0], SortNewestFirst(ns[1..]))
  }

  /** `GET /api/notifications`. Database call 0 is the SELECT. The list
      holds exactly the caller's notifications, newest first. */
  function GetNotifications(svc: Services, db: DB, header: Option<string>, fault: Option<nat>): (r: Outcome)
    ensures r.db == db && r.events == []
    ensures !Authenticate(svc, header).Authenticated? ==> Stopped(Authenticate(svc, header), db, r)
    ensures r.response.status == 200 <==> Authenticate(svc, header).Authenticated? && !FailsAt(fault, 0)
    ensures r.response.status == 200 ==>
      var uid := Authenticate(svc, header).claims.uid;
      && r.response.body.NotificationList?
      && NewestFirst(r.response.body.list)
      && (forall i :: 0 <= i < |r.response.body.list| ==> r.response.body.list[i].userUid == uid)
      && (forall n: Notification :: n.userUid == uid ==> multiset(r.response.body.list)[n] == multiset(db.notifications)[n])
  {
    var a := Authenticate(svc, header);
    if !a.Authenticated? then Outcome(Rejection(a), db, [])
    else if FailsAt(fault, 0) then Outcome(InternalError, db, [])
    else
      var mine := OwnedBy(db.notifications, a.claims.uid);
      var list := SortNewestFirst(mine);
      assert forall i | 0 <= i < |list| :: list[i].userUid == a.claims.uid by {
        forall i | 0 <= i < |list| ensures list[i].userUid == a.claims.uid {
          assert list[i] in multiset(mine);
        }
      }
      Outcome(Response(200, NotificationList(list)), db, [])
  }
}
