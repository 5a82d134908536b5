/** The team-management view: who may open it, the add-member form with its
    invite status, and the list updates after removing a member or changing
    a role. A request's outcome is a parameter. */
module TeamManagement {
  import opened Js
  import opened Text
  import opened Entities
  import opened Lists

  datatype Member = Member(uid: string, name: string, role: string, avatarUrl: Option<string>)

  datatype InviteStatus = Idle | Loading

  /** The view's local state. */
  datatype TeamView = TeamView(
    members: seq<Member>,
    inviteStatus: InviteStatus,
    showAddForm: bool,
    newName: string,
    newRole: string,
    newAvatarUrl: string)

  const InitialView := TeamView([], Idle, false, "", "Member", "")

  /** Access is granted to a signed-in user whose role is exactly "admin" or
      "manager". */
  predicate IsAuthorized(currentUser: Option<User>) {
    currentUser.Some? && (currentUser.value.role == "admin" || currentUser.value.role == "manager")
  }

  /** The effect that loads the member list runs only with a token and an
      authorized user. */
  function ShouldFetch(token: string, currentUser: Option<User>): (b: bool)
    ensures b <==> token != "" && currentUser.Some?
                   && currentUser.value.role in {"admin", "manager"}
  {
    token != "" && IsAuthorized(currentUser)
  }

  /** The request body the form posts. */
  datatype MemberPayload = MemberPayload(name: string, role: string, avatarUrl: string)

  /** The payload: the typed name and role, and the typed avatar URL unless
      it is empty, in which case the picsum seed URL for the name
      (`encode` stands for `encodeURIComponent`). Either way a member is
      never posted without an avatar. */
  function Payload(v: TeamView, encode: string -> string): (p: MemberPayload)
    ensures p.name == v.newName && p.role == v.newRole
    ensures p.avatarUrl != ""
    ensures v.newAvatarUrl != "" ==> p.avatarUrl == v.newAvatarUrl
    ensures v.newAvatarUrl == "" ==> p.avatarUrl == "https://picsum.photos/seed/" + encode(v.newName) + "/50/50"
  {
    MemberPayload(v.newName, v.newRole,
                  StrOr(Some(v.newAvatarUrl), "https://picsum.photos/seed/" + encode(v.newName) + "/50/50"))
  }

  /** The first half of `handleAddMember`: a blank name sends nothing (the
      alert is not modelled); otherwise the payload goes out and the invite
      status becomes "loading". */
  function StartAddMember(v: TeamView, encode: string -> string): (r: (TeamView, Option<MemberPayload>))
    ensures IsBlank(v.newName) <==> r.1.None?
    ensures r.1.None? ==> r.0 == v
    ensures r.1.Some? ==> r.0 == v.(inviteStatus := Loading) && r.1.value == Payload(v, encode)
  {
    if IsBlank(v.newName) then (v, None)
    else (v.(inviteStatus := Loading), Some(Payload(v, encode)))
  }

  /** The second half: the server's new member (`server`) is appended and
      the form reset and hidden; a failure only returns the status to idle. */
  function CompleteAddMember(v: TeamView, server: Option<Member>): (r: TeamView)
    ensures r.inviteStatus == Idle
    ensures server.Some? ==> r.members == v.members + [server.value]
    ensures server.Some? ==> r.newName == "" && r.newRole == "Member" && r.newAvatarUrl == "" && !r.showAddForm
    ensures server.None? ==> r == v.(inviteStatus := Idle)
  {
    match server
    case Some(m) =>
      v.(members := v.members + [m], inviteStatus := Idle, newName := "",
         newRole := "Member", newAvatarUrl := "", showAddForm := false)
    case None => v.(inviteStatus := Idle)
  }

  /** Whatever the outcome, an add that was sent ends with the invite status
      back at idle and the earlier members still first, in order. */
  lemma AddMemberSettles(v: TeamView, encode: string -> string, server: Option<Member>)
    requires !IsBlank(v.newName)
    ensures var started := StartAddMember(v, encode);
      && started.0.inviteStatus == Loading
      && CompleteAddMember(started.0, server).inviteStatus == Idle
      && CompleteAddMember(started.0, server).members[..|v.members|] == v.members
  {
  }

  /** `handleRemoveMember`: after the server accepted (`ok`), every member
      with that uid is gone and the others keep their order. */
  function RemoveMember(members: seq<Member>, uid: string, ok: bool): (r: seq<Member>)
    ensures !ok ==> r == members
    ensures ok ==> forall m :: m in r <==> m in members && m.uid != uid
    ensures ok ==> forall i :: 0 <= i < |r| ==> r[i].uid != uid
  {
    if ok then Filter(members, OtherUid(uid)) else members
  }

  /** The removal filter's test. */
  function OtherUid(uid: string): Member -> bool {
    (m: Member) => m.uid != uid
  }

  /** Removal is idempotent and keeps the remaining members' relative order. */
  lemma RemoveMemberLaws(a: seq<Member>, b: seq<Member>, uid: string)
    ensures RemoveMember(RemoveMember(a, uid, true), uid, true) == RemoveMember(a, uid, true)
    ensures RemoveMember(a + b, uid, true) == RemoveMember(a, uid, true) + RemoveMember(b, uid, true)
  {
    FilterAppend(a, b, OtherUid(uid));
  }

  /** `handleUpdateRole`: members with that uid take the role the server
      returned (`serverRole`; None when the request failed); nothing else
      changes. */
  function UpdateRole(members: seq<Member>, uid: string, serverRole: Option<string>): (r: seq<Member>)
    ensures |r| == |members|
    ensures serverRole.None? ==> r == members
    ensures forall i :: 0 <= i < |r| ==> r[i].(role := members[i].role) == members[i]
    ensures serverRole.Some? ==> forall i :: 0 <= i < |r| ==>
      r[i].role == (if members[i].uid == uid then serverRole.value else members[i].role)
  {
    match serverRole
    case None => members
    case Some(role) =>
      seq(|members|, i requires 0 <= i < |members| =>
        if members[i].uid == uid then members[i].(role := role) else members[i])
  }

  /** A role update never changes who is in the list, and touches only
      the members a removal of the same uid would drop. */
  lemma {:induction false} UpdateRoleTouchesOnlyUid(members: seq<Member>, uid: string, role: string)
    ensures forall i :: 0 <= i < |members| ==> UpdateRole(members, uid, Some(role))[i].uid == members[i].uid
    ensures RemoveMember(UpdateRole(members, uid, Some(role)), uid, true) == RemoveMember(members, uid, true)
    decreases |members|
  {
    if members != [] {
      var r := UpdateRole(members, uid, Some(role));
      UpdateRoleTouchesOnlyUid(members[1..], uid, role);
      assert r[1..] == UpdateRole(members[1..], uid, Some(role));
      assert members[0].uid != uid ==> r[0] == members[0];
    }
  }
}
