/** The user-profile view: the local copy of the profile, cancelling an
    edit, submitting changes (which also updates the store's user) and the
    avatar upload. A request's outcome is a parameter. */
module UserProfile {
  import opened Js
  import opened Entities
  import Store

  /** The local profile: like the store's user, with the avatar as a string. */
  datatype Profile = Profile(uid: string, name: string, email: string, avatarUrl: string, createdAt: int, updatedAt: int)

  datatype ProfileView = ProfileView(profile: Profile, editMode: bool, password: string)

  /** The local profile copied from a user, a missing avatar becoming "". */
  function FromUser(u: User): (p: Profile)
    ensures p.uid == u.uid && p.name == u.name && p.email == u.email
    ensures p.createdAt == u.createdAt && p.updatedAt == u.updatedAt
    ensures p.avatarUrl == (if Truthy(u.avatarUrl) then u.avatarUrl.value else "")
  {
    Profile(u.uid, u.name, u.email, StrOr(u.avatarUrl, ""), u.createdAt, u.updatedAt)
  }

  /** `cancelProfileEdit`: the profile returns to the store's user when
      there is one; the password is cleared and editing ends. */
  function Cancel(v: ProfileView, globalUser: Option<User>): (r: ProfileView)
    ensures r.password == "" && !r.editMode
    ensures globalUser.Some? ==> r.profile == FromUser(globalUser.value)
    ensures globalUser.None? ==> r.profile == v.profile
  {
    var profile := if globalUser.Some? then FromUser(globalUser.value) else v.profile;
    ProfileView(profile, false, "")
  }

  /** The request body; `password` is present only when one was typed. */
  datatype UpdatePayload = UpdatePayload(name: string, email: string, avatarUrl: string, password: Option<string>)

  /** `submitProfileChange`: an empty name or email sends nothing. After
      the server's updated user (`server`) arrives, the store's user is set
      to it through `set_current_user`, the local profile mirrors it, the
      password is cleared and editing ends; a failure changes nothing. */
  function Submit(v: ProfileView, store: Store.GlobalState, server: Option<User>)
    : (r: (ProfileView, Store.GlobalState, Option<UpdatePayload>))
    ensures r.2.None? <==> v.profile.name == "" || v.profile.email == ""
    ensures r.2.Some? ==>
      r.2.value.name == v.profile.name && r.2.value.email == v.profile.email
      && r.2.value.avatarUrl == v.profile.avatarUrl
    ensures r.2.Some? ==> (r.2.value.password.Some? <==> v.password != "")
    ensures r.2.Some? && r.2.value.password.Some? ==> r.2.value.password.value == v.password
    ensures r.2.None? || server.None? ==> r.0 == v && r.1 == store
    ensures r.2.Some? && server.Some? ==>
      && r.1 == Store.Reduce(store, Store.SetCurrentUser(server.value))
      && r.0 == ProfileView(FromUser(server.value), false, "")
  {
    if v.profile.name == "" || v.profile.email == "" then (v, store, None)
    else
      var payload := UpdatePayload(v.profile.name, v.profile.email, v.profile.avatarUrl,
                                   if v.password != "" then Some(v.password) else None);
      match server
      case None => (v, store, Some(payload))
      case Some(u) =>
        (ProfileView(FromUser(u), false, ""), Store.Reduce(store, Store.SetCurrentUser(u)), Some(payload))
  }

  /** After a successful submit the store and the view agree: cancelling
      right away changes nothing, and the store's unread counter invariant
      still holds. */
  lemma SubmitAgreesWithStore(v: ProfileView, store: Store.GlobalState, u: User)
    requires v.profile.name != "" && v.profile.email != ""
    requires Store.Consistent(store)
    ensures var r := Submit(v, store, Some(u));
      && r.1.currentUser == Some(u)
      && Cancel(r.0, r.1.currentUser) == r.0
      && Store.Consistent(r.1)
  {
  }

  /** `uploadAvatar`: without a chosen file nothing happens; after upload
      only the avatar URL changes, to the one the server returned. */
  function UploadAvatar(v: ProfileView, hasFile: bool, serverUrl: Option<string>): (r: ProfileView)
    ensures !hasFile || serverUrl.None? ==> r == v
    ensures hasFile && serverUrl.Some? ==>
      r.profile.avatarUrl == serverUrl.value && r.(profile := r.profile.(avatarUrl := v.profile.avatarUrl)) == v
  {
    if hasFile && serverUrl.Some? then v.(profile := v.profile.(avatarUrl := serverUrl.value)) else v
  }

  /** A second upload overwrites the first; cancelling drops an upload
      like any other local edit; and the next submit sends the uploaded
      URL. */
  lemma UploadAvatarPartners(v: ProfileView, u1: string, u2: string, store: Store.GlobalState,
                             globalUser: Option<User>, server: Option<User>)
    ensures UploadAvatar(UploadAvatar(v, true, Some(u1)), true, Some(u2)) == UploadAvatar(v, true, Some(u2))
    ensures globalUser.Some? ==> Cancel(UploadAvatar(v, true, Some(u1)), globalUser) == Cancel(v, globalUser)
    ensures var sent := Submit(UploadAvatar(v, true, Some(u1)), store, server).2;
      sent.Some? ==> sent.value.avatarUrl == u1
  {
  }
}
