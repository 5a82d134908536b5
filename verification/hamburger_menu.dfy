/** The hamburger menu for small screens: its open/closed switch and the
    item list derived from the signed-in user's role. */
module HamburgerMenu {
  import opened Js
  import opened Entities

  datatype MenuItem = MenuItem(name: string, path: string)

  const BaseItems: seq<MenuItem> := [
    MenuItem("Dashboard", "/dashboard"),
    MenuItem("Projects", "/project/create"),
    MenuItem("Tasks", "/task/create"),
    MenuItem("Calendar", "/calendar"),
    MenuItem("Profile", "/profile")]

  const TeamItem := MenuItem("Team", "/team")

  /** The items shown: the five base items, then "Team" for a user whose
      role is exactly "admin". */
  function Items(currentUser: Option<User>): (r: seq<MenuItem>)
    ensures |r| == 5 || |r| == 6
    ensures r[..5] == BaseItems
    ensures |r| == 6 <==> currentUser.Some? && currentUser.value.role == "admin"
    ensures |r| == 6 ==> r[5] == TeamItem
  {
    if currentUser.Some? && currentUser.value.role == "admin" then BaseItems + [TeamItem]
    else BaseItems
  }

  /** Role matching is exact: "Admin" or "manager" see no Team entry. */
  lemma OnlyExactAdminSeesTeam(u: User)
    requires u.role != "admin"
    ensures Items(Some(u)) == BaseItems
    ensures TeamItem !in Items(Some(u))
  {
  }

  /** `toggleMenu`. */
  function ToggleMenu(open: bool): (r: bool)
    ensures r != open
  {
    !open
  }

  /** `selectMenuItemFromHamburger`: choosing an item closes the menu. */
  function SelectItem(open: bool): (r: bool)
    ensures !r
  {
    false
  }

  lemma ToggleMenuTwice(open: bool)
    ensures ToggleMenu(ToggleMenu(open)) == open
    ensures SelectItem(ToggleMenu(open)) == SelectItem(open)
  {
  }
}
