/** The sidebar: its menu, the collapse button, the responsive rule that
    collapses it below 768 pixels, and the authentication gate. Collapse
    state lives in the store and changes only through `toggle_sidebar`. */
module Sidebar {
  import opened Js
  import Store

  datatype MenuItem = MenuItem(name: string, key: string, link: string)

  const MenuItems: seq<MenuItem> := [
    MenuItem("Dashboard", "dashboard", "/dashboard"),
    MenuItem("Projects", "projects", "/dashboard?filter=projects"),
    MenuItem("Tasks", "tasks", "/dashboard?filter=tasks"),
    MenuItem("Calendar", "calendar", "/calendar"),
    MenuItem("Profile", "profile", "/profile")]

  /** Window widths below this collapse the sidebar. */
  const Breakpoint := 768

  /** `handleResize`: the actions dispatched for window width `width`. */
  function HandleResize(s: Store.GlobalState, width: int): (actions: seq<Store.Action>)
    ensures |actions| <= 1
    ensures actions == [] <==> s.isSidebarCollapsed == (width < Breakpoint)
    ensures actions != [] ==> actions == [Store.ToggleSidebar]
  {
    if width < Breakpoint && !s.isSidebarCollapsed then [Store.ToggleSidebar]
    else if width >= Breakpoint && s.isSidebarCollapsed then [Store.ToggleSidebar]
    else []
  }

  /** After one run of the handler the sidebar is collapsed exactly when the
      window is narrow, nothing else in the store changed, and a second run
      dispatches nothing. */
  lemma ResizeSettles(s: Store.GlobalState, width: int)
    ensures var r := Store.Run(s, HandleResize(s, width));
      && r.isSidebarCollapsed == (width < Breakpoint)
      && r.(isSidebarCollapsed := s.isSidebarCollapsed) == s
      && HandleResize(r, width) == []
  {
    var actions := HandleResize(s, width);
    if actions != [] {
      assert Store.Run(s, actions) == Store.Run(Store.Reduce(s, Store.ToggleSidebar), []);
    }
  }

  /** `handleToggleSidebar`: exactly one toggle, which flips the flag. */
  function ToggleButton(s: Store.GlobalState): (actions: seq<Store.Action>)
    ensures |actions| == 1
    ensures Store.Reduce(s, actions[0]).isSidebarCollapsed == !s.isSidebarCollapsed
  {
    [Store.ToggleSidebar]
  }

  /** `handleMenuItemClick`: the clicked item becomes selected and its link
      is navigated to. */
  function MenuItemClick(i: nat): (r: (string, string))
    requires i < |MenuItems|
    ensures r.0 == MenuItems[i].key && r.1 == MenuItems[i].link
  {
    (MenuItems[i].key, MenuItems[i].link)
  }

  /** What is drawn: each item with whether it is highlighted, and whether
      labels show (only when expanded). */
  datatype Drawn = Drawn(labelsShown: bool, highlighted: seq<bool>)

  /** The render: nothing for a signed-out user. */
  function Render(s: Store.GlobalState, selected: string): (r: Option<Drawn>)
    ensures r.None? <==> !s.isAuthenticated
    ensures r.Some? ==> r.value.labelsShown == !s.isSidebarCollapsed
    ensures r.Some? ==> |r.value.highlighted| == |MenuItems|
    ensures r.Some? ==> forall i :: 0 <= i < |MenuItems| ==> (r.value.highlighted[i] <==> MenuItems[i].key == selected)
  {
    if !s.isAuthenticated then None
    else Some(Drawn(!s.isSidebarCollapsed,
                    seq(|MenuItems|, i requires 0 <= i < |MenuItems| => MenuItems[i].key == selected)))
  }

  /** After clicking an item, that item and only that one is highlighted:
      the menu keys are distinct. */
  lemma ClickHighlightsOne(s: Store.GlobalState, i: nat)
    requires i < |MenuItems| && s.isAuthenticated
    ensures var d := Render(s, MenuItemClick(i).0).value;
      forall j :: 0 <= j < |MenuItems| ==> (d.highlighted[j] <==> j == i)
  {
  }
}
