/**
 * The admin panel's layout: the gate that runs when an admin route is
 * entered, the logout button, and the highlighting of the current item in
 * the navigation list.
 */
module AdminLayout {
  import opened Wrappers
  import opened Session

  datatype NavItem = NavItem(name: string, path: string)

  const NavItems: seq<NavItem> := [
    NavItem("Dashboard", "/admin/dashboard"),
    NavItem("Mixtapes", "/admin/mixtapes"),
    NavItem("Events", "/admin/events"),
    NavItem("Media", "/admin/media"),
    NavItem("Portfolio", "/admin/portfolio"),
    NavItem("Blog Posts", "/admin/posts"),
    NavItem("Bookings", "/admin/bookings"),
    NavItem("Subscribers", "/admin/subscribers")
  ]

  /** A navigation item is highlighted when the current pathname is exactly its path. */
  predicate IsActive(pathname: string, item: NavItem) {
    pathname == item.path
  }

  /** The navigation paths are pairwise distinct, so at most one item is highlighted for any pathname. */
  lemma AtMostOneActive(pathname: string, i: nat, j: nat)
    requires i < j < |NavItems|
    ensures !(IsActive(pathname, NavItems[i]) && IsActive(pathname, NavItems[j]))
  {
    assert NavItems[i].path != NavItems[j].path by {
      assert forall a, b :: 0 <= a < b < |NavItems| ==> NavItems[a].path[7..] != NavItems[b].path[7..];
    }
  }

  class Layout {
    const storage: LocalStorage
    var loading: bool

    constructor (storage: LocalStorage)
      ensures this.storage == storage && loading
    {
      this.storage := storage;
      loading := true;
    }

    /**
     * `checkAuth`: a missing or empty marker, or a storage read that throws,
     * sends the browser to the login page and leaves the layout loading; any
     * other value, not only "true", lets the panel render.
     */
    method CheckAuth(readThrows: bool) returns (nav: Option<string>)
      modifies this
      ensures nav == if readThrows || !IsAuthorized(storage.items) then Some(LoginPath) else None
      ensures loading == (old(loading) && nav.Some?)
    {
      if readThrows {
        nav := Some(LoginPath);
        return;
      }
      var adminVerified := storage.GetItem(AdminKey);
      if adminVerified.None? || adminVerified.value == "" {
        nav := Some(LoginPath);
        return;
      }
      loading := false;
      nav := None;
    }

    /** `handleLogout`: the marker is removed and the browser goes to the login page. */
    method HandleLogout() returns (nav: Option<string>)
      modifies storage
      ensures storage.items == Revoke(old(storage.items))
      ensures nav == Some(LoginPath)
    {
      storage.RemoveItem(AdminKey);
      nav := Some(LoginPath);
    }
  }

  /** After a logout, the next gate check sends the browser back to the login page. */
  method LogoutThenCheck(layout: Layout) returns (nav: Option<string>)
    modifies layout, layout.storage
    ensures nav == Some(LoginPath)
  {
    var _ := layout.HandleLogout();
    nav := layout.CheckAuth(false);
  }
}
