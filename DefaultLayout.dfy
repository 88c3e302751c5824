/** The default page layout: the page title, the header navigation built from the
    store's menu (desktop menu and mobile drawer), the user menu and its
    notification badge. The menu is the `@ifixit/menu` shape, in which a submenu
    may be `null`. */
module DefaultLayout {
  import opened Wrappers
  import opened Strings
  import opened GenericHelpers

  datatype SubItem = LinkSubItem(name: string, url: string, description: string) | OtherSubItem(kind: string)

  datatype HeaderMenuItem = SubmenuItem(name: string, submenu: Option<seq<SubItem>>) | OtherItem(kind: string)

  /** `title || 'iFixit'`, when the layout includes a title. */
  function PageTitle(includeTitle: bool, title: Option<string>): (r: Option<string>)
    ensures r.Some? <==> includeTitle
    ensures includeTitle && title.Some? && title.value != "" ==> r == Some(title.value)
    ensures includeTitle && (title.None? || title == Some("")) ==> r == Some("iFixit")
  {
    if !includeTitle then None
    else match title
      case Some(t) => if t != "" then Some(t) else Some("iFixit")
      case None => Some("iFixit")
  }

  datatype Behaviour = Reload | Auto

  /** A rendered submenu link of the desktop menu. */
  datatype NavLink = NavLink(name: string, href: string, behaviour: Behaviour, description: Option<string>)

  datatype NavItem = NavItem(name: string, links: seq<NavLink>)

  /** The `/Store` link reloads the page; every other link navigates normally. */
  function NavLinkOf(subitem: SubItem): (r: Option<NavLink>)
    ensures r.Some? <==> subitem.LinkSubItem?
    ensures r.Some? ==> r.value.name == subitem.name && r.value.href == subitem.url
    ensures r.Some? ==> (r.value.behaviour == Reload <==> subitem.url == "/Store")
    ensures r.Some? ==> (r.value.description.Some? <==> subitem.description != "")
  {
    match subitem
    case LinkSubItem(name, url, description) =>
      Some(NavLink(name, url, if url == "/Store" then Reload else Auto, if description != "" then Some(description) else None))
    case OtherSubItem(_) => None
  }

  function NavLinks(subitems: seq<SubItem>): (r: seq<NavLink>)
    ensures |r| <= |subitems|
  {
    Present(seq(|subitems|, i requires 0 <= i < |subitems| => NavLinkOf(subitems[i])))
  }

  function NavItemOf(item: HeaderMenuItem): (r: Option<NavItem>)
    ensures r.Some? <==> item.SubmenuItem? && item.submenu.Some?
    ensures r.Some? ==> r.value == NavItem(item.name, NavLinks(item.submenu.value))
  {
    match item
    case SubmenuItem(name, submenu) =>
      (match submenu
       case Some(subitems) => Some(NavItem(name, NavLinks(subitems)))
       case None => None)
    case OtherItem(_) => None
  }

  /** The items of `NavigationMenu`. */
  function NavItems(items: seq<HeaderMenuItem>): (r: seq<NavItem>)
    ensures |r| <= |items|
  {
    Present(seq(|items|, i requires 0 <= i < |items| => NavItemOf(items[i])))
  }

  /** The header lists one item per submenu that is not `null`, with its name, in
      menu order: the items of a menu followed by more items are the items of the
      first followed by those of the rest. */
  lemma {:induction false} NavItemsAppend(a: seq<HeaderMenuItem>, b: seq<HeaderMenuItem>)
    ensures NavItems(a + b) == NavItems(a) + NavItems(b)
  {
    var f := (items: seq<HeaderMenuItem>) => seq(|items|, i requires 0 <= i < |items| => NavItemOf(items[i]));
    assert f(a + b) == f(a) + f(b);
    PresentAppend(f(a), f(b));
  }

  /** A single menu item shows exactly when it is a submenu that is not `null`. */
  lemma NavItemsOfOne(item: HeaderMenuItem)
    ensures NavItems([item]) == if item.SubmenuItem? && item.submenu.Some? then [NavItem(item.name, NavLinks(item.submenu.value))] else []
  {
    var g := seq(1, i requires 0 <= i < 1 => NavItemOf([item][i]));
    assert g == [NavItemOf(item)];
    assert g[1..] == [];
  }

  /** The links of a submenu keep the order of its link subitems. */
  lemma NavLinksAppend(subitems: seq<SubItem>, more: seq<SubItem>)
    ensures NavLinks(subitems + more) == NavLinks(subitems) + NavLinks(more)
  {
    var f := (xs: seq<SubItem>) => seq(|xs|, i requires 0 <= i < |xs| => NavLinkOf(xs[i]));
    assert f(subitems + more) == f(subitems) + f(more);
    PresentAppend(f(subitems), f(more));
  }

  /** A rendered link of the mobile drawer: name and url only. */
  datatype DrawerLink = DrawerLink(name: string, href: string)

  datatype DrawerItem = DrawerItem(name: string, links: seq<DrawerLink>)

  function DrawerLinkOf(subitem: SubItem): (r: Option<DrawerLink>)
    ensures r.Some? <==> subitem.LinkSubItem?
    ensures r.Some? ==> r.value.name == subitem.name && r.value.href == subitem.url
  {
    match subitem
    case LinkSubItem(name, url, _) => Some(DrawerLink(name, url))
    case OtherSubItem(_) => None
  }

  function DrawerLinks(subitems: seq<SubItem>): (r: seq<DrawerLink>)
    ensures |r| <= |subitems|
  {
    Present(seq(|subitems|, i requires 0 <= i < |subitems| => DrawerLinkOf(subitems[i])))
  }

  function DrawerItemOf(item: HeaderMenuItem): (r: Option<DrawerItem>)
    ensures r.Some? <==> item.SubmenuItem? && item.submenu.Some?
    ensures r.Some? ==> r.value == DrawerItem(item.name, DrawerLinks(item.submenu.value))
  {
    match item
    case SubmenuItem(name, submenu) =>
      (match submenu
       case Some(subitems) => Some(DrawerItem(name, DrawerLinks(subitems)))
       case None => None)
    case OtherItem(_) => None
  }

  /** The items of `LayoutNavigationDrawer`. */
  function DrawerItems(items: seq<HeaderMenuItem>): (r: seq<DrawerItem>)
    ensures |r| <= |items|
  {
    Present(seq(|items|, i requires 0 <= i < |items| => DrawerItemOf(items[i])))
  }

  /** A desktop link or item with its behaviour and description forgotten. */
  function AsDrawerLinks(links: seq<NavLink>): (r: seq<DrawerLink>)
    ensures |r| == |links|
  {
    if links == [] then [] else [DrawerLink(links[0].name, links[0].href)] + AsDrawerLinks(links[1..])
  }

  function AsDrawerItems(nav: seq<NavItem>): (r: seq<DrawerItem>)
    ensures |r| == |nav|
  {
    if nav == [] then [] else [DrawerItem(nav[0].name, AsDrawerLinks(nav[0].links))] + AsDrawerItems(nav[1..])
  }

  lemma {:induction false} AsDrawerItemsAppend(a: seq<NavItem>, b: seq<NavItem>)
    ensures AsDrawerItems(a + b) == AsDrawerItems(a) + AsDrawerItems(b)
  {
    if a != [] {
      assert (a + b)[1..] == a[1..] + b;
      AsDrawerItemsAppend(a[1..], b);
    } else {
      assert a + b == b;
    }
  }

  /** Forgetting behaviour and description, the mobile drawer shows the same items
      and links as the desktop menu. */
  lemma {:induction false} DrawerMatchesDesktop(items: seq<HeaderMenuItem>)
    ensures DrawerItems(items) == AsDrawerItems(NavItems(items))
  {
    if items != [] {
      var x, rest := items[0], items[1..];
      assert [x] + rest == items;
      NavItemsAppend([x], rest);
      DrawerItemsAppend([x], rest);
      AsDrawerItemsAppend(NavItems([x]), NavItems(rest));
      DrawerMatchesDesktop(rest);
      DrawerMatchesDesktopOne(x);
    } else {
      assert NavItems(items) == [];
    }
  }

  lemma DrawerMatchesDesktopOne(item: HeaderMenuItem)
    ensures DrawerItems([item]) == AsDrawerItems(NavItems([item]))
  {
    NavItemsOfOne(item);
    DrawerItemsOfOne(item);
    if item.SubmenuItem? && item.submenu.Some? {
      DrawerLinksMatch(item.submenu.value);
      var n := NavItem(item.name, NavLinks(item.submenu.value));
      assert AsDrawerItems([n]) == [DrawerItem(n.name, AsDrawerLinks(n.links))] + AsDrawerItems([]);
    }
  }

  lemma {:induction false} DrawerItemsAppend(a: seq<HeaderMenuItem>, b: seq<HeaderMenuItem>)
    ensures DrawerItems(a + b) == DrawerItems(a) + DrawerItems(b)
  {
    var f := (items: seq<HeaderMenuItem>) => seq(|items|, i requires 0 <= i < |items| => DrawerItemOf(items[i]));
    assert f(a + b) == f(a) + f(b);
    PresentAppend(f(a), f(b));
  }

  lemma DrawerItemsOfOne(item: HeaderMenuItem)
    ensures DrawerItems([item]) == match DrawerItemOf(item) case Some(d) => [d] case None => []
  {
    var g := seq(1, i requires 0 <= i < 1 => DrawerItemOf([item][i]));
    assert g == [DrawerItemOf(item)];
    assert g[1..] == [];
  }

  lemma {:induction false} DrawerLinksMatch(subitems: seq<SubItem>)
    ensures DrawerLinks(subitems) == AsDrawerLinks(NavLinks(subitems))
  {
    var d := seq(|subitems|, i requires 0 <= i < |subitems| => DrawerLinkOf(subitems[i]));
    var n := seq(|subitems|, i requires 0 <= i < |subitems| => NavLinkOf(subitems[i]));
    if subitems != [] {
      DrawerLinksMatch(subitems[1..]);
      assert d[1..] == seq(|subitems[1..]|, i requires 0 <= i < |subitems[1..]| => DrawerLinkOf(subitems[1..][i]));
      assert n[1..] == seq(|subitems[1..]|, i requires 0 <= i < |subitems[1..]| => NavLinkOf(subitems[1..][i]));
      if n[0].Some? {
        assert NavLinks(subitems) == [n[0].value] + NavLinks(subitems[1..]);
      }
    } else {
      assert NavLinks(subitems) == [];
    }
  }

  // ---------------------------------------------------------------------------
  // The user menu
  // ---------------------------------------------------------------------------

  /** `NotificationCountBadge`: nothing at zero, `100+` above a hundred. */
  function NotificationCountBadge(count: int): (r: Option<string>)
    ensures r.None? <==> count == 0
    ensures count > 100 ==> r == Some("100+")
    ensures count != 0 && count <= 100 ==> r == Some(IntToString(count))
  {
    if count == 0 then None else if count > 100 then Some("100+") else Some(IntToString(count))
  }

  /** For counts from one to a hundred the badge text reads back as the count. */
  lemma NotificationCountBadgeReadsBack(count: int)
    requires 0 < count <= 100
    ensures ParseInt(NotificationCountBadge(count).value) == Num(count)
  {
    ParseIntOfIntToString(count);
  }

  datatype UserLinks = UserLinks(manage: Option<string>)

  datatype User = User(id: int, username: string, unreadNotificationCount: Option<int>, teams: seq<string>, links: UserLinks)

  datatype UserMenuLink = UserMenuLink(labelText: string, href: string)

  datatype HeaderUserMenu =
    | NoUserLink(loginHref: string)
    | UserMenu(hasUnreadNotifications: bool, badge: Option<string>, menuLinks: seq<UserMenuLink>)

  /** `unread_notification_count ?? 0`. */
  function NotificationsCount(user: User): (r: int)
    ensures user.unreadNotificationCount.None? ==> r == 0
    ensures user.unreadNotificationCount.Some? ==> r == user.unreadNotificationCount.value
  {
    user.unreadNotificationCount.GetOr(0)
  }

  /** The links of the user menu, in order; `My Team` needs a team and `Manage` a
      non-empty manage link. */
  function UserMenuLinks(user: User, ifixitOrigin: string): (r: seq<UserMenuLink>)
    ensures 4 <= |r| <= 6
    ensures r[0].labelText == "Notifications" && r[1].labelText == "View Profile"
    ensures r[|r| - 1] == UserMenuLink("Log Out", ifixitOrigin + "/Guide/logout")
    ensures forall i :: 0 <= i < |r| ==> |r[i].href| >= |ifixitOrigin| && r[i].href[..|ifixitOrigin|] == ifixitOrigin
  {
    [UserMenuLink("Notifications", ifixitOrigin + "/User/Notifications/" + IntToString(user.id) + "/" + user.username),
     UserMenuLink("View Profile", ifixitOrigin + "/User/" + IntToString(user.id) + "/" + user.username)]
    + (if |user.teams| > 0 then [UserMenuLink("My Team", ifixitOrigin + "/Team")] else [])
    + [UserMenuLink("Orders", ifixitOrigin + "/User/Orders")]
    + (match user.links.manage
       case Some(manage) => if manage != "" then [UserMenuLink("Manage", ifixitOrigin + manage)] else []
       case None => [])
    + [UserMenuLink("Log Out", ifixitOrigin + "/Guide/logout")]
  }

  function Labels(links: seq<UserMenuLink>): (r: seq<string>)
    ensures |r| == |links| && forall i :: 0 <= i < |r| ==> r[i] == links[i].labelText
  {
    seq(|links|, i requires 0 <= i < |links| => links[i].labelText)
  }

  function HeaderUserMenuOf(user: Option<User>, ifixitOrigin: string): (r: HeaderUserMenu)
    ensures user.None? <==> r == NoUserLink(ifixitOrigin + "/Login")
    ensures user.Some? ==> r.UserMenu? && r.menuLinks == UserMenuLinks(user.value, ifixitOrigin)
    ensures user.Some? ==> (r.hasUnreadNotifications <==> NotificationsCount(user.value) > 0)
    ensures user.Some? ==> r.badge == NotificationCountBadge(NotificationsCount(user.value))
  {
    match user
    case None => NoUserLink(ifixitOrigin + "/Login")
    case Some(u) =>
      var notificationsCount := NotificationsCount(u);
      UserMenu(notificationsCount > 0, NotificationCountBadge(notificationsCount), UserMenuLinks(u, ifixitOrigin))
  }

  /** The user menu always offers notifications, profile, orders and log out, in
      that order; `My Team` shows exactly with a team and `Manage` exactly with a
      non-empty manage link. */
  lemma UserMenuLabels(user: User, ifixitOrigin: string)
    ensures var labels := Labels(UserMenuLinks(user, ifixitOrigin));
      var manage := user.links.manage.Some? && user.links.manage.value != "";
      labels == ["Notifications", "View Profile"] + (if |user.teams| > 0 then ["My Team"] else []) + ["Orders"]
                + (if manage then ["Manage"] else []) + ["Log Out"]
  {
    var links := UserMenuLinks(user, ifixitOrigin);
    var manage := user.links.manage.Some? && user.links.manage.value != "";
    var teamLabels := if |user.teams| > 0 then ["My Team"] else [];
    var manageLabels := if manage then ["Manage"] else [];
    var expected := ["Notifications", "View Profile"] + teamLabels + ["Orders"] + manageLabels + ["Log Out"];
    assert |links| == |expected|;
    forall i | 0 <= i < |links| ensures links[i].labelText == expected[i] {
    }
  }

  /** A missing count shows no unread flag and no badge. */
  lemma MissingCountShowsNothing(user: User, ifixitOrigin: string)
    requires user.unreadNotificationCount.None?
    ensures var r := HeaderUserMenuOf(Some(user), ifixitOrigin);
      !r.hasUnreadNotifications && r.badge.None?
  {
  }
}
