/** The layout data of the CMS: `getMenu` turns raw menu items into the tagged
    `MenuItem` union, recursively through submenus, and `getLayoutProps` builds the
    footer. The Markdown renderer and the image conversion are parameters. */
module LayoutApi {
  import opened Wrappers
  import opened GenericHelpers

  /** An image as the CMS delivers it, and as the layout uses it. */
  type RawImage = string
  type Image = string

  /** A raw menu item; a missing `description` is `""`, and `productList` is the
      handle of the linked product list, if any. */
  datatype RawItem =
    | ComponentMenuLink(name: string, url: string, description: string)
    | ComponentMenuLinkWithImage(name: string, url: string, rawImage: Option<RawImage>)
    | ComponentMenuProductListLink(name: string, productList: Option<string>)
    | ComponentMenuSubmenu(name: string, submenu: Option<RawMenu>)

  datatype RawMenu = RawMenu(items: seq<Option<RawItem>>)

  datatype MenuItem =
    | Link(name: string, url: string, descriptionHtml: Option<string>)
    | LinkWithImage(name: string, url: string, image: Option<Image>)
    | ProductListLink(name: string, url: string)
    | Submenu(name: string, submenu: Menu)

  datatype Menu = Menu(items: seq<MenuItem>)

  /** The callback of `rawMenu.items.map`: `None` stands for `null`. An item is
      dropped exactly when it is `null` or a submenu without a submenu; a kept item
      keeps its name. */
  function ConvertItem(item: Option<RawItem>, markdown: string -> string, toImage: Option<RawImage> -> Option<Image>): (r: Option<MenuItem>)
    ensures r.None? <==> item.None? || (item.value.ComponentMenuSubmenu? && item.value.submenu.None?)
    ensures r.Some? ==> r.value.name == item.value.name
    decreases item, 1
  {
    match item
    case None => None
    case Some(ComponentMenuLink(name, url, description)) =>
      Some(Link(name, url, if description != "" then Some(markdown(description)) else None))
    case Some(ComponentMenuLinkWithImage(name, url, rawImage)) =>
      Some(LinkWithImage(name, url, toImage(rawImage)))
    case Some(ComponentMenuProductListLink(name, productList)) =>
      Some(ProductListLink(name, match productList case Some(handle) => "/collections/" + handle case None => "#"))
    case Some(ComponentMenuSubmenu(name, submenu)) =>
      match submenu
      case None => None
      case Some(m) => Some(Submenu(name, GetMenu(m, markdown, toImage)))
  }

  /** `rawMenu.items.map(...)`, before the nulls are filtered out. */
  function ConvertItems(items: seq<Option<RawItem>>, markdown: string -> string, toImage: Option<RawImage> -> Option<Image>): (r: seq<Option<MenuItem>>)
    ensures |r| == |items|
    ensures forall i :: 0 <= i < |items| ==> r[i] == ConvertItem(items[i], markdown, toImage)
    decreases items, 2
  {
    if items == [] then []
    else [ConvertItem(items[0], markdown, toImage)] + ConvertItems(items[1..], markdown, toImage)
  }

  /** `getMenu`. */
  function GetMenu(rawMenu: RawMenu, markdown: string -> string, toImage: Option<RawImage> -> Option<Image>): (r: Menu)
    ensures |r.items| <= |rawMenu.items|
    ensures forall i :: 0 <= i < |r.items| ==> Some(r.items[i]) in ConvertItems(rawMenu.items, markdown, toImage)
    ensures forall i :: 0 <= i < |rawMenu.items| && ConvertItem(rawMenu.items[i], markdown, toImage).Some? ==>
      ConvertItem(rawMenu.items[i], markdown, toImage).value in r.items
    decreases rawMenu, 3
  {
    Menu(Present(ConvertItems(rawMenu.items, markdown, toImage)))
  }

  /** Each converted item keeps its name and kind; a link carries rendered Markdown
      exactly when it has a description, and a product-list link points to the
      collection of its product list, or to `#`. */
  lemma ConvertItemShape(item: RawItem, markdown: string -> string, toImage: Option<RawImage> -> Option<Image>)
    ensures var r := ConvertItem(Some(item), markdown, toImage);
      && (item.ComponentMenuLink? ==>
            && r == Some(Link(item.name, item.url, r.value.descriptionHtml))
            && (r.value.descriptionHtml.Some? <==> item.description != "")
            && (item.description != "" ==> r.value.descriptionHtml.value == markdown(item.description)))
      && (item.ComponentMenuLinkWithImage? ==> r == Some(LinkWithImage(item.name, item.url, toImage(item.rawImage))))
      && (item.ComponentMenuProductListLink? && item.productList.Some? ==>
            r == Some(ProductListLink(item.name, "/collections/" + item.productList.value)))
      && (item.ComponentMenuProductListLink? && item.productList.None? ==> r == Some(ProductListLink(item.name, "#")))
      && (item.ComponentMenuSubmenu? && item.submenu.Some? ==>
            r == Some(Submenu(item.name, GetMenu(item.submenu.value, markdown, toImage))))
  {
  }

  /** Converting keeps the order of the items: the menu of two lists of items is
      the menu of the first followed by the menu of the second. */
  lemma {:induction false} GetMenuAppend(a: seq<Option<RawItem>>, b: seq<Option<RawItem>>,
                                         markdown: string -> string, toImage: Option<RawImage> -> Option<Image>)
    ensures GetMenu(RawMenu(a + b), markdown, toImage).items
      == GetMenu(RawMenu(a), markdown, toImage).items + GetMenu(RawMenu(b), markdown, toImage).items
  {
    var ca := ConvertItems(a, markdown, toImage);
    var cb := ConvertItems(b, markdown, toImage);
    var cab := ConvertItems(a + b, markdown, toImage);
    forall i | 0 <= i < |cab| ensures cab[i] == (ca + cb)[i] {
      if i < |a| {
        assert (a + b)[i] == a[i];
      } else {
        assert (a + b)[i] == b[i - |a|];
      }
    }
    assert cab == ca + cb;
    PresentAppend(ca, cb);
  }

  /** A menu whose items are all present and not empty submenus keeps all of them. */
  lemma GetMenuKeepsAll(rawMenu: RawMenu, markdown: string -> string, toImage: Option<RawImage> -> Option<Image>)
    requires forall i :: 0 <= i < |rawMenu.items| ==>
      rawMenu.items[i].Some? && !(rawMenu.items[i].value.ComponentMenuSubmenu? && rawMenu.items[i].value.submenu.None?)
    ensures |GetMenu(rawMenu, markdown, toImage).items| == |rawMenu.items|
    ensures forall i :: 0 <= i < |rawMenu.items| ==>
      Some(GetMenu(rawMenu, markdown, toImage).items[i]) == ConvertItem(rawMenu.items[i], markdown, toImage)
  {
    var c := ConvertItems(rawMenu.items, markdown, toImage);
    assert forall i :: 0 <= i < |c| ==> c[i].Some?;
    PresentOfAllSome(c);
  }

  // ---------------------------------------------------------------------------
  // getLayoutProps
  // ---------------------------------------------------------------------------

  datatype RawFooter = RawFooter(menu1: Option<RawMenu>, menu2: Option<RawMenu>, partners: Option<RawMenu>, bottomMenu: Option<RawMenu>)

  datatype StoreSettings = StoreSettings(footer: Option<RawFooter>, socialMediaAccounts: Option<map<string, string>>)

  datatype StoreListItem = StoreListItem(code: string, name: string, url: string, currency: string)

  /** The layout query: the current store (a list, of which the first is used) and
      the list of stores. */
  datatype LayoutPropsData = LayoutPropsData(currentStore: Option<seq<Option<StoreSettings>>>, stores: Option<seq<Option<StoreListItem>>>)

  datatype Footer = Footer(
    menu1: Option<Menu>,
    menu2: Option<Menu>,
    partners: Option<Menu>,
    bottomMenu: Option<Menu>,
    socialMediaAccounts: map<string, string>,
    stores: seq<StoreListItem>)

  function MenuOf(raw: Option<RawMenu>, markdown: string -> string, toImage: Option<RawImage> -> Option<Image>): (r: Option<Menu>)
    ensures r.Some? <==> raw.Some?
    ensures raw.Some? ==> r.value == GetMenu(raw.value, markdown, toImage)
  {
    match raw
    case None => None
    case Some(m) => Some(GetMenu(m, markdown, toImage))
  }

  /** `getLayoutProps`: the footer of the first current store. */
  function GetLayoutProps(data: LayoutPropsData, markdown: string -> string, toImage: Option<RawImage> -> Option<Image>): (r: Footer)
    ensures r.stores == FilterNullableItems(data.stores)
  {
    var currentStore := match data.currentStore
      case Some(list) => if list == [] then None else list[0]
      case None => None;
    var footer := match currentStore case Some(s) => s.footer case None => None;
    var socialMediaAccounts := match currentStore
      case Some(s) => s.socialMediaAccounts.GetOr(map[])
      case None => map[];
    Footer(
      MenuOf(match footer case Some(f) => f.menu1 case None => None, markdown, toImage),
      MenuOf(match footer case Some(f) => f.menu2 case None => None, markdown, toImage),
      MenuOf(match footer case Some(f) => f.partners case None => None, markdown, toImage),
      MenuOf(match footer case Some(f) => f.bottomMenu case None => None, markdown, toImage),
      socialMediaAccounts,
      FilterNullableItems(data.stores))
  }

  /** Each footer menu is present exactly when the current store's footer has it,
      and the social media accounts default to none. */
  lemma GetLayoutPropsFooter(settings: StoreSettings, rest: seq<Option<StoreSettings>>, stores: Option<seq<Option<StoreListItem>>>,
                             markdown: string -> string, toImage: Option<RawImage> -> Option<Image>)
    ensures var r := GetLayoutProps(LayoutPropsData(Some([Some(settings)] + rest), stores), markdown, toImage);
      && (r.menu1.Some? <==> settings.footer.Some? && settings.footer.value.menu1.Some?)
      && (r.menu2.Some? <==> settings.footer.Some? && settings.footer.value.menu2.Some?)
      && (r.partners.Some? <==> settings.footer.Some? && settings.footer.value.partners.Some?)
      && (r.bottomMenu.Some? <==> settings.footer.Some? && settings.footer.value.bottomMenu.Some?)
      && (settings.footer.Some? && settings.footer.value.menu1.Some? ==>
            r.menu1.value == GetMenu(settings.footer.value.menu1.value, markdown, toImage))
      && (settings.footer.Some? && settings.footer.value.menu2.Some? ==>
            r.menu2.value == GetMenu(settings.footer.value.menu2.value, markdown, toImage))
      && (settings.footer.Some? && settings.footer.value.partners.Some? ==>
            r.partners.value == GetMenu(settings.footer.value.partners.value, markdown, toImage))
      && (settings.footer.Some? && settings.footer.value.bottomMenu.Some? ==>
            r.bottomMenu.value == GetMenu(settings.footer.value.bottomMenu.value, markdown, toImage))
      && r.socialMediaAccounts == settings.socialMediaAccounts.GetOr(map[])
  {
  }

  /** Without a current store the footer has no menus and no social media accounts. */
  lemma GetLayoutPropsWithoutStore(stores: Option<seq<Option<StoreListItem>>>,
                                   markdown: string -> string, toImage: Option<RawImage> -> Option<Image>)
    ensures var r := GetLayoutProps(LayoutPropsData(None, stores), markdown, toImage);
      r.menu1.None? && r.menu2.None? && r.partners.None? && r.bottomMenu.None? && r.socialMediaAccounts == map[]
  {
  }
}
