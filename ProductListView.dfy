/** The product-list page: which list it shows, the hero title, the tags of a
    related-posts section and which sections render. The Algolia filter preset is
    a parameter; the item-type list is given when the page has one. */
module ProductListView {
  import opened Wrappers
  import opened Strings
  import opened GenericHelpers

  const HitsPerPage := 24

  datatype ProductListSection =
    | LifetimeWarranty(warrantyTitle: string, description: string, callToAction: string)
    | RelatedPosts(tags: Option<string>)
    | FeaturedProductLists(featuredTitle: string, productLists: seq<string>)
    | OtherSection(typename: string)

  datatype ProductList = ProductList(
    title: string,
    h1: Option<string>,
    tagline: Option<string>,
    description: string,
    heroImage: Option<string>,
    brandLogo: Option<string>,
    children: seq<string>,
    sections: seq<ProductListSection>)

  /** A component the page renders, with the props the rules decide. */
  datatype Rendered =
    | ConfigureSearch(filters: string, hitsPerPage: int)
    | MetaTags(list: ProductList)
    | SecondaryNavigation(list: ProductList)
    | HeroSection(heroTitle: string, heroTagline: Option<string>, heroDescription: string,
                  backgroundImage: Option<string>, heroBrandLogo: Option<string>)
    | ChildrenSection(list: ProductList)
    | FilterableProducts(list: ProductList, algoliaSSR: bool)
    | WarrantyBanner(bannerTitle: string, bannerDescription: string, bannerCallToAction: string)
    | RelatedPostsSection(postTags: seq<string>)
    | FeaturedProductListsSection(sectionTitle: string, lists: seq<string>)

  /** `itemTypeProductList ?? productList`. */
  function CurrentProductList(productList: ProductList, itemTypeProductList: Option<ProductList>): (r: ProductList)
    ensures itemTypeProductList.Some? ==> r == itemTypeProductList.value
    ensures itemTypeProductList.None? ==> r == productList
  {
    itemTypeProductList.GetOr(productList)
  }

  /** `h1 ?? title`: an empty `h1` is kept, only a missing one falls back. */
  function HeroTitle(list: ProductList): (r: string)
    ensures list.h1.Some? ==> r == list.h1.value
    ensures list.h1.None? ==> r == list.title
  {
    list.h1.GetOr(list.title)
  }

  function TrimAll(pieces: seq<string>): (r: seq<string>)
    ensures |r| == |pieces| && forall i :: 0 <= i < |r| ==> r[i] == Trim(pieces[i])
  {
    seq(|pieces|, i requires 0 <= i < |pieces| => Trim(pieces[i]))
  }

  /** The tags of a related-posts section: the list title, then each
      comma-separated piece of the section's tags, trimmed. */
  function RelatedPostsTags(listTitle: string, tags: Option<string>): (r: seq<string>)
    ensures |r| >= 1 && r[0] == listTitle
    ensures tags.None? ==> r == [listTitle]
    ensures tags.Some? ==> r[1..] == TrimAll(Split(tags.value, ','))
  {
    [listTitle] + match tags
      case None => []
      case Some(t) => TrimAll(Split(t, ','))
  }

  predicate NoOuterWhitespace(tag: string) {
    tag == [] || (!IsJsWhitespace(tag[0]) && !IsJsWhitespace(tag[|tag| - 1]))
  }

  /** No tag after the title has whitespace at either end; a present tags string
      always gives at least one tag after the title, even when it is empty. */
  lemma RelatedPostsTagsTrimmed(listTitle: string, tags: Option<string>)
    ensures tags.Some? ==> |RelatedPostsTags(listTitle, tags)| >= 2
    ensures forall i :: 1 <= i < |RelatedPostsTags(listTitle, tags)| ==> NoOuterWhitespace(RelatedPostsTags(listTitle, tags)[i])
  {
    var r := RelatedPostsTags(listTitle, tags);
    if tags.Some? {
      var pieces := Split(tags.value, ',');
      forall i | 1 <= i < |r| ensures NoOuterWhitespace(r[i]) {
        assert r[i] == r[1..][i - 1];
        TrimmedHasNoOuterWhitespace(pieces[i - 1]);
      }
    }
  }

  /** For tags without whitespace, the tags after the title are the pieces of the
      tags string, and joining them with commas gives it back. */
  lemma RelatedPostsTagsRoundTrip(listTitle: string, tags: string)
    requires NoWhitespace(tags)
    ensures RelatedPostsTags(listTitle, Some(tags))[1..] == Split(tags, ',')
    ensures Join(RelatedPostsTags(listTitle, Some(tags))[1..], ",") == tags
  {
    var pieces := Split(tags, ',');
    SplitPiecesFromString(tags, ',');
    forall i | 0 <= i < |pieces| ensures Trim(pieces[i]) == pieces[i] {
      forall k | 0 <= k < |pieces[i]| ensures !IsJsWhitespace(pieces[i][k]) {
        assert pieces[i][k] in tags;
      }
      TrimOfNoWhitespace(pieces[i]);
    }
    assert TrimAll(pieces) == pieces;
    JoinSplit(tags, ',');
  }

  /** The callback of `sections.map`: what one section renders, if anything. */
  function SectionView(section: ProductListSection, listTitle: string): (r: Option<Rendered>)
    ensures r.None? <==> section.OtherSection? || (section.FeaturedProductLists? && section.productLists == [])
    ensures section.RelatedPosts? ==> r == Some(RelatedPostsSection(RelatedPostsTags(listTitle, section.tags)))
    ensures section.FeaturedProductLists? && section.productLists != [] ==>
      r == Some(FeaturedProductListsSection(section.featuredTitle, section.productLists))
    ensures section.LifetimeWarranty? ==>
      r == Some(WarrantyBanner(section.warrantyTitle, section.description, section.callToAction))
  {
    match section
    case LifetimeWarranty(title, description, callToAction) => Some(WarrantyBanner(title, description, callToAction))
    case RelatedPosts(tags) => Some(RelatedPostsSection(RelatedPostsTags(listTitle, tags)))
    case FeaturedProductLists(title, productLists) =>
      if |productLists| > 0 then Some(FeaturedProductListsSection(title, productLists)) else None
    case OtherSection(_) => None
  }

  function SectionViews(sections: seq<ProductListSection>, listTitle: string): (r: seq<Option<Rendered>>)
    ensures |r| == |sections| && forall i :: 0 <= i < |r| ==> r[i] == SectionView(sections[i], listTitle)
  {
    seq(|sections|, i requires 0 <= i < |sections| => SectionView(sections[i], listTitle))
  }

  /** `ProductListView`, as the sequence of rendered components. */
  function View(productList: ProductList, itemTypeProductList: Option<ProductList>, algoliaSSR: bool, filters: string): (r: seq<Rendered>)
    ensures |r| >= 2 && r[0] == ConfigureSearch(filters, HitsPerPage)
    ensures algoliaSSR ==> r == [ConfigureSearch(filters, HitsPerPage),
                                FilterableProducts(CurrentProductList(productList, itemTypeProductList), true)]
  {
    var current := CurrentProductList(productList, itemTypeProductList);
    if algoliaSSR then
      [ConfigureSearch(filters, HitsPerPage), FilterableProducts(current, true)]
    else
      [ConfigureSearch(filters, HitsPerPage),
       MetaTags(current),
       SecondaryNavigation(productList),
       HeroSection(HeroTitle(current), current.tagline, current.description, current.heroImage, current.brandLogo)]
      + (if |current.children| > 0 then [ChildrenSection(productList)] else [])
      + [FilterableProducts(productList, false)]
      + Present(SectionViews(current.sections, productList.title))
  }

  /** Outside server rendering, the page shows the hero of the current list and the
      filterable products of the page's own list, then one component for each
      section that renders, in order; sections that render nothing are skipped. */
  lemma ViewSections(productList: ProductList, itemTypeProductList: Option<ProductList>, filters: string)
    ensures var current := CurrentProductList(productList, itemTypeProductList);
      var r := View(productList, itemTypeProductList, false, filters);
      var k := if |current.children| > 0 then 5 else 4;
      && r[3].HeroSection? && r[3].heroTitle == HeroTitle(current)
      && (|current.children| > 0 <==> ChildrenSection(productList) in r)
      && r[k] == FilterableProducts(productList, false)
      && r[k + 1..] == Present(SectionViews(current.sections, productList.title))
  {
    var current := CurrentProductList(productList, itemTypeProductList);
    var r := View(productList, itemTypeProductList, false, filters);
    var sections := Present(SectionViews(current.sections, productList.title));
    var children := if |current.children| > 0 then [ChildrenSection(productList)] else [];
    var head := [ConfigureSearch(filters, HitsPerPage), MetaTags(current), SecondaryNavigation(productList),
                 HeroSection(HeroTitle(current), current.tagline, current.description, current.heroImage, current.brandLogo)];
    assert r == head + children + [FilterableProducts(productList, false)] + sections;
    NoChildrenSectionAmongSections(current.sections, productList.title);
    if |current.children| == 0 {
      assert ChildrenSection(productList) !in head + [FilterableProducts(productList, false)];
      assert ChildrenSection(productList) !in r;
    }
  }

  /** Sections never render a children section. */
  lemma NoChildrenSectionAmongSections(sections: seq<ProductListSection>, listTitle: string)
    ensures forall x: Rendered :: x in Present(SectionViews(sections, listTitle)) ==> !x.ChildrenSection?
  {
    var views := SectionViews(sections, listTitle);
    forall x: Rendered | x in Present(views) ensures !x.ChildrenSection? {
      var i :| 0 <= i < |Present(views)| && Present(views)[i] == x;
      var j :| 0 <= j < |views| && views[j] == Some(x);
    }
  }
}
