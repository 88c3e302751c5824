/** The collection hero: the page suffix of the title, and which of tagline,
    description and brand logo show, with and without a background image. The
    Markdown renderer is a parameter. */
module HeroSection {
  import opened Wrappers
  import opened Strings
  import opened GenericHelpers

  datatype Image = Image(url: string, altText: Option<string>, width: Option<int>)

  /** A no-break space, which the title writes between `Page` and the number. */
  const Nbsp: char := '\U{A0}'

  /** The text of `HeroTitle`. */
  function HeroTitleText(title: string, page: int): (r: string)
    ensures |r| >= |title| && r[..|title|] == title
    ensures page <= 1 <==> r == title
  {
    title + if page > 1 then " - Page" + [Nbsp] + IntToString(page) else ""
  }

  /** After page one the title carries ` - Page`, a no-break space and the page
      number, which reads back as the page. */
  lemma HeroTitlePageSuffix(title: string, page: int)
    requires page > 1
    ensures var r := HeroTitleText(title, page);
      && r[|title|..|title| + 8] == " - Page" + [Nbsp]
      && ParseInt(r[|title| + 8..]) == Num(page)
  {
    var r := HeroTitleText(title, page);
    assert r == title + (" - Page" + [Nbsp]) + IntToString(page);
    assert r[|title| + 8..] == IntToString(page);
    ParseIntOfIntToString(page);
  }

  /** A nullable string prop, as the value `isPresent` is given. */
  function AsJs(s: Option<string>): JsValue {
    match s
    case Some(t) => Str(t)
    case None => Null
  }

  /** `isPresent(s)` on a nullable string: present and not empty. */
  lemma IsPresentOfNullableString(s: Option<string>)
    ensures IsPresent(AsJs(s)) <==> s.Some? && s.value != ""
  {
  }

  datatype BrandLogo = BrandLogo(src: string, alt: string, logoWidth: int)

  /** What the hero shows. */
  datatype Hero = Hero(
    background: Option<string>,
    brandLogo: Option<BrandLogo>,
    titleText: string,
    tagline: Option<string>,
    descriptionHtml: Option<string>,
    collapsibleDescription: bool)

  /** The brand logo as evidently intended: it renders only with a non-zero width. */
  function BrandLogoOf(brandLogo: Option<Image>): (r: Option<BrandLogo>)
    ensures r.Some? <==> brandLogo.Some? && brandLogo.value.width.Some? && brandLogo.value.width.value != 0
    ensures r.Some? ==> r.value.src == brandLogo.value.url && r.value.logoWidth == brandLogo.value.width.value
  {
    match brandLogo
    case Some(logo) =>
      (match logo.width
       case Some(w) => if w != 0 then Some(BrandLogo(logo.url, logo.altText.GetOr(""), w)) else None
       case None => None)
    case None => None
  }

  /** What the logo slot above the title renders. */
  datatype LogoSlot = NoLogo | Logo(logo: BrandLogo) | StrayText(text: string)

  function SlotOf(logo: Option<BrandLogo>): LogoSlot {
    match logo
    case Some(l) => Logo(l)
    case None => NoLogo
  }

  /** `{brandLogo && brandLogo.width && (...)}` as written: a width of 0 is the value
      of the expression, and React renders that number as the text `0`. */
  function BrandLogoSlotAsWritten(brandLogo: Option<Image>): (r: LogoSlot)
    ensures r.StrayText? <==> brandLogo.Some? && brandLogo.value.width == Some(0)
    ensures r.Logo? <==> BrandLogoOf(brandLogo).Some?
    ensures r.Logo? ==> r.logo == BrandLogoOf(brandLogo).value
  {
    match brandLogo
    case Some(logo) =>
      (match logo.width
       case Some(w) => if w != 0 then Logo(BrandLogo(logo.url, logo.altText.GetOr(""), w)) else StrayText(IntToString(w))
       case None => NoLogo)
    case None => NoLogo
  }

  /** A brand logo of width 0 shows a stray `0` instead of nothing. */
  lemma ZeroWidthLogoShowsStrayText(url: string, altText: Option<string>)
    ensures BrandLogoSlotAsWritten(Some(Image(url, altText, Some(0)))) == StrayText("0")
    ensures SlotOf(BrandLogoOf(Some(Image(url, altText, Some(0))))) == NoLogo
  {
    assert IntToString(0) == [DigitChar(0)];
  }

  /** The corrected slot never shows text, and agrees with the slot as written on
      every logo whose width is not 0. */
  lemma BrandLogoSlotsAgree(brandLogo: Option<Image>)
    ensures !SlotOf(BrandLogoOf(brandLogo)).StrayText?
    ensures brandLogo.None? || brandLogo.value.width != Some(0) ==>
      SlotOf(BrandLogoOf(brandLogo)) == BrandLogoSlotAsWritten(brandLogo)
  {
  }

  /** `HeroSection`, with the brand logo as evidently intended (`BrandLogoOf`). */
  function HeroOf(title: string, tagline: Option<string>, description: Option<string>,
                  backgroundImage: Option<Image>, brandLogo: Option<Image>, productListPage: int,
                  markdownToHtml: string -> string): (r: Hero)
    ensures r.titleText == HeroTitleText(title, productListPage)
    ensures r.background.Some? <==> backgroundImage.Some?
  {
    var isFirstPage := productListPage == 1;
    var descriptionHtml := markdownToHtml(description.GetOr(""));
    match backgroundImage
    case Some(image) =>
      Hero(Some(image.url), BrandLogoOf(brandLogo), HeroTitleText(title, productListPage),
           if IsPresent(AsJs(tagline)) then tagline else None,
           if IsPresent(AsJs(description)) then Some(descriptionHtml) else None,
           false)
    case None =>
      Hero(None, None, HeroTitleText(title, productListPage),
           if isFirstPage && IsPresent(AsJs(tagline)) then tagline else None,
           if isFirstPage && IsPresent(AsJs(description)) then Some(descriptionHtml) else None,
           isFirstPage && IsPresent(AsJs(description)))
  }

  /** With a background image, a non-empty tagline and description show on every
      page; without one they show on page one only, the description collapsible. */
  lemma HeroGating(title: string, tagline: Option<string>, description: Option<string>,
                   backgroundImage: Option<Image>, brandLogo: Option<Image>, page: int, markdownToHtml: string -> string)
    ensures var r := HeroOf(title, tagline, description, backgroundImage, brandLogo, page, markdownToHtml);
      var shows := backgroundImage.Some? || page == 1;
      && (r.tagline.Some? <==> shows && tagline.Some? && tagline.value != "")
      && (r.tagline.Some? ==> r.tagline == tagline)
      && (r.descriptionHtml.Some? <==> shows && description.Some? && description.value != "")
      && (r.descriptionHtml.Some? ==> r.descriptionHtml.value == markdownToHtml(description.value))
      && (r.collapsibleDescription <==> backgroundImage.None? && r.descriptionHtml.Some?)
  {
    IsPresentOfNullableString(tagline);
    IsPresentOfNullableString(description);
  }

  /** The brand logo belongs to the background layout: without a background image
      it never shows, whatever its width. */
  lemma BrandLogoNeedsBackground(title: string, tagline: Option<string>, description: Option<string>,
                                 brandLogo: Option<Image>, page: int, markdownToHtml: string -> string)
    ensures HeroOf(title, tagline, description, None, brandLogo, page, markdownToHtml).brandLogo.None?
  {
  }
}
