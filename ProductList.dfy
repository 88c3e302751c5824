/** The list view of a product search hit: the discount rule, the image fallback,
    the stock badges and text, and the five-star rating with faded stars. Prices
    are integer cents. */
module ProductList {
  import opened Wrappers
  import opened Strings

  /** A search hit, as far as the list and grid items read it. */
  datatype ProductHit = ProductHit(
    title: string,
    sku: string,
    priceCents: int,
    compareAtPriceCents: Option<int>,
    productImage: Option<string>,
    inventoryQuantity: int)

  const PlaceholderImageUrl := "https://via.placeholder.com/180x135?text=not+available"

  /** `compare_at_price != null && compare_at_price > price`. */
  predicate IsDiscounted(product: ProductHit) {
    product.compareAtPriceCents.Some? && product.compareAtPriceCents.value > product.priceCents
  }

  /** The image of a list item: the placeholder for a missing or empty image. */
  datatype ItemImage = PlaceholderImg(placeholderSrc: string) | ShopifyImage(src: string)

  function ItemImageOf(product: ProductHit): (r: ItemImage)
    ensures product.productImage.None? <==> r.PlaceholderImg?
    ensures r.PlaceholderImg? ==> r.placeholderSrc == PlaceholderImageUrl
    ensures product.productImage.Some? && product.productImage.value != "" ==> r == ShopifyImage(product.productImage.value)
    ensures product.productImage == Some("") ==> r == ShopifyImage(PlaceholderImageUrl)
  {
    match product.productImage
    case None => PlaceholderImg(PlaceholderImageUrl)
    case Some(image) => ShopifyImage(if image != "" then image else PlaceholderImageUrl)
  }

  /** Whatever the hit, an image source is shown, and it is never empty. */
  lemma ItemImageNeverEmpty(product: ProductHit)
    ensures match ItemImageOf(product)
      case PlaceholderImg(src) => src != ""
      case ShopifyImage(src) => src != ""
  {
  }

  function StockBadges(inventoryQuantity: int): (r: seq<string>)
    ensures inventoryQuantity > 0 <==> r == ["Lifetime warranty", "Ship today if ordered by 5pm"]
    ensures inventoryQuantity <= 0 <==> r == ["Out of stock"]
  {
    if inventoryQuantity > 0 then ["Lifetime warranty", "Ship today if ordered by 5pm"] else ["Out of stock"]
  }

  /** The indentation the template literal of the low-stock text carries. */
  const Indent := "               "

  /** The stock text: a low-stock notice for one to nine items, else the count. The
      low-stock literal keeps the line breaks and indentation of its template. */
  function StockText(inventoryQuantity: int): (r: string)
    ensures 0 < inventoryQuantity < 10 ==> r == "\n" + Indent + "Only " + IntToString(inventoryQuantity) + " left in stock\n" + Indent
    ensures !(0 < inventoryQuantity < 10) ==> r == IntToString(inventoryQuantity) + " in stock"
  {
    if inventoryQuantity > 0 && inventoryQuantity < 10 then
      "\n" + Indent + "Only " + IntToString(inventoryQuantity) + " left in stock\n" + Indent
    else
      IntToString(inventoryQuantity) + " in stock"
  }

  /** The count is readable from both texts: it follows `Only ` in the low-stock
      notice, and starts the other text. */
  lemma StockTextCarriesCount(inventoryQuantity: int)
    ensures var t := StockText(inventoryQuantity);
      var n := IntToString(inventoryQuantity);
      if 0 < inventoryQuantity < 10 then
        |t| >= |n| + 21 && t[21..21 + |n|] == n && t[16..21] == "Only "
      else
        |t| >= |n| && t[..|n|] == n && t[|n|..] == " in stock"
  {
    var t := StockText(inventoryQuantity);
    var n := IntToString(inventoryQuantity);
    if 0 < inventoryQuantity < 10 {
      assert t == ("\n" + Indent + "Only ") + n + (" left in stock\n" + Indent);
      assert |"\n" + Indent + "Only "| == 21;
    }
  }

  /** `Rating`: for each of the five stars, whether it is faded. */
  function StarFades(value: int): (r: seq<bool>)
    ensures |r| == 5
    ensures forall i :: 0 <= i < 5 ==> (r[i] <==> i + 1 > value)
  {
    seq(5, i requires 0 <= i < 5 => i + 1 > value)
  }

  function CountBright(fades: seq<bool>): nat {
    if fades == [] then 0 else (if fades[0] then 0 else 1) + CountBright(fades[1..])
  }

  /** The number of bright stars is the value, clamped to zero to five. */
  lemma BrightStarsAreValue(value: int)
    ensures CountBright(StarFades(value)) == if value < 0 then 0 else if value > 5 then 5 else value
  {
    var f := StarFades(value);
    assert f[4..][1..] == [];
    assert CountBright(f[4..]) == if f[4] then 0 else 1;
    assert f[3..][1..] == f[4..];
    assert f[2..][1..] == f[3..];
    assert f[1..][1..] == f[2..];
    assert CountBright(f) == (if f[0] then 0 else 1) + CountBright(f[1..]);
    assert CountBright(f[1..]) == (if f[1] then 0 else 1) + CountBright(f[2..]);
    assert CountBright(f[2..]) == (if f[2] then 0 else 1) + CountBright(f[3..]);
    assert CountBright(f[3..]) == (if f[3] then 0 else 1) + CountBright(f[4..]);
  }

  /** The default value five leaves no star faded; the hit list's four fades one. */
  lemma DefaultAndListRating()
    ensures forall i :: 0 <= i < 5 ==> !StarFades(5)[i]
    ensures forall i :: 0 <= i < 5 ==> (StarFades(4)[i] <==> i == 4)
  {
  }

  /** `ProductListItem`, as far as its rules decide. */
  datatype ListItem = ListItem(
    image: ItemImage,
    badges: seq<string>,
    struckPriceCents: Option<int>,
    priceHighlighted: bool,
    stockText: string,
    ratingFades: seq<bool>)

  function ListItemOf(product: ProductHit): (r: ListItem)
    ensures r.struckPriceCents.Some? <==> IsDiscounted(product)
    ensures r.priceHighlighted <==> IsDiscounted(product)
    ensures IsDiscounted(product) ==> r.struckPriceCents == product.compareAtPriceCents
    ensures r.badges == StockBadges(product.inventoryQuantity) && r.stockText == StockText(product.inventoryQuantity)
    ensures r.image == ItemImageOf(product) && r.ratingFades == StarFades(4)
  {
    ListItem(
      ItemImageOf(product),
      StockBadges(product.inventoryQuantity),
      if IsDiscounted(product) then product.compareAtPriceCents else None,
      IsDiscounted(product),
      StockText(product.inventoryQuantity),
      StarFades(4))
  }
}
