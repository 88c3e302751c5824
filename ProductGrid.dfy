/** The grid card of a product search hit: the sold-out and discount badges and the
    product link. The discount percentage is computed by a function given as a
    parameter, from the price and the compare-at price in cents. */
module ProductGrid {
  import opened Wrappers
  import opened ProductList

  /** `percentage`: 0 unless the hit is discounted. */
  function Percentage(product: ProductHit, computeDiscountPercentage: (int, int) -> int): (r: int)
    ensures !IsDiscounted(product) ==> r == 0
    ensures IsDiscounted(product) ==>
      r == computeDiscountPercentage(product.priceCents, product.compareAtPriceCents.value)
  {
    if IsDiscounted(product) then computeDiscountPercentage(product.priceCents, product.compareAtPriceCents.value) else 0
  }

  predicate IsSoldOut(product: ProductHit) {
    product.inventoryQuantity <= 0
  }

  datatype Badge = NoBadge | SoldOutBadge | DiscountBadge(percentage: int)

  /** The badge list: sold out wins over a discount. */
  function BadgeOf(product: ProductHit, computeDiscountPercentage: (int, int) -> int): (r: Badge)
    ensures r.SoldOutBadge? <==> IsSoldOut(product)
    ensures r.DiscountBadge? <==> !IsSoldOut(product) && IsDiscounted(product)
    ensures r.NoBadge? <==> !IsSoldOut(product) && !IsDiscounted(product)
    ensures r.DiscountBadge? ==> r.percentage == Percentage(product, computeDiscountPercentage)
  {
    if IsSoldOut(product) then SoldOutBadge
    else if IsDiscounted(product) then DiscountBadge(Percentage(product, computeDiscountPercentage))
    else NoBadge
  }

  const StoreProductUrlPrefix := "https://ifixit.com/Store/Product/"

  function ProductUrl(sku: string): (r: string)
    ensures |r| == |StoreProductUrlPrefix| + |sku|
    ensures r[..|StoreProductUrlPrefix|] == StoreProductUrlPrefix
  {
    StoreProductUrlPrefix + sku
  }

  /** The sku can be read back from the link, so distinct skus get distinct links. */
  lemma ProductUrlInjective(a: string, b: string)
    ensures ProductUrl(a)[|StoreProductUrlPrefix|..] == a
    ensures ProductUrl(a) == ProductUrl(b) ==> a == b
  {
    assert ProductUrl(a)[|StoreProductUrlPrefix|..] == a;
    assert ProductUrl(b)[|StoreProductUrlPrefix|..] == b;
  }

  /** `ProductGridItem`, as far as its rules decide. */
  datatype GridItem = GridItem(
    image: Option<string>,
    badge: Badge,
    href: string,
    title: string,
    rating: int,
    ratingCount: int,
    priceCents: int,
    compareAtPriceCents: Option<int>)

  function GridItemOf(product: ProductHit, computeDiscountPercentage: (int, int) -> int): (r: GridItem)
    ensures r.badge == BadgeOf(product, computeDiscountPercentage)
    ensures r.href == ProductUrl(product.sku)
    ensures r.image == product.productImage && r.title == product.title
    ensures r.priceCents == product.priceCents && r.compareAtPriceCents == product.compareAtPriceCents
    ensures r.rating == 4 && r.ratingCount == 102
  {
    GridItem(product.productImage, BadgeOf(product, computeDiscountPercentage), ProductUrl(product.sku),
             product.title, 4, 102, product.priceCents, product.compareAtPriceCents)
  }

  /** A sold-out discounted hit shows only the sold-out badge, and an in-stock hit
      without a discount shows none, whatever the percentage function. */
  lemma BadgePrecedence(product: ProductHit, f: (int, int) -> int, g: (int, int) -> int)
    ensures IsSoldOut(product) ==> BadgeOf(product, f) == SoldOutBadge
    ensures !IsDiscounted(product) ==> BadgeOf(product, f) == BadgeOf(product, g)
  {
  }
}
