/** `findProduct` and `getRedirect` of the product model: a product's own redirect
    URL takes priority over the store's URL redirects, and a redirect takes priority
    over the product. The queries themselves are parameters. */
module ProductModel {
  import opened Wrappers

  datatype EnabledDomain = EnabledDomain(code: string, domain: string)

  /** The fields of a product that the product page's server side reads; a missing
      or empty `redirectUrl` is `None`. */
  datatype Product = Product(
    handle: string,
    tags: seq<string>,
    redirectUrl: Option<string>,
    enabledDomains: Option<seq<EnabledDomain>>)

  const ProductRedirectTypename := "ProductRedirect"

  /** What `findProduct` finds: a redirect, tagged with its `__typename`, or a product. */
  datatype Found =
    | ProductRedirect(typename: string, target: string)
    | FoundProduct(product: Product)

  /** The parts of the storefront query that `getRedirect` reads: the product's
      `redirectUrl?.value`, and the target of each URL-redirect edge (`node?.target`). */
  datatype ShopifyQuery = ShopifyQuery(productRedirectValue: Option<string>, urlRedirectTargets: seq<Option<string>>)

  /** `getRedirect`. */
  function GetRedirect(query: ShopifyQuery): (r: Option<Found>)
    ensures query.productRedirectValue.Some? ==> r == Some(ProductRedirect(ProductRedirectTypename, query.productRedirectValue.value))
    ensures query.productRedirectValue.None? && query.urlRedirectTargets != [] && query.urlRedirectTargets[0].Some? ==>
      r == Some(ProductRedirect(ProductRedirectTypename, query.urlRedirectTargets[0].value))
    ensures query.productRedirectValue.None? && (query.urlRedirectTargets == [] || query.urlRedirectTargets[0].None?) ==> r.None?
  {
    if query.productRedirectValue.Some? then Some(ProductRedirect(ProductRedirectTypename, query.productRedirectValue.value))
    else
      var urlRedirect := if query.urlRedirectTargets == [] then None else query.urlRedirectTargets[0];
      match urlRedirect
      case None => None
      case Some(target) => Some(ProductRedirect(ProductRedirectTypename, target))
  }

  /** `findProduct`: `redirect ?? product`, where `product` is what `getProduct`
      built from the three query responses. */
  function FindProduct(query: ShopifyQuery, product: Option<Product>): (r: Option<Found>)
    ensures GetRedirect(query).Some? ==> r == GetRedirect(query)
    ensures GetRedirect(query).None? ==> (r.None? <==> product.None?)
    ensures GetRedirect(query).None? && product.Some? ==> r == Some(FoundProduct(product.value))
  {
    match GetRedirect(query)
    case Some(redirect) => Some(redirect)
    case None => match product
      case Some(p) => Some(FoundProduct(p))
      case None => None
  }

  /** Every redirect `findProduct` returns is typed `ProductRedirect`. */
  lemma FindProductRedirectTypename(query: ShopifyQuery, product: Option<Product>)
    ensures var r := FindProduct(query, product);
      r.Some? && r.value.ProductRedirect? ==> r.value.typename == ProductRedirectTypename
  {
  }
}
