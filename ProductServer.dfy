/** The server side of the product page: the order of the redirect and not-found
    decisions, the merge of the request's query parameters into a redirect URL,
    the `Pro Only` robots header and the per-store product URLs. Fetching the
    product and the layout, and parsing URLs, are parameters. */
module ProductServer {
  import opened Wrappers
  import opened GenericHelpers
  import opened ProductModel

  // ---------------------------------------------------------------------------
  // Query-parameter merge (URLSearchParams `has` and `append`)
  // ---------------------------------------------------------------------------

  /** A URLSearchParams list: name-value pairs in order, names may repeat. */
  type Params = seq<(string, string)>

  function Names(params: Params): (r: seq<string>)
    ensures |r| == |params| && forall i :: 0 <= i < |params| ==> r[i] == params[i].0
  {
    seq(|params|, i requires 0 <= i < |params| => params[i].0)
  }

  /** `has(name)`. */
  predicate Has(params: Params, name: string): (r: bool)
    ensures r <==> exists i :: 0 <= i < |params| && params[i].0 == name
  {
    name in Names(params)
  }

  /** The first pair with the name, if any (`get(name)` with its name). */
  function FirstWith(params: Params, name: string): (r: Option<(string, string)>)
    ensures r.None? <==> !Has(params, name)
    ensures r.Some? ==> r.value in params && r.value.0 == name
  {
    if params == [] then None
    else if params[0].0 == name then Some(params[0])
    else
      assert Names(params) == [params[0].0] + Names(params[1..]);
      FirstWith(params[1..], name)
  }

  lemma {:induction false} FirstWithAppend(params: Params, x: (string, string), name: string)
    ensures Has(params, name) ==> FirstWith(params + [x], name) == FirstWith(params, name)
    ensures !Has(params, name) && x.0 == name ==> FirstWith(params + [x], name) == Some(x)
  {
    if params != [] {
      assert (params + [x])[1..] == params[1..] + [x];
      assert Names(params) == [params[0].0] + Names(params[1..]);
      FirstWithAppend(params[1..], x, name);
    } else {
      assert params + [x] == [x];
    }
  }

  lemma HasOfPrefix(a: Params, b: Params, name: string)
    requires a <= b
    ensures Has(a, name) ==> Has(b, name)
  {
    if Has(a, name) {
      var k :| 0 <= k < |a| && Names(a)[k] == name;
      assert Names(b)[k] == name;
    }
  }

  /** The destination parameters after the request's `forEach`: each request pair
      is appended when the destination, as it is by then, lacks its name. */
  function Merged(destination: Params, request: Params): (r: Params)
    ensures destination <= r && |r| <= |destination| + |request|
  {
    if request == [] then destination
    else
      var merged := Merged(destination, request[..|request| - 1]);
      var pair := request[|request| - 1];
      if Has(merged, pair.0) then merged else merged + [pair]
  }

  /** The loop of `getServerSideProps` over the request parameters. */
  method MergeParams(destination: Params, request: Params) returns (merged: Params)
    ensures merged == Merged(destination, request)
  {
    merged := destination;
    var i := 0;
    while i < |request|
      invariant 0 <= i <= |request|
      invariant merged == Merged(destination, request[..i])
    {
      assert request[..i + 1][..i] == request[..i];
      var (name, value) := request[i];
      if !Has(merged, name) {
        merged := merged + [(name, value)];
      }
      i := i + 1;
    }
    assert request[..i] == request;
  }

  /** The merge leaves the destination's own parameters untouched in front, carries
      every request name, and appends only the first request pair of each name the
      destination lacks, each name once. */
  lemma MergedShape(destination: Params, request: Params)
    ensures destination <= Merged(destination, request)
    ensures forall j :: 0 <= j < |request| ==> Has(Merged(destination, request), request[j].0)
    ensures forall k :: |destination| <= k < |Merged(destination, request)| ==>
      && !Has(destination, Merged(destination, request)[k].0)
      && FirstWith(request, Merged(destination, request)[k].0) == Some(Merged(destination, request)[k])
    ensures forall k, l :: |destination| <= k < l < |Merged(destination, request)| ==>
      Merged(destination, request)[k].0 != Merged(destination, request)[l].0
  {
    MergedCarriesNames(destination, request);
    MergedAppendsFirsts(destination, request);
    MergedAppendsDistinct(destination, request);
  }

  lemma {:induction false} MergedCarriesNames(destination: Params, request: Params)
    ensures forall j :: 0 <= j < |request| ==> Has(Merged(destination, request), request[j].0)
  {
    if request != [] {
      var p := request[..|request| - 1];
      var pair := request[|request| - 1];
      MergedCarriesNames(destination, p);
      var m := Merged(destination, p);
      var r := Merged(destination, request);
      forall j | 0 <= j < |request| ensures Has(r, request[j].0) {
        if j < |p| {
          assert request[j] == p[j];
          HasOfPrefix(m, r, p[j].0);
        } else if !Has(m, pair.0) {
          assert r[|m|] == pair;
        }
      }
    }
  }

  lemma {:induction false} MergedAppendsFirsts(destination: Params, request: Params)
    ensures forall k :: |destination| <= k < |Merged(destination, request)| ==>
      && !Has(destination, Merged(destination, request)[k].0)
      && FirstWith(request, Merged(destination, request)[k].0) == Some(Merged(destination, request)[k])
  {
    if request != [] {
      var p := request[..|request| - 1];
      var pair := request[|request| - 1];
      MergedAppendsFirsts(destination, p);
      var m := Merged(destination, p);
      var r := Merged(destination, request);
      assert request == p + [pair];
      forall k | |destination| <= k < |m| ensures FirstWith(request, m[k].0) == Some(m[k]) {
        FirstWithAppend(p, pair, m[k].0);
      }
      if !Has(m, pair.0) {
        assert r == m + [pair];
        HasOfPrefix(destination, m, pair.0);
        MergedCarriesNames(destination, p);
        assert !Has(p, pair.0) by {
          forall j | 0 <= j < |p| ensures p[j].0 != pair.0 {
            assert Has(m, p[j].0);
          }
        }
        FirstWithAppend(p, pair, pair.0);
      }
    }
  }

  lemma {:induction false} MergedAppendsDistinct(destination: Params, request: Params)
    ensures forall k, l :: |destination| <= k < l < |Merged(destination, request)| ==>
      Merged(destination, request)[k].0 != Merged(destination, request)[l].0
  {
    if request != [] {
      var p := request[..|request| - 1];
      var pair := request[|request| - 1];
      MergedAppendsDistinct(destination, p);
      var m := Merged(destination, p);
      var r := Merged(destination, request);
      if !Has(m, pair.0) {
        assert r == m + [pair];
        forall k, l | |destination| <= k < l < |r| ensures r[k].0 != r[l].0 {
          if l == |m| {
            assert r[k] == m[k];
          }
        }
      }
    }
  }

  /** A parsed URL: everything but the query, and the query parameters. */
  datatype Url = Url(withoutQuery: string, searchParams: Params)

  // ---------------------------------------------------------------------------
  // Store URLs
  // ---------------------------------------------------------------------------

  /** `codeToDomain`: the reduce over the enabled domains; a later entry for a code
      overrides an earlier one. */
  function CodeToDomain(enabledDomains: Option<seq<EnabledDomain>>): (r: map<string, string>)
    ensures enabledDomains.None? ==> r == map[]
    ensures enabledDomains.Some? ==> forall code :: code in r ==> EnabledDomain(code, r[code]) in enabledDomains.value
  {
    match enabledDomains
    case None => map[]
    case Some(entries) => DomainsOf(entries)
  }

  /** Every code of the map maps to the domain of one of its entries. */
  function DomainsOf(entries: seq<EnabledDomain>): (r: map<string, string>)
    ensures forall code :: code in r ==> EnabledDomain(code, r[code]) in entries
  {
    if entries == [] then map[]
    else DomainsOf(entries[..|entries| - 1])[entries[|entries| - 1].code := entries[|entries| - 1].domain]
  }

  /** The codes of the map are the codes of the entries. */
  lemma {:induction false} DomainsOfCodes(entries: seq<EnabledDomain>)
    ensures forall code :: code in DomainsOf(entries) <==> exists i :: 0 <= i < |entries| && entries[i].code == code
  {
    if entries != [] {
      var p := entries[..|entries| - 1];
      DomainsOfCodes(p);
      forall code | code in DomainsOf(entries) ensures exists i :: 0 <= i < |entries| && entries[i].code == code {
        if code != entries[|entries| - 1].code {
          assert code in DomainsOf(p);
          var i :| 0 <= i < |p| && p[i].code == code;
          assert entries[i] == p[i];
        }
      }
      forall code | exists i :: 0 <= i < |entries| && entries[i].code == code ensures code in DomainsOf(entries) {
        var i :| 0 <= i < |entries| && entries[i].code == code;
        if i < |p| {
          assert p[i] == entries[i];
        }
      }
    }
  }

  /** Each code maps to the domain of its last entry. */
  lemma {:induction false} DomainsOfLastWins(entries: seq<EnabledDomain>)
    ensures forall i :: 0 <= i < |entries| && (forall j :: i < j < |entries| ==> entries[j].code != entries[i].code) ==>
      entries[i].code in DomainsOf(entries) && DomainsOf(entries)[entries[i].code] == entries[i].domain
  {
    if entries != [] {
      var p := entries[..|entries| - 1];
      DomainsOfLastWins(p);
      forall i | 0 <= i < |entries| && (forall j :: i < j < |entries| ==> entries[j].code != entries[i].code)
        ensures entries[i].code in DomainsOf(entries) && DomainsOf(entries)[entries[i].code] == entries[i].domain
      {
        if i < |p| {
          assert entries[i] == p[i];
          assert forall j :: i < j < |p| ==> p[j] == entries[j];
        }
      }
    }
  }

  datatype Store = Store(code: string, name: string, url: string, currency: string)

  /** A store's product URL: the default store uses its own origin, the others their
      code's domain; a store without a (non-empty) domain is unchanged. */
  function StoreWithProductUrl(store: Store, defaultStoreCode: string, origin: string -> string,
                               codeToDomain: map<string, string>, handle: string): (r: Store)
    ensures r.code == store.code && r.name == store.name && r.currency == store.currency
    ensures store.code == defaultStoreCode && origin(store.url) != "" ==> r.url == origin(store.url) + "/products/" + handle
    ensures store.code != defaultStoreCode && store.code in codeToDomain && codeToDomain[store.code] != "" ==>
      r.url == codeToDomain[store.code] + "/products/" + handle
    ensures store.code != defaultStoreCode && (store.code !in codeToDomain || codeToDomain[store.code] == "") ==> r == store
    ensures store.code == defaultStoreCode && origin(store.url) == "" ==> r == store
  {
    var domain := if store.code == defaultStoreCode then origin(store.url)
                  else if store.code in codeToDomain then codeToDomain[store.code] else "";
    if domain != "" then store.(url := domain + "/products/" + handle) else store
  }

  /** `storesWithProductUrls`: one store for each store, in order. */
  function StoresWithProductUrls(stores: seq<Store>, defaultStoreCode: string, origin: string -> string,
                                 codeToDomain: map<string, string>, handle: string): (r: seq<Store>)
    ensures |r| == |stores|
    ensures forall i :: 0 <= i < |stores| ==> r[i] == StoreWithProductUrl(stores[i], defaultStoreCode, origin, codeToDomain, handle)
  {
    seq(|stores|, i requires 0 <= i < |stores| => StoreWithProductUrl(stores[i], defaultStoreCode, origin, codeToDomain, handle))
  }

  // ---------------------------------------------------------------------------
  // getServerSideProps
  // ---------------------------------------------------------------------------

  const ProOnlyTag := "Pro Only"
  const RobotsHeader := ("X-Robots-Tag", "noindex, follow")

  datatype ServerResult =
    | PermanentRedirect(target: string)
    | PermanentRedirectToUrl(destination: Url)
    | NotFound
    | Props(product: Product, stores: seq<Store>, header: Option<(string, string)>)
    | Thrown(message: string)

  /** The inputs the page's server side receives from the request and its fetches. */
  datatype Request = Request(
    handle: Option<string>,
    requestParams: Params,
    stores: seq<Store>,
    found: Option<Found>)

  /** The rest of the decision once the product is neither a redirect nor missing. */
  function ProductProps(p: Product, request: Request, defaultStoreCode: string, origin: string -> string,
                        parseUrl: string -> Url): (r: ServerResult)
    ensures p.redirectUrl.Some? ==> && r.PermanentRedirectToUrl?
                                    && r.destination.withoutQuery == parseUrl(p.redirectUrl.value).withoutQuery
                                    && parseUrl(p.redirectUrl.value).searchParams <= r.destination.searchParams
    ensures p.redirectUrl.None? ==> && r.Props? && r.product == p && |r.stores| == |request.stores|
                                    && (r.header.Some? <==> ProOnlyTag in p.tags)
                                    && (r.header.Some? ==> r.header.value == RobotsHeader)
  {
    match p.redirectUrl
    case Some(url) =>
      PermanentRedirectToUrl(Url(parseUrl(url).withoutQuery, Merged(parseUrl(url).searchParams, request.requestParams)))
    case None =>
      var header := if ProOnlyTag in p.tags then Some(RobotsHeader) else None;
      Props(p, StoresWithProductUrls(request.stores, defaultStoreCode, origin, CodeToDomain(p.enabledDomains), p.handle), header)
  }

  /** The decision of `getServerSideProps` for a redirect typename `redirectTypename`.
      A missing handle fails the invariant; a found value that is neither a product
      nor a redirect of that typename has no `tags`, and reading them throws. */
  function Decide(request: Request, redirectTypename: string, isProduction: bool, defaultStoreCode: string,
                  origin: string -> string, parseUrl: string -> Url): (r: ServerResult)
    ensures request.handle.None? ==> r.Thrown?
    ensures request.handle.Some? && request.found.Some? && request.found.value.ProductRedirect? ==>
      r == if request.found.value.typename == redirectTypename then PermanentRedirect(request.found.value.target)
           else Thrown("Cannot read properties of undefined (reading 'find')")
    ensures request.handle.Some? && request.found.None? ==> r == NotFound
  {
    var check := Invariant(Bool(request.handle.Some?), isProduction, Some(Text("handle param is missing")));
    if check.Fail? then Thrown(check.error)
    else match request.found
      case Some(ProductRedirect(typename, target)) =>
        if typename == redirectTypename then PermanentRedirect(target)
        else Thrown("Cannot read properties of undefined (reading 'find')")
      case None => NotFound
      case Some(FoundProduct(p)) => ProductProps(p, request, defaultStoreCode, origin, parseUrl)
  }

  /** `getServerSideProps` as written: it compares the typename with `ShopifyProductRedirect`. */
  function GetServerSidePropsAsWritten(request: Request, isProduction: bool, defaultStoreCode: string,
                                       origin: string -> string, parseUrl: string -> Url): (r: ServerResult)
    ensures request.handle.Some? && request.found.Some? && request.found.value.ProductRedirect? ==>
      (r.PermanentRedirect? <==> request.found.value.typename == "ShopifyProductRedirect")
    ensures request.handle.Some? && request.found.None? ==> r == NotFound
  {
    Decide(request, "ShopifyProductRedirect", isProduction, defaultStoreCode, origin, parseUrl)
  }

  /** Every redirect `findProduct` returns makes the page as written throw instead of
      redirecting. */
  lemma RedirectThrowsAsWritten(handle: string, query: ShopifyQuery, product: Option<Product>, requestParams: Params,
                                stores: seq<Store>, isProduction: bool, defaultStoreCode: string,
                                origin: string -> string, parseUrl: string -> Url)
    requires GetRedirect(query).Some?
    ensures GetServerSidePropsAsWritten(Request(Some(handle), requestParams, stores, FindProduct(query, product)),
                                        isProduction, defaultStoreCode, origin, parseUrl).Thrown?
  {
  }

  /** `getServerSideProps` as evidently intended: it compares with the typename that
      `findProduct` gives its redirects. */
  function GetServerSideProps(request: Request, isProduction: bool, defaultStoreCode: string,
                              origin: string -> string, parseUrl: string -> Url): (r: ServerResult)
    ensures request.handle.None? ==> r.Thrown?
    ensures request.handle.Some? && request.found.None? ==> r == NotFound
  {
    Decide(request, ProductRedirectTypename, isProduction, defaultStoreCode, origin, parseUrl)
  }

  /** With the corrected comparison, the page redirects permanently to every redirect
      `findProduct` returns, before any other check, and it never throws for a
      present handle. */
  lemma RedirectsFirst(handle: string, query: ShopifyQuery, product: Option<Product>, requestParams: Params,
                       stores: seq<Store>, isProduction: bool, defaultStoreCode: string,
                       origin: string -> string, parseUrl: string -> Url)
    ensures var found := FindProduct(query, product);
      var r := GetServerSideProps(Request(Some(handle), requestParams, stores, found), isProduction, defaultStoreCode, origin, parseUrl);
      && (GetRedirect(query).Some? ==> r == PermanentRedirect(GetRedirect(query).value.target))
      && !r.Thrown?
  {
  }

  /** A product with a redirect URL redirects to it with the merged parameters; any
      other product gets its page props, with the robots header exactly when it is
      tagged `Pro Only`. */
  lemma ProductDecision(handle: string, p: Product, requestParams: Params, stores: seq<Store>, isProduction: bool,
                        defaultStoreCode: string, origin: string -> string, parseUrl: string -> Url)
    ensures var r := GetServerSideProps(Request(Some(handle), requestParams, stores, Some(FoundProduct(p))),
                                        isProduction, defaultStoreCode, origin, parseUrl);
      && (p.redirectUrl.Some? ==>
            && r.PermanentRedirectToUrl?
            && r.destination.withoutQuery == parseUrl(p.redirectUrl.value).withoutQuery
            && parseUrl(p.redirectUrl.value).searchParams <= r.destination.searchParams)
      && (p.redirectUrl.None? ==>
            && r.Props? && r.product == p && |r.stores| == |stores|
            && (r.header.Some? <==> ProOnlyTag in p.tags))
  {
    if p.redirectUrl.Some? {
      MergedShape(parseUrl(p.redirectUrl.value).searchParams, requestParams);
    }
  }
}
