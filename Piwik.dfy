/** The Piwik (Matomo) trackers: each pushes commands onto the tracker queue, modelled
    as an append-only log. Document title, window presence and the store host and
    language of the current URL are parameters. Money is integer cents. */
module Piwik {
  import opened Wrappers

  datatype Money = Money(amountCents: int, currencyCode: string)

  /** A cart line, as far as the cart tracker reads it. */
  datatype CartLineItem = CartLineItem(itemcode: string, internalDisplayName: string, price: Money, quantity: int)

  datatype Command =
    | SetCustomUrl(url: string)
    | SetDocumentTitle(title: string)
    | TrackPageView
    | SetCustomDimension(dimension: int, value: string)
    | SetEcommerceView(sku: string, productName: Option<string>, categoryName: Option<string>, viewPriceCents: int)
    | AddEcommerceItem(sku: string, productName: Option<string>, priceCents: Option<int>, quantity: Option<int>)
    | ClearEcommerceCart
    | TrackEcommerceCartUpdate(grandTotalCents: int)

  datatype CustomDimensions = CustomDimensions(preferredStore: int, preferredLanguage: int)

  /** `getPiwikCustomDimensionsForEnv`. */
  function CustomDimensionsForEnv(env: Option<string>): (r: Option<CustomDimensions>)
    ensures r.Some? <==> env == Some("prod") || env == Some("dev")
    ensures r.Some? ==> r.value == CustomDimensions(1, 2)
  {
    match env
    case Some("prod") => Some(CustomDimensions(1, 2))
    case Some("dev") => Some(CustomDimensions(1, 2))
    case _ => None
  }

  /** The command `trackAddToCart` pushes for one cart line. */
  function AddItemCommand(item: CartLineItem): (r: Command)
    ensures r.AddEcommerceItem? && r.sku == item.itemcode
    ensures r.productName == Some(item.internalDisplayName)
    ensures r.priceCents == Some(item.price.amountCents) && r.quantity == Some(item.quantity)
  {
    AddEcommerceItem(item.itemcode, Some(item.internalDisplayName), Some(item.price.amountCents), Some(item.quantity))
  }

  function AddItemCommands(items: seq<CartLineItem>): (r: seq<Command>)
    ensures |r| == |items| && forall i :: 0 <= i < |items| ==> r[i] == AddItemCommand(items[i])
  {
    seq(|items|, i requires 0 <= i < |items| => AddItemCommand(items[i]))
  }

  predicate NonNegativeUnitPrices(items: seq<CartLineItem>) {
    forall i :: 0 <= i < |items| ==> items[i].price.amountCents >= 0
  }

  /** `sumMoney(items.map((i) => i.price))`: the unit prices, added. */
  function SumUnitPrices(items: seq<CartLineItem>): (r: int)
    ensures items == [] ==> r == 0
    ensures NonNegativeUnitPrices(items) ==> r >= 0
  {
    if items == [] then 0 else SumUnitPrices(items[..|items| - 1]) + items[|items| - 1].price.amountCents
  }

  /** The commands of `trackPiwikCartChange`. */
  function CartChangeCommands(items: seq<CartLineItem>): (r: seq<Command>)
    ensures r != [] && r[0] == ClearEcommerceCart
    ensures |r| == if items == [] then 1 else |items| + 2
  {
    [ClearEcommerceCart] + if items == [] then [] else CartChangeTail(items)
  }

  /** A cart change clears the cart first; an empty cart pushes nothing else, and a
      non-empty one adds each line in order and then reports the total once. */
  lemma CartChangeShape(items: seq<CartLineItem>)
    ensures var c := CartChangeCommands(items);
      && c[0] == ClearEcommerceCart
      && (items == [] <==> c == [ClearEcommerceCart])
      && (items != [] ==>
            && |c| == |items| + 2
            && (forall i :: 0 <= i < |items| ==> c[i + 1] == AddItemCommand(items[i]))
            && c[|c| - 1] == TrackEcommerceCartUpdate(SumUnitPrices(items)))
      && (forall i :: 0 <= i < |c| && c[i].TrackEcommerceCartUpdate? ==> i == |c| - 1)
  {
    if items != [] {
      NonEmptyCartChange(items);
    }
  }

  /** A non-empty cart's commands: the clear, then one add per line, then the total. */
  lemma NonEmptyCartChange(items: seq<CartLineItem>)
    requires items != []
    ensures var c := CartChangeCommands(items);
      && (forall i :: 0 <= i < |items| ==> c[i + 1] == AddItemCommand(items[i]))
      && c[|c| - 1] == TrackEcommerceCartUpdate(SumUnitPrices(items))
      && (forall i :: 0 <= i < |c| - 1 ==> !c[i].TrackEcommerceCartUpdate?)
  {
    var c := CartChangeCommands(items);
    var tail := CartChangeTail(items);
    CartChangeIsClearThenTail(items);
    forall i | 0 <= i < |items| ensures c[i + 1] == AddItemCommand(items[i]) {
      assert c[i + 1] == tail[i];
    }
    forall i | 0 <= i < |c| - 1 ensures !c[i].TrackEcommerceCartUpdate? {
      if i == 0 {
        assert c[0] == ClearEcommerceCart;
      } else {
        assert c[i] == tail[i - 1];
      }
    }
  }

  lemma CartChangeIsClearThenTail(items: seq<CartLineItem>)
    requires items != []
    ensures forall j :: 1 <= j < |items| + 2 ==> CartChangeCommands(items)[j] == CartChangeTail(items)[j - 1]
  {
    assert CartChangeCommands(items) == [ClearEcommerceCart] + CartChangeTail(items);
  }

  /** What follows the clear for a non-empty cart. */
  function CartChangeTail(items: seq<CartLineItem>): (r: seq<Command>)
    ensures |r| == |items| + 1
    ensures forall i :: 0 <= i < |items| ==> r[i] == AddItemCommand(items[i]) && !r[i].TrackEcommerceCartUpdate?
    ensures r[|items|] == TrackEcommerceCartUpdate(SumUnitPrices(items))
  {
    AddItemCommands(items) + [TrackEcommerceCartUpdate(SumUnitPrices(items))]
  }

  /** The reported total adds unit prices and ignores quantities: two carts whose
      lines differ only in their quantities report the same total. */
  lemma {:induction false} UnitPriceSumIgnoresQuantity(a: seq<CartLineItem>, b: seq<CartLineItem>)
    requires |a| == |b|
    requires forall i :: 0 <= i < |a| ==> a[i].price == b[i].price
    ensures SumUnitPrices(a) == SumUnitPrices(b)
  {
    if a != [] {
      UnitPriceSumIgnoresQuantity(a[..|a| - 1], b[..|b| - 1]);
    }
  }

  /** The same, for the commands: the last command of such carts is the same
      total update. */
  lemma CartTotalIgnoresQuantity(a: seq<CartLineItem>, b: seq<CartLineItem>)
    requires |a| == |b| && a != []
    requires forall i :: 0 <= i < |a| ==> a[i].price == b[i].price
    ensures CartChangeCommands(a)[|a| + 1] == CartChangeCommands(b)[|b| + 1] == TrackEcommerceCartUpdate(SumUnitPrices(a))
  {
    UnitPriceSumIgnoresQuantity(a, b);
    NonEmptyCartChange(a);
    NonEmptyCartChange(b);
  }

  /** The tracker queue. */
  class PiwikQueue {
    var log: seq<Command>

    constructor()
      ensures log == []
    {
      log := [];
    }

    method Push(command: Command)
      modifies this
      ensures log == old(log) + [command]
    {
      log := log + [command];
    }

    /** `trackPiwikPageView`. */
    method TrackPageViewOf(url: string, documentTitle: string)
      modifies this
      ensures log == old(log) + [SetCustomUrl(url), SetDocumentTitle(documentTitle), TrackPageView]
    {
      Push(SetCustomUrl(url));
      Push(SetDocumentTitle(documentTitle));
      Push(TrackPageView);
    }

    /** `trackPiwikPreferredStore`: nothing without a window or without dimensions. */
    method TrackPreferredStore(env: Option<string>, hasWindow: bool, host: string)
      modifies this
      ensures hasWindow && CustomDimensionsForEnv(env).Some? ==> log == old(log) + [SetCustomDimension(1, host)]
      ensures !(hasWindow && CustomDimensionsForEnv(env).Some?) ==> log == old(log)
    {
      var customDimensions := CustomDimensionsForEnv(env);
      if hasWindow && customDimensions.Some? {
        Push(SetCustomDimension(customDimensions.value.preferredStore, host));
      }
    }

    /** `trackPiwikPreferredLanguage`: nothing without a window or without dimensions. */
    method TrackPreferredLanguage(env: Option<string>, hasWindow: bool, lang: string)
      modifies this
      ensures hasWindow && CustomDimensionsForEnv(env).Some? ==> log == old(log) + [SetCustomDimension(2, lang)]
      ensures !(hasWindow && CustomDimensionsForEnv(env).Some?) ==> log == old(log)
    {
      var customDimensions := CustomDimensionsForEnv(env);
      if hasWindow && customDimensions.Some? {
        Push(SetCustomDimension(customDimensions.value.preferredLanguage, lang));
      }
    }

    /** `trackPiwikEcommerceView`. */
    method TrackEcommerceView(sku: string, productName: Option<string>, categoryName: Option<string>, price: Money)
      modifies this
      ensures log == old(log) + [SetEcommerceView(sku, productName, categoryName, price.amountCents)]
    {
      Push(SetEcommerceView(sku, productName, categoryName, price.amountCents));
    }

    /** `trackPiwikCartChange`. */
    method TrackCartChange(items: seq<CartLineItem>)
      modifies this
      ensures log == old(log) + CartChangeCommands(items)
    {
      Push(ClearEcommerceCart);
      if |items| == 0 {
        return;
      }
      var i := 0;
      while i < |items|
        invariant 0 <= i <= |items|
        invariant log == old(log) + [ClearEcommerceCart] + AddItemCommands(items[..i])
      {
        assert AddItemCommands(items[..i + 1]) == AddItemCommands(items[..i]) + [AddItemCommand(items[i])];
        Push(AddItemCommand(items[i]));
        i := i + 1;
      }
      assert items[..i] == items;
      Push(TrackEcommerceCartUpdate(SumUnitPrices(items)));
    }
  }
}
