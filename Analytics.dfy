/** The add-to-cart event of the analytics package: the event and itemcode strings
    of `trackAddToCart`, and the event-name default of `trackInMatomoAndGA`. The
    trackers it calls are recorded as the calls they receive. */
module Analytics {
  import opened Wrappers
  import opened Strings
  import opened AddToCart

  datatype TrackEvent = TrackEvent(eventCategory: string, eventAction: string, eventName: string)

  /** A call into a tracker this package delegates to. */
  datatype TrackerCall =
    | MatomoCartChange(cart: seq<LineItem>)
    | GoogleAddToCart(input: AddToCartInput)
    | MatomoEvent(event: TrackEvent)
    | GaEvent(category: string, action: string, name: string)

  /** The page the code runs in: `None` on the server, else the window's origin and
      path name. */
  type Window = Option<(string, string)>

  /** `trackInMatomoAndGA`: a missing or empty event name becomes the page URL. */
  function TrackInMatomoAndGA(window: Window, category: string, action: string, eventName: string): (r: seq<TrackerCall>)
    // on the server nothing is tracked
    ensures window.None? ==> r == []
    // in a browser, one Matomo event and then one GA event
    ensures window.Some? ==> |r| == 2 && r[0].MatomoEvent? && r[1].GaEvent?
    // the two events carry the same category, action and name
    ensures window.Some? ==>
      && r[0].event.eventCategory == r[1].category == category
      && r[0].event.eventAction == r[1].action == action
      && r[0].event.eventName == r[1].name
    // the name is the given one, or the page URL when it is empty
    ensures window.Some? && eventName != "" ==> r[1].name == eventName
    ensures window.Some? && eventName == "" ==> r[1].name == window.value.0 + window.value.1
  {
    match window
    case None => []
    case Some((origin, pathname)) =>
      var name := if eventName != "" then eventName else origin + pathname;
      [MatomoEvent(TrackEvent(category, action, name)), GaEvent(category, action, name)]
  }

  /** Passing the name an event was tracked with tracks the same events again: the
      page URL only fills in a missing name. */
  lemma TrackWithResolvedName(window: Window, category: string, action: string, eventName: string)
    requires window.Some?
    ensures var r := TrackInMatomoAndGA(window, category, action, eventName);
      TrackInMatomoAndGA(window, category, action, r[1].name) == r
  {
  }

  /** `Add to Cart`, with ` - <specification>` for a non-empty specification. */
  function Event(eventSpecification: string): (r: string)
    ensures eventSpecification == "" ==> r == "Add to Cart"
    ensures eventSpecification != "" ==> r == "Add to Cart - " + eventSpecification
  {
    "Add to Cart" + (if eventSpecification != "" then " - " + eventSpecification else "")
  }

  function Itemcodes(items: seq<LineItem>): (r: seq<string>)
    ensures |r| == |items| && forall i :: 0 <= i < |items| ==> r[i] == items[i].itemcode
  {
    seq(|items|, i requires 0 <= i < |items| => items[i].itemcode)
  }

  /** The itemcodes of an input: the product's, or the bundle's current itemcode, a
      `/` and the item codes joined with `, `. */
  function ItemcodesOf(input: AddToCartInput): (r: string)
    ensures input.ProductInput? ==> r == input.product.itemcode
    ensures input.BundleInput? ==>
      var code := input.currentItemCode;
      |r| > |code| && r[..|code|] == code && r[|code|] == '/'
  {
    match input
    case ProductInput(product) => product.itemcode
    case BundleInput(currentItemCode, items) => currentItemCode + "/" + Join(Itemcodes(items), ", ")
  }

  /** `trackAddToCart`: nothing on the server; else the cart and input trackers, then
      the event, whose action is the event and the itemcodes. */
  function TrackAddToCart(window: Window, cart: seq<LineItem>, input: AddToCartInput, eventSpecification: string): (r: seq<TrackerCall>)
    ensures window.None? ==> r == []
    ensures window.Some? ==> |r| == 4 && r[0] == MatomoCartChange(cart) && r[1] == GoogleAddToCart(input)
    ensures window.Some? ==> r[2] == MatomoEvent(TrackEvent(Event(eventSpecification),
                                                            Event(eventSpecification) + " - " + ItemcodesOf(input),
                                                            window.value.0 + window.value.1))
    ensures window.Some? ==> r[3] == GaEvent(Event(eventSpecification),
                                             Event(eventSpecification) + " - " + ItemcodesOf(input),
                                             window.value.0 + window.value.1)
  {
    match window
    case None => []
    case Some((origin, pathname)) =>
      var event := Event(eventSpecification);
      [MatomoCartChange(cart), GoogleAddToCart(input)]
        + TrackInMatomoAndGA(window, event, event + " - " + ItemcodesOf(input), origin + pathname)
  }

  /** The action of a bundle lists the current itemcode before the `/`, and the
      item codes after it, separated by `, `; for an itemcode without a slash,
      the first `/` is the separator, so both parts can be read back. */
  lemma BundleActionParts(currentItemCode: string, items: seq<LineItem>, eventSpecification: string)
    requires '/' !in currentItemCode
    ensures var itemcodes := ItemcodesOf(BundleInput(currentItemCode, items));
      && itemcodes[..|currentItemCode|] == currentItemCode
      && itemcodes[|currentItemCode|] == '/'
      && itemcodes[|currentItemCode| + 1..] == Join(Itemcodes(items), ", ")
      && forall k :: 0 <= k < |currentItemCode| ==> itemcodes[k] != '/'
  {
    var itemcodes := ItemcodesOf(BundleInput(currentItemCode, items));
    assert itemcodes == currentItemCode + "/" + Join(Itemcodes(items), ", ");
  }
}
