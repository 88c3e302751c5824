/** The optimistic cart update of `useAddToCart`: `addLineItem` folds one input
    line into the cart (merging the quantity of a line with the same itemcode, or
    appending a new line), `onMutate` folds the product or every bundle item into
    the cached cart, sorts the lines by itemcode and keeps a snapshot, and
    `onError` puts the snapshot back. */
module AddToCart {
  import opened Wrappers
  import opened Strings
  import opened Sorting

  /** A cart line. The fields the update does not look at are kept in `rest`. */
  datatype LineItem = LineItem(itemcode: string, quantity: int, rest: map<string, string>)

  datatype Totals = Totals(itemsCount: int, rest: map<string, string>)

  datatype Cart = Cart(hasItemsInCart: bool, lineItems: seq<LineItem>, totals: Totals, rest: map<string, string>)

  datatype AddToCartInput =
    | ProductInput(product: LineItem)
    | BundleInput(currentItemCode: string, items: seq<LineItem>)

  predicate UniqueItemcodes(items: seq<LineItem>) {
    forall i, j :: 0 <= i < j < |items| ==> items[i].itemcode != items[j].itemcode
  }

  predicate HasItemcode(items: seq<LineItem>, code: string) {
    exists i :: 0 <= i < |items| && items[i].itemcode == code
  }

  /** `findIndex` by itemcode: the first matching position, or -1. */
  function FindIndex(items: seq<LineItem>, code: string): (r: int)
    ensures -1 <= r < |items|
    ensures r >= 0 ==> items[r].itemcode == code && forall k :: 0 <= k < r ==> items[k].itemcode != code
    ensures r == -1 ==> forall k :: 0 <= k < |items| ==> items[k].itemcode != code
  {
    if items == [] then -1
    else if items[0].itemcode == code then 0
    else
      var r := FindIndex(items[1..], code);
      assert forall k :: 1 <= k < |items| ==> items[k] == items[1..][k - 1];
      if r == -1 then -1 else r + 1
  }

  /** `addLineItem(cart, input)`. It works on a copy of the line array, so `cart`
      itself is a value that is never changed. */
  function AddLineItem(cart: Cart, input: LineItem): (r: Cart)
    // a new itemcode becomes the last line, every earlier line unchanged
    ensures !HasItemcode(cart.lineItems, input.itemcode) ==> r.lineItems == cart.lineItems + [input]
    // a known itemcode: that line, in place, gets the sum of the quantities
    ensures HasItemcode(cart.lineItems, input.itemcode) ==>
      var i := FindIndex(cart.lineItems, input.itemcode);
      && |r.lineItems| == |cart.lineItems|
      && r.lineItems[i] == cart.lineItems[i].(quantity := cart.lineItems[i].quantity + input.quantity)
      && forall k :: 0 <= k < |r.lineItems| && k != i ==> r.lineItems[k] == cart.lineItems[k]
    ensures r.hasItemsInCart
    ensures r.totals.itemsCount == cart.totals.itemsCount + input.quantity
    ensures r.totals.rest == cart.totals.rest && r.rest == cart.rest
  {
    var i := FindIndex(cart.lineItems, input.itemcode);
    var updated :=
      if i >= 0 then
        var current := cart.lineItems[i];
        cart.lineItems[i := current.(quantity := current.quantity + input.quantity)]
      else
        cart.lineItems + [input];
    cart.(hasItemsInCart := true,
          lineItems := updated,
          totals := cart.totals.(itemsCount := cart.totals.itemsCount + input.quantity))
  }

  /** `addLineItem` keeps every itemcode on at most one line, and the added itemcode is present. */
  lemma AddLineItemKeepsUnique(cart: Cart, input: LineItem)
    requires UniqueItemcodes(cart.lineItems)
    ensures UniqueItemcodes(AddLineItem(cart, input).lineItems)
    ensures HasItemcode(AddLineItem(cart, input).lineItems, input.itemcode)
  {
    var r := AddLineItem(cart, input);
    if HasItemcode(cart.lineItems, input.itemcode) {
      var i := FindIndex(cart.lineItems, input.itemcode);
      assert r.lineItems[i].itemcode == input.itemcode;
      forall a, b | 0 <= a < b < |r.lineItems| ensures r.lineItems[a].itemcode != r.lineItems[b].itemcode {
        assert r.lineItems[a].itemcode == cart.lineItems[a].itemcode;
        assert r.lineItems[b].itemcode == cart.lineItems[b].itemcode;
      }
    } else {
      assert r.lineItems[|cart.lineItems|] == input;
    }
  }

  /** The line items an input adds: the bundle's items, or the one product. */
  function InputLineItems(input: AddToCartInput): (r: seq<LineItem>)
    ensures input.ProductInput? ==> r == [input.product]
    ensures input.BundleInput? ==> r == input.items
  {
    match input
    case ProductInput(p) => [p]
    case BundleInput(_, items) => items
  }

  /** `inputs.reduce(addLineItem, cart)`. */
  function Fold(cart: Cart, inputs: seq<LineItem>): (r: Cart)
    // an empty reduce returns its seed
    ensures inputs == [] ==> r == cart
    // every line of the cart keeps its place and itemcode; at most one line per input is appended
    ensures |cart.lineItems| <= |r.lineItems| <= |cart.lineItems| + |inputs|
    ensures forall k :: 0 <= k < |cart.lineItems| ==> r.lineItems[k].itemcode == cart.lineItems[k].itemcode
  {
    if inputs == [] then cart
    else AddLineItem(Fold(cart, inputs[..|inputs| - 1]), inputs[|inputs| - 1])
  }

  /** The quantities of the lines, added. */
  function SumQuantities(items: seq<LineItem>): (r: int)
    ensures (forall i :: 0 <= i < |items| ==> items[i].quantity >= 0) ==> r >= 0
    ensures (forall i :: 0 <= i < |items| ==> items[i].quantity == 1) ==> r == |items|
  {
    if items == [] then 0 else SumQuantities(items[..|items| - 1]) + items[|items| - 1].quantity
  }

  /** The fold adds exactly the sum of the added quantities to `itemsCount`, and
      keeps the other totals and cart fields. */
  lemma {:induction false} FoldCounts(cart: Cart, inputs: seq<LineItem>)
    ensures Fold(cart, inputs).totals.itemsCount == cart.totals.itemsCount + SumQuantities(inputs)
    ensures Fold(cart, inputs).totals.rest == cart.totals.rest
    ensures Fold(cart, inputs).rest == cart.rest
    ensures inputs != [] ==> Fold(cart, inputs).hasItemsInCart
  {
    if inputs != [] {
      FoldCounts(cart, inputs[..|inputs| - 1]);
    }
  }

  /** The fold keeps itemcodes unique and leaves a line for every added itemcode. */
  lemma {:induction false} FoldKeepsUnique(cart: Cart, inputs: seq<LineItem>)
    requires UniqueItemcodes(cart.lineItems)
    ensures UniqueItemcodes(Fold(cart, inputs).lineItems)
    ensures forall k :: 0 <= k < |inputs| ==> HasItemcode(Fold(cart, inputs).lineItems, inputs[k].itemcode)
  {
    if inputs != [] {
      var p := inputs[..|inputs| - 1];
      var prev := Fold(cart, p);
      FoldKeepsUnique(cart, p);
      AddLineItemKeepsUnique(prev, inputs[|inputs| - 1]);
      forall k | 0 <= k < |inputs| ensures HasItemcode(Fold(cart, inputs).lineItems, inputs[k].itemcode) {
        if k < |inputs| - 1 {
          assert inputs[k] == p[k];
          AddLineItemKeepsCodes(prev, inputs[|inputs| - 1], inputs[k].itemcode);
        }
      }
    }
  }

  /** `addLineItem` never drops an itemcode. */
  lemma AddLineItemKeepsCodes(cart: Cart, input: LineItem, code: string)
    requires HasItemcode(cart.lineItems, code)
    ensures HasItemcode(AddLineItem(cart, input).lineItems, code)
  {
    var r := AddLineItem(cart, input);
    var j :| 0 <= j < |cart.lineItems| && cart.lineItems[j].itemcode == code;
    assert r.lineItems[j].itemcode == code;
  }

  /** `localeCompare` order of itemcodes, taken as code-point order. */
  predicate ItemcodeLe(a: LineItem, b: LineItem) {
    LexLe(a.itemcode, b.itemcode)
  }

  lemma ItemcodePreorder(items: seq<LineItem>)
    ensures TotalOn(items, ItemcodeLe) && TransitiveOn(items, ItemcodeLe)
  {
    forall i, j | 0 <= i < |items| && 0 <= j < |items| ensures ItemcodeLe(items[i], items[j]) || ItemcodeLe(items[j], items[i]) {
      LexLeTotal(items[i].itemcode, items[j].itemcode);
    }
    forall i, j, k | 0 <= i < |items| && 0 <= j < |items| && 0 <= k < |items| && ItemcodeLe(items[i], items[j]) && ItemcodeLe(items[j], items[k])
      ensures ItemcodeLe(items[i], items[k])
    {
      LexLeTransitive(items[i].itemcode, items[j].itemcode, items[k].itemcode);
    }
  }

  /** The cart `onMutate` caches for a present cart: the fold, with its lines sorted. */
  function OptimisticUpdate(cart: Cart, input: AddToCartInput): (r: Cart)
    ensures var folded := Fold(cart, InputLineItems(input));
      && r == folded.(lineItems := r.lineItems)
      && multiset(r.lineItems) == multiset(folded.lineItems)
      && Sorted(r.lineItems, ItemcodeLe)
  {
    var folded := Fold(cart, InputLineItems(input));
    SortPermutes(folded.lineItems, ItemcodeLe);
    ItemcodePreorder(folded.lineItems);
    SortSorted(folded.lineItems, ItemcodeLe);
    folded.(lineItems := Sort(folded.lineItems, ItemcodeLe))
  }

  /** The sorted lines of an update keep itemcodes unique. */
  lemma OptimisticUpdateKeepsUnique(cart: Cart, input: AddToCartInput)
    requires UniqueItemcodes(cart.lineItems)
    ensures UniqueItemcodes(OptimisticUpdate(cart, input).lineItems)
  {
    var folded := Fold(cart, InputLineItems(input));
    var r := OptimisticUpdate(cart, input);
    FoldKeepsUnique(cart, InputLineItems(input));
    UniqueUnderPermutation(folded.lineItems, r.lineItems);
  }

  /** A permutation of lines with unique itemcodes has unique itemcodes. */
  lemma UniqueUnderPermutation(s: seq<LineItem>, t: seq<LineItem>)
    requires multiset(t) == multiset(s) && UniqueItemcodes(s)
    ensures UniqueItemcodes(t)
  {
    forall a, b | 0 <= a < b < |t| ensures t[a].itemcode != t[b].itemcode {
      assert t[a] in multiset(s) && t[b] in multiset(s);
      var i :| 0 <= i < |s| && s[i] == t[a];
      var j :| 0 <= j < |s| && s[j] == t[b];
      assert t[a] != t[b] by {
        UniqueOccursOnce(s, i);
        TwoPlacesCount(t, a, b);
      }
    }
  }

  lemma TwoPlacesCount<T>(t: seq<T>, a: int, b: int)
    requires 0 <= a < b < |t|
    ensures t[a] == t[b] ==> multiset(t)[t[a]] >= 2
  {
    assert t == t[..a] + [t[a]] + t[a + 1..b] + [t[b]] + t[b + 1..];
  }

  /** With unique itemcodes, a line occurs once. */
  lemma {:induction false} UniqueOccursOnce(s: seq<LineItem>, i: int)
    requires UniqueItemcodes(s) && 0 <= i < |s|
    ensures multiset(s)[s[i]] == 1
  {
    var x := s[i];
    assert s == s[..i] + [x] + s[i + 1..];
    assert x !in s[..i] by {
      forall k | 0 <= k < i ensures s[..i][k] != x { assert s[k].itemcode != s[i].itemcode; }
    }
    var suffix := s[i + 1..];
    assert x !in suffix by {
      forall k | 0 <= k < |suffix| ensures suffix[k] != x { assert suffix[k] == s[i + 1 + k]; }
    }
  }

  /** A cart object as the query cache holds it: its line array is shared by every
      reference to the object, so sorting it in place changes what each of them sees. */
  datatype CartObject = CartObject(hasItemsInCart: bool, lineItems: array<LineItem>, totals: Totals, rest: map<string, string>)

  /** The cart a cart object currently stands for. */
  function ValueOf(c: CartObject): (r: Cart)
    reads c.lineItems
    ensures r.lineItems == c.lineItems[..]
    ensures r.hasItemsInCart == c.hasItemsInCart && r.totals == c.totals && r.rest == c.rest
  {
    Cart(c.hasItemsInCart, c.lineItems[..], c.totals, c.rest)
  }

  /** The line array of a cached cart, as a frame. */
  function LinesOf(cart: Option<CartObject>): set<array<LineItem>> {
    if cart.Some? then {cart.value.lineItems} else {}
  }

  /** What `onMutate` hands to `onError`: the object `getQueryData` returned. */
  datatype MutationContext = MutationContext(previousCart: Option<CartObject>)

  /** The cached cart of the query client. */
  class QueryCache {
    var cart: Option<CartObject>

    constructor(initial: Option<CartObject>)
      ensures cart == initial
    {
      cart := initial;
    }

    /** `onMutate`: snapshots the cached cart object, then replaces a present cart
        with the fold of the input lines, sorted in place by itemcode; an absent cart
        stays absent. A fold over no lines returns the cached object itself, so the
        sort then reorders the snapshot's lines too; otherwise the fold has copied the
        lines and the snapshot keeps them as they were. */
    method OnMutate(input: AddToCartInput) returns (context: MutationContext)
      modifies this, LinesOf(cart)
      ensures context.previousCart == old(cart)
      ensures old(cart).None? ==> cart.None?
      ensures old(cart).Some? ==> cart.Some? && ValueOf(cart.value) == OptimisticUpdate(old(ValueOf(cart.value)), input)
      ensures old(cart).Some? && InputLineItems(input) == [] ==> cart == old(cart)
      ensures old(cart).Some? && InputLineItems(input) != [] ==>
        fresh(cart.value.lineItems) && unchanged(old(cart).value.lineItems)
    {
      context := MutationContext(cart);
      if cart.None? {
        return;
      }
      var current := cart.value;
      var inputs := InputLineItems(input);
      var updated: CartObject;
      if inputs == [] {
        updated := current;
      } else {
        var folded := Fold(ValueOf(current), inputs);
        var n := |folded.lineItems|;
        var lines := new LineItem[n](i requires 0 <= i < n => folded.lineItems[i]);
        assert lines[..] == folded.lineItems;
        updated := CartObject(folded.hasItemsInCart, lines, folded.totals, folded.rest);
      }
      InsertionSort(updated.lineItems, ItemcodeLe);
      cart := Some(updated);
    }

    /** `onError`: `setQueryData` with the snapshot. Setting the data to `undefined`
        leaves the cache as it is, so without a context or a snapshot nothing changes. */
    method OnError(context: Option<MutationContext>)
      modifies this
      ensures context.Some? && context.value.previousCart.Some? ==> cart == context.value.previousCart
      ensures context.None? || context.value.previousCart.None? ==> cart == old(cart)
    {
      match context {
        case Some(MutationContext(Some(previous))) =>
          cart := Some(previous);
        case _ =>
      }
    }

    /** A failed mutation puts the snapshot back: the cache holds the cart object it
        held before. Its lines are as they were, except after an input that adds no
        lines, whose in-place sort has reordered the snapshot's own lines. */
    method MutateThenFail(input: AddToCartInput)
      modifies this, LinesOf(cart)
      ensures cart == old(cart)
      ensures cart.Some? && InputLineItems(input) != [] ==> cart.value.lineItems[..] == old(cart.value.lineItems[..])
      ensures cart.Some? && InputLineItems(input) == [] ==>
        cart.value.lineItems[..] == Sort(old(cart.value.lineItems[..]), ItemcodeLe)
    {
      var context := OnMutate(input);
      OnError(Some(context));
    }
  }

  /** The lines an input that adds nothing leaves in a cart: the same lines, in
      itemcode order. */
  lemma EmptyInputOnlySorts(cart: Cart, input: AddToCartInput)
    requires InputLineItems(input) == []
    ensures OptimisticUpdate(cart, input) == cart.(lineItems := Sort(cart.lineItems, ItemcodeLe))
    ensures multiset(OptimisticUpdate(cart, input).lineItems) == multiset(cart.lineItems)
  {
  }
}
