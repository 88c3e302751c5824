/** The "Frequently bought together" section of the product page: the set of
    selected variant ids with its toggle, the total price of the selection, the
    empty-section rule and the `Pricing` display. Prices are integer cents. */
module CrossSell {
  import opened Wrappers

  datatype Variant = Variant(id: string, priceCents: int)

  /** The selected variant of the product with its cross-sell variants. */
  datatype SelectedVariant = SelectedVariant(id: string, priceCents: int, crossSellVariants: seq<Variant>)

  function Ids(variants: seq<Variant>): (r: seq<string>)
    ensures |r| == |variants| && forall i :: 0 <= i < |variants| ==> r[i] == variants[i].id
  {
    seq(|variants|, i requires 0 <= i < |variants| => variants[i].id)
  }

  /** The initial selection: every cross-sell variant, then the current variant. */
  function InitialSelection(v: SelectedVariant): (r: seq<string>)
    ensures |r| == |v.crossSellVariants| + 1 && r[|r| - 1] == v.id
    ensures forall i :: 0 <= i < |v.crossSellVariants| ==> r[i] == v.crossSellVariants[i].id
  {
    Ids(v.crossSellVariants) + [v.id]
  }

  /** `current.filter((id) => id !== variantId)`. */
  function Remove(ids: seq<string>, x: string): (r: seq<string>)
    ensures x !in r
    ensures forall y :: y != x ==> (y in r <==> y in ids)
    ensures x !in ids ==> r == ids
  {
    if ids == [] then []
    else if ids[0] == x then Remove(ids[1..], x)
    else
      var rest := Remove(ids[1..], x);
      assert ids == [ids[0]] + ids[1..];
      [ids[0]] + rest
  }

  /** The new selection of `handleToggleVariant`: the toggled id flips membership,
      every other id keeps its own. */
  function Toggle(ids: seq<string>, x: string): (r: seq<string>)
    ensures x in r <==> x !in ids
    ensures forall y :: y != x ==> (y in r <==> y in ids)
  {
    if x in ids then Remove(ids, x) else ids + [x]
  }

  /** Toggling twice restores membership. */
  lemma ToggleTwice(ids: seq<string>, x: string, y: string)
    ensures y in Toggle(Toggle(ids, x), x) <==> y in ids
  {
  }

  /** The position of the first variant with the id, or -1. */
  function IndexOfId(variants: seq<Variant>, id: string): (k: int)
    ensures -1 <= k < |variants|
    ensures k >= 0 ==> variants[k].id == id && forall j :: 0 <= j < k ==> variants[j].id != id
    ensures k == -1 <==> id !in Ids(variants)
  {
    if variants == [] then -1
    else if variants[0].id == id then 0
    else
      var k := IndexOfId(variants[1..], id);
      assert Ids(variants) == [variants[0].id] + Ids(variants[1..]);
      assert forall j :: 1 <= j < |variants| ==> variants[j] == variants[1..][j - 1];
      if k == -1 then -1 else k + 1
  }

  /** The first cross-sell variant with the id, if any (`find`). */
  function Find(variants: seq<Variant>, id: string): (r: Option<Variant>)
    ensures r.None? <==> id !in Ids(variants)
    ensures r.Some? ==> r.value.id == id && r.value == variants[IndexOfId(variants, id)]
  {
    if variants == [] then None
    else if variants[0].id == id then Some(variants[0])
    else
      assert Ids(variants) == [variants[0].id] + Ids(variants[1..]);
      Find(variants[1..], id)
  }

  /** What one selected id adds to the total: the current price, the price of the
      first cross-sell variant with that id, or nothing. */
  function PriceOf(v: SelectedVariant, id: string): (r: int)
    ensures id == v.id ==> r == v.priceCents
    ensures id != v.id && id !in Ids(v.crossSellVariants) ==> r == 0
    ensures id != v.id && id in Ids(v.crossSellVariants) ==>
      r == v.crossSellVariants[IndexOfId(v.crossSellVariants, id)].priceCents
  {
    if id == v.id then v.priceCents
    else match Find(v.crossSellVariants, id)
      case Some(variant) => variant.priceCents
      case None => 0
  }

  /** No variant of the section has a negative price. */
  predicate NonNegativePrices(v: SelectedVariant) {
    v.priceCents >= 0 && forall i :: 0 <= i < |v.crossSellVariants| ==> v.crossSellVariants[i].priceCents >= 0
  }

  /** `totalPrice`: the reduce over the selection, in cents. */
  function TotalPrice(v: SelectedVariant, ids: seq<string>): (r: int)
    ensures ids == [] ==> r == 0
    ensures NonNegativePrices(v) ==> r >= 0
  {
    if ids == [] then 0 else TotalPrice(v, ids[..|ids| - 1]) + PriceOf(v, ids[|ids| - 1])
  }

  lemma {:induction false} TotalPriceAppend(v: SelectedVariant, a: seq<string>, b: seq<string>)
    ensures TotalPrice(v, a + b) == TotalPrice(v, a) + TotalPrice(v, b)
  {
    if b == [] {
      assert a + b == a;
    } else {
      TotalPriceAppend(v, a, b[..|b| - 1]);
      assert (a + b)[..|a + b| - 1] == a + b[..|b| - 1];
    }
  }

  /** Ids that are neither the current variant nor a cross-sell variant add nothing. */
  lemma {:induction false} UnknownIdsAddNothing(v: SelectedVariant, ids: seq<string>)
    requires forall i :: 0 <= i < |ids| ==> ids[i] != v.id && ids[i] !in Ids(v.crossSellVariants)
    ensures TotalPrice(v, ids) == 0
  {
    if ids != [] {
      UnknownIdsAddNothing(v, ids[..|ids| - 1]);
    }
  }

  /** The sum of the prices of a list of variants. */
  function SumPrices(variants: seq<Variant>): int {
    if variants == [] then 0 else SumPrices(variants[..|variants| - 1]) + variants[|variants| - 1].priceCents
  }

  /** The current variant and its cross-sell variants have pairwise distinct ids. */
  predicate DistinctIds(v: SelectedVariant) {
    && (forall i :: 0 <= i < |v.crossSellVariants| ==> v.crossSellVariants[i].id != v.id)
    && (forall i, j :: 0 <= i < j < |v.crossSellVariants| ==> v.crossSellVariants[i].id != v.crossSellVariants[j].id)
  }

  /** With distinct ids, `find` returns the variant itself. */
  lemma {:induction false} FindDistinct(variants: seq<Variant>, k: nat)
    requires k < |variants|
    requires forall i, j :: 0 <= i < j < |variants| ==> variants[i].id != variants[j].id
    ensures Find(variants, variants[k].id) == Some(variants[k])
  {
    if k > 0 {
      FindDistinct(variants[1..], k - 1);
    }
  }

  lemma {:induction false} TotalOfCrossSells(v: SelectedVariant, k: nat)
    requires DistinctIds(v) && k <= |v.crossSellVariants|
    ensures TotalPrice(v, Ids(v.crossSellVariants[..k])) == SumPrices(v.crossSellVariants[..k])
  {
    if k > 0 {
      var cs := v.crossSellVariants;
      TotalOfCrossSells(v, k - 1);
      assert cs[..k][..k - 1] == cs[..k - 1];
      assert Ids(cs[..k])[..k - 1] == Ids(cs[..k - 1]);
      FindDistinct(cs, k - 1);
    }
  }

  /** With the initial selection, the total is the current price plus every
      cross-sell price. */
  lemma TotalOfInitialSelection(v: SelectedVariant)
    requires DistinctIds(v)
    ensures TotalPrice(v, InitialSelection(v)) == v.priceCents + SumPrices(v.crossSellVariants)
  {
    TotalOfCrossSells(v, |v.crossSellVariants|);
    assert v.crossSellVariants[..|v.crossSellVariants|] == v.crossSellVariants;
    TotalPriceAppend(v, Ids(v.crossSellVariants), [v.id]);
    assert TotalPrice(v, [v.id]) == TotalPrice(v, []) + PriceOf(v, v.id);
  }

  /** Toggling the given ids one after another. */
  function ToggleAll(ids: seq<string>, toggled: seq<string>): seq<string>
    decreases |toggled|
  {
    if toggled == [] then ids else ToggleAll(Toggle(ids, toggled[0]), toggled[1..])
  }

  lemma {:induction false} DeselectCrossSells(v: SelectedVariant, k: nat)
    requires DistinctIds(v) && k <= |v.crossSellVariants|
    ensures ToggleAll(Ids(v.crossSellVariants[k..]) + [v.id], Ids(v.crossSellVariants[k..])) == [v.id]
    decreases |v.crossSellVariants| - k
  {
    var cs := v.crossSellVariants;
    if k < |cs| {
      var ids := Ids(cs[k..]);
      assert ids[0] == cs[k].id;
      assert Ids(cs[k + 1..]) == ids[1..];
      assert cs[k].id !in Ids(cs[k + 1..]) + [v.id];
      assert ids + [v.id] == [cs[k].id] + (Ids(cs[k + 1..]) + [v.id]);
      assert Toggle(ids + [v.id], cs[k].id) == Ids(cs[k + 1..]) + [v.id];
      DeselectCrossSells(v, k + 1);
    }
  }

  /** Deselecting every cross-sell variant leaves only the current variant, whose
      price is then the total. */
  lemma DeselectAllLeavesCurrent(v: SelectedVariant)
    requires DistinctIds(v)
    ensures ToggleAll(InitialSelection(v), Ids(v.crossSellVariants)) == [v.id]
    ensures TotalPrice(v, [v.id]) == v.priceCents
  {
    DeselectCrossSells(v, 0);
    assert v.crossSellVariants[0..] == v.crossSellVariants;
    assert TotalPrice(v, [v.id]) == TotalPrice(v, []) + PriceOf(v, v.id);
  }

  /** The state of the section: the selected variant ids. */
  class CrossSellSection {
    const variant: SelectedVariant
    var selectedVariantIds: seq<string>

    constructor(v: SelectedVariant)
      ensures variant == v && selectedVariantIds == InitialSelection(v)
    {
      variant := v;
      selectedVariantIds := InitialSelection(v);
    }

    /** `handleToggleVariant`. */
    method HandleToggleVariant(id: string)
      modifies this
      ensures selectedVariantIds == Toggle(old(selectedVariantIds), id)
      ensures id in selectedVariantIds <==> id !in old(selectedVariantIds)
      ensures forall y :: y != id ==> (y in selectedVariantIds <==> y in old(selectedVariantIds))
    {
      if id in selectedVariantIds {
        selectedVariantIds := Remove(selectedVariantIds, id);
      } else {
        selectedVariantIds := selectedVariantIds + [id];
      }
    }

    /** The total shown for the current selection. */
    function Total(): (r: int)
      reads this
      ensures NonNegativePrices(variant) ==> r >= 0
      ensures selectedVariantIds == InitialSelection(variant) && DistinctIds(variant) ==>
        r == variant.priceCents + SumPrices(variant.crossSellVariants)
    {
      if selectedVariantIds == InitialSelection(variant) && DistinctIds(variant) then
        TotalOfInitialSelection(variant);
        TotalPrice(variant, selectedVariantIds)
      else
        TotalPrice(variant, selectedVariantIds)
    }
  }

  /** What the section shows: nothing without cross-sell variants, else the total. */
  function SectionTotal(v: SelectedVariant, ids: seq<string>): (r: Option<int>)
    ensures r.None? <==> |v.crossSellVariants| == 0
    ensures r.Some? ==> r.value == TotalPrice(v, ids)
  {
    if |v.crossSellVariants| == 0 then None else Some(TotalPrice(v, ids))
  }

  /** What `Pricing` shows. */
  datatype PriceDisplay = PriceDisplay(strikeThrough: Option<string>, price: string, discounted: bool)

  function Pricing(price: Option<string>, compareAtPrice: Option<string>): (r: Option<PriceDisplay>)
    ensures r.None? <==> price.None?
    ensures r.Some? ==> r.value.price == price.value
    ensures r.Some? ==> (r.value.strikeThrough.Some? <==> compareAtPrice.Some?)
    ensures r.Some? ==> (r.value.discounted <==> compareAtPrice.Some?)
    ensures r.Some? && compareAtPrice.Some? ==> r.value.strikeThrough.value == compareAtPrice.value
  {
    var isDiscounted := compareAtPrice.Some?;
    match price
    case None => None
    case Some(p) => Some(PriceDisplay(if isDiscounted then compareAtPrice else None, p, isDiscounted))
  }
}
