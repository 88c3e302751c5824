/** The collection page's product search: `parseSearchParams` turns the URL search
    parameters into a page, a query and per-facet refinements restricted to the
    supported facets; `createFacetFilters` and `createFilters` build the filters of
    the search request. */
module SearchProducts {
  import opened Wrappers
  import opened Strings
  import GenericHelpers

  const SupportedFacets: seq<string> := [
    "facet_tags.Capacity",
    "facet_tags.Device Brand",
    "facet_tags.Device Category",
    "facet_tags.Device Type",
    "facet_tags.Item Type",
    "facet_tags.OS",
    "facet_tags.Part or Kit",
    "facet_tags.Tool Category",
    "device",
    "worksin"
  ]

  const HitsPerPage := 24

  const PublicFilters := "public=1 AND is_pro!=1"

  datatype ProductListType = Parts | Tools | DeviceParts | ToolsCategory | Marketing

  /** A search parameter given once or several times. */
  datatype ParamValue = Single(value: string) | Multi(values: seq<string>)

  /** The page's search parameters: `p`, `q` and every other key. */
  datatype SearchParams = SearchParams(p: Option<string>, q: Option<string>, others: map<string, ParamValue>)

  /** The refinements object, as its entries in insertion order. */
  type Refinements = seq<(string, seq<string>)>

  datatype ParsedSearchParams = ParsedSearchParams(page: ParsedInt, query: string, refinements: Refinements)

  /** A parameter as a JavaScript value: a string, or an array of strings. */
  function AsJsValue(v: ParamValue): GenericHelpers.JsValue {
    match v
    case Single(s) => GenericHelpers.Str(s)
    case Multi(_) => GenericHelpers.Arr
  }

  /** `if (filterValues)`: a string is truthy when non-empty, an array always. */
  predicate ParamTruthy(v: ParamValue): (r: bool)
    ensures r <==> GenericHelpers.Truthy(AsJsValue(v))
  {
    v.Multi? || v.value != ""
  }

  /** `Array.isArray(v) ? v : [v]`. */
  function AsList(v: ParamValue): (r: seq<string>)
    ensures v.Single? ==> r == [v.value]
    ensures v.Multi? ==> r == v.values
  {
    match v
    case Single(s) => [s]
    case Multi(values) => values
  }

  /** The supported facets are distinct, so assigning each in turn appends it. */
  lemma SupportedFacetsDistinct()
    ensures forall i, j :: 0 <= i < j < |SupportedFacets| ==> SupportedFacets[i] != SupportedFacets[j]
  {
  }

  predicate HasKey(r: Refinements, facet: string) {
    exists i :: 0 <= i < |r| && r[i].0 == facet
  }

  /** The refinements for the facets `facets`, in the order of `facets`. */
  function RefinementsFor(facets: seq<string>, others: map<string, ParamValue>): (r: Refinements)
    ensures |r| <= |facets|
    ensures forall i :: 0 <= i < |r| ==> r[i].0 in facets
  {
    if facets == [] then []
    else
      var prefix := RefinementsFor(facets[..|facets| - 1], others);
      var facet := facets[|facets| - 1];
      if facet in others && ParamTruthy(others[facet]) then prefix + [(facet, AsList(others[facet]))]
      else prefix
  }

  /** An entry for facet `e.0`, one of `facets`, holding its truthy parameter as a list. */
  predicate EntryFor(e: (string, seq<string>), facets: seq<string>, others: map<string, ParamValue>) {
    e.0 in facets && e.0 in others && ParamTruthy(others[e.0]) && e.1 == AsList(others[e.0])
  }

  /** The refinement keys are exactly the facets with a truthy parameter, and each
      holds its parameter as a list. */
  lemma {:induction false} RefinementsForEntries(facets: seq<string>, others: map<string, ParamValue>)
    ensures forall i :: 0 <= i < |RefinementsFor(facets, others)| ==> EntryFor(RefinementsFor(facets, others)[i], facets, others)
    ensures forall f :: f in facets && f in others && ParamTruthy(others[f]) ==> HasKey(RefinementsFor(facets, others), f)
  {
    if facets != [] {
      var p := facets[..|facets| - 1];
      var facet := facets[|facets| - 1];
      RefinementsForEntries(p, others);
      var prefix := RefinementsFor(p, others);
      var r := RefinementsFor(facets, others);
      assert facets == p + [facet];
      if facet in others && ParamTruthy(others[facet]) {
        assert r == prefix + [(facet, AsList(others[facet]))];
        forall i | 0 <= i < |r| ensures EntryFor(r[i], facets, others) {
          if i < |prefix| { assert r[i] == prefix[i]; assert EntryFor(prefix[i], p, others); }
        }
        forall f | f in facets && f in others && ParamTruthy(others[f]) ensures HasKey(r, f) {
          if f == facet {
            assert r[|prefix|].0 == f;
          } else {
            assert f in p;
            var k :| 0 <= k < |prefix| && prefix[k].0 == f;
            assert r[k].0 == f;
          }
        }
      } else {
        forall i | 0 <= i < |r| ensures EntryFor(r[i], facets, others) {
          assert EntryFor(prefix[i], p, others);
        }
        forall f | f in facets && f in others && ParamTruthy(others[f]) ensures HasKey(r, f) {
          assert f in p;
        }
      }
    }
  }

  /** With distinct facets, each facet has at most one entry, so the refinements are
      a dictionary. */
  lemma {:induction false} RefinementsForKeysUnique(facets: seq<string>, others: map<string, ParamValue>)
    requires forall i, j :: 0 <= i < j < |facets| ==> facets[i] != facets[j]
    ensures forall i, j :: 0 <= i < j < |RefinementsFor(facets, others)| ==> RefinementsFor(facets, others)[i].0 != RefinementsFor(facets, others)[j].0
  {
    if facets != [] {
      var p := facets[..|facets| - 1];
      var facet := facets[|facets| - 1];
      RefinementsForKeysUnique(p, others);
      var prefix := RefinementsFor(p, others);
      RefinementsForEntries(p, others);
      forall i | 0 <= i < |prefix| ensures prefix[i].0 != facet {
        assert EntryFor(prefix[i], p, others);
        var k :| 0 <= k < |p| && p[k] == prefix[i].0;
        assert facets[k] == p[k];
      }
      var r := RefinementsFor(facets, others);
      assert facets[..|facets| - 1] == p;
      assert r == prefix || r == prefix + [(facet, AsList(others[facet]))];
    }
  }

  function PageOf(p: Option<string>): (page: ParsedInt)
    ensures (p.None? || p.value == "") ==> page == Num(1)
    ensures p.Some? && p.value != "" ==> page == ParseInt(p.value)
  {
    if p.Some? && p.value != "" then ParseInt(p.value) else Num(1)
  }

  /** A page number written in decimal is read back. */
  lemma PageOfDecimal(n: nat)
    ensures PageOf(Some(NatToString(n))) == Num(n)
  {
    ParseIntOfIntToString(n);
  }

  /** `parseSearchParams`. */
  method ParseSearchParams(params: SearchParams) returns (r: ParsedSearchParams)
    ensures r.page == PageOf(params.p)
    ensures r.query == params.q.GetOr("")
    ensures r.refinements == RefinementsFor(SupportedFacets, params.others)
  {
    var page := PageOf(params.p);
    var query := params.q.GetOr("");
    var refinements: Refinements := [];
    var i := 0;
    while i < |SupportedFacets|
      invariant 0 <= i <= |SupportedFacets|
      invariant refinements == RefinementsFor(SupportedFacets[..i], params.others)
    {
      var facet := SupportedFacets[i];
      assert SupportedFacets[..i + 1][..i] == SupportedFacets[..i];
      if facet in params.others && ParamTruthy(params.others[facet]) {
        refinements := refinements + [(facet, AsList(params.others[facet]))];
      }
      i := i + 1;
    }
    assert SupportedFacets[..i] == SupportedFacets;
    r := ParsedSearchParams(page, query, refinements);
  }

  /** `createFacetFilters`: one group per refinement, each value written `facet:value`. */
  function CreateFacetFilters(refinements: Refinements): (r: seq<seq<string>>)
    ensures |r| == |refinements|
    ensures forall i :: 0 <= i < |r| ==> |r[i]| == |refinements[i].1|
    ensures forall i, j :: 0 <= i < |r| && 0 <= j < |r[i]| ==> r[i][j] == refinements[i].0 + ":" + refinements[i].1[j]
  {
    if refinements == [] then []
    else
      var (facet, values) := refinements[0];
      [seq(|values|, j requires 0 <= j < |values| => facet + ":" + values[j])] + CreateFacetFilters(refinements[1..])
  }

  /** The text before the first `:`. */
  function BeforeColon(s: string): (r: string)
    ensures r <= s && ':' !in r
  {
    if s == [] || s[0] == ':' then [] else [s[0]] + BeforeColon(s[1..])
  }

  lemma {:induction false} BeforeColonOfPrefixed(facet: string, value: string)
    requires ':' !in facet
    ensures BeforeColon(facet + ":" + value) == facet
    ensures (facet + ":" + value)[|facet| + 1..] == value
  {
    if facet != [] {
      assert (facet + ":" + value)[1..] == facet[1..] + ":" + value;
      BeforeColonOfPrefixed(facet[1..], value);
    }
  }

  /** No supported facet contains `:`. */
  lemma SupportedFacetsHaveNoColon()
    ensures forall k :: 0 <= k < |SupportedFacets| ==> ':' !in SupportedFacets[k]
  {
  }

  /** A facet filter of a facet without `:` splits back into its facet and value at
      the first `:`; by `SupportedFacetsHaveNoColon`, every facet filter of parsed
      refinements does. */
  lemma FacetFiltersRoundTrip(r: Refinements, i: int, j: int)
    requires 0 <= i < |r| && 0 <= j < |r[i].1| && ':' !in r[i].0
    ensures var filter := CreateFacetFilters(r)[i][j];
      BeforeColon(filter) == r[i].0 && filter[|r[i].0| + 1..] == r[i].1[j]
  {
    BeforeColonOfPrefixed(r[i].0, r[i].1[j]);
  }

  /** The Main Category clause of a product list type, if it has one. */
  function CategoryClause(t: ProductListType): (r: Option<string>)
    ensures r.Some? <==> t.Parts? || t.Tools?
  {
    match t
    case Parts => Some("'facet_tags.Main Category': 'Parts'")
    case Tools => Some("'facet_tags.Main Category': 'Tools'")
    case _ => None
  }

  /** `createFilters`: the public filters, then the category clause, joined with ` AND `. */
  function CreateFilters(t: ProductListType): (r: string)
    ensures PublicFilters <= r
    ensures r == PublicFilters <==> !(t.Parts? || t.Tools?)
    ensures CategoryClause(t).Some? ==> r[|PublicFilters|..] == " AND " + CategoryClause(t).value
  {
    match CategoryClause(t)
    case Some(c) =>
      assert Join([PublicFilters, c], " AND ") == PublicFilters + " AND " + Join([c], " AND ");
      Join([PublicFilters, c], " AND ")
    case None => Join([PublicFilters], " AND ")
  }

  /** The options of the search request (the request itself is not modelled). */
  datatype SearchRequest = SearchRequest(
    query: string,
    filters: string,
    facetFilters: seq<seq<string>>,
    facets: seq<string>,
    hitsPerPage: int)

  /** The request `searchProducts` sends, with the page it reports. */
  method BuildSearchRequest(params: SearchParams, t: ProductListType) returns (request: SearchRequest, page: ParsedInt)
    ensures page == PageOf(params.p)
    ensures request.query == params.q.GetOr("")
    ensures request.filters == CreateFilters(t)
    ensures request.facetFilters == CreateFacetFilters(RefinementsFor(SupportedFacets, params.others))
    ensures request.facets == SupportedFacets && request.hitsPerPage == HitsPerPage
  {
    var parsed := ParseSearchParams(params);
    request := SearchRequest(parsed.query, CreateFilters(t), CreateFacetFilters(parsed.refinements), SupportedFacets, HitsPerPage);
    page := parsed.page;
  }
}
