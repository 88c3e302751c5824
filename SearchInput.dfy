/** The product-list search box: a change searches the typed value cut to the
    maximum query length, and the clear button searches the empty query. */
module SearchInput {
  const MaxSearchQueryLength := 100

  /** The value `onSearchChange` passes to `search`. */
  function SearchedValue(newValue: string): (r: string)
    ensures |r| <= MaxSearchQueryLength
    ensures |newValue| > MaxSearchQueryLength ==> r == newValue[..MaxSearchQueryLength]
    ensures |newValue| <= MaxSearchQueryLength ==> r == newValue
  {
    if |newValue| > MaxSearchQueryLength then newValue[..MaxSearchQueryLength] else newValue
  }

  /** The searched value is always a prefix of what was typed, and searching it
      again changes nothing. */
  lemma SearchedValueIdempotent(newValue: string)
    ensures SearchedValue(newValue) <= newValue
    ensures SearchedValue(SearchedValue(newValue)) == SearchedValue(newValue)
  {
  }

  /** `clearSearch`. */
  function ClearSearch(): (r: string)
    ensures |r| == 0
  {
    ""
  }

  /** The clear button: shown and enabled exactly for a non-empty query. */
  datatype ClearButton = ClearButton(visible: bool, disabled: bool)

  function ClearButtonFor(query: string): (r: ClearButton)
    ensures r.disabled <==> query == []
    ensures r.visible <==> !r.disabled
  {
    ClearButton(|query| > 0, |query| == 0)
  }

  /** After clearing, the clear button is disabled. */
  lemma ClearDisablesButton()
    ensures ClearButtonFor(ClearSearch()).disabled
    ensures !ClearButtonFor(ClearSearch()).visible
  {
  }
}
