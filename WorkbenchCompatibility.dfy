/** The workbench compatibility of a product: the six-digit product id check, the
    compatibility data with its reset on failure, the first-compatible-topic
    selection and the context guard. The request is a parameter: its outcome is
    given to the effect that would have awaited it. */
module WorkbenchCompatibility {
  import opened Wrappers
  import opened Strings

  datatype DropdownTopic = DropdownTopic(labelText: string, value: string, isCompatible: string)

  datatype CompatibilityData = CompatibilityData(
    dropdownTopicVariants: seq<string>,
    activeTopicWikiid: int,
    dropdownTopics: seq<DropdownTopic>)

  const EmptyCompatibilityData := CompatibilityData([], 0, [])

  /** `/^\d{6}$/.test(productid)`: exactly six ASCII digits. */
  predicate IsValidProductId(productid: string) {
    |productid| == 6 && AllDigits(productid)
  }

  /** The request path for a valid product id. */
  function CompatibilityUrl(productid: string): (r: string)
    ensures |r| >= |productid| && r[|r| - |productid|..] == productid
  {
    "store/user/workbench_compatibility/" + productid
  }

  /** Every number from 100000 to 999999, written in decimal, is a valid product id. */
  lemma SixDigitNumbersAreValid(n: nat)
    requires 100000 <= n <= 999999
    ensures IsValidProductId(NatToString(n))
  {
    assert Pow10(5) == 100000 && Pow10(6) == 1000000;
    NatToStringLength(n, 6);
  }

  /** A valid id followed by anything more, such as an option suffix `-1`, is not
      valid. */
  lemma ValidIdTakesNoSuffix(productid: string, suffix: string)
    requires IsValidProductId(productid) && suffix != []
    ensures !IsValidProductId(productid + suffix)
  {
  }

  /** `dropdownTopics.find((topic) => topic.isCompatible === 'true')`. */
  function FirstCompatible(topics: seq<DropdownTopic>): (r: Option<DropdownTopic>)
    ensures r.None? <==> forall i :: 0 <= i < |topics| ==> topics[i].isCompatible != "true"
    ensures r.Some? ==> r.value.isCompatible == "true"
    ensures r.Some? ==>
      exists i :: 0 <= i < |topics| && topics[i] == r.value && forall j :: 0 <= j < i ==> topics[j].isCompatible != "true"
  {
    if topics == [] then None
    else if topics[0].isCompatible == "true" then Some(topics[0])
    else
      var r := FirstCompatible(topics[1..]);
      assert forall i :: 1 <= i < |topics| ==> topics[i] == topics[1..][i - 1];
      if r.Some? then
        var k :| 0 <= k < |topics[1..]| && topics[1..][k] == r.value && forall j :: 0 <= j < k ==> topics[1..][j].isCompatible != "true";
        assert topics[k + 1] == r.value;
        r
      else r
  }

  /** `firstCompatibleTopic || dropdownTopics[0]`. */
  function ChooseTopic(topics: seq<DropdownTopic>): (r: DropdownTopic)
    requires topics != []
    ensures r in topics
    ensures (forall i :: 0 <= i < |topics| ==> topics[i].isCompatible != "true") ==> r == topics[0]
  {
    FirstCompatible(topics).GetOr(topics[0])
  }

  /** The chosen topic is compatible exactly when some topic is, and then it is the
      first compatible one. */
  lemma ChooseTopicIsFirstCompatible(topics: seq<DropdownTopic>)
    requires topics != []
    ensures (exists i :: 0 <= i < |topics| && topics[i].isCompatible == "true") <==> ChooseTopic(topics).isCompatible == "true"
    ensures ChooseTopic(topics).isCompatible == "true" ==>
      exists i :: 0 <= i < |topics| && topics[i] == ChooseTopic(topics) && forall j :: 0 <= j < i ==> topics[j].isCompatible != "true"
  {
    var r := FirstCompatible(topics);
    if r.None? {
      assert ChooseTopic(topics) == topics[0];
    }
  }

  /** The state of `WorkbenchCompatibilityProvider`. */
  class Provider {
    var compatData: CompatibilityData
    var selectedTopic: Option<DropdownTopic>

    constructor()
      ensures compatData == EmptyCompatibilityData && selectedTopic.None?
    {
      compatData := EmptyCompatibilityData;
      selectedTopic := None;
    }

    /** The effect of `useWorkbenchCompatibility` for a product id, with the outcome
        of its request: an invalid id sends nothing and keeps the data; a failed
        request resets the data to the empty structure. */
    method OnProductId(productid: string, response: Result<CompatibilityData, string>) returns (request: Option<string>)
      modifies this
      ensures request.Some? <==> IsValidProductId(productid)
      ensures request.Some? ==> request.value == CompatibilityUrl(productid)
      ensures !IsValidProductId(productid) ==> compatData == old(compatData)
      ensures IsValidProductId(productid) && response.Success? ==> compatData == response.value
      ensures IsValidProductId(productid) && response.Failure? ==> compatData == EmptyCompatibilityData
      ensures selectedTopic == old(selectedTopic)
    {
      if !IsValidProductId(productid) {
        return None;
      }
      request := Some(CompatibilityUrl(productid));
      match response
      case Success(data) => compatData := data;
      case Failure(_) => compatData := EmptyCompatibilityData;
    }

    /** The selection effect that runs when the data changes. */
    method OnCompatData()
      modifies this
      ensures compatData == old(compatData)
      ensures compatData.dropdownTopics == [] ==> selectedTopic == old(selectedTopic)
      ensures compatData.dropdownTopics != [] ==> selectedTopic == Some(ChooseTopic(compatData.dropdownTopics))
    {
      if |compatData.dropdownTopics| == 0 {
        return;
      }
      var firstCompatibleTopic := FirstCompatible(compatData.dropdownTopics);
      selectedTopic := Some(firstCompatibleTopic.GetOr(compatData.dropdownTopics[0]));
    }
  }

  datatype ContextValue = ContextValue(data: CompatibilityData, selectedTopic: Option<DropdownTopic>)

  const ContextError := "useWorkbenchCompatibilityContext must be used within a WorkbenchCompatibilityContext"

  /** `useWorkbenchCompatibilityContext`: outside the provider there is no value, and
      it throws. */
  function UseContext(context: Option<ContextValue>): (r: Result<ContextValue, string>)
    ensures context.None? <==> r == Failure(ContextError)
    ensures context.Some? ==> r == Success(context.value)
  {
    match context
    case None => Failure(ContextError)
    case Some(value) => Success(value)
  }
}
