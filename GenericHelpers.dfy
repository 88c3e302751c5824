/** The shared helpers of `packages/helpers`: JavaScript truthiness and `typeof`,
    the `invariant` assertion with its error message, `isPresent`, `isRecord`
    and `filterNullableItems`. */
module GenericHelpers {
  import opened Wrappers

  /** A JavaScript value, as far as the helpers distinguish values. Numbers are
      integers here; floating point is not modelled. */
  datatype JsValue =
    | Undefined
    | Null
    | Bool(b: bool)
    | Number(n: int)
    | NaN
    | Str(s: string)
    | Obj
    | Arr
    | Func

  /** Loose inequality with `null` (`v != null`): false for `null` and `undefined` alone. */
  predicate LooselyNotNull(v: JsValue) {
    !(v.Null? || v.Undefined?)
  }

  /** ECMAScript ToBoolean. */
  predicate Truthy(v: JsValue)
    ensures Truthy(v) ==> LooselyNotNull(v)
    ensures v.Str? ==> (Truthy(v) <==> |v.s| > 0)
  {
    match v
    case Undefined => false
    case Null => false
    case Bool(b) => b
    case Number(n) => n != 0
    case NaN => false
    case Str(s) => s != ""
    case _ => true
  }

  /** The `typeof` operator: `null`, arrays and plain objects are all "object". */
  function TypeOf(v: JsValue): (r: string)
    ensures r in {"undefined", "object", "boolean", "number", "string", "function"}
    ensures r == "object" <==> v.Null? || v.Obj? || v.Arr?
    ensures r == "string" <==> v.Str?
  {
    match v
    case Undefined => "undefined"
    case Null => "object"
    case Bool(_) => "boolean"
    case Number(_) => "number"
    case NaN => "number"
    case Str(_) => "string"
    case Obj => "object"
    case Arr => "object"
    case Func => "function"
  }


  /** `isRecord(val)`: `val != null && typeof val === 'object'`. */
  predicate IsRecord(v: JsValue)
    ensures IsRecord(v) ==> Truthy(v)
  {
    LooselyNotNull(v) && TypeOf(v) == "object"
  }

  /** `isRecord` holds exactly for plain objects and arrays. */
  lemma IsRecordIff(v: JsValue)
    ensures IsRecord(v) <==> v.Obj? || v.Arr?
  {
  }

  // ---------------------------------------------------------------------------
  // invariant
  // ---------------------------------------------------------------------------

  const Prefix := "invariant failed"

  /** The optional message of `invariant`: a string, or a function returning one
      (represented by the string it returns). */
  datatype Message = Text(text: string) | Thunk(result: string)

  function Provided(message: Option<Message>): string {
    match message
    case None => ""
    case Some(Text(t)) => t
    case Some(Thunk(t)) => t
  }

  /** `invariant(condition, message)`: returns normally when the condition is
      truthy, and otherwise throws an `Error` whose message is the result. */
  function Invariant(condition: JsValue, isProduction: bool, message: Option<Message>): (r: Outcome<string>)
    ensures r.Pass? <==> Truthy(condition)
    ensures r.Fail? && isProduction ==> r.error == Prefix
    ensures r.Fail? && !isProduction && Provided(message) == "" ==> r.error == Prefix
    ensures r.Fail? && !isProduction && Provided(message) != "" ==> r.error == Prefix + ": " + Provided(message)
  {
    if Truthy(condition) then Pass
    else if isProduction then Fail(Prefix)
    else
      var provided := Provided(message);
      Fail(if Truthy(Str(provided)) then Prefix + ": " + provided else Prefix)
  }

  /** Every failure message starts with the prefix, and outside production the
      provided message is recovered from the text after `": "`. */
  lemma InvariantMessageRecoverable(condition: JsValue, isProduction: bool, message: Option<Message>)
    requires !Truthy(condition)
    ensures var r := Invariant(condition, isProduction, message);
      && r.Fail?
      && Prefix <= r.error
      && (r.error == Prefix <==> isProduction || Provided(message) == "")
      && (!isProduction && Provided(message) != "" ==> r.error[|Prefix| + 2..] == Provided(message))
  {
    var r := Invariant(condition, isProduction, message);
    if !isProduction && Provided(message) != "" {
      assert r.error == Prefix + ": " + Provided(message);
      assert r.error[..|Prefix|] == Prefix;
    }
  }

  // ---------------------------------------------------------------------------
  // isPresent and filterNullableItems
  // ---------------------------------------------------------------------------

  /** `isPresent(text)`: a string of positive length. */
  predicate IsPresent(v: JsValue)
    ensures IsPresent(v) ==> v.Str? && Truthy(v)
  {
    TypeOf(v) == "string" && |v.s| > 0
  }

  /** `isPresent` is the truthiness of strings, and false for anything else. */
  lemma IsPresentIff(v: JsValue)
    ensures IsPresent(v) <==> v.Str? && Truthy(v)
  {
  }

  /** The items that are not `null`/`undefined` (`None`), in order. */
  function Present<T>(items: seq<Option<T>>): (r: seq<T>)
    ensures |r| <= |items|
    ensures forall i :: 0 <= i < |r| ==> Some(r[i]) in items
    ensures forall i :: 0 <= i < |items| && items[i].Some? ==> items[i].value in r
  {
    if items == [] then []
    else
      var rest := Present(items[1..]);
      assert forall i :: 1 <= i < |items| ==> items[i] == items[1..][i - 1];
      if items[0].Some? then [items[0].value] + rest else rest
  }

  /** `filterNullableItems(items)`: a missing list gives `[]`. */
  function FilterNullableItems<T>(items: Option<seq<Option<T>>>): (r: seq<T>)
    ensures items.None? ==> r == []
    ensures items.Some? ==> r == Present(items.value)
  {
    match items
    case None => []
    case Some(xs) => Present(xs)
  }

  /** Filtering keeps relative order: it distributes over concatenation. */
  lemma {:induction false} PresentAppend<T>(a: seq<Option<T>>, b: seq<Option<T>>)
    ensures Present(a + b) == Present(a) + Present(b)
  {
    if a == [] {
      assert a + b == b;
    } else {
      assert (a + b)[1..] == a[1..] + b;
      PresentAppend(a[1..], b);
    }
  }

  /** A list without missing items loses nothing. */
  lemma {:induction false} PresentOfAllSome<T>(items: seq<Option<T>>)
    requires forall i :: 0 <= i < |items| ==> items[i].Some?
    ensures |Present(items)| == |items|
    ensures forall i :: 0 <= i < |items| ==> Present(items)[i] == items[i].value
  {
    if items != [] {
      PresentOfAllSome(items[1..]);
    }
  }
}
