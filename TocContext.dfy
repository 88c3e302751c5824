/** The table-of-contents registry of the troubleshooting page. The registry is a
    JavaScript object keyed by `uniqueId`; it is modelled as the sequence of its
    records in key insertion order, which is the order `Object.values` gives for
    ids that are not integer-like, with the key of each entry being its record's
    `uniqueId`. Element offsets and the
    viewport are integers. */
module TocContext {
  import opened Wrappers
  import opened Sorting

  /** The DOM element a record is attached to. */
  datatype Element = Element(id: string, offsetTop: int, offsetHeight: int)

  /** A React ref; `current` is `null` until the element is mounted. */
  datatype Ref = Ref(current: Option<Element>)

  datatype MinimalTOCRecord = MinimalTOCRecord(title: string, uniqueId: string)

  /** The record's `scrollTo` closure is determined by `elementRef` and
      `scrollToBufferPx`, so it is not stored; see `RecordScrollTo`. */
  datatype TOCRecord = TOCRecord(
    title: string,
    uniqueId: string,
    elementRef: Ref,
    active: bool,
    scrollToBufferPx: Option<int>)

  /** `window.scrollY` and `window.innerHeight`. */
  datatype Viewport = Viewport(scrollY: int, innerHeight: int)

  // ---------------------------------------------------------------------------
  // The dictionary
  // ---------------------------------------------------------------------------

  function Keys(items: seq<TOCRecord>): (r: seq<string>)
    ensures |r| == |items| && forall i :: 0 <= i < |items| ==> r[i] == items[i].uniqueId
  {
    if items == [] then [] else [items[0].uniqueId] + Keys(items[1..])
  }

  predicate UniqueKeys(items: seq<TOCRecord>) {
    forall i, j :: 0 <= i < j < |items| ==> items[i].uniqueId != items[j].uniqueId
  }

  /** The position of key `id`, or -1. */
  function IndexOf(items: seq<TOCRecord>, id: string): (r: int)
    ensures -1 <= r < |items|
    ensures r >= 0 ==> items[r].uniqueId == id
    ensures r == -1 <==> id !in Keys(items)
  {
    if items == [] then -1
    else if items[0].uniqueId == id then 0
    else
      var r := IndexOf(items[1..], id);
      assert Keys(items) == [items[0].uniqueId] + Keys(items[1..]);
      if r == -1 then -1 else r + 1
  }

  /** `items[id]`: the record stored under `id`, if any. */
  function Lookup(items: seq<TOCRecord>, id: string): (r: Option<TOCRecord>)
    ensures r.Some? <==> id in Keys(items)
    ensures r.Some? ==> r.value in items && r.value.uniqueId == id
  {
    var i := IndexOf(items, id);
    if i >= 0 then Some(items[i]) else None
  }

  /** `newItems[rec.uniqueId] = rec`: an existing key keeps its position, a new
      key goes last. */
  function Assign(items: seq<TOCRecord>, rec: TOCRecord): (r: seq<TOCRecord>)
    ensures rec.uniqueId in Keys(items) ==> Keys(r) == Keys(items)
    ensures rec.uniqueId !in Keys(items) ==> Keys(r) == Keys(items) + [rec.uniqueId]
  {
    var i := IndexOf(items, rec.uniqueId);
    if i >= 0 then items[i := rec] else items + [rec]
  }

  /** `delete newItems[id]`. */
  function Delete(items: seq<TOCRecord>, id: string): (r: seq<TOCRecord>)
    ensures id !in Keys(items) ==> r == items
  {
    var i := IndexOf(items, id);
    if i >= 0 then items[..i] + items[i + 1..] else items
  }

  /** Assigning stores the record under its key and changes no other key. */
  lemma LookupAssign(items: seq<TOCRecord>, rec: TOCRecord, id: string)
    requires UniqueKeys(items)
    ensures UniqueKeys(Assign(items, rec))
    ensures Lookup(Assign(items, rec), id) == if id == rec.uniqueId then Some(rec) else Lookup(items, id)
  {
    var r := Assign(items, rec);
    var i := IndexOf(items, rec.uniqueId);
    var j := IndexOf(r, id);
    var k := IndexOf(items, id);
    if i >= 0 {
      assert forall a :: 0 <= a < |r| ==> r[a].uniqueId == items[a].uniqueId;
      if j >= 0 && k >= 0 { assert j == k; }
    } else {
      assert Keys(r) == Keys(items) + [rec.uniqueId];
      if id == rec.uniqueId {
        assert r[|items|] == rec;
        assert j == |items|;
      } else if j >= 0 {
        assert r[j] == items[j];
        assert k == j;
      }
    }
  }

  /** With unique keys, a position holding key `id` is the one `IndexOf` finds. */
  lemma IndexOfUnique(items: seq<TOCRecord>, id: string, k: int)
    requires UniqueKeys(items) && 0 <= k < |items| && items[k].uniqueId == id
    ensures IndexOf(items, id) == k
  {
    assert id in Keys(items);
  }

  lemma DeleteShape(items: seq<TOCRecord>, i: int)
    requires 0 <= i < |items|
    ensures var r := items[..i] + items[i + 1..];
      && |r| == |items| - 1
      && (forall a :: 0 <= a < i ==> r[a] == items[a])
      && (forall a :: i <= a < |r| ==> r[a] == items[a + 1])
  {
  }

  /** Removing position `i` keeps the keys unique and drops the key stored there. */
  lemma DeleteAtKeepsUnique(items: seq<TOCRecord>, i: int)
    requires UniqueKeys(items) && 0 <= i < |items|
    ensures UniqueKeys(items[..i] + items[i + 1..])
    ensures items[i].uniqueId !in Keys(items[..i] + items[i + 1..])
  {
    var r := items[..i] + items[i + 1..];
    DeleteShape(items, i);
    forall a, b | 0 <= a < b < |r| ensures r[a].uniqueId != r[b].uniqueId {
      var a' := if a < i then a else a + 1;
      var b' := if b < i then b else b + 1;
      assert r[a] == items[a'] && r[b] == items[b'];
    }
    forall a | 0 <= a < |r| ensures r[a].uniqueId != items[i].uniqueId {
      var a' := if a < i then a else a + 1;
      assert r[a] == items[a'];
    }
  }

  /** Removing position `i` keeps every other key, and where the key is missing
      it stays missing. */
  lemma DeleteAtKeepsOthers(items: seq<TOCRecord>, i: int, other: string)
    requires UniqueKeys(items) && 0 <= i < |items| && other != items[i].uniqueId
    ensures Lookup(items[..i] + items[i + 1..], other) == Lookup(items, other)
  {
    var r := items[..i] + items[i + 1..];
    DeleteShape(items, i);
    DeleteAtKeepsUnique(items, i);
    var k := IndexOf(items, other);
    if k >= 0 {
      var k' := if k < i then k else k - 1;
      assert r[k'] == items[k];
      IndexOfUnique(r, other, k');
    } else {
      forall a | 0 <= a < |r| ensures r[a].uniqueId != other {
        var a' := if a < i then a else a + 1;
        assert r[a] == items[a'];
      }
      assert other !in Keys(r);
    }
  }

  /** Deleting removes exactly the key `id`, keeping the order of the others. */
  lemma LookupDelete(items: seq<TOCRecord>, id: string, other: string)
    requires UniqueKeys(items)
    ensures UniqueKeys(Delete(items, id))
    ensures Lookup(Delete(items, id), id).None?
    ensures other != id ==> Lookup(Delete(items, id), other) == Lookup(items, other)
  {
    var i := IndexOf(items, id);
    if i >= 0 {
      DeleteAtKeepsUnique(items, i);
      if other != id {
        DeleteAtKeepsOthers(items, i, other);
      }
    }
  }

  // ---------------------------------------------------------------------------
  // Records
  // ---------------------------------------------------------------------------

  /** `createRecord(minimal, ref)`: inactive, with the given ref or an empty one. */
  function CreateRecord(minimal: MinimalTOCRecord, ref: Option<Ref>): (r: TOCRecord)
    ensures r.title == minimal.title && r.uniqueId == minimal.uniqueId
    ensures !r.active && r.scrollToBufferPx.None?
    ensures ref.None? ==> r.elementRef == Ref(None)
    ensures ref.Some? ==> r.elementRef == ref.value
  {
    TOCRecord(minimal.title, minimal.uniqueId, ref.GetOr(Ref(None)), false, None)
  }

  /** `Object.fromEntries` over fresh records: a repeated id keeps the position of its
      first occurrence and the record of its last. */
  function CreateTOCItems(minimals: seq<MinimalTOCRecord>): (r: seq<TOCRecord>)
    ensures UniqueKeys(r)
  {
    if minimals == [] then []
    else
      var prefix := CreateTOCItems(minimals[..|minimals| - 1]);
      LookupAssign(prefix, CreateRecord(minimals[|minimals| - 1], Some(Ref(None))), "");
      Assign(prefix, CreateRecord(minimals[|minimals| - 1], Some(Ref(None))))
  }

  /** The keys of `createTOCItems` are exactly the given ids, and every record starts
      inactive with an empty ref. */
  lemma {:induction false} CreateTOCItemsKeys(minimals: seq<MinimalTOCRecord>)
    ensures forall id :: id in Keys(CreateTOCItems(minimals)) <==> exists i :: 0 <= i < |minimals| && minimals[i].uniqueId == id
    ensures forall k :: 0 <= k < |CreateTOCItems(minimals)| ==>
      var rec := CreateTOCItems(minimals)[k];
      !rec.active && rec.elementRef == Ref(None) && rec.scrollToBufferPx.None?
  {
    CreateTOCItemsKeySet(minimals);
    CreateTOCItemsFresh(minimals);
  }

  lemma {:induction false} CreateTOCItemsKeySet(minimals: seq<MinimalTOCRecord>)
    ensures forall id :: id in Keys(CreateTOCItems(minimals)) <==> exists i :: 0 <= i < |minimals| && minimals[i].uniqueId == id
  {
    if minimals != [] {
      var p := minimals[..|minimals| - 1];
      var last := minimals[|minimals| - 1];
      var prefix := CreateTOCItems(p);
      var rec := CreateRecord(last, Some(Ref(None)));
      CreateTOCItemsKeySet(p);
      var r := CreateTOCItems(minimals);
      assert r == Assign(prefix, rec);
      forall id ensures id in Keys(r) <==> exists i :: 0 <= i < |minimals| && minimals[i].uniqueId == id {
        if id in Keys(r) && id != last.uniqueId {
          assert id in Keys(prefix);
          var i :| 0 <= i < |p| && p[i].uniqueId == id;
          assert minimals[i] == p[i];
        }
        if exists i :: 0 <= i < |minimals| && minimals[i].uniqueId == id {
          var i :| 0 <= i < |minimals| && minimals[i].uniqueId == id;
          if i < |p| {
            assert p[i] == minimals[i];
          }
        }
      }
    }
  }

  lemma {:induction false} CreateTOCItemsFresh(minimals: seq<MinimalTOCRecord>)
    ensures forall k :: 0 <= k < |CreateTOCItems(minimals)| ==>
      var rec := CreateTOCItems(minimals)[k];
      !rec.active && rec.elementRef == Ref(None) && rec.scrollToBufferPx.None?
  {
    if minimals != [] {
      var p := minimals[..|minimals| - 1];
      var prefix := CreateTOCItems(p);
      var rec := CreateRecord(minimals[|minimals| - 1], Some(Ref(None)));
      CreateTOCItemsFresh(p);
      var r := CreateTOCItems(minimals);
      assert r == Assign(prefix, rec);
      AssignRecords(prefix, rec);
    }
  }

  /** Every record after `Assign` is the assigned one or the one already there. */
  lemma AssignRecords(items: seq<TOCRecord>, rec: TOCRecord)
    ensures forall k :: 0 <= k < |Assign(items, rec)| ==>
      Assign(items, rec)[k] == rec || (k < |items| && Assign(items, rec)[k] == items[k])
  {
  }

  /** `updateTOCItemRef`: a missing id leaves the items as they are; otherwise that
      record gets the given ref (or keeps its own) and the buffer. */
  function UpdateTOCItemRef(items: seq<TOCRecord>, id: string, ref: Option<Ref>, bufferPx: Option<int>): (r: seq<TOCRecord>)
    ensures id !in Keys(items) ==> r == items
    ensures Keys(r) == Keys(items)
  {
    match Lookup(items, id)
    case None => items
    case Some(existing) =>
      Assign(items, existing.(elementRef := ref.GetOr(existing.elementRef), scrollToBufferPx := bufferPx))
  }

  /** Updating a present id changes only that entry, in the way described above. */
  lemma UpdateTOCItemRefEntries(items: seq<TOCRecord>, id: string, ref: Option<Ref>, bufferPx: Option<int>, other: string)
    requires UniqueKeys(items) && id in Keys(items)
    ensures var existing := Lookup(items, id).value;
      Lookup(UpdateTOCItemRef(items, id, ref, bufferPx), id)
        == Some(existing.(elementRef := if ref.Some? then ref.value else existing.elementRef, scrollToBufferPx := bufferPx))
    ensures other != id ==> Lookup(UpdateTOCItemRef(items, id, ref, bufferPx), other) == Lookup(items, other)
  {
    var existing := Lookup(items, id).value;
    var rec := existing.(elementRef := ref.GetOr(existing.elementRef), scrollToBufferPx := bufferPx);
    LookupAssign(items, rec, id);
    LookupAssign(items, rec, other);
  }

  // ---------------------------------------------------------------------------
  // Scrolling
  // ---------------------------------------------------------------------------

  datatype ScrollToOptions = ScrollToOptions(bufferPx: Option<int>, addIdToUrl: Option<bool>)

  /** The effects of `scrollTo`: the smooth-scroll target and the hash pushed onto
      the history, if any. */
  datatype ScrollEffect = ScrollEffect(top: int, pushedHash: Option<string>)

  /** `scrollTo(ref, bufferPx, options)` as written: `options?.addIdToUrl || true` is
      always true, so the hash is pushed whenever the element has an id. */
  function ScrollToAsWritten(ref: Ref, bufferPx: Option<int>, options: Option<ScrollToOptions>): (r: Option<ScrollEffect>)
    ensures r.None? <==> ref.current.None?
    ensures r.Some? ==> r.value.top == ref.current.value.offsetTop + bufferPx.GetOr(0)
    ensures r.Some? ==> (r.value.pushedHash.Some? <==> ref.current.value.id != "")
  {
    match ref.current
    case None => None
    case Some(el) =>
      var addIdToUrl := (options.Some? && options.value.addIdToUrl == Some(true)) || true;
      Some(ScrollEffect(el.offsetTop + bufferPx.GetOr(0),
        if addIdToUrl && el.id != "" then Some("#" + el.id) else None))
  }

  /** Asking not to add the id to the URL still pushes it. */
  lemma AddIdToUrlFalseIgnored()
    ensures ScrollToAsWritten(Ref(Some(Element("step-1", 40, 10))), None, Some(ScrollToOptions(None, Some(false))))
      == Some(ScrollEffect(40, Some("#step-1")))
  {
    assert "#" + "step-1" == "#step-1";
  }

  /** `scrollTo` with the option defaulting to true (`?? true`), so that an explicit
      `false` keeps the URL as it is. */
  function ScrollTo(ref: Ref, bufferPx: Option<int>, options: Option<ScrollToOptions>): (r: Option<ScrollEffect>)
    ensures r.None? <==> ref.current.None?
    ensures r.Some? ==> r.value.top == ref.current.value.offsetTop + bufferPx.GetOr(0)
    ensures r.Some? ==> (r.value.pushedHash.Some? <==>
      ref.current.value.id != "" && !(options.Some? && options.value.addIdToUrl == Some(false)))
    ensures r.Some? && r.value.pushedHash.Some? ==> r.value.pushedHash.value == "#" + ref.current.value.id
  {
    match ref.current
    case None => None
    case Some(el) =>
      var addIdToUrl := if options.Some? then options.value.addIdToUrl.GetOr(true) else true;
      Some(ScrollEffect(el.offsetTop + bufferPx.GetOr(0),
        if addIdToUrl && el.id != "" then Some("#" + el.id) else None))
  }

  /** The two agree on every call that does not pass `addIdToUrl: false`, which
      includes every call of a record's `scrollTo` without options. */
  lemma ScrollToAgrees(ref: Ref, bufferPx: Option<int>, options: Option<ScrollToOptions>)
    requires !(options.Some? && options.value.addIdToUrl == Some(false))
    ensures ScrollTo(ref, bufferPx, options) == ScrollToAsWritten(ref, bufferPx, options)
  {
  }

  /** A record's `scrollTo`: its ref with its stored buffer (a fresh record has no
      buffer, which scrolls like 0). */
  function RecordScrollTo(rec: TOCRecord, options: Option<ScrollToOptions>): (r: Option<ScrollEffect>)
    ensures r.None? <==> rec.elementRef.current.None?
    ensures r.Some? ==> r.value.top == rec.elementRef.current.value.offsetTop + rec.scrollToBufferPx.GetOr(0)
  {
    ScrollTo(rec.elementRef, rec.scrollToBufferPx, options)
  }

  // ---------------------------------------------------------------------------
  // Vertical order and the closest visible record
  // ---------------------------------------------------------------------------

  /** `elementRef.current?.offsetTop || 0`. */
  function Top(rec: TOCRecord): (r: int)
    ensures rec.elementRef.current.None? ==> r == 0
    ensures rec.elementRef.current.Some? ==> r == rec.elementRef.current.value.offsetTop
  {
    match rec.elementRef.current
    case Some(el) => el.offsetTop
    case None => 0
  }

  /** The comparator `aTop - bTop` does not put `b` before `a`. */
  predicate TopLe(a: TOCRecord, b: TOCRecord) {
    Top(a) <= Top(b)
  }

  lemma TopPreorder(items: seq<TOCRecord>)
    ensures TotalOn(items, TopLe) && TransitiveOn(items, TopLe)
  {
  }

  /** `sortVertically(records)`, in place. */
  method SortVertically(a: array<TOCRecord>)
    modifies a
    ensures a[..] == Sort(old(a[..]), TopLe)
    ensures Sorted(a[..], TopLe) && multiset(a[..]) == multiset(old(a[..]))
  {
    ghost var s := a[..];
    TopPreorder(s);
    SortSorted(s, TopLe);
    SortPermutes(s, TopLe);
    InsertionSort(a, TopLe);
  }

  /** The filter of `getClosest`, with the 10% buffer scaled by 10: an element whose
      top is below the scroll position, or one taller than the viewport whose top is
      scrolled past while its bottom (plus the buffer) is not yet above the
      viewport's bottom. A record without an element is never visible. */
  predicate Visible(rec: TOCRecord, vp: Viewport): (r: bool)
    ensures r ==> rec.elementRef.current.Some?
    ensures rec.elementRef.current.Some? && rec.elementRef.current.value.offsetTop > vp.scrollY ==> r
    ensures (&& rec.elementRef.current.Some?
             && rec.elementRef.current.value.offsetTop <= vp.scrollY
             && rec.elementRef.current.value.offsetHeight <= vp.innerHeight) ==> !r
  {
    match rec.elementRef.current
    case None => false
    case Some(el) =>
      var topIsScrolledPast := el.offsetTop <= vp.scrollY;
      var isBiggerThanViewport := el.offsetHeight > vp.innerHeight;
      var bottomIsAboveViewportBottomWithBuffer :=
        10 * (el.offsetTop + el.offsetHeight) + vp.innerHeight <= 10 * (vp.scrollY + vp.innerHeight);
      (topIsScrolledPast && isBiggerThanViewport && !bottomIsAboveViewportBottomWithBuffer)
      || !topIsScrolledPast
  }

  function VisibleRecords(items: seq<TOCRecord>, vp: Viewport): (r: seq<TOCRecord>)
    ensures forall i :: 0 <= i < |r| ==> r[i] in items && Visible(r[i], vp)
    ensures forall i :: 0 <= i < |items| && Visible(items[i], vp) ==> items[i] in r
  {
    if items == [] then []
    else
      var rest := VisibleRecords(items[1..], vp);
      assert forall i :: 1 <= i < |items| ==> items[i] == items[1..][i - 1];
      if Visible(items[0], vp) then [items[0]] + rest else rest
  }

  /** The first minimal visible record has the smallest top among all visible
      records, and is a record of `items` with an element. */
  lemma FirstMinimalVisibleIsLowest(items: seq<TOCRecord>, vp: Viewport, m: int)
    requires IsFirstMinimal(VisibleRecords(items, vp), m, TopLe)
    ensures var visible := VisibleRecords(items, vp);
      && visible[m] in items && Visible(visible[m], vp) && visible[m].elementRef.current.Some?
      && forall k :: 0 <= k < |items| && Visible(items[k], vp) ==> Top(visible[m]) <= Top(items[k])
  {
    var visible := VisibleRecords(items, vp);
    forall k | 0 <= k < |items| && Visible(items[k], vp) ensures Top(visible[m]) <= Top(items[k]) {
      var j :| 0 <= j < |visible| && visible[j] == items[k];
      assert TopLe(visible[m], visible[j]);
    }
  }

  /** The record `getClosest` returns: the first of the visible records after the
      stable sort by top, or `null` when none is visible. It is visible, has an
      element, has the smallest top, and is the first visible record with that top. */
  function ClosestOf(items: seq<TOCRecord>, vp: Viewport): (r: Option<TOCRecord>)
    ensures r.None? <==> forall k :: 0 <= k < |items| ==> !Visible(items[k], vp)
    ensures r.Some? ==> r.value in items && Visible(r.value, vp) && r.value.elementRef.current.Some?
    ensures r.Some? ==> forall k :: 0 <= k < |items| && Visible(items[k], vp) ==> Top(r.value) <= Top(items[k])
    ensures r.Some? ==> exists m :: IsFirstMinimal(VisibleRecords(items, vp), m, TopLe) && r.value == VisibleRecords(items, vp)[m]
  {
    var visible := VisibleRecords(items, vp);
    if visible == [] then None
    else
      TopPreorder(visible);
      SortHeadIsFirstMinimal(visible, TopLe);
      ghost var m :| IsFirstMinimal(visible, m, TopLe) && Sort(visible, TopLe)[0] == visible[m];
      FirstMinimalVisibleIsLowest(items, vp, m);
      Some(Sort(visible, TopLe)[0])
  }

  /** `getClosest(items)`: filters, sorts the visible records in place, takes the first. */
  method GetClosest(items: seq<TOCRecord>, vp: Viewport) returns (closest: Option<TOCRecord>)
    ensures closest == ClosestOf(items, vp)
  {
    var visible := VisibleRecords(items, vp);
    var a := new TOCRecord[|visible|](i requires 0 <= i < |visible| => visible[i]);
    assert a[..] == visible;
    SortVertically(a);
    closest := if a.Length > 0 then Some(a[0]) else None;
  }

  /** The records with `active` set to whether they are the closest one. */
  ghost predicate MarkedActive(before: seq<TOCRecord>, after: seq<TOCRecord>, closest: Option<TOCRecord>) {
    && |after| == |before|
    && forall k :: 0 <= k < |after| ==>
      after[k] == before[k].(active := closest.Some? && before[k].uniqueId == closest.value.uniqueId)
  }

  /** After marking, at most one record is active, and it is the closest one. */
  lemma MarkedActiveIsClosest(before: seq<TOCRecord>, after: seq<TOCRecord>, closest: Option<TOCRecord>)
    requires UniqueKeys(before) && MarkedActive(before, after, closest)
    requires closest.Some? ==> closest.value.uniqueId in Keys(before)
    ensures UniqueKeys(after) && Keys(after) == Keys(before)
    ensures forall i, j :: 0 <= i < j < |after| ==> !(after[i].active && after[j].active)
    ensures closest.None? ==> forall k :: 0 <= k < |after| ==> !after[k].active
    ensures closest.Some? ==> exists k :: 0 <= k < |after| && after[k].active && after[k].uniqueId == closest.value.uniqueId
  {
    if closest.Some? {
      var k := IndexOf(before, closest.value.uniqueId);
      assert after[k].active;
    }
  }

  /** The registry held by `TOCContextProvider`. */
  class TOCProvider {
    var items: seq<TOCRecord>

    ghost predicate Valid()
      reads this
    {
      UniqueKeys(items)
    }

    /** The initial state, `createTOCItems(defaultItems || [])`. */
    constructor(defaultItems: Option<seq<MinimalTOCRecord>>)
      ensures items == CreateTOCItems(defaultItems.GetOr([]))
      ensures Valid()
    {
      items := CreateTOCItems(defaultItems.GetOr([]));
    }

    /** `addItem`: a duplicate id is an error and changes nothing; otherwise a record
        with the given ref is added under its id. */
    method AddItem(minimal: MinimalTOCRecord, ref: Ref) returns (outcome: Outcome<string>)
      requires Valid()
      modifies this
      ensures Valid()
      ensures minimal.uniqueId in old(Keys(items)) ==>
        outcome == Fail("UniqueId " + minimal.uniqueId + " already exists in the TOC") && items == old(items)
      ensures minimal.uniqueId !in old(Keys(items)) ==>
        outcome.Pass? && items == old(items) + [CreateRecord(minimal, Some(ref))]
    {
      if minimal.uniqueId in Keys(items) {
        return Fail("UniqueId " + minimal.uniqueId + " already exists in the TOC");
      }
      LookupAssign(items, CreateRecord(minimal, Some(ref)), "");
      items := Assign(items, CreateRecord(minimal, Some(ref)));
      outcome := Pass;
    }

    /** `updateItemRef`. */
    method UpdateItemRef(id: string, ref: Ref, bufferPx: Option<int>)
      requires Valid()
      modifies this
      ensures Valid()
      ensures items == UpdateTOCItemRef(old(items), id, Some(ref), bufferPx)
    {
      match Lookup(items, id)
      case None =>
      case Some(existing) =>
        LookupAssign(items, existing.(elementRef := ref, scrollToBufferPx := bufferPx), "");
      items := UpdateTOCItemRef(items, id, Some(ref), bufferPx);
    }

    /** `removeItem`. */
    method RemoveItem(id: string)
      requires Valid()
      modifies this
      ensures Valid()
      ensures items == Delete(old(items), id)
    {
      LookupDelete(items, id, "");
      items := Delete(items, id);
    }

    /** `getItem`. */
    function GetItem(id: string): (r: Option<TOCRecord>)
      reads this
      ensures r == Lookup(items, id)
    {
      Lookup(items, id)
    }

    /** `getItems`: the records sorted by top, ties in insertion order. */
    method GetItems() returns (r: seq<TOCRecord>)
      ensures r == Sort(items, TopLe)
      ensures Sorted(r, TopLe) && multiset(r) == multiset(items)
    {
      var a := new TOCRecord[|items|](i reads this requires 0 <= i < |items| => items[i]);
      assert a[..] == items;
      SortVertically(a);
      r := a[..];
    }

    /** `updateClosestItem`: every record's `active` flag is set to whether it is the
        closest one. */
    method UpdateClosestItem(vp: Viewport)
      requires Valid()
      modifies this
      ensures Valid()
      ensures MarkedActive(old(items), items, ClosestOf(old(items), vp))
    {
      var closest := GetClosest(items, vp);
      ghost var before := items;
      var i := 0;
      while i < |items|
        invariant 0 <= i <= |items| == |before|
        invariant forall k :: 0 <= k < i ==>
          items[k] == before[k].(active := closest.Some? && before[k].uniqueId == closest.value.uniqueId)
        invariant forall k :: i <= k < |items| ==> items[k] == before[k]
      {
        items := items[i := items[i].(active := closest.Some? && items[i].uniqueId == closest.value.uniqueId)];
        i := i + 1;
      }
      assert forall k :: 0 <= k < |items| ==> items[k].uniqueId == before[k].uniqueId;
    }
  }

  /** After `updateClosestItem`, at most one record is active: the closest one. */
  lemma UpdateClosestItemActivatesClosest(before: seq<TOCRecord>, after: seq<TOCRecord>, vp: Viewport)
    requires UniqueKeys(before) && MarkedActive(before, after, ClosestOf(before, vp))
    ensures forall i, j :: 0 <= i < j < |after| ==> !(after[i].active && after[j].active)
    ensures ClosestOf(before, vp).None? ==> forall k :: 0 <= k < |after| ==> !after[k].active
    ensures ClosestOf(before, vp).Some? ==>
      exists k :: 0 <= k < |after| && after[k].active && after[k].uniqueId == ClosestOf(before, vp).value.uniqueId
  {
    var c := ClosestOf(before, vp);
    if c.Some? {
      var k :| 0 <= k < |before| && before[k] == c.value;
      assert c.value.uniqueId in Keys(before);
    }
    MarkedActiveIsClosest(before, after, c);
  }
}
