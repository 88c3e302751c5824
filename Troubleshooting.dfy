/** Page assembly of the troubleshooting template: the sections and table of
    contents of `Wiki`, the deduplicated and limited problem list of
    `RelatedProblemsV2`, and the count texts of `AuthorListing` and `DeviceCard`.
    A missing string field and the empty string are both falsy and are both
    written `""`. */
module Troubleshooting {
  import opened Wrappers
  import opened Strings

  datatype Section = Section(heading: string, id: string, body: string)

  datatype TocItem = TocItem(title: string, uniqueId: string)

  const RelatedProblemsRecord := TocItem("Related Problems", "related-problems")

  // ---------------------------------------------------------------------------
  // Sections and table of contents
  // ---------------------------------------------------------------------------

  /** The conclusions without the one headed `Related Pages`, in order. */
  function FilteredConclusions(conclusions: seq<Section>): (r: seq<Section>)
    ensures |r| <= |conclusions|
    ensures forall i :: 0 <= i < |r| ==> r[i].heading != "Related Pages" && r[i] in conclusions
    ensures forall i :: 0 <= i < |conclusions| && conclusions[i].heading != "Related Pages" ==> conclusions[i] in r
  {
    if conclusions == [] then []
    else
      var rest := FilteredConclusions(conclusions[1..]);
      assert forall i :: 1 <= i < |conclusions| ==> conclusions[i] == conclusions[1..][i - 1];
      if conclusions[0].heading != "Related Pages" then [conclusions[0]] + rest else rest
  }

  /** Filtering keeps the relative order: it distributes over concatenation. */
  lemma {:induction false} FilteredConclusionsAppend(a: seq<Section>, b: seq<Section>)
    ensures FilteredConclusions(a + b) == FilteredConclusions(a) + FilteredConclusions(b)
  {
    if a == [] {
      assert a + b == b;
    } else {
      assert (a + b)[1..] == a[1..] + b;
      FilteredConclusionsAppend(a[1..], b);
    }
  }

  /** The introduction with defaults: when the first section has a body, a missing
      heading becomes `Introduction` and a missing id `introduction`. */
  function IntroSections(introduction: seq<Section>): (r: seq<Section>)
    ensures |r| == |introduction|
    ensures introduction == [] || introduction[0].body == "" ==> r == introduction
    ensures introduction != [] && introduction[0].body != "" ==>
      && r[1..] == introduction[1..]
      && r[0].body == introduction[0].body
      && r[0].heading == (if introduction[0].heading == "" then "Introduction" else introduction[0].heading)
      && r[0].id == (if introduction[0].id == "" then "introduction" else introduction[0].id)
  {
    var first := if introduction != [] then introduction[0] else Section("", "", "");
    var clean := first.(heading := if first.heading != "" then first.heading else "Introduction",
                        id := if first.id != "" then first.id else "introduction");
    if first.body != "" then [clean] + introduction[1..] else introduction
  }

  /** The page sections: introduction, then solutions, then filtered conclusions. */
  function Sections(introduction: seq<Section>, solutions: seq<Section>, conclusions: seq<Section>): (r: seq<Section>)
    ensures var n := |IntroSections(introduction)|;
      && |r| == n + |solutions| + |FilteredConclusions(conclusions)|
      && r[n..n + |solutions|] == solutions
  {
    IntroSections(introduction) + solutions + FilteredConclusions(conclusions)
  }

  /** `.map(section => ({title: heading, uniqueId: id}))`. */
  function ToToc(sections: seq<Section>): (r: seq<TocItem>)
    ensures |r| == |sections|
    ensures forall i :: 0 <= i < |r| ==> r[i] == TocItem(sections[i].heading, sections[i].id)
  {
    if sections == [] then [] else [TocItem(sections[0].heading, sections[0].id)] + ToToc(sections[1..])
  }

  /** `.filter(tocItem => tocItem.title)`. */
  function WithTitle(items: seq<TocItem>): (r: seq<TocItem>)
    ensures forall i :: 0 <= i < |r| ==> r[i].title != "" && r[i] in items
  {
    if items == [] then []
    else
      var rest := WithTitle(items[1..]);
      assert forall i :: 1 <= i < |items| ==> items[i] == items[1..][i - 1];
      if items[0].title != "" then [items[0]] + rest else rest
  }

  lemma {:induction false} WithTitleAppend(a: seq<TocItem>, b: seq<TocItem>)
    ensures WithTitle(a + b) == WithTitle(a) + WithTitle(b)
  {
    if a == [] {
      assert a + b == b;
    } else {
      assert (a + b)[1..] == a[1..] + b;
      WithTitleAppend(a[1..], b);
    }
  }

  /** The sections that have a heading, in order. */
  function Headed(sections: seq<Section>): (r: seq<Section>)
    ensures forall i :: 0 <= i < |r| ==> r[i].heading != "" && r[i] in sections
    ensures forall i :: 0 <= i < |sections| && sections[i].heading != "" ==> sections[i] in r
  {
    if sections == [] then []
    else
      var rest := Headed(sections[1..]);
      assert forall i :: 1 <= i < |sections| ==> sections[i] == sections[1..][i - 1];
      if sections[0].heading != "" then [sections[0]] + rest else rest
  }

  /** The table of contents of `Wiki`. */
  function TocItems(sections: seq<Section>, linkedProblemCount: nat): (r: seq<TocItem>)
    ensures forall i :: 0 <= i < |r| ==> r[i].title != ""
    ensures linkedProblemCount > 0 ==> r != [] && r[|r| - 1] == RelatedProblemsRecord
  {
    var extra := if linkedProblemCount > 0 then [RelatedProblemsRecord] else [];
    WithTitleAppend(ToToc(sections), extra);
    assert linkedProblemCount > 0 ==> WithTitle(extra) == [RelatedProblemsRecord] + WithTitle([]);
    WithTitle(ToToc(sections) + extra)
  }

  lemma {:induction false} WithTitleOfToToc(sections: seq<Section>)
    ensures WithTitle(ToToc(sections)) == ToToc(Headed(sections))
  {
    if sections != [] {
      WithTitleOfToToc(sections[1..]);
      assert ToToc(sections)[1..] == ToToc(sections[1..]);
    }
  }

  /** The table of contents lists the sections that have a heading, in order, then the
      Related Problems record exactly when there are linked problems. */
  lemma TocItemsShape(sections: seq<Section>, linkedProblemCount: nat)
    ensures TocItems(sections, linkedProblemCount)
      == ToToc(Headed(sections)) + (if linkedProblemCount > 0 then [RelatedProblemsRecord] else [])
  {
    var extra := if linkedProblemCount > 0 then [RelatedProblemsRecord] else [];
    WithTitleAppend(ToToc(sections), extra);
    WithTitleOfToToc(sections);
    if linkedProblemCount > 0 {
      assert WithTitle(extra) == [RelatedProblemsRecord] + WithTitle([]);
    }
  }

  // ---------------------------------------------------------------------------
  // Related problems
  // ---------------------------------------------------------------------------

  datatype Problem = Problem(title: string, url: string)

  function Titles(problems: seq<Problem>): (r: seq<string>)
    ensures |r| == |problems| && forall i :: 0 <= i < |problems| ==> r[i] == problems[i].title
  {
    seq(|problems|, i requires 0 <= i < |problems| => problems[i].title)
  }

  /** lodash `uniqBy(problems, 'title')`: the first problem of every title, in order. */
  function UniqByTitle(problems: seq<Problem>): (r: seq<Problem>)
    ensures |r| <= |problems|
  {
    if problems == [] then []
    else
      var u := UniqByTitle(problems[..|problems| - 1]);
      var last := problems[|problems| - 1];
      if last.title in Titles(u) then u else u + [last]
  }

  /** The kept problems are problems of the list. */
  lemma {:induction false} UniqByTitleMembers(problems: seq<Problem>)
    ensures forall i :: 0 <= i < |UniqByTitle(problems)| ==> UniqByTitle(problems)[i] in problems
  {
    if problems != [] {
      var p := problems[..|problems| - 1];
      UniqByTitleMembers(p);
      var u := UniqByTitle(p);
      forall i | 0 <= i < |u| ensures u[i] in problems {
        var k :| 0 <= k < |p| && p[k] == u[i];
        assert problems[k] == p[k];
      }
    }
  }

  /** The kept problems have pairwise distinct titles. */
  lemma {:induction false} UniqByTitleDistinct(problems: seq<Problem>)
    ensures forall i, j :: 0 <= i < j < |UniqByTitle(problems)| ==> UniqByTitle(problems)[i].title != UniqByTitle(problems)[j].title
  {
    if problems != [] {
      var p := problems[..|problems| - 1];
      var last := problems[|problems| - 1];
      UniqByTitleDistinct(p);
      var u := UniqByTitle(p);
      var r := UniqByTitle(problems);
      if last.title !in Titles(u) {
        assert r == u + [last];
        forall i, j | 0 <= i < j < |r| ensures r[i].title != r[j].title {
          if j == |u| {
            assert Titles(u)[i] == r[i].title;
          } else {
            assert r[i] == u[i] && r[j] == u[j];
          }
        }
      }
    }
  }

  /** Every title of the list is kept. */
  lemma {:induction false} UniqByTitleCovers(problems: seq<Problem>)
    ensures forall i :: 0 <= i < |problems| ==> problems[i].title in Titles(UniqByTitle(problems))
  {
    if problems != [] {
      var p := problems[..|problems| - 1];
      var last := problems[|problems| - 1];
      UniqByTitleCovers(p);
      var u := UniqByTitle(p);
      var r := UniqByTitle(problems);
      assert u <= r;
      forall i | 0 <= i < |problems| ensures problems[i].title in Titles(r) {
        if i < |p| {
          assert problems[i] == p[i];
          var k :| 0 <= k < |u| && Titles(u)[k] == p[i].title;
          assert Titles(r)[k] == r[k].title == u[k].title;
        } else if last.title !in Titles(u) {
          assert Titles(r)[|u|] == last.title;
        }
      }
    }
  }

  /** The position of the first problem with the title, or -1. */
  function TitleIndex(problems: seq<Problem>, title: string): (k: int)
    ensures -1 <= k < |problems|
    ensures k >= 0 ==> problems[k].title == title && forall j :: 0 <= j < k ==> problems[j].title != title
    ensures k == -1 ==> forall j :: 0 <= j < |problems| ==> problems[j].title != title
  {
    if problems == [] then -1
    else if problems[0].title == title then 0
    else
      var k := TitleIndex(problems[1..], title);
      assert forall j :: 1 <= j < |problems| ==> problems[j] == problems[1..][j - 1];
      if k == -1 then -1 else k + 1
  }

  /** Appending a problem leaves the first position of a title that already occurs. */
  lemma TitleIndexAppend(problems: seq<Problem>, last: Problem, title: string)
    requires TitleIndex(problems, title) >= 0
    ensures TitleIndex(problems + [last], title) == TitleIndex(problems, title)
  {
    var k := TitleIndex(problems, title);
    var k' := TitleIndex(problems + [last], title);
    assert (problems + [last])[k] == problems[k];
  }

  /** Every problem of `u` is the earliest problem of `problems` with its title. */
  predicate EarliestOfTitles(problems: seq<Problem>, u: seq<Problem>) {
    forall k :: 0 <= k < |u| ==>
      TitleIndex(problems, u[k].title) >= 0 && problems[TitleIndex(problems, u[k].title)] == u[k]
  }

  /** The problems of `u` come in the order their titles first occur in `problems`. */
  predicate InFirstOccurrenceOrder(problems: seq<Problem>, u: seq<Problem>) {
    forall k, l :: 0 <= k < l < |u| ==> TitleIndex(problems, u[k].title) < TitleIndex(problems, u[l].title)
  }

  /** What appending a problem to the list does to the first positions of the titles
      `uniqBy` already kept, and of a new title. */
  lemma UniqByTitleStep(p: seq<Problem>, last: Problem)
    requires EarliestOfTitles(p, UniqByTitle(p))
    ensures forall k :: 0 <= k < |UniqByTitle(p)| ==>
      TitleIndex(p + [last], UniqByTitle(p)[k].title) == TitleIndex(p, UniqByTitle(p)[k].title)
    ensures last.title !in Titles(UniqByTitle(p)) ==> TitleIndex(p + [last], last.title) == |p|
  {
    var u := UniqByTitle(p);
    forall k | 0 <= k < |u|
      ensures TitleIndex(p + [last], u[k].title) == TitleIndex(p, u[k].title)
    {
      TitleIndexAppend(p, last, u[k].title);
    }
    if last.title !in Titles(u) {
      UniqByTitleCovers(p);
      forall j | 0 <= j < |p| ensures p[j].title != last.title {
        assert p[j].title in Titles(u);
      }
      var t := TitleIndex(p + [last], last.title);
      assert (p + [last])[|p|] == last;
    }
  }

  /** `uniqBy` keeps, for every title, the earliest problem with it, and keeps the
      kept problems in the order of their first occurrence in the list. */
  lemma {:induction false} UniqByTitleFirstInOrder(problems: seq<Problem>)
    ensures EarliestOfTitles(problems, UniqByTitle(problems))
    ensures InFirstOccurrenceOrder(problems, UniqByTitle(problems))
  {
    if problems != [] {
      var p := problems[..|problems| - 1];
      var last := problems[|problems| - 1];
      assert problems == p + [last];
      UniqByTitleFirstInOrder(p);
      UniqByTitleStep(p, last);
      var u := UniqByTitle(p);
      var r := UniqByTitle(problems);
      forall k | 0 <= k < |u|
        ensures TitleIndex(problems, u[k].title) >= 0 && problems[TitleIndex(problems, u[k].title)] == u[k]
      {
        assert problems[TitleIndex(p, u[k].title)] == p[TitleIndex(p, u[k].title)];
      }
      if last.title !in Titles(u) {
        assert r == u + [last];
        forall k | 0 <= k < |r|
          ensures TitleIndex(problems, r[k].title) >= 0 && problems[TitleIndex(problems, r[k].title)] == r[k]
        {
          if k < |u| {
            assert r[k] == u[k];
          }
        }
        forall k, l | 0 <= k < l < |r|
          ensures TitleIndex(problems, r[k].title) < TitleIndex(problems, r[l].title)
        {
          assert r[k] == u[k];
          if l < |u| {
            assert r[l] == u[l];
          }
        }
      }
    }
  }

  /** The problems of a list are deduplicated first: `uniqBy(a)` is a prefix of `uniqBy(a + b)`. */
  lemma {:induction false} UniqByTitlePrefix(a: seq<Problem>, b: seq<Problem>)
    ensures UniqByTitle(a) <= UniqByTitle(a + b)
  {
    if b == [] {
      assert a + b == a;
    } else {
      var b' := b[..|b| - 1];
      UniqByTitlePrefix(a, b');
      assert (a + b)[..|a + b| - 1] == a + b';
    }
  }

  const MinProblems := 6

  /** `uniqBy(linked.concat(related), 'title').slice(0, Math.max(6, linked.length))`. */
  function RelatedProblems(linked: seq<Problem>, related: seq<Problem>): (r: seq<Problem>)
    ensures r <= UniqByTitle(linked + related)
    ensures var maxProblems := if |linked| > MinProblems then |linked| else MinProblems;
      |r| == if |UniqByTitle(linked + related)| < maxProblems then |UniqByTitle(linked + related)| else maxProblems
    ensures forall i, j :: 0 <= i < j < |r| ==> r[i].title != r[j].title
    ensures forall i :: 0 <= i < |r| ==> r[i] in linked + related
  {
    var maxProblems := if |linked| > MinProblems then |linked| else MinProblems;
    var u := UniqByTitle(linked + related);
    UniqByTitleMembers(linked + related);
    UniqByTitleDistinct(linked + related);
    if |u| <= maxProblems then u else u[..maxProblems]
  }

  /** No linked problem is dropped: every linked problem's title is listed. */
  lemma RelatedProblemsKeepsLinked(linked: seq<Problem>, related: seq<Problem>, i: int)
    requires 0 <= i < |linked|
    ensures linked[i].title in Titles(RelatedProblems(linked, related))
  {
    var ul := UniqByTitle(linked);
    UniqByTitlePrefix(linked, related);
    UniqByTitleCovers(linked);
    var k :| 0 <= k < |ul| && Titles(ul)[k] == linked[i].title;
    var r := RelatedProblems(linked, related);
    assert r[k] == ul[k];
    assert Titles(r)[k] == linked[i].title;
  }

  // ---------------------------------------------------------------------------
  // Count texts
  // ---------------------------------------------------------------------------

  /** The text of `AuthorListing` for the primary author and `authorCount` others. */
  function AuthorListing(primaryName: string, authorCount: nat): (r: string)
    ensures |r| >= |primaryName| && r[..|primaryName|] == primaryName
    ensures r == primaryName <==> authorCount == 0
  {
    var description := if authorCount > 1 then "contributors" else "contributor";
    primaryName + (if authorCount > 0 then " and " + NatToString(authorCount) + " " + description else "")
  }

  /** `AuthorInformation`: nothing without authors, otherwise the listing of the first
      author with the number of the others. */
  function AuthorInformation(authors: seq<string>): (r: Option<string>)
    ensures r.None? <==> authors == []
    ensures authors != [] ==> r.value == AuthorListing(authors[0], |authors| - 1)
  {
    if authors == [] then None else Some(AuthorListing(authors[0], |authors| - 1))
  }

  /** The suffix appears only with other authors; it is singular for one other
      author and plural for more. */
  lemma AuthorListingText(primaryName: string, authorCount: nat)
    ensures authorCount == 0 ==> AuthorListing(primaryName, authorCount) == primaryName
    ensures authorCount == 1 ==> AuthorListing(primaryName, authorCount) == primaryName + " and 1 contributor"
    ensures authorCount > 1 ==>
      AuthorListing(primaryName, authorCount) == primaryName + " and " + NatToString(authorCount) + " contributors"
  {
    if authorCount == 1 {
      assert NatToString(1) == "1";
    }
  }

  /** What `DeviceCard` renders below the device description. */
  datatype Footer =
    | NoFooter
    | StrayText(text: string)
    | ProblemsFooter(countText: string, linkText: string)

  function FooterFor(count: nat): (r: Footer)
    requires count > 0
    ensures count == 1 ==> r == ProblemsFooter("1 common problem", "View problem")
    ensures count != 1 ==> r == ProblemsFooter(NatToString(count) + " common problems", "View all")
  {
    if count == 1 then ProblemsFooter("1 common problem", "View problem")
    else ProblemsFooter(NatToString(count) + " common problems", "View all")
  }

  /** `{countOfAssociatedProblems && (...)}` as written: a count of 0 is the value
      of the expression, and React renders the number as the text `0`. */
  function DeviceCardFooterAsWritten(count: nat): (r: Footer)
    ensures r != NoFooter
    ensures count > 0 ==> r == FooterFor(count)
  {
    if count == 0 then StrayText(NatToString(0)) else FooterFor(count)
  }

  /** A device without problems shows a stray `0`. */
  lemma DeviceCardZeroShowsStrayText()
    ensures DeviceCardFooterAsWritten(0) == StrayText("0")
  {
  }

  /** The footer as evidently intended: nothing without problems. */
  function DeviceCardFooter(count: nat): (r: Footer)
    ensures !r.StrayText?
    ensures r.NoFooter? <==> count == 0
    ensures r.ProblemsFooter? ==> (r.countText == "1 common problem" <==> count == 1)
    ensures r.ProblemsFooter? ==> (r.linkText == "View problem" <==> count == 1)
  {
    if count == 0 then NoFooter else FooterFor(count)
  }

  /** The two agree on every positive count. */
  lemma DeviceCardFootersAgree(count: nat)
    requires count > 0
    ensures DeviceCardFooter(count) == DeviceCardFooterAsWritten(count)
  {
  }
}
