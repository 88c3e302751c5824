/** `Array.prototype.sort` with a comparator, which JavaScript requires to be stable.
    `le(a, b)` holds when the comparator does not put `b` before `a` (it returns a
    value <= 0). `Sort` is the specification: a stable insertion sort that inserts
    each element, in input order, after every element not greater than it.
    `InsertionSort` sorts an array in place and is proved equal to `Sort`. */
module Sorting {

  /** Inserts `x` into `s`, scanning from the back past every element that must
      come after `x`. */
  function Insert<T>(s: seq<T>, x: T, le: (T, T) -> bool): (r: seq<T>)
    ensures |r| == |s| + 1
  {
    if s == [] then [x]
    else if le(s[|s| - 1], x) then s + [x]
    else Insert(s[..|s| - 1], x, le) + [s[|s| - 1]]
  }

  function Sort<T>(s: seq<T>, le: (T, T) -> bool): (r: seq<T>)
    ensures |r| == |s|
  {
    if s == [] then [] else Insert(Sort(s[..|s| - 1], le), s[|s| - 1], le)
  }

  ghost predicate Sorted<T>(s: seq<T>, le: (T, T) -> bool) {
    forall i, j :: 0 <= i < j < |s| ==> le(s[i], s[j])
  }

  /** `le` is total on the elements of `s`. */
  ghost predicate TotalOn<T>(s: seq<T>, le: (T, T) -> bool) {
    forall i, j :: 0 <= i < |s| && 0 <= j < |s| ==> le(s[i], s[j]) || le(s[j], s[i])
  }

  /** `le` is transitive on the elements of `s`. */
  ghost predicate TransitiveOn<T>(s: seq<T>, le: (T, T) -> bool) {
    forall i, j, k :: 0 <= i < |s| && 0 <= j < |s| && 0 <= k < |s| && le(s[i], s[j]) && le(s[j], s[k]) ==> le(s[i], s[k])
  }

  /** `s[m]` is not greater than any element, and no earlier element is minimal. */
  ghost predicate IsFirstMinimal<T>(s: seq<T>, m: int, le: (T, T) -> bool) {
    && 0 <= m < |s|
    && (forall k :: 0 <= k < |s| ==> le(s[m], s[k]))
    && (forall k :: 0 <= k < m ==> !le(s[k], s[m]))
  }

  // ---------------------------------------------------------------------------
  // Permutation
  // ---------------------------------------------------------------------------

  lemma {:induction false} InsertPermutes<T>(s: seq<T>, x: T, le: (T, T) -> bool)
    ensures multiset(Insert(s, x, le)) == multiset(s) + multiset{x}
  {
    if s != [] && !le(s[|s| - 1], x) {
      InsertPermutes(s[..|s| - 1], x, le);
      assert s == s[..|s| - 1] + [s[|s| - 1]];
    }
  }

  /** Sorting only reorders: the result is a permutation of the input. */
  lemma {:induction false} SortPermutes<T>(s: seq<T>, le: (T, T) -> bool)
    ensures multiset(Sort(s, le)) == multiset(s)
  {
    if s != [] {
      SortPermutes(s[..|s| - 1], le);
      InsertPermutes(Sort(s[..|s| - 1], le), s[|s| - 1], le);
      assert s == s[..|s| - 1] + [s[|s| - 1]];
    }
  }

  // ---------------------------------------------------------------------------
  // Sortedness
  // ---------------------------------------------------------------------------

  lemma MultisetMember<T>(s: seq<T>, t: seq<T>, i: int)
    requires multiset(s) == multiset(t) && 0 <= i < |s|
    ensures s[i] in t
  {
    assert s[i] in multiset(s);
    assert s[i] in multiset(t);
  }

  lemma {:induction false} InsertSorted<T>(s: seq<T>, x: T, le: (T, T) -> bool)
    requires Sorted(s, le)
    requires TotalOn(s + [x], le) && TransitiveOn(s + [x], le)
    ensures Sorted(Insert(s, x, le), le)
  {
    var u := s + [x];
    if s == [] {
    } else if le(s[|s| - 1], x) {
      forall i, j | 0 <= i < j < |u| ensures le(u[i], u[j]) {
        if j == |s| && i < |s| - 1 {
          assert le(u[i], u[|s| - 1]) && le(u[|s| - 1], u[|s|]);
        }
      }
    } else {
      var p := s[..|s| - 1];
      var last := s[|s| - 1];
      assert le(x, last) by { assert u[|s|] == x && u[|s| - 1] == last; }
      assert p + [x] == u[..|s| - 1] + [u[|s|]];
      forall i, j | 0 <= i < |p + [x]| && 0 <= j < |p + [x]| ensures le((p + [x])[i], (p + [x])[j]) || le((p + [x])[j], (p + [x])[i]) {
        var i' := if i < |p| then i else |s|;
        var j' := if j < |p| then j else |s|;
        assert (p + [x])[i] == u[i'] && (p + [x])[j] == u[j'];
      }
      forall i, j, k | 0 <= i < |p + [x]| && 0 <= j < |p + [x]| && 0 <= k < |p + [x]| && le((p + [x])[i], (p + [x])[j]) && le((p + [x])[j], (p + [x])[k])
        ensures le((p + [x])[i], (p + [x])[k])
      {
        var i' := if i < |p| then i else |s|;
        var j' := if j < |p| then j else |s|;
        var k' := if k < |p| then k else |s|;
        assert (p + [x])[i] == u[i'] && (p + [x])[j] == u[j'] && (p + [x])[k] == u[k'];
      }
      InsertSorted(p, x, le);
      var q := Insert(p, x, le);
      InsertPermutes(p, x, le);
      forall i | 0 <= i < |q| ensures le(q[i], last) {
        MultisetMember(q, p + [x], i);
        var j :| 0 <= j < |p + [x]| && (p + [x])[j] == q[i];
        if j < |p| {
          assert u[j] == q[i] && u[|s| - 1] == last;
        }
      }
    }
  }

  /** With a comparator that is a total preorder on the input, the result is sorted. */
  lemma {:induction false} SortSorted<T>(s: seq<T>, le: (T, T) -> bool)
    requires TotalOn(s, le) && TransitiveOn(s, le)
    ensures Sorted(Sort(s, le), le)
  {
    if s != [] {
      var p := s[..|s| - 1];
      var x := s[|s| - 1];
      assert p + [x] == s;
      PreorderOnPrefix(s, |s| - 1, le);
      SortSorted(p, le);
      SortedPlusLastElements(p, x, le);
      ElementsOfPreorder(Sort(p, le) + [x], s, le);
      InsertSorted(Sort(p, le), x, le);
    }
  }

  lemma TransitiveAt<T>(s: seq<T>, i: int, j: int, k: int, le: (T, T) -> bool)
    requires TransitiveOn(s, le) && 0 <= i < |s| && 0 <= j < |s| && 0 <= k < |s|
    ensures le(s[i], s[j]) && le(s[j], s[k]) ==> le(s[i], s[k])
  {
  }

  /** Every element of `u` occurs in `s`. */
  ghost predicate ElementsIn<T>(u: seq<T>, s: seq<T>) {
    forall i :: 0 <= i < |u| ==> u[i] in s
  }

  /** Totality and transitivity carry over to a sequence whose elements all occur in `s`. */
  lemma ElementsOfPreorder<T>(u: seq<T>, s: seq<T>, le: (T, T) -> bool)
    requires ElementsIn(u, s)
    requires TotalOn(s, le) && TransitiveOn(s, le)
    ensures TotalOn(u, le) && TransitiveOn(u, le)
  {
    forall i, j | 0 <= i < |u| && 0 <= j < |u| ensures le(u[i], u[j]) || le(u[j], u[i]) {
      var i' :| 0 <= i' < |s| && u[i] == s[i'];
      var j' :| 0 <= j' < |s| && u[j] == s[j'];
    }
    forall i, j, k | 0 <= i < |u| && 0 <= j < |u| && 0 <= k < |u| && le(u[i], u[j]) && le(u[j], u[k]) ensures le(u[i], u[k]) {
      var i' :| 0 <= i' < |s| && u[i] == s[i'];
      var j' :| 0 <= j' < |s| && u[j] == s[j'];
      var k' :| 0 <= k' < |s| && u[k] == s[k'];
    }
  }

  /** Totality and transitivity hold on every prefix. */
  lemma PreorderOnPrefix<T>(s: seq<T>, n: nat, le: (T, T) -> bool)
    requires n <= |s| && TotalOn(s, le) && TransitiveOn(s, le)
    ensures TotalOn(s[..n], le) && TransitiveOn(s[..n], le)
  {
    forall i | 0 <= i < n ensures s[..n][i] in s {
      assert s[..n][i] == s[i];
    }
    ElementsOfPreorder(s[..n], s, le);
  }

  /** The elements of `Sort(p) + [x]` all occur in `p + [x]`. */
  lemma SortedPlusLastElements<T>(p: seq<T>, x: T, le: (T, T) -> bool)
    ensures ElementsIn(Sort(p, le) + [x], p + [x])
  {
    var t := Sort(p, le) + [x];
    var s := p + [x];
    SortPermutes(p, le);
    forall i | 0 <= i < |t| ensures t[i] in s {
      if i < |p| {
        MultisetMember(Sort(p, le), p, i);
        var j :| 0 <= j < |p| && p[j] == Sort(p, le)[i];
        assert s[j] == p[j] && t[i] == Sort(p, le)[i];
      } else {
        assert s[|p|] == t[i];
      }
    }
  }

  // ---------------------------------------------------------------------------
  // Stability at the head: the first element of the result is the first minimal one
  // ---------------------------------------------------------------------------

  lemma {:induction false} InsertHead<T>(s: seq<T>, x: T, le: (T, T) -> bool)
    requires s != [] && Sorted(s, le)
    requires TotalOn(s + [x], le) && TransitiveOn(s + [x], le)
    ensures Insert(s, x, le)[0] == if le(s[0], x) then s[0] else x
  {
    var u := s + [x];
    var p := s[..|s| - 1];
    if le(s[|s| - 1], x) {
      if |s| > 1 {
        assert le(u[0], u[|s| - 1]) && le(u[|s| - 1], u[|s|]);
      }
    } else if |s| > 1 {
      forall i | 0 <= i < |p + [x]| ensures (p + [x])[i] in u {
        if i < |p| { assert (p + [x])[i] == p[i] == s[i] == u[i]; } else { assert (p + [x])[i] == x == u[|s|]; }
      }
      ElementsOfPreorder(p + [x], u, le);
      assert Sorted(p, le);
      InsertHead(p, x, le);
    } else {
      assert p == [];
      assert Insert(s, x, le) == [x] + [s[0]];
    }
  }

  /** `s[m]` is first minimal in `p`, and not greater than `x`: it stays first minimal. */
  lemma FirstMinimalKept<T>(p: seq<T>, x: T, m: int, le: (T, T) -> bool)
    requires IsFirstMinimal(p, m, le) && le(p[m], x)
    ensures IsFirstMinimal(p + [x], m, le)
  {
    var s := p + [x];
    forall k | 0 <= k < |s| ensures le(s[m], s[k]) {
      if k < |p| { assert s[k] == p[k]; } else { assert s[k] == x; }
    }
    forall k | 0 <= k < m ensures !le(s[k], s[m]) {
      assert s[k] == p[k];
    }
  }

  /** `x` is strictly below the first minimal element of `p`: it is first minimal in `p + [x]`. */
  lemma FirstMinimalLast<T>(p: seq<T>, x: T, m: int, le: (T, T) -> bool)
    requires IsFirstMinimal(p, m, le) && !le(p[m], x)
    requires TotalOn(p + [x], le) && TransitiveOn(p + [x], le)
    ensures IsFirstMinimal(p + [x], |p|, le)
  {
    var s := p + [x];
    var n := |s|;
    assert s[m] == p[m] && s[n - 1] == x;
    assert le(x, p[m]);
    forall k | 0 <= k < n ensures le(s[n - 1], s[k]) {
      if k < n - 1 {
        assert le(p[m], p[k]);
        assert s[k] == p[k];
      }
    }
    forall k | 0 <= k < n - 1 ensures !le(s[k], s[n - 1]) {
      assert s[k] == p[k];
      assert le(s[m], s[k]);
      TransitiveAt(s, m, k, n - 1, le);
    }
  }

  /** The head of a stable sort is the first minimal element of the input. */
  lemma {:induction false} SortHeadIsFirstMinimal<T>(s: seq<T>, le: (T, T) -> bool)
    requires s != []
    requires TotalOn(s, le) && TransitiveOn(s, le)
    ensures exists m :: IsFirstMinimal(s, m, le) && Sort(s, le)[0] == s[m]
  {
    var n := |s|;
    var p := s[..n - 1];
    var x := s[n - 1];
    assert p + [x] == s;
    if p == [] {
      assert le(s[0], s[0]);
      assert IsFirstMinimal(s, 0, le);
    } else {
      PreorderOnPrefix(s, n - 1, le);
      SortHeadIsFirstMinimal(p, le);
      var m :| IsFirstMinimal(p, m, le) && Sort(p, le)[0] == p[m];
      var t := Sort(p, le);
      SortSorted(p, le);
      SortedPlusLastElements(p, x, le);
      ElementsOfPreorder(t + [x], s, le);
      InsertHead(t, x, le);
      if le(p[m], x) {
        FirstMinimalKept(p, x, m, le);
      } else {
        FirstMinimalLast(p, x, m, le);
      }
    }
  }

  // ---------------------------------------------------------------------------
  // The in-place sort
  // ---------------------------------------------------------------------------

  lemma InsertShift<T>(sorted: seq<T>, j: int, x: T, le: (T, T) -> bool)
    requires 0 < j <= |sorted| && !le(sorted[j - 1], x)
    ensures Insert(sorted[..j], x, le) + sorted[j..] == Insert(sorted[..j - 1], x, le) + sorted[j - 1..]
  {
    assert sorted[..j][..j - 1] == sorted[..j - 1];
    assert sorted[j - 1..] == [sorted[j - 1]] + sorted[j..];
  }

  lemma InsertStop<T>(sorted: seq<T>, j: int, x: T, le: (T, T) -> bool)
    requires 0 <= j <= |sorted| && (j == 0 || le(sorted[j - 1], x))
    ensures Insert(sorted[..j], x, le) + sorted[j..] == sorted[..j] + [x] + sorted[j..]
  {
  }

  lemma SortStep<T>(s: seq<T>, i: int, le: (T, T) -> bool)
    requires 0 <= i < |s|
    ensures Sort(s[..i + 1], le) == Insert(Sort(s[..i], le), s[i], le)
  {
    assert s[..i + 1][..i] == s[..i];
  }

  /** Moves `a[i]` back into the sorted run `a[..i]`. */
  method InsertLast<T>(a: array<T>, i: int, le: (T, T) -> bool)
    requires 0 <= i < a.Length
    modifies a
    ensures a[..i + 1] == Insert(old(a[..i]), old(a[i]), le)
    ensures forall k :: i < k < a.Length ==> a[k] == old(a[k])
  {
    ghost var sorted := a[..i];
    var x := a[i];
    var j := i;
    assert sorted[..j] == sorted && sorted[j..] == [];
    while j > 0 && !le(a[j - 1], x)
      invariant 0 <= j <= i
      invariant forall k :: 0 <= k < j ==> a[k] == sorted[k]
      invariant forall k :: j < k <= i ==> a[k] == sorted[k - 1]
      invariant forall k :: i < k < a.Length ==> a[k] == old(a[k])
      invariant Insert(sorted, x, le) == Insert(sorted[..j], x, le) + sorted[j..]
    {
      InsertShift(sorted, j, x, le);
      a[j] := a[j - 1];
      j := j - 1;
    }
    a[j] := x;
    InsertStop(sorted, j, x, le);
    ghost var expected := sorted[..j] + [x] + sorted[j..];
    forall k | 0 <= k <= i ensures a[k] == expected[k] {
      if k < j {
        assert expected[k] == sorted[k];
      } else if k > j {
        assert expected[k] == sorted[k - 1];
      }
    }
    assert a[..i + 1] == expected;
  }

  /** Sorts `a` in place; the result is `Sort` of the original contents. */
  method InsertionSort<T>(a: array<T>, le: (T, T) -> bool)
    modifies a
    ensures a[..] == Sort(old(a[..]), le)
  {
    ghost var s0 := a[..];
    var i := 0;
    while i < a.Length
      invariant 0 <= i <= a.Length
      invariant a[..i] == Sort(s0[..i], le)
      invariant forall k :: i <= k < a.Length ==> a[k] == s0[k]
    {
      InsertLast(a, i, le);
      SortStep(s0, i, le);
      i := i + 1;
    }
    assert a[..] == a[..a.Length] && s0 == s0[..a.Length];
  }
}
