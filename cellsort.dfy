/**
 * Python's `list.sort()` on a list of `[row, col]` lists: lexicographic order,
 * row first. `chain` sorts the caller's group in place before looking at it.
 */
module CellSort {
  import opened Grid

  /** Lexicographic order on `[row, col]` pairs. */
  predicate Le(a: Vec, b: Vec)
  {
    a.r < b.r || (a.r == b.r && a.c <= b.c)
  }

  predicate Sorted(s: seq<Vec>)
  {
    forall i, j :: 0 <= i < j < |s| ==> Le(s[i], s[j])
  }

  /** Putting a lower bound of a sorted sequence in front keeps it sorted. */
  lemma SortedCons(a: Vec, t: seq<Vec>)
    requires Sorted(t)
    requires forall y :: y in t ==> Le(a, y)
    ensures Sorted([a] + t)
  {
    var u := [a] + t;
    forall i, j | 0 <= i < j < |u| ensures Le(u[i], u[j]) {
      assert u[j] == t[j - 1];
      if i > 0 {
        assert u[i] == t[i - 1];
      } else {
        assert t[j - 1] in t;
      }
    }
  }

  function Insert(x: Vec, s: seq<Vec>): (t: seq<Vec>)
    requires Sorted(s)
    ensures Sorted(t)
    ensures multiset(t) == multiset(s) + multiset{x}
    ensures |t| == |s| + 1
    ensures forall y :: y in t ==> y == x || y in s
  {
    if s == [] then [x]
    else if Le(x, s[0]) then
      SortedCons(x, s);
      [x] + s
    else
      var rest := Insert(x, s[1..]);
      assert s == [s[0]] + s[1..];
      assert forall y :: y in s[1..] ==> Le(s[0], y) by {
        forall y | y in s[1..] ensures Le(s[0], y) {
          var k :| 0 <= k < |s[1..]| && s[1..][k] == y;
          assert s[k + 1] == y;
        }
      }
      SortedCons(s[0], rest);
      [s[0]] + rest
  }

  /** The sorted rearrangement of a group (insertion sort). */
  function SortCells(s: seq<Vec>): (t: seq<Vec>)
    ensures Sorted(t)
    ensures multiset(t) == multiset(s)
    ensures |t| == |s|
  {
    if s == [] then []
    else
      assert s == [s[0]] + s[1..];
      Insert(s[0], SortCells(s[1..]))
  }

  /** Two nonempty sorted sequences with the same elements start alike. */
  lemma SortedHeads(a: seq<Vec>, b: seq<Vec>)
    requires Sorted(a) && Sorted(b) && a != [] && b != []
    requires multiset(a) == multiset(b)
    ensures a[0] == b[0]
  {
    assert a[0] in multiset(b);
    var j :| 0 <= j < |b| && b[j] == a[0];
    assert b[0] in multiset(a);
    var i :| 0 <= i < |a| && a[i] == b[0];
    assert Le(b[0], b[j]) by { if j > 0 { } }
    assert Le(a[0], a[i]) by { if i > 0 { } }
  }

  /** Dropping equal heads keeps equal element counts. */
  lemma MultisetTails(a: seq<Vec>, b: seq<Vec>)
    requires a != [] && b != [] && a[0] == b[0]
    requires multiset(a) == multiset(b)
    ensures multiset(a[1..]) == multiset(b[1..])
  {
    assert a == [a[0]] + a[1..];
    assert b == [b[0]] + b[1..];
    calc {
      multiset(a[1..]);
      multiset(a) - multiset{a[0]};
      multiset(b) - multiset{b[0]};
      multiset(b[1..]);
    }
  }

  /** Two sorted sequences holding the same elements are equal. */
  lemma {:induction false} SortedUnique(a: seq<Vec>, b: seq<Vec>)
    requires Sorted(a) && Sorted(b)
    requires multiset(a) == multiset(b)
    ensures a == b
    decreases |a|
  {
    assert |a| == |multiset(a)| == |multiset(b)| == |b|;
    if a != [] {
      SortedHeads(a, b);
      MultisetTails(a, b);
      SortedUnique(a[1..], b[1..]);
      assert a == [a[0]] + a[1..];
      assert b == [b[0]] + b[1..];
    }
  }

  /** Sorting depends only on the elements, not on their order. */
  lemma SortPermutation(p: seq<Vec>, q: seq<Vec>)
    requires multiset(p) == multiset(q)
    ensures SortCells(p) == SortCells(q)
  {
    SortedUnique(SortCells(p), SortCells(q));
  }

  /** Sorting a sorted group leaves it as it is. */
  lemma SortSorted(s: seq<Vec>)
    requires Sorted(s)
    ensures SortCells(s) == s
  {
    SortedUnique(SortCells(s), s);
  }
}
