/**
 * Sorting and de-duplicating tag strings: `Array.prototype.sort()` with no
 * comparator, and `[...new Set(xs)]`, which keeps the first occurrence of
 * each value in insertion order.
 */
module TagSort {
  import opened JsText

  predicate Sorted(s: seq<JsString>) {
    forall i, j :: 0 <= i < j < |s| ==> Precedes(s[i], s[j])
  }

  predicate NoDuplicates<T(==)>(s: seq<T>) {
    forall i, j :: 0 <= i < j < |s| ==> s[i] != s[j]
  }

  /** Inserts `x` into the sorted `s` before the first element it precedes. */
  function Insert(x: JsString, s: seq<JsString>): (r: seq<JsString>)
    requires Sorted(s)
    ensures Sorted(r)
    ensures multiset(r) == multiset(s) + multiset{x}
  {
    if s == [] then [x]
    else if Precedes(x, s[0]) then
      assert forall j :: 0 < j < |s| ==> Precedes(x, s[j]) by {
        forall j | 0 < j < |s| ensures Precedes(x, s[j]) { PrecedesTransitive(x, s[0], s[j]); }
      }
      [x] + s
    else
      PrecedesTotal(x, s[0]);
      var rest := Insert(x, s[1..]);
      assert s == [s[0]] + s[1..];
      assert forall k :: 0 <= k < |rest| ==> Precedes(s[0], rest[k]) by {
        forall k | 0 <= k < |rest| ensures Precedes(s[0], rest[k]) {
          assert rest[k] in multiset(rest);
          assert rest[k] == x || rest[k] in multiset(s[1..]);
          if rest[k] != x {
            var j :| 0 <= j < |s[1..]| && s[1..][j] == rest[k];
            assert s[j + 1] == rest[k];
          }
        }
      }
      [s[0]] + rest
  }

  /**
   * The default `sort()` on an array of strings: the result is ordered and
   * is a permutation of the input.
   */
  function Sort(s: seq<JsString>): (r: seq<JsString>)
    ensures Sorted(r)
    ensures multiset(r) == multiset(s)
    ensures |r| == |s|
  {
    if s == [] then []
    else
      assert s == [s[0]] + s[1..];
      Insert(s[0], Sort(s[1..]))
  }

  /** The head of an ordered sequence comes no later than any of its members. */
  lemma HeadPrecedesMembers(s: seq<JsString>, x: JsString)
    requires Sorted(s) && x in s
    ensures Precedes(s[0], x)
  {
    var i :| 0 <= i < |s| && s[i] == x;
    if i == 0 { PrecedesReflexive(x); }
  }

  /** Removing the head removes one occurrence of it from the multiset. */
  lemma TailMultiset<T>(s: seq<T>)
    requires s != []
    ensures multiset(s[1..]) == multiset(s) - multiset{s[0]}
  {
    assert s == [s[0]] + s[1..];
  }

  /** Two ordered permutations of the same multiset are the same sequence. */
  lemma {:induction false} SortedUnique(a: seq<JsString>, b: seq<JsString>)
    requires Sorted(a) && Sorted(b)
    requires multiset(a) == multiset(b)
    ensures a == b
  {
    if a != [] {
      assert a[0] in multiset(b);
      assert b[0] in multiset(a);
      HeadPrecedesMembers(b, a[0]);
      HeadPrecedesMembers(a, b[0]);
      PrecedesAntisymmetric(a[0], b[0]);
      TailMultiset(a);
      TailMultiset(b);
      SortedUnique(a[1..], b[1..]);
    } else {
      assert |b| == |multiset(b)| == 0;
    }
  }

  /** Sorting does not depend on the order of its input. */
  lemma SortIgnoresOrder(a: seq<JsString>, b: seq<JsString>)
    requires multiset(a) == multiset(b)
    ensures Sort(a) == Sort(b)
  {
    SortedUnique(Sort(a), Sort(b));
  }

  /** `[...new Set(s)]`: each value once, at the place it first occurs. */
  function Dedupe(s: seq<JsString>): (r: seq<JsString>)
    ensures NoDuplicates(r)
    ensures forall x :: x in r <==> x in s
  {
    if s == [] then []
    else
      var init := Dedupe(s[..|s| - 1]);
      var last := s[|s| - 1];
      assert s == s[..|s| - 1] + [last];
      if last in init then init else init + [last]
  }

  /** A sequence without repeats holds each of its members exactly once. */
  lemma {:induction false} NoDuplicatesMultiset<T>(s: seq<T>)
    requires NoDuplicates(s)
    ensures forall x :: x in s ==> multiset(s)[x] == 1
  {
    if s != [] {
      assert s == [s[0]] + s[1..];
      NoDuplicatesMultiset(s[1..]);
      assert s[0] !in s[1..];
    }
  }

  /** Repeat-free sequences with the same members are permutations of each other. */
  lemma SameMembersSameMultiset<T>(a: seq<T>, b: seq<T>)
    requires NoDuplicates(a) && NoDuplicates(b)
    requires forall x :: x in a <==> x in b
    ensures multiset(a) == multiset(b)
  {
    NoDuplicatesMultiset(a);
    NoDuplicatesMultiset(b);
    forall x ensures multiset(a)[x] == multiset(b)[x] {
      if x in a {} else { assert x !in multiset(a) && x !in multiset(b); }
    }
  }

  lemma EqualEntriesCountTwice<T>(s: seq<T>, i: nat, j: nat)
    requires i < j < |s|
    ensures s[i] == s[j] ==> multiset(s)[s[i]] >= 2
  {
    assert s == s[..i] + [s[i]] + s[i + 1..j] + [s[j]] + s[j + 1..];
  }

  /** Sorting keeps a repeat-free sequence repeat-free. */
  lemma SortKeepsNoDuplicates(s: seq<JsString>)
    requires NoDuplicates(s)
    ensures NoDuplicates(Sort(s))
  {
    var r := Sort(s);
    NoDuplicatesMultiset(s);
    forall i, j | 0 <= i < j < |r| ensures r[i] != r[j] {
      EqualEntriesCountTwice(r, i, j);
      assert r[i] in multiset(s);
    }
  }

  /** Distinct values, ordered: the shape of the server's tag list. */
  function DistinctSorted(s: seq<JsString>): (r: seq<JsString>)
    ensures Sorted(r) && NoDuplicates(r)
    ensures forall x :: x in r <==> x in s
  {
    var d := Dedupe(s);
    SortKeepsNoDuplicates(d);
    var r := Sort(d);
    assert forall x :: x in r <==> x in multiset(d);
    r
  }

  /**
   * The distinct sorted list depends only on which values occur, not on
   * their order or how often they repeat.
   */
  lemma DistinctSortedDependsOnMembersOnly(a: seq<JsString>, b: seq<JsString>)
    requires forall x :: x in a <==> x in b
    ensures DistinctSorted(a) == DistinctSorted(b)
  {
    var ra, rb := DistinctSorted(a), DistinctSorted(b);
    SameMembersSameMultiset(ra, rb);
    SortedUnique(ra, rb);
  }
}
