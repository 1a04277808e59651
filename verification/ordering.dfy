/** The orders the dropdowns are sorted by, and sorting over them.

    Country names are compared the way Python compares strings: code point by
    code point, a proper prefix coming first. Years are compared as integers. */
module Ordering {

  /** Strict lexicographic order on strings by code point. */
  function LexLess(a: string, b: string): (r: bool)
    ensures r ==> a != b
    ensures |a| <= |b| && a == b[..|a|] ==> (r <==> |a| < |b|)
    ensures |b| <= |a| && b == a[..|b|] ==> !r
  {
    if |a| == 0 then |b| > 0
    else if |b| == 0 then false
    else if a[0] != b[0] then a[0] < b[0]
    else LexLess(a[1..], b[1..])
  }

  lemma {:induction false} LexLessIrreflexive(a: string)
    ensures !LexLess(a, a)
  {
    if |a| > 0 {
      LexLessIrreflexive(a[1..]);
    }
  }

  lemma {:induction false} LexLessTransitive(a: string, b: string, c: string)
    requires LexLess(a, b) && LexLess(b, c)
    ensures LexLess(a, c)
    decreases |a|
  {
    if |a| > 0 && |b| > 0 && |c| > 0 && a[0] == b[0] && b[0] == c[0] {
      LexLessTransitive(a[1..], b[1..], c[1..]);
    }
  }

  lemma {:induction false} LexLessTotal(a: string, b: string)
    requires a != b
    ensures LexLess(a, b) || LexLess(b, a)
    decreases |a|
  {
    if |a| > 0 && |b| > 0 && a[0] == b[0] {
      assert a == [a[0]] + a[1..] && b == [b[0]] + b[1..];
      LexLessTotal(a[1..], b[1..]);
    }
  }

  /** The first position where two strings differ decides their order. */
  lemma {:induction false} LexLessFirstDifference(a: string, b: string, k: nat)
    requires k < |a| && k < |b|
    requires a[..k] == b[..k] && a[k] != b[k]
    ensures LexLess(a, b) <==> a[k] < b[k]
  {
    if k > 0 {
      assert a[0] == a[..k][0] && b[0] == b[..k][0];
      assert a[1..][..k - 1] == a[..k][1..] && b[1..][..k - 1] == b[..k][1..];
      LexLessFirstDifference(a[1..], b[1..], k - 1);
    }
  }

  /** With the lemmas above, LexLess is a strict total order. */
  lemma LexLessAsymmetric(a: string, b: string)
    requires LexLess(a, b)
    ensures !LexLess(b, a)
  {
    if LexLess(b, a) {
      LexLessTransitive(a, b, a);
      LexLessIrreflexive(a);
    }
  }

  /** Each name strictly precedes the next one. */
  ghost predicate StrictlyAscending(s: seq<string>)
  {
    forall i :: 0 < i < |s| ==> LexLess(s[i - 1], s[i])
  }

  /** Each year is at most the next one. */
  ghost predicate Ascending(s: seq<int>)
  {
    forall i :: 0 < i < |s| ==> s[i - 1] <= s[i]
  }

  ghost predicate NoDuplicates<T>(s: seq<T>)
  {
    forall i, j :: 0 <= i < j < |s| ==> s[i] != s[j]
  }

  /** In a strictly ascending list every name precedes every later one. */
  lemma {:induction false} StrictlyAscendingPairwise(s: seq<string>, i: int, j: int)
    requires StrictlyAscending(s)
    requires 0 <= i < j < |s|
    ensures LexLess(s[i], s[j])
    decreases j - i
  {
    if i + 1 < j {
      StrictlyAscendingPairwise(s, i + 1, j);
      LexLessTransitive(s[i], s[i + 1], s[j]);
    }
  }

  lemma StrictlyAscendingHasNoDuplicates(s: seq<string>)
    requires StrictlyAscending(s)
    ensures NoDuplicates(s)
  {
    forall i, j | 0 <= i < j < |s|
      ensures s[i] != s[j]
    {
      StrictlyAscendingPairwise(s, i, j);
      LexLessIrreflexive(s[i]);
    }
  }

  /** The head of a strictly ascending list is its least element, and the
      tail holds exactly the other elements. */
  lemma StrictlyAscendingHead(s: seq<string>)
    requires StrictlyAscending(s) && s != []
    ensures forall x :: x in s && x != s[0] ==> LexLess(s[0], x)
    ensures forall x :: x in s[1..] <==> x in s && x != s[0]
  {
    StrictlyAscendingHasNoDuplicates(s);
    forall x | x in s && x != s[0]
      ensures LexLess(s[0], x)
    {
      var k :| 0 <= k < |s| && s[k] == x;
      StrictlyAscendingPairwise(s, 0, k);
    }
    forall x ensures x in s[1..] <==> x in s && x != s[0] {
      if x in s[1..] {
        var k :| 0 <= k < |s[1..]| && s[1..][k] == x;
        assert s[k + 1] == x;
      }
      if x in s && x != s[0] {
        var k :| 0 <= k < |s| && s[k] == x;
        assert s[1..][k - 1] == x;
      }
    }
  }

  /** The head of a duplicate-free list does not occur in its tail. */
  lemma NoDuplicatesHead<T>(s: seq<T>)
    requires NoDuplicates(s) && s != []
    ensures s[0] !in s[1..]
    ensures NoDuplicates(s[1..])
  {
    forall k | 0 <= k < |s[1..]|
      ensures s[1..][k] != s[0]
    {
      assert s[1..][k] == s[k + 1];
    }
  }

  /** The distinct elements of `s`, each once. */
  function Unique(s: seq<string>): (r: seq<string>)
    ensures NoDuplicates(r)
    ensures forall x :: x in r <==> x in s
    ensures |r| <= |s|
  {
    if s == [] then []
    else
      var rest := Unique(s[..|s| - 1]);
      var last := s[|s| - 1];
      assert forall x :: x in s <==> x in s[..|s| - 1] || x == last by {
        assert s == s[..|s| - 1] + [last];
      }
      if last in rest then rest else rest + [last]
  }

  /** Inserts a name not yet present into a strictly ascending list. */
  function InsertName(x: string, s: seq<string>): (r: seq<string>)
    requires StrictlyAscending(s)
    requires x !in s
    ensures StrictlyAscending(r)
    ensures multiset(r) == multiset(s) + multiset{x}
    ensures r[0] == x || (s != [] && r[0] == s[0])
  {
    if s == [] then [x]
    else if LexLess(x, s[0]) then [x] + s
    else
      assert s == [s[0]] + s[1..];
      assert LexLess(s[0], x) by { LexLessTotal(x, s[0]); }
      [s[0]] + InsertName(x, s[1..])
  }

  /** Insertion sort of a duplicate-free list of names. */
  function SortNames(s: seq<string>): (r: seq<string>)
    requires NoDuplicates(s)
    ensures StrictlyAscending(r)
    ensures multiset(r) == multiset(s)
  {
    if s == [] then []
    else
      assert s == [s[0]] + s[1..];
      NoDuplicatesHead(s);
      var sorted := SortNames(s[1..]);
      assert s[0] !in multiset(sorted);
      InsertName(s[0], sorted)
  }

  /** Inserts a year into an ascending list, before any equal ones. */
  function InsertYear(y: int, s: seq<int>): (r: seq<int>)
    requires Ascending(s)
    ensures Ascending(r)
    ensures multiset(r) == multiset(s) + multiset{y}
    ensures r[0] == y || (s != [] && r[0] == s[0])
  {
    if s == [] then [y]
    else if y <= s[0] then [y] + s
    else
      assert s == [s[0]] + s[1..];
      [s[0]] + InsertYear(y, s[1..])
  }

  /** Insertion sort of years. */
  function SortYears(s: seq<int>): (r: seq<int>)
    ensures Ascending(r)
    ensures multiset(r) == multiset(s)
  {
    if s == [] then []
    else
      assert s == [s[0]] + s[1..];
      InsertYear(s[0], SortYears(s[1..]))
  }

  /** Two strictly ascending lists with the same elements are the same list:
      the sorted order of a set of names does not depend on where it came from. */
  lemma {:induction false} StrictlyAscendingUnique(a: seq<string>, b: seq<string>)
    requires StrictlyAscending(a) && StrictlyAscending(b)
    requires forall x :: x in a <==> x in b
    ensures a == b
    decreases |a|
  {
    assert a != [] ==> a[0] in a && a[0] in b;
    assert b != [] ==> b[0] in b && b[0] in a;
    if a != [] && b != [] {
      StrictlyAscendingHead(a);
      StrictlyAscendingHead(b);
      assert a[0] in a && b[0] in b;
      if a[0] != b[0] {
        LexLessAsymmetric(a[0], b[0]);
      }
      StrictlyAscendingUnique(a[1..], b[1..]);
      assert a == [a[0]] + a[1..] && b == [b[0]] + b[1..];
    }
  }

  /** Sorting a list of years that is already ascending leaves it as it is. */
  lemma {:induction false} SortYearsOfAscending(s: seq<int>)
    requires Ascending(s)
    ensures SortYears(s) == s
  {
    if s != [] {
      SortYearsOfAscending(s[1..]);
      assert s == [s[0]] + s[1..];
    }
  }
}
