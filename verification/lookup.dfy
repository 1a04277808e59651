/** The two lookups behind the dropdown callbacks: the number of titles of a
    selected country, and the final of a selected year. */
module Lookup {
  import opened Wrappers
  import opened Dataset
  import opened Aggregation

  /** The rows the boolean mask `winner == c` keeps, in table order. */
  function WonBy(d: seq<Record>, c: string): (s: seq<Record>)
    ensures forall r :: r in s ==> r in d && r.winner == c
    ensures forall i :: 0 <= i < |d| && d[i].winner == c ==> d[i] in s
    ensures |s| <= |d|
  {
    if d == [] then []
    else
      assert forall i :: 0 < i < |d| ==> d[i] == d[1..][i - 1];
      if d[0].winner == c then [d[0]] + WonBy(d[1..], c)
      else WonBy(d[1..], c)
  }

  /** Country lookup: the number of rows that survive the winner mask. */
  function WinsFor(d: seq<Record>, c: string): (n: nat)
    ensures n <= |d|
    ensures n == 0 <==> forall i :: 0 <= i < |d| ==> d[i].winner != c
  {
    var kept := WonBy(d, c);
    assert kept != [] ==> kept[0] in kept;
    |kept|
  }

  /** The mask keeps exactly the records `c` won: the lookup agrees with the
      reference count. */
  lemma {:induction false} WinsForCounts(d: seq<Record>, c: string)
    ensures WinsFor(d, c) == CountWins(d, c)
  {
    if d != [] {
      WinsForCounts(d[1..], c);
    }
  }

  /** The country lookup agrees with the aggregate: a winner gets its entry,
      any other string (a runner-up only, a misspelling, a different case)
      gets zero. */
  lemma WinsForMatchesAggregate(d: seq<Record>, c: string)
    ensures c in Tally(d) ==> WinsFor(d, c) == Tally(d)[c]
    ensures c !in Tally(d) ==> WinsFor(d, c) == 0
    ensures WinsFor(d, c) > 0 <==> exists i :: 0 <= i < |d| && d[i].winner == c
  {
    WinsForCounts(d, c);
    TallyIsWinsByCountry(d);
    CountWinsPositive(d, c);
  }

  /** The rows the boolean mask `year == y` keeps, in table order. */
  function HeldIn(d: seq<Record>, y: int): (s: seq<Record>)
    ensures forall r :: r in s ==> r in d && r.year == y
    ensures s == [] <==> forall i :: 0 <= i < |d| ==> d[i].year != y
    ensures s != [] ==> exists i :: 0 <= i < |d| && d[i] == s[0] &&
                                    forall j :: 0 <= j < i ==> d[j].year != y
  {
    if d == [] then []
    else if d[0].year == y then [d[0]] + HeldIn(d[1..], y)
    else
      var s := HeldIn(d[1..], y);
      assert forall i :: 0 < i < |d| ==> d[i] == d[1..][i - 1];
      if s != [] then
        var i :| 0 <= i < |d[1..]| && d[1..][i] == s[0] &&
                 forall j :: 0 <= j < i ==> d[1..][j].year != y;
        assert d[i + 1] == s[0] && forall j :: 0 <= j < i + 1 ==> d[j].year != y;
        s
      else
        s
  }

  /** Year lookup: the first row that survives the year mask. The dashboard's
      `.iloc[0]` raises on an empty selection; here that case is `None`. */
  function RecordFor(d: seq<Record>, y: int): (r: Option<Record>)
    ensures r.None? <==> forall i :: 0 <= i < |d| ==> d[i].year != y
    ensures r.Some? ==> exists i :: 0 <= i < |d| && d[i] == r.value && d[i].year == y &&
                                    forall j :: 0 <= j < i ==> d[j].year != y
  {
    var s := HeldIn(d, y);
    if s == [] then None else Some(s[0])
  }

  /** In a table without repeated years, a year that occurs selects exactly
      the record of that year. */
  lemma RecordForUnique(d: seq<Record>, i: int)
    requires DistinctYears(d)
    requires 0 <= i < |d|
    ensures RecordFor(d, d[i].year) == Some(d[i])
  {
  }
}
