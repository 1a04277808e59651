/** The win table the map is shaded by: one (country, wins) row per distinct
    winner, as a count of the `winner` column. Rows carry no order here; the
    count-descending order of pandas' `value_counts` is unspecified on ties. */
module Aggregation {
  import opened Dataset
  import opened Normalization

  /** The `winner` column, in table order. */
  function Winners(d: seq<Record>): (ws: seq<string>)
    ensures |ws| == |d|
    ensures forall i :: 0 <= i < |d| ==> ws[i] == d[i].winner
  {
    if d == [] then [] else [d[0].winner] + Winners(d[1..])
  }

  /** The countries that won at least one final of the table. */
  function WinnerSet(d: seq<Record>): (s: set<string>)
    ensures forall c :: c in s <==> exists i :: 0 <= i < |d| && d[i].winner == c
  {
    set i | 0 <= i < |d| :: d[i].winner
  }

  /** Reference count: how many records of the table `c` won. */
  function CountWins(d: seq<Record>, c: string): (n: nat)
    ensures n <= |d|
    ensures n == 0 <==> forall i :: 0 <= i < |d| ==> d[i].winner != c
  {
    if d == [] then 0
    else
      assert forall i :: 0 < i < |d| ==> d[i] == d[1..][i - 1];
      (if d[0].winner == c then 1 else 0) + CountWins(d[1..], c)
  }

  /** The count over the records from index `i` on, by position. This is a
      device for evaluating counts over the concrete embedded table, where
      stepping an index is cheaper for the verifier than slicing. */
  function CountWinsFrom(d: seq<Record>, c: string, i: nat): nat
    requires i <= |d|
    decreases |d| - i
  {
    if i == |d| then 0
    else (if d[i].winner == c then 1 else 0) + CountWinsFrom(d, c, i + 1)
  }

  /** Counting by position from `i` on agrees with counting the suffix. */
  lemma {:induction false} CountWinsFromSuffix(d: seq<Record>, c: string, i: nat)
    requires i <= |d|
    ensures CountWinsFrom(d, c, i) == CountWins(d[i..], c)
    decreases |d| - i
  {
    if i < |d| {
      CountWinsFromSuffix(d, c, i + 1);
      assert d[i..][1..] == d[i + 1..];
    }
  }

  /** A country wins at least once exactly when it is a winner of the table,
      and never more often than there are records. */
  lemma {:induction false} CountWinsPositive(d: seq<Record>, c: string)
    ensures CountWins(d, c) > 0 <==> c in WinnerSet(d)
    ensures CountWins(d, c) <= |d|
  {
    if d != [] {
      CountWinsPositive(d[1..], c);
      if c in WinnerSet(d[1..]) {
        var i :| 0 <= i < |d[1..]| && d[1..][i].winner == c;
        assert d[i + 1].winner == c;
      }
      if c in WinnerSet(d) && d[0].winner != c {
        var i :| 0 <= i < |d| && d[i].winner == c;
        assert d[1..][i - 1].winner == c;
      }
    }
  }

  /** The aggregate as pandas' `value_counts` builds it: one pass over
      the records, adding one to the entry of each record's winner. */
  function Tally(d: seq<Record>): (t: map<string, nat>)
    ensures t.Keys == WinnerSet(d)
    ensures forall c :: c in t ==> 0 < t[c] <= |d|
  {
    if d == [] then map[]
    else
      WinnerSetCons(d);
      var rest := Tally(d[1..]);
      var w := d[0].winner;
      rest[w := (if w in rest then rest[w] else 0) + 1]
  }

  /** Reference definition of the aggregate: every winner, with its count. */
  function WinsByCountry(d: seq<Record>): (m: map<string, nat>)
    ensures m.Keys == WinnerSet(d)
    ensures forall c :: c in m ==> m[c] == CountWins(d, c) && m[c] > 0
  {
    forall c | c in WinnerSet(d) ensures CountWins(d, c) > 0 {
      CountWinsPositive(d, c);
    }
    map c | c in WinnerSet(d) :: CountWins(d, c)
  }

  /** The winners of a table are the first record's winner and the winners
      of the rest. */
  lemma WinnerSetCons(d: seq<Record>)
    requires d != []
    ensures WinnerSet(d) == WinnerSet(d[1..]) + {d[0].winner}
  {
    forall c ensures c in WinnerSet(d) <==> c in WinnerSet(d[1..]) || c == d[0].winner {
      if c in WinnerSet(d[1..]) {
        var i :| 0 <= i < |d[1..]| && d[1..][i].winner == c;
        assert d[i + 1].winner == c;
      }
      if c in WinnerSet(d) && c != d[0].winner {
        var i :| 0 <= i < |d| && d[i].winner == c;
        assert d[1..][i - 1].winner == c;
      }
    }
  }

  /** The tally has exactly one entry per distinct winner, each holding that
      winner's count, and no entry for any other country. */
  lemma {:induction false} TallyIsWinsByCountry(d: seq<Record>)
    ensures Tally(d) == WinsByCountry(d)
  {
    if d != [] {
      TallyIsWinsByCountry(d[1..]);
      WinnerSetCons(d);
      var rest := Tally(d[1..]);
      var t := Tally(d);
      var m := WinsByCountry(d);
      var w := d[0].winner;
      assert t.Keys == m.Keys;
      forall c | c in t ensures t[c] == m[c] {
        if c == w {
          CountWinsPositive(d[1..], c);
          assert t[c] == (if w in rest then rest[w] else 0) + 1;
        } else {
          assert t[c] == rest[c];
        }
      }
    }
  }

  /** The sum of the values of a map, over its keys in any order. */
  ghost function SumValues(m: map<string, nat>): (total: nat)
    ensures total == 0 <==> forall k :: k in m ==> m[k] == 0
    decreases |m|
  {
    if m == map[] then 0
    else
      var k :| k in m;
      var rest := m - {k};
      assert rest.Keys == m.Keys - {k};
      assert forall j :: j in m ==> j == k || (j in rest && rest[j] == m[j]);
      m[k] + SumValues(rest)
  }

  /** The sum does not depend on which key is taken out first. */
  lemma {:induction false} SumValuesRemove(m: map<string, nat>, k: string)
    requires k in m
    ensures SumValues(m) == m[k] + SumValues(m - {k})
    decreases |m|
  {
    var j :| j in m && SumValues(m) == m[j] + SumValues(m - {j});
    if j != k {
      assert (m - {k}).Keys == m.Keys - {k};
      assert (m - {j}).Keys == m.Keys - {j};
      SumValuesRemove(m - {j}, k);
      SumValuesRemove(m - {k}, j);
      assert m - {j} - {k} == m - {k} - {j};
    }
  }

  /** Adding one to an entry, or creating it at one, adds one to the sum. */
  lemma SumValuesIncrement(m: map<string, nat>, k: string)
    ensures SumValues(m[k := (if k in m then m[k] else 0) + 1]) == SumValues(m) + 1
  {
    var m' := m[k := (if k in m then m[k] else 0) + 1];
    SumValuesRemove(m', k);
    if k in m {
      SumValuesRemove(m, k);
      assert m' - {k} == m - {k};
    } else {
      assert m' - {k} == m;
    }
  }

  /** Every record contributes exactly one win: the wins of the aggregate add
      up to the number of records. */
  lemma {:induction false} TallySum(d: seq<Record>)
    ensures SumValues(Tally(d)) == |d|
  {
    if d == [] {
      assert Tally(d) == map[];
    } else {
      TallySum(d[1..]);
      SumValuesIncrement(Tally(d[1..]), d[0].winner);
    }
  }

  /** Counting after the name correction: "Germany" is credited with the wins
      of both names, "West Germany" with none, every other country as before. */
  lemma {:induction false} CountWinsNormalize(d: seq<Record>, c: string)
    ensures c == CurrentName ==>
      CountWins(Normalize(d), c) == CountWins(d, CurrentName) + CountWins(d, FormerName)
    ensures c == FormerName ==> CountWins(Normalize(d), c) == 0
    ensures c != CurrentName && c != FormerName ==> CountWins(Normalize(d), c) == CountWins(d, c)
  {
    if d != [] {
      CountWinsNormalize(d[1..], c);
      assert Normalize(d)[1..] == Normalize(d[1..]);
    }
  }
}
