/** The embedded table of World Cup finals: one record per tournament, in
    chronological order, exactly as the dashboard hardcodes it. */
module Dataset {

  /** One World Cup final. */
  datatype Record = Record(year: int, winner: string, runnerUp: string)

  /** The 22 finals from 1930 to 2022 (there was no tournament in 1942 or 1946). */
  const RawData: seq<Record> := [
    Record(1930, "Uruguay", "Argentina"),
    Record(1934, "Italy", "Czechoslovakia"),
    Record(1938, "Italy", "Hungary"),
    Record(1950, "Uruguay", "Brazil"),
    Record(1954, "Germany", "Hungary"),
    Record(1958, "Brazil", "Sweden"),
    Record(1962, "Brazil", "Czechoslovakia"),
    Record(1966, "England", "Germany"),
    Record(1970, "Brazil", "Italy"),
    Record(1974, "Germany", "Netherlands"),
    Record(1978, "Argentina", "Netherlands"),
    Record(1982, "Italy", "Germany"),
    Record(1986, "Argentina", "Germany"),
    Record(1990, "Germany", "Argentina"),
    Record(1994, "Brazil", "Italy"),
    Record(1998, "France", "Brazil"),
    Record(2002, "Brazil", "Germany"),
    Record(2006, "Italy", "France"),
    Record(2010, "Spain", "Netherlands"),
    Record(2014, "Germany", "Argentina"),
    Record(2018, "France", "Croatia"),
    Record(2022, "Argentina", "France")
  ]

  /** The `year` column, in table order. */
  function Years(d: seq<Record>): (ys: seq<int>)
    ensures |ys| == |d|
    ensures forall i :: 0 <= i < |d| ==> ys[i] == d[i].year
  {
    if d == [] then [] else [d[0].year] + Years(d[1..])
  }

  /** No two records of the table share a year. */
  ghost predicate DistinctYears(d: seq<Record>)
  {
    forall i, j :: 0 <= i < |d| && 0 <= j < |d| && i != j ==> d[i].year != d[j].year
  }

  /** Each record's year is later than the one before it. */
  ghost predicate ChronologicalYears(d: seq<Record>)
  {
    forall i :: 0 < i < |d| ==> d[i - 1].year < d[i].year
  }

  /** Every final was played between two different teams. */
  ghost predicate DistinctFinalists(d: seq<Record>)
  {
    forall i :: 0 <= i < |d| ==> d[i].winner != d[i].runnerUp
  }

  /** A table whose consecutive years increase has pairwise increasing years. */
  lemma {:induction false} ChronologicalIsIncreasing(d: seq<Record>, i: int, j: int)
    requires ChronologicalYears(d)
    requires 0 <= i < j < |d|
    ensures d[i].year < d[j].year
    decreases j - i
  {
    if i + 1 < j {
      ChronologicalIsIncreasing(d, i + 1, j);
    }
  }

  /** A chronological table never repeats a year. */
  lemma ChronologicalIsDistinct(d: seq<Record>)
    requires ChronologicalYears(d)
    ensures DistinctYears(d)
  {
    forall i, j | 0 <= i < |d| && 0 <= j < |d| && i != j
      ensures d[i].year != d[j].year
    {
      if i < j { ChronologicalIsIncreasing(d, i, j); }
      else { ChronologicalIsIncreasing(d, j, i); }
    }
  }

  /** The embedded table has 22 records, in chronological order, with
      pairwise distinct years and a different winner and runner-up in each. */
  lemma RawDataWellFormed()
    ensures |RawData| == 22
    ensures ChronologicalYears(RawData)
    ensures DistinctYears(RawData)
    ensures DistinctFinalists(RawData)
  {
    ChronologicalIsDistinct(RawData);
  }
}
