/** What the page derives from the table: the normalized table itself, the
    two dropdowns' option lists and defaults, and the two callbacks. */
module Dashboard {
  import opened Wrappers
  import opened Dataset
  import opened Normalization
  import opened Ordering
  import opened Aggregation
  import opened Lookup

  /** The table every widget reads: the embedded finals after the name
      correction. */
  const Table: seq<Record> := Normalize(RawData)

  const DefaultCountry: string := "Brazil"
  const DefaultYear: int := 2022

  /** Country dropdown: the distinct winners, sorted by name. */
  function CountryOptions(d: seq<Record>): (opts: seq<string>)
    ensures StrictlyAscending(opts)
    ensures forall c :: c in opts <==> c in Tally(d)
  {
    var distinct := Unique(Winners(d));
    WinnersAreTallyKeys(d);
    SortNamesMembers(distinct);
    SortNames(distinct)
  }

  /** The `winner` column holds exactly the countries the aggregate has a row for. */
  lemma WinnersAreTallyKeys(d: seq<Record>)
    ensures forall c :: c in Winners(d) <==> c in Tally(d)
  {
    TallyIsWinsByCountry(d);
    forall c | c in Winners(d) ensures c in WinnerSet(d) {
      var i :| 0 <= i < |Winners(d)| && Winners(d)[i] == c;
    }
  }

  /** Sorting keeps exactly the names it was given. */
  lemma SortNamesMembers(s: seq<string>)
    requires NoDuplicates(s)
    ensures forall c :: c in SortNames(s) <==> c in s
  {
    var sorted := SortNames(s);
    assert forall c :: c in sorted <==> c in multiset(sorted);
  }

  /** The aggregate's row order, which `value_counts` leaves unspecified on ties,
      does not matter: any duplicate-free listing of its countries sorts to
      the same options. */
  lemma CountryOptionsIgnoreRowOrder(d: seq<Record>, rows: seq<string>)
    requires NoDuplicates(rows)
    requires forall c :: c in rows <==> c in Tally(d)
    ensures SortNames(rows) == CountryOptions(d)
  {
    SortNamesMembers(rows);
    StrictlyAscendingUnique(SortNames(rows), CountryOptions(d));
  }

  /** Year dropdown: every year of the table, in ascending order. */
  function YearOptions(d: seq<Record>): (opts: seq<int>)
    ensures Ascending(opts)
    ensures multiset(opts) == multiset(Years(d))
  {
    SortYears(Years(d))
  }

  /** What the country callback shows: the selection and its title count. */
  datatype CountryLine = CountryLine(country: string, wins: nat)

  /** What the year callback shows: the selection and that final's teams. */
  datatype YearLine = YearLine(year: int, winner: string, runnerUp: string)

  /** The positional lookup of the year callback found no row. */
  datatype LookupError = IndexOutOfBounds

  function UpdateCountryOutput(d: seq<Record>, c: string): (line: CountryLine)
    ensures line.country == c
    ensures line.wins == CountWins(d, c)
  {
    WinsForCounts(d, c);
    CountryLine(c, WinsFor(d, c))
  }

  function UpdateYearOutput(d: seq<Record>, y: int): (out: Result<YearLine, LookupError>)
    ensures out.Failure? <==> forall i :: 0 <= i < |d| ==> d[i].year != y
    ensures out.Success? ==>
      out.value.year == y &&
      exists i :: 0 <= i < |d| && d[i].year == y &&
                  out.value.winner == d[i].winner && out.value.runnerUp == d[i].runnerUp &&
                  forall j :: 0 <= j < i ==> d[j].year != y
  {
    match RecordFor(d, y)
    case None => Failure(IndexOutOfBounds)
    case Some(r) => Success(YearLine(y, r.winner, r.runnerUp))
  }

  /** The page as first rendered: both selectors at their defaults and both
      outputs computed from them. */
  datatype View = View(selectedCountry: string, countryOutput: CountryLine,
                       selectedYear: int, yearOutput: Result<YearLine, LookupError>)

  function InitialView(d: seq<Record>): (v: View)
    ensures v.selectedCountry == DefaultCountry && v.selectedYear == DefaultYear
    ensures v.countryOutput == CountryLine(DefaultCountry, CountWins(d, DefaultCountry))
    ensures v.yearOutput.Failure? <==> forall i :: 0 <= i < |d| ==> d[i].year != DefaultYear
    ensures v.yearOutput.Success? ==>
      v.yearOutput.value.year == DefaultYear &&
      exists i :: 0 <= i < |d| && d[i].year == DefaultYear &&
                  v.yearOutput.value.winner == d[i].winner &&
                  v.yearOutput.value.runnerUp == d[i].runnerUp &&
                  forall j :: 0 <= j < i ==> d[j].year != DefaultYear
  {
    View(DefaultCountry, UpdateCountryOutput(d, DefaultCountry),
         DefaultYear, UpdateYearOutput(d, DefaultYear))
  }

  /** The name correction leaves the embedded table as it is. */
  lemma TableIsRawData()
    ensures Table == RawData
  {
    NormalizeRawDataIsIdentity();
  }

  /** The table has 22 finals, in chronological order, with distinct years
      and a different winner and runner-up in each. */
  lemma TableWellFormed()
    ensures |Table| == 22
    ensures ChronologicalYears(Table) && DistinctYears(Table) && DistinctFinalists(Table)
    ensures Normalized(Table)
  {
    TableIsRawData();
    RawDataWellFormed();
    NormalizeEffect(RawData);
  }

  /** The wins of the map's aggregate add up to the number of finals. */
  lemma TableWinsSumTo22()
    ensures SumValues(Tally(Table)) == 22
  {
    TableWellFormed();
    TallySum(Table);
  }

  /** Brazil won five finals of the table. */
  lemma RawDataBrazilWins()
    ensures CountWins(RawData, "Brazil") == 5
  {
    var c := "Brazil";
    assert CountWinsFrom(RawData, c, 22) == 0;
    assert CountWinsFrom(RawData, c, 21) == 0;
    assert CountWinsFrom(RawData, c, 20) == 0;
    assert CountWinsFrom(RawData, c, 19) == 0;
    assert CountWinsFrom(RawData, c, 18) == 0;
    assert CountWinsFrom(RawData, c, 17) == 0;
    assert CountWinsFrom(RawData, c, 16) == 1;
    assert CountWinsFrom(RawData, c, 15) == 1;
    assert CountWinsFrom(RawData, c, 14) == 2;
    assert CountWinsFrom(RawData, c, 13) == 2;
    assert CountWinsFrom(RawData, c, 12) == 2;
    assert CountWinsFrom(RawData, c, 11) == 2;
    assert CountWinsFrom(RawData, c, 10) == 2;
    assert CountWinsFrom(RawData, c, 9) == 2;
    assert CountWinsFrom(RawData, c, 8) == 3;
    assert CountWinsFrom(RawData, c, 7) == 3;
    assert CountWinsFrom(RawData, c, 6) == 4;
    assert CountWinsFrom(RawData, c, 5) == 5;
    assert CountWinsFrom(RawData, c, 4) == 5;
    assert CountWinsFrom(RawData, c, 3) == 5;
    assert CountWinsFrom(RawData, c, 2) == 5;
    assert CountWinsFrom(RawData, c, 1) == 5;
    assert CountWinsFrom(RawData, c, 0) == 5;
    CountWinsFromSuffix(RawData, c, 0);
    assert RawData[0..] == RawData;
  }

  /** Germany won four finals of the table (1954, 1974, 1990, 2014). */
  lemma RawDataGermanyWins()
    ensures CountWins(RawData, "Germany") == 4
  {
    var c := "Germany";
    assert CountWinsFrom(RawData, c, 22) == 0;
    assert CountWinsFrom(RawData, c, 21) == 0;
    assert CountWinsFrom(RawData, c, 20) == 0;
    assert CountWinsFrom(RawData, c, 19) == 1;
    assert CountWinsFrom(RawData, c, 18) == 1;
    assert CountWinsFrom(RawData, c, 17) == 1;
    assert CountWinsFrom(RawData, c, 16) == 1;
    assert CountWinsFrom(RawData, c, 15) == 1;
    assert CountWinsFrom(RawData, c, 14) == 1;
    assert CountWinsFrom(RawData, c, 13) == 2;
    assert CountWinsFrom(RawData, c, 12) == 2;
    assert CountWinsFrom(RawData, c, 11) == 2;
    assert CountWinsFrom(RawData, c, 10) == 2;
    assert CountWinsFrom(RawData, c, 9) == 3;
    assert CountWinsFrom(RawData, c, 8) == 3;
    assert CountWinsFrom(RawData, c, 7) == 3;
    assert CountWinsFrom(RawData, c, 6) == 3;
    assert CountWinsFrom(RawData, c, 5) == 3;
    assert CountWinsFrom(RawData, c, 4) == 4;
    assert CountWinsFrom(RawData, c, 3) == 4;
    assert CountWinsFrom(RawData, c, 2) == 4;
    assert CountWinsFrom(RawData, c, 1) == 4;
    assert CountWinsFrom(RawData, c, 0) == 4;
    CountWinsFromSuffix(RawData, c, 0);
    assert RawData[0..] == RawData;
  }

  /** Hungary reached two finals but won none; nor did the fictional
      Atlantis; and the lower-case "brazil" matches nothing. */
  lemma RawDataNonWinners()
    ensures forall i :: 0 <= i < |RawData| ==> RawData[i].winner != "Hungary"
    ensures forall i :: 0 <= i < |RawData| ==> RawData[i].winner != "Atlantis"
    ensures forall i :: 0 <= i < |RawData| ==> RawData[i].winner != "brazil"
  {
  }

  /** Concrete country lookups on the table for two winners. */
  lemma TableTitleLookups()
    ensures WinsFor(Table, "Brazil") == 5
    ensures WinsFor(Table, "Germany") == 4
  {
    TableIsRawData();
    RawDataBrazilWins();
    RawDataGermanyWins();
    WinsForCounts(RawData, "Brazil");
    WinsForCounts(RawData, "Germany");
  }

  /** A runner-up only, a fictional country and a different spelling case
      all get zero: the match is exact and case-sensitive. */
  lemma TableNonWinnerLookups()
    ensures WinsFor(Table, "Hungary") == 0
    ensures WinsFor(Table, "Atlantis") == 0
    ensures WinsFor(Table, "brazil") == 0
  {
    TableIsRawData();
    RawDataNonWinners();
  }

  /** No tournament was held in 1943. */
  lemma RawDataNo1943()
    ensures forall i :: 0 <= i < |RawData| ==> RawData[i].year != 1943
  {
  }

  /** Concrete year lookups, including a year without a tournament. */
  lemma TableYearLookups()
    ensures RecordFor(Table, 2022) == Some(Record(2022, "Argentina", "France"))
    ensures RecordFor(Table, 1930) == Some(Record(1930, "Uruguay", "Argentina"))
    ensures RecordFor(Table, 1943) == None
  {
    TableIsRawData();
    RawData2022();
    RawData1930();
    RawDataNo1943();
  }

  /** The final of 2022 is the last record of the table. */
  lemma RawData2022()
    ensures RecordFor(RawData, 2022) == Some(Record(2022, "Argentina", "France"))
  {
    RawDataWellFormed();
    RecordForUnique(RawData, 21);
  }

  /** The final of 1930 is the first record of the table. */
  lemma RawData1930()
    ensures RecordFor(RawData, 1930) == Some(Record(1930, "Uruguay", "Argentina"))
  {
    RawDataWellFormed();
    RecordForUnique(RawData, 0);
  }

  /** A chronological table's years are already in dropdown order. */
  lemma {:induction false} YearOptionsOfChronological(d: seq<Record>)
    requires ChronologicalYears(d)
    ensures YearOptions(d) == Years(d)
  {
    assert Ascending(Years(d));
    SortYearsOfAscending(Years(d));
  }

  /** On the table the year options are the table's own years, in order. */
  lemma TableYearOptions()
    ensures YearOptions(Table) == Years(Table)
  {
    TableWellFormed();
    YearOptionsOfChronological(Table);
  }

  /** Every year the dropdown offers selects a final: no year among the
      options reaches the failing positional lookup. */
  lemma YearOptionsAlwaysFound(d: seq<Record>, y: int)
    requires y in YearOptions(d)
    ensures UpdateYearOutput(d, y).Success?
  {
    assert y in multiset(Years(d));
    var i :| 0 <= i < |Years(d)| && Years(d)[i] == y;
  }

  /** The country options are exactly the countries that won a final. */
  lemma CountryOptionsAreWinners(d: seq<Record>)
    ensures forall c :: c in CountryOptions(d) <==> exists i :: 0 <= i < |d| && d[i].winner == c
  {
    TallyIsWinsByCountry(d);
  }

  /** The year options are exactly the years of the table. */
  lemma YearOptionsAreYears(d: seq<Record>)
    ensures forall y :: y in YearOptions(d) <==> exists i :: 0 <= i < |d| && d[i].year == y
  {
    forall y ensures y in YearOptions(d) <==> y in Years(d) {
      assert y in YearOptions(d) <==> y in multiset(YearOptions(d));
    }
    forall y | y in Years(d) ensures exists i :: 0 <= i < |d| && d[i].year == y {
      var i :| 0 <= i < |Years(d)| && Years(d)[i] == y;
    }
  }

  /** Both dropdown defaults are among the options they belong to. */
  lemma DefaultsAreOptions()
    ensures DefaultCountry in CountryOptions(Table)
    ensures DefaultYear in YearOptions(Table)
  {
    TableIsRawData();
    CountryOptionsAreWinners(RawData);
    assert RawData[5].winner == DefaultCountry;
    YearOptionsAreYears(RawData);
    assert RawData[21].year == DefaultYear;
  }

  /** The first rendering shows Brazil's five titles and the 2022 final. */
  lemma InitialViewOfTable()
    ensures InitialView(Table).countryOutput == CountryLine("Brazil", 5)
    ensures InitialView(Table).yearOutput == Success(YearLine(2022, "Argentina", "France"))
  {
    TableIsRawData();
    RawDataBrazilWins();
    RawData2022();
  }
}
