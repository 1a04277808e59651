# FIFA World Cup dashboard — data core

A Dafny model of the data handling behind a single-page dashboard of FIFA
World Cup finals. The page has a world map shaded by each country's number
of titles, plus two dropdowns. One dropdown picks a country and reports its
title count. The other picks a year and reports that final's winner and
runner-up. Everything the page shows comes from five pieces of pure logic,
and each has its own module here:

- `Dataset` (`dataset.dfy`): the `Record` datatype (year, winner,
  runner-up) and the embedded table `RawData` of the 22 finals from 1930 to
  2022, in table order. It also defines the well-formedness predicates
  (chronological years, distinct years, different finalists).
- `Normalization` (`normalization.dfy`): the one name correction. An exact
  cell value "West Germany" becomes "Germany" in both name columns. The
  years and all other names are untouched.
- `Aggregation` (`aggregation.dfy`): the per-country win table that shades
  the map. `Tally` builds it the way a value count does: one pass, one
  increment per record. `WinsByCountry` is the reference definition it is
  proved equal to, and `SumValues` sums a map's values.
- `Ordering` (`ordering.dfy`): Python's string order (`LexLess`, code point
  by code point, a proper prefix first), de-duplication, and insertion sort of names and of years.
- `Lookup` (`lookup.dfy`): the two callback lookups. The country lookup
  counts the rows that pass the mask `winner == c`. The year lookup takes
  the first row that passes the mask `year == y`.
- `Dashboard` (`dashboard.dfy`): the table the page reads
  (`Normalize(RawData)`), the two option lists and their defaults, the
  two callbacks as structured output lines, the first rendering of the page,
  and the concrete facts about the embedded table.
- `Wrappers` (`wrappers.dfy`): `Option` and `Result`.

The table is one immutable value that is passed to every function. So the
aggregate is a pure function of it, and computing it twice gives the same
result.

In app.py:90 the year callback takes the first filtered row with
`.iloc[0]`, which raises when no row has the selected year. The model
returns that case as an error value: `None` from `RecordFor`, and
`Failure(IndexOutOfBounds)` from `UpdateYearOutput`.
`YearOptionsAlwaysFound` proves that no year among the dropdown's options
reaches that case.

app.py:33 applies the name correction at start-up. No row of app.py:7-30
contains "West Germany", so `NormalizeRawDataIsIdentity` shows that the
correction changes nothing on the embedded table.

## Model

| member | source | states |
|---|---|---|
| Dataset.RawDataWellFormed | app.py:7-30 | The embedded table has 22 finals in chronological order, no two finals share a year, and every final has a winner different from its runner-up. |
| Dataset.ChronologicalIsDistinct | app.py:7-30 | Any table whose consecutive years increase has pairwise distinct years. |
| Normalization.NormalizeName | app.py:33 | The correction never outputs "West Germany". It changes a cell only when the cell is exactly "West Germany", and then to "Germany". Every other string passes through unchanged. |
| Normalization.NormalizeRecord | app.py:33 | A corrected record keeps its year and names "West Germany" in neither name field. A field that was "West Germany" becomes "Germany", and every other field keeps its name. |
| Normalization.Normalize | app.py:33 | The corrected table has the same length, and each row is the corrected version of the row at the same position. |
| Normalization.NormalizeEffect | app.py:33 | After the correction, no winner or runner-up cell is "West Germany". The years column is unchanged, and every cell that was not "West Germany" keeps its name. |
| Normalization.NormalizeIdempotent | app.py:33 | Applying the correction twice gives the same table as applying it once. |
| Normalization.NormalizeRawDataIsIdentity | app.py:7-33 | On the embedded table the correction is a no-op. |
| Aggregation.CountWinsNormalize | app.py:33-34 | After the correction, "Germany" gets the wins of both names and "West Germany" gets none. Every other country keeps its count. |
| Aggregation.CountWins | app.py:34 | A country's reference count is never more than the number of records, and it is zero exactly when no record's winner equals the country. |
| Aggregation.CountWinsPositive | app.py:34-35 | A country's count is positive exactly when it won some final of the table, and it is never more than the number of records. |
| Aggregation.WinsByCountry | app.py:34-35 | The reference aggregate has exactly the winners as keys. Each value is that winner's count, and every value is positive. |
| Aggregation.Tally | app.py:34-35 | The one-pass value count has an entry exactly for each country that won a final, and every entry is between 1 and the number of records. |
| Aggregation.TallyIsWinsByCountry | app.py:34-35 | The one-pass tally equals the reference aggregate: one entry per distinct winner, with its count, and no entry for a country that never won. |
| Aggregation.SumValues | app.py:34 | The sum of a map's values is zero exactly when every value is zero. |
| Aggregation.SumValuesRemove | app.py:34 | A map's value sum does not depend on which key is taken out first. |
| Aggregation.TallySum | app.py:34 | The wins of the aggregate add up to the number of records. |
| Aggregation.CountWinsFromSuffix | app.py:82 | Counting matching rows by position from index i gives the same number as counting the suffix starting at i. |
| Ordering.LexLess | app.py:57 | Python's string order never puts a string before itself. A proper prefix comes before the longer string, and a longer string never comes before its own prefix. |
| Ordering.LexLessFirstDifference | app.py:57 | When two strings agree up to a position and differ there, the code points at that position decide their order. |
| Ordering.LexLessTransitive | app.py:57 | The string order that sorting uses is transitive. |
| Ordering.LexLessTotal | app.py:57 | Any two different strings are ordered one way or the other. |
| Ordering.StrictlyAscendingPairwise | app.py:57 | In a list where each name precedes the next, every name precedes every later one. |
| Ordering.Unique | app.py:57 | The de-duplicated list has no repeated element and holds exactly the elements of its input. |
| Ordering.InsertName | app.py:57 | Inserting a new name into a strictly ascending list keeps it strictly ascending, and adds exactly that name. |
| Ordering.SortNames | app.py:57 | Sorting a list of distinct names gives a strictly ascending permutation of it. |
| Ordering.InsertYear | app.py:68 | Inserting a year into an ascending list keeps it ascending, and adds exactly that year. |
| Ordering.SortYears | app.py:68 | Sorting years gives an ascending permutation of them, repeats kept. |
| Ordering.StrictlyAscendingUnique | app.py:57 | Two strictly ascending lists with the same elements are identical. |
| Ordering.SortYearsOfAscending | app.py:68 | Sorting a list of years that is already ascending returns it unchanged. |
| Lookup.WonBy | app.py:82 | The winner mask keeps only rows of the table won by the selected country, and it keeps every row of the table won by that country. |
| Lookup.WinsFor | app.py:82 | The country lookup's count is never more than the number of records, and it is zero exactly when no record's winner equals the selection. |
| Lookup.WinsForCounts | app.py:82 | The country lookup's row count equals the reference count of records the selected string won, matched exactly. |
| Lookup.WinsForMatchesAggregate | app.py:82 | The country lookup agrees with the aggregate entry for every winner and gives 0 for any other string. It is positive exactly when some record's winner equals the selection. |
| Lookup.HeldIn | app.py:90 | The year mask keeps only records of that year. It is empty exactly when no record has that year. When it is not empty, its first row is the earliest record of that year. |
| Lookup.RecordFor | app.py:90 | The year lookup fails exactly when no record has the year. Otherwise it returns the first record with that year. |
| Lookup.RecordForUnique | app.py:90 | In a table with distinct years, looking up a year that occurs returns that year's unique record. |
| Dashboard.CountryOptions | app.py:57 | The country options are strictly ascending, so they have no duplicates, and they are exactly the countries the aggregate has a row for. |
| Dashboard.CountryOptionsIgnoreRowOrder | app.py:57 | Any duplicate-free listing of the aggregate's countries sorts to the same options, so the unspecified row order of the aggregate does not matter. |
| Dashboard.CountryOptionsAreWinners | app.py:57 | A string is a country option exactly when it is the winner of some record. |
| Dashboard.WinnersAreTallyKeys | app.py:34-35 | The winner column holds exactly the countries the aggregate has a row for. |
| Dashboard.SortNamesMembers | app.py:57 | Sorting keeps exactly the names it was given. |
| Dashboard.YearOptions | app.py:68 | The year options are ascending and are a permutation of the table's years. |
| Dashboard.YearOptionsAreYears | app.py:68 | A year is an option exactly when some record has that year. |
| Dashboard.YearOptionsOfChronological | app.py:68 | For a chronological table, the year options are the table's years in table order. |
| Dashboard.TableYearOptions | app.py:68 | On the page's table, the year options are 1930 to 2022 in table order. |
| Dashboard.UpdateCountryOutput | app.py:81-83 | The country callback reports the selection and the number of records it won. |
| Dashboard.UpdateYearOutput | app.py:89-91 | The year callback fails exactly when no record has the year. Otherwise it reports the year and the winner and runner-up of the first record of that year. |
| Dashboard.YearOptionsAlwaysFound | app.py:68-90 | No year the dropdown offers makes the year callback fail. |
| Dashboard.InitialView | app.py:58-91 | The first rendering has the selectors at "Brazil" and 2022. The country output is Brazil's count of won records. The year output fails exactly when no record has year 2022, and otherwise reports the winner and runner-up of the first record of 2022. |
| Dashboard.DefaultsAreOptions | app.py:58-69 | "Brazil" is a country option and 2022 is a year option. |
| Dashboard.InitialViewOfTable | app.py:58-91 | The first rendering shows Brazil with 5 titles, and shows the 2022 final as Argentina over France. |
| Dashboard.TableIsRawData | app.py:32-33 | The corrected table the page reads is exactly the embedded table. |
| Dashboard.TableWellFormed | app.py:7-33 | The page's table has 22 finals with chronological, distinct years and different finalists, and it contains no "West Germany". |
| Dashboard.TableWinsSumTo22 | app.py:34 | The wins shaded on the map add up to 22. |
| Dashboard.RawDataBrazilWins | app.py:7-30 | Brazil won 5 finals of the table. |
| Dashboard.RawDataGermanyWins | app.py:7-30 | Germany won 4 finals of the table. |
| Dashboard.RawDataNonWinners | app.py:7-30 | No record's winner is "Hungary", "Atlantis" or "brazil". |
| Dashboard.TableTitleLookups | app.py:82 | The country lookup gives Brazil 5 and Germany 4. |
| Dashboard.TableNonWinnerLookups | app.py:82 | The country lookup gives 0 for "Hungary" (a runner-up only), for "Atlantis", and for "brazil", because the match is case-sensitive. |
| Dashboard.RawDataNo1943 | app.py:7-30 | No final was held in 1943. |
| Dashboard.RawData2022 | app.py:29 | The 2022 lookup on the table returns Argentina over France. |
| Dashboard.RawData1930 | app.py:8 | The 1930 lookup on the table returns Uruguay over Argentina. |
| Dashboard.TableYearLookups | app.py:90 | Looking up 2022 returns Argentina over France, 1930 returns Uruguay over Argentina, and 1943 fails. |

## Left out

- Page construction, layout, styling and callback registration (app.py:38-74, 77-80, 85-88): this is UI framework wiring. The model keeps only what the callbacks compute and the page's initial state. Later re-renders are not modelled.
- The choropleth figure and its mapping from country names to map regions (app.py:45-51): this is an external charting library. The model supplies only the `{country: wins}` aggregate it is drawn from.
- The HTTP server and the WSGI handle (app.py:39, 94-95): these are I/O.
- The row order of the value count (app.py:34), which sorts by count and leaves ties unspecified: the aggregate is a map with no order. `CountryOptionsIgnoreRowOrder` shows that the dropdown does not depend on that order.
- The text rendering of the two callbacks (app.py:83, 91), including integer-to-decimal formatting: the callbacks return the values the text is built from (`CountryLine`, `YearLine`).
- Lookup.WinsFor: its own contract states the bound and when the count is zero. The exact count is stated by `WinsForCounts` and `WinsForMatchesAggregate`.
- Aggregation.Tally: its own contract states its keys and the range of its values. The exact value of each entry is stated by `TallyIsWinsByCountry`, and the sum by `TallySum`.
- A cleared dropdown selection is not modelled, because the selections are typed `string` and `int`. Both dropdowns (app.py:55-60, 66-71) are clearable, and clearing one sends `None`. The country callback then counts 0 rows. The year callback's mask keeps no row, so `.iloc[0]` raises.
