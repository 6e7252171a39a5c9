# Covid-in-Colombia derivation engine, modelled in Dafny

This project models the derivation engine of `corona_utils.py`. The engine
turns three tables into the series the project publishes:

- the global wide tables of cumulative cases and deaths, with one row per
  region, a `Country/Region` column, and one column per day keyed
  `M/D/YY`;
- the Colombian case line list, with one record per reported case.

The model covers five parts:

- **Country series** (`cases_per_day`, `deaths_per_day`,
  `total_cases_per_day`, `total_deaths_per_day`). The first row of a country
  is read at the key of each day from a start day on. The result is either
  the cumulative cells or their day-over-day differences, and it is written
  into an insertion-ordered dictionary.
- **Outbreak-aligned progressions** (`__country_*_progression`,
  `countries_*_progression`). Each country is read from its own first day.
  All countries share one day budget, which is Colombia's days since its
  first case plus 14. A country's reading stops at the first day without a
  column. The lists are lined up in a table whose rows are labelled 1, 2, …
  A shorter list is padded with missing markers.
- **City series and tallies** (`__city_*_per_day`, `__city_*_progression`,
  `__fill_blank_days`, `cases_per_city`, `cases_per_age`). A city's records
  are split into cases (no death date) and deaths (a death date). They are
  counted per notification date, sorted by date, and summed into running
  totals. Cities and ages are counted in the manner of `value_counts`.
- **Origin normaliser** (`__get_locations` and its helpers). Each record's
  country of origin is counted in one of two dictionaries:
  - a missing origin counts under "Nan" in the possible table;
  - an origin with hyphen-separated names counts each name once in the
    possible table;
  - any other origin counts in the definite table.
- **Dates**. Days are integer ordinals. The column key is the proleptic
  Gregorian `strftime("%-m/%-d/%y")` spelling. The last column header is
  read back with `strptime("%m/%d/%y")` to give `__days_since_first_case`
  and `__days_since_first_death`.

The tables and the line list are parameters. So are the start days, the
key function and the transliteration. Every operation is a pure function.
A function called twice on the same inputs therefore returns the same
result; the re-runs of the source have no state to disturb.

Modules, one per file: `Results` (Option, Result), `Dates`, `Text`,
`Calendar`, `Sums`, `WideTables`, `CountrySeries`, `Progression`,
`LineList`, `Tallies`, `CitySeries`, `CaseTallies`, `BlankDays`, `Origins`,
and `Scenarios` (worked examples on small inputs).

Two behaviours of the code worth noting:

- The progression table's rows are labelled 1..(longest list), which is
  what `pd.DataFrame` of the padded series with `index += 1` gives. They
  are not labelled 1..(day budget); the two agree only when some country
  has data for the whole budget.
- Missing per-day cells of a city are not filled with zeros: the code never
  calls `__fill_blank_days`. The gap filler is modelled on its own.

## Model

| member | source | states |
|---|---|---|
| WideTables.FindCountry | corona_utils.py:217-218 | the row used is the first whose `Country/Region` equals the name exactly; there is none exactly when the name is absent |
| CountrySeries.PutWrites | corona_utils.py:225 | after `date_cases[day] = v` the key holds v, and every entry of another key was there before and is still there |
| CountrySeries.PutNew | corona_utils.py:225 | writing a date key the dictionary lacks appends the pair at the end |
| CountrySeries.PutExisting | corona_utils.py:225 | writing a date key the dictionary holds replaces its value in place and keeps its position |
| CountrySeries.TabulateDistinct | corona_utils.py:219-227 | with distinct keys the dictionary's items are exactly the writes, in loop order |
| CountrySeries.Iterate | corona_utils.py:221-226 | the loop finishes exactly when every key is a column; it then holds the dictionary of all emitted values; otherwise it fails at the first key that is not a column (the `KeyError`) |
| CountrySeries.DailySeries | corona_utils.py:217-227 | an absent country fails before any column is read; a present one succeeds exactly when every day of the window has a column; the failure names the first missing key |
| CountrySeries.SeriesShape | corona_utils.py:219-227 | with distinct day keys, entry i is the key of day i with the value emitted for it |
| CountrySeries.EmittedAt | corona_utils.py:222-226 | the value emitted for day i is the cell at key(start+i), minus the cell at key(start+i-1) in delta mode when i > 0 |
| CountrySeries.DeltaMatchesCumulative | corona_utils.py:221-226 | the delta and cumulative series succeed together and list the same dates; the deltas are the first differences of the cumulative values, and their prefix sums give the cumulative values back |
| CountrySeries.DeltaTotal | corona_utils.py:220-226 | the new counts of the whole window add up to the last day's cumulative cell |
| CountrySeries.PerDayOutcome | corona_utils.py:217-226 | a Colombia series up to the table's last day fails with "country not found" when Colombia has no row; otherwise it succeeds exactly when every day from the start to the last day has a column |
| CountrySeries.PerDayShape | corona_utils.py:220-226 | a successful Colombia series has days+1 entries; entry i is key(start+i) with the cumulative cell, or with its difference from the previous day's cell; in delta mode the entries sum to the last cumulative cell |
| CountrySeries.NewPerDay | corona_utils.py:208-250 | `cases_per_day`/`deaths_per_day`: the failure cases, the success condition, one entry per day, entry 0 is the first cumulative cell and entry i is cell(i) − cell(i−1), negative deltas kept, and the entries total the last cumulative cell |
| CountrySeries.TotalPerDay | corona_utils.py:299-337 | `total_cases_per_day`/`total_deaths_per_day`: the same failure cases and success condition; entry i is key(start+i) with that day's cumulative cell |
| Sums.PrefixSumsStep | corona_utils.py:398 | `cumsum` is a running total: as many sums as counts, the first sum the first count, each later sum the one before plus its count |
| Sums.PrefixSumsOfDifferences | corona_utils.py:224-226 | the prefix sums of the day-over-day differences rebuild the cumulative series |
| Sums.DifferencesOfPrefixSums | corona_utils.py:398 | the differences of a running sum are the summed values |
| Sums.TotalOfDifferences | corona_utils.py:224-226 | the differences of a non-empty series telescope to its last value |
| Sums.NonNegativeDifferences | corona_utils.py:225 | the deltas are all non-negative exactly when the cumulative series never decreases and starts non-negative, so a decrease in the table shows as a negative delta |
| Sums.PrefixSumsMonotone | corona_utils.py:398 | the running sum of non-negative counts never decreases, and its last value is the total |
| Progression.Walk | corona_utils.py:427-434 | the loop keeps the cells of the keys that are columns, in order, for at most the budget; when it stops early the next key is not a column |
| Progression.RunIsUnique | corona_utils.py:427-434 | any list meeting the run description is the loop's result, so the progression stops at the first missing day even when later days have columns |
| Progression.RunReadsDay | corona_utils.py:428-432 | entry i of a progression is the country's cell under the key of day start+i |
| Progression.RunDays | corona_utils.py:427-434 | every day a progression covers has a column; a progression shorter than the budget ends at a day without one |
| Progression.RunLength | corona_utils.py:427-434 | a progression is as long as the stretch of days with columns from its start, cut at the budget |
| Progression.CountryProgression | corona_utils.py:424-435 | an absent country fails with "country not found"; otherwise the result is the run of its first row from its start under the budget |
| Progression.Progressions | corona_utils.py:595-604 | every profile is walked in order; the result succeeds exactly when every country has a row; a failure names the first country without one |
| Progression.MaxLength | corona_utils.py:617 | the longest list's length: no list is longer, and some list is that long |
| Progression.Pad | corona_utils.py:617 | a padded column keeps the list's values at their index, and every later position holds the missing marker, never 0 |
| Progression.ValuesOfPad | corona_utils.py:617 | the values present in a padded column are exactly the list it was padded from |
| Progression.Align | corona_utils.py:617-619 | one column per country, in order, each as long as the longest list and labelled 1..longest; cell i holds the list's i-th value while the list lasts and is missing after it; the values present in a column are exactly its list, and with at least one country some column has no missing cell |
| Progression.CountriesProgression | corona_utils.py:584-620 | the whole table: the failure cases; labels 1..n with n at most the budget (days since Colombia's start + 14), and no rows without countries; each column is its country's run from its own start, followed by missing markers |
| Progression.DayBudget | corona_utils.py:427 | the budget `days since the first case + 14`, counted from the reference start, reaches two weeks past the table's last column day |
| CitySeries.DateColumnSelects | corona_utils.py:377-379 | the filtered date column holds the date of every record of the city in the population (no death date for cases, a death date for deaths), and each of its cells is the date of such a record |
| CitySeries.CasesAndDeathsPartition | corona_utils.py:377-378 | a city's dated records split exactly between its cases (no death date) and its deaths (a death date) |
| CitySeries.BeforeIsStrictTotal | corona_utils.py:380 | text order and chronological order of dates are both strict total orders |
| CitySeries.ChronoKeyInjective | corona_utils.py:524-525 | rewriting "dd/mm/yyyy …" year first loses nothing: distinct dates keep distinct keys |
| CitySeries.InsertByKey | corona_utils.py:380 | inserting a row with a new date into rows sorted by date keeps them strictly ascending |
| CitySeries.SortByKeyOrdered | corona_utils.py:380 | sorting rows with distinct dates by date leaves them strictly ascending |
| CitySeries.PerDay | corona_utils.py:377-380 | each date of the city's records in the population appears once, with the number of records notified on it; rows ascend by date; counts total the dated records |
| CitySeries.CityPerDay | corona_utils.py:363-381 | `__city_cases_per_day`/`__city_deaths_per_day` as written: the same frequency table, sorted by the date text |
| CitySeries.RunningSum | corona_utils.py:398 | `cumsum` keeps the dates, its differences are the per-day counts, it never decreases over non-negative counts, and its last value is the total |
| CitySeries.RunningTotals | corona_utils.py:398 | the prefix sums of counts have the counts as differences, never decrease over non-negative counts, and end at the total |
| CitySeries.CityProgressionAsWritten | corona_utils.py:383-399 | the running totals exactly as the code sums them, in text order of the dates: same dates as the per-day table, whose counts are its differences |
| CitySeries.TextOrderProgressionFalls | corona_utils.py:398 | two Cali cases notified 15/03/2020 and 02/04/2020: the as-written progression gives the earlier date the larger total |
| CitySeries.CityProgression | corona_utils.py:383-399 | the running totals summed in date order: exactly the dates of the city's per-day table, ascending by date, a later date never has a smaller total, the daily counts are its differences, and the last total is the city's number of dated records |
| CitySeries.LaterNotSmaller | corona_utils.py:398 | with rows ascending by date and non-decreasing totals, the later of any two dates has the larger or equal total |
| CaseTallies.CityOccurrences | corona_utils.py:377 | a city's count in the city column is its number of records |
| CaseTallies.CityRowBoundsSeries | corona_utils.py:261 | a city's row in the city table counts its records; its cases and deaths per-day tables together count at most that many, and exactly that many when all its records are dated |
| CaseTallies.CasesPerCity | corona_utils.py:252-263 | one row per distinct city with its number of records, most frequent first, counts totalling the records that have a city |
| CaseTallies.CasesPerAge | corona_utils.py:265-278 | one row per distinct raw age with its number of records, most frequent first, counts totalling the records that have an age |
| Tallies.TallyFacts | corona_utils.py:261 | a frequency table has distinct values, each counted at its multiplicity (so at least 1), and has a row for every value that occurs |
| Tallies.Bump | corona_utils.py:261 | counting one more occurrence raises the value's row by one, or appends (value, 1) when the value is new |
| Tallies.BumpTally | corona_utils.py:261 | counting one more occurrence keeps a frequency table exact |
| Tallies.BumpTotal | corona_utils.py:261 | counting one more occurrence raises the total by one |
| Tallies.FirstSeen | corona_utils.py:261 | the rows in first-seen order form a frequency table whose counts total the number of values |
| Tallies.FirstIndex | corona_utils.py:261 | the first position holding a value: it holds the value, and no earlier position does |
| Tallies.InsertBy | corona_utils.py:261 | inserting a row adds exactly that row and its count |
| Tallies.SortBy | corona_utils.py:261 | sorting permutes the rows and keeps the total |
| Tallies.PermutedTally | corona_utils.py:261 | any reordering of a frequency table is a frequency table of the same values |
| Tallies.InsertByCount | corona_utils.py:261 | inserting into rows ordered by non-increasing count keeps them so |
| Tallies.SortByCountOrdered | corona_utils.py:261 | sorting by count leaves the counts non-increasing |
| Tallies.ValueCounts | corona_utils.py:275 | `value_counts`: a frequency table of the present values, most frequent first, counts totalling the present values |
| BlankDays.CountOn | corona_utils.py:206 | a day the series has no row for reads 0; a day it has a row for reads that row's count |
| BlankDays.Dense | corona_utils.py:205-206 | n consecutive days from the first; a day with a row of the series keeps that row's count, a day without one reads 0 |
| BlankDays.FillBlankDays | corona_utils.py:187-206 | an empty series and a repeated day are errors; otherwise one row per day from the first row's day to the last row's day, rows of the range kept at their day, absent days 0 |
| BlankDays.DropZerosKeeps | corona_utils.py:205-206 | dropping the zero rows keeps exactly the non-zero rows of the series: every row left is a row of it with a non-zero count, and every such row is left |
| BlankDays.FillThenDrop | corona_utils.py:203-206 | filling a day-ordered series without zero rows and then dropping the zero rows gives the series back |
| BlankDays.DenseDrop | corona_utils.py:205-206 | over any range holding every row, the filled series minus its zero rows is the series |
| Text.Strip | corona_utils.py:160 | `str.strip()` returns a slice with whitespace on both sides cut off, and starts and ends with a non-space character |
| Text.StripPadded | corona_utils.py:160 | stripping whitespace padding around a text with non-space ends gives that text |
| Text.Split | corona_utils.py:158 | `split("-")` gives at least one piece, and no piece contains the separator |
| Text.JoinSplit | corona_utils.py:158 | joining the pieces of a split on the separator gives back the original text |
| Text.SplitJoin | corona_utils.py:158 | splitting a join of separator-free pieces gives back the pieces |
| Text.SplitCount | corona_utils.py:158 | a split has one more piece than the text has separators |
| Text.LexLessFirstDifference | corona_utils.py:380 | the string order behind `sort_index`: a < b exactly when at the first position where they differ a has the smaller character, or a is a proper prefix of b |
| Text.LexLessTrichotomy | corona_utils.py:380 | any two strings are equal or ordered one way, never both ways |
| Text.LexLessTransitive | corona_utils.py:380 | the string order is transitive |
| Text.LexLessAtDifference | corona_utils.py:380 | strings that agree up to a position are ordered by their characters there |
| Origins.Increment | corona_utils.py:137-140 | `d[k] += 1` or `d[k] = 1`: the key's count goes up by one, every other count is unchanged, the key is added, and counts stay positive |
| Origins.IncrementAll | corona_utils.py:159-164 | every name is counted as often as it occurs in the list, and nothing else changes |
| Origins.PlaceNames | corona_utils.py:158-160 | one name per piece of the split on '-', each stripped and transliterated, one more than the hyphens |
| Origins.ResolveNan | corona_utils.py:136-140 | a missing origin raises only "Nan" by one |
| Origins.AddPossibleLocations | corona_utils.py:142-164 | each listed name is counted once more per occurrence in the list; other names are unchanged |
| Origins.AddLocation | corona_utils.py:166-185 | the transliterated, unstripped name is counted once more; others unchanged |
| Origins.ResolveLocation | corona_utils.py:109-134 | exactly one branch fires: missing → possible "Nan"; with '-' → possible per name; otherwise → definite; the other table is unchanged |
| Origins.GetLocations | corona_utils.py:90-107 | both tables count every name exactly as often as the origins contribute it, and hold no zero-count key |
| Origins.TableSizes | corona_utils.py:103-107 | the definite table counts one case per single origin; the possible table counts one per missing origin plus one per listed name |
| Calendar.KeyFieldValues | corona_utils.py:222-223 | `strftime("%-m/%-d/%y")`: three slash-separated fields of digits, month and day of one or two digits with no leading zero and the year of exactly two, reading back as the month, the day and the year within its century |
| Calendar.CivilOf | corona_utils.py:222 | each day ordinal is a valid Gregorian date, and converting that date back gives the ordinal |
| Calendar.CivilOfDayOf | corona_utils.py:222 | converting a valid date to its ordinal and back gives the date |
| Calendar.DayOfInjective | corona_utils.py:222 | distinct valid dates have distinct ordinals |
| Calendar.ParseNatText | corona_utils.py:223 | reading back an unpadded decimal numeral gives the number |
| Calendar.KeyInjective | corona_utils.py:223 | two days less than 36499 days apart with the same `%-m/%-d/%y` key are the same day |
| Calendar.KeysDiffer | corona_utils.py:223 | days less than 36499 days apart have distinct keys |
| Calendar.WindowKeysDistinct | corona_utils.py:221-223 | the keys of a loop's window of fewer than 36499 days are distinct, so each dictionary write adds a new date |
| Calendar.CenturyYear | corona_utils.py:347-348 | `%y` reads 69–99 as 1969–1999 and 00–68 as 2000–2068 |
| Calendar.ParseKey | corona_utils.py:347-348 | a header parses only as a valid date, with a year between 1969 and 2068 |
| Calendar.ParseKeyOfKey | corona_utils.py:347-348 | reading back the key of a day of 1969–2068 gives the day |
| Calendar.DaysSinceFirst | corona_utils.py:339-361 | the days since the first case or death exist exactly when the last header parses; added to the first day they give the header's day |
| Calendar.DaysSinceKey | corona_utils.py:339-349 | when the last header is the key of a day of 1969–2068, the days since the first case are that day minus the first day |
| Scenarios.ColombiaKeys | variables/first_dates.py:17 | Colombia's first case day 2020-03-06 and the two days after it are keyed "3/6/20", "3/7/20", "3/8/20" |
| Scenarios.ColombiaTotal | corona_utils.py:299-317 | from 3/6/20 to a last column of 3/8/20, the cumulative cells [1, 3, 3] give the total series [1, 3, 3] |
| Scenarios.ColombiaNew | corona_utils.py:208-228 | the same table gives the new-cases series [1, 2, 0] |
| Scenarios.OriginTallies | corona_utils.py:90-185 | origins "Italia - España", missing and "Madrid" give definite {Madrid: 1} and possible {Italia: 1, Espana: 1, Nan: 1} |
| Scenarios.ShortAndLongProgression | corona_utils.py:584-620 | under a budget of 20 days, a country with 15 days of columns gets 15 readings and 5 missing markers beside one with 20 readings |

## Left out

- Reading the CSV files and renaming their columns (corona_utils.py:72-88). This is file input, so the tables and the line list are parameters. A wide table is its `Country/Region` column plus a map from header to cells. Its `lastDay` is the day named by its last header, which `Calendar.DaysSinceFirst` reads.
- The per-city writers (corona_utils.py:512-582). They parse the date text, re-sort chronologically and write CSV files. The progression writers (corona_utils.py:530-546, 566-582) re-sort the running totals that were summed in text order, so what they write is `CitySeries.CityProgressionAsWritten` put in date order, whose totals can fall (see Findings). `CitySeries.CityProgression` is the series they evidently mean to write, not the one they write.
- `unidecode` is a foreign library. It is the parameter `fold`, about which nothing is assumed.
- The NaN test `isinstance(location, float)` becomes `None`. numpy and pandas mechanics (`.item()`, dtypes, `np.array`) are not modelled. Counts are unbounded integers; the source's int64 never overflows on these counts.
- `origins_and_possible` (corona_utils.py:292-297) only converts the two dictionaries to two-column frames. The model's tables are maps, which hold the contents but not the insertion order of the rows.
- The frames built from the dictionaries (`pd.DataFrame(date_cases.items())`) are the entry lists themselves.
- Tallies.ValueCounts: the contract does not state the tie order. pandas does not promise one. The model breaks ties by first appearance, which is what a stable sort of the first-seen table gives.
- CountrySeries.NewPerDay: the entry-by-entry facts assume the window's keys are distinct, as the dictionary would otherwise merge days. `Calendar.WindowKeysDistinct` discharges this for any window under 36499 days, which is 99.9 years.
- Calendar.KeyInjective: holds only for days under 36499 days apart. A two-digit year repeats every century, so the key is not injective on all days.
- Calendar.ParseKey: accepts one- or two-digit month and day fields and exactly two year digits. `strptime`'s `%d` also accepts a space-padded day (" 6", as in "3/ 6/20"), which the model rejects; the tables never spell a day that way.
- CitySeries.ChronoKey: assumes the date text starts with a zero-padded "dd/mm/yyyy" and compares what follows, the time of day, as text. The hour may be written unpadded ("0:00:00", which `%H` accepts), so two times of one day with hours of different widths ("9:00:00" and "10:00:00") are ordered as text, not by time. The chronological order is therefore promised only between different days, or between times whose hours have the same width.
- The start days of the countries (variables/first_dates.py) are parameters. Only Colombia's first case day appears, in the worked examples.
- `corona.py` and `download_cases.py` are the driver script and the downloader. They are not part of this model.

## Findings

| source | as written | input that shows it | evidently intended | confidence | as-written member | corrected member |
|---|---|---|---|---|---|---|
| corona_utils.py:377-380 | the notification date is never parsed before `value_counts().sort_index()` and `cumsum()`, so the running totals are summed in text order of "dd/mm/yyyy …" | two Cali cases notified "15/03/2020 0:00:00" and "02/04/2020 0:00:00": the total for 2 April is 1 and for 15 March is 2, and once the writer sorts by date the cumulative count falls from 2 to 1 | running totals summed in date order, never falling | medium; not executed | CitySeries.CityProgressionAsWritten, CitySeries.TextOrderProgressionFalls | CitySeries.CityProgression |
