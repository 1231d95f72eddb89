# Bikeshare trip statistics — a Dafny model

The bikeshare tool loads one city's trip records into a pandas DataFrame,
keeps the trips of one month and/or one weekday, and reports descriptive
statistics: the most common month, weekday and start hour; the most common
start station, end station and start-to-end trip; the total and mean trip
duration; the counts of user types and genders; and the earliest, latest
and most common birth year. This project models that filter-and-aggregate
pipeline as pure functions over a sequence of trip rows and proves what
each step reports.

Modules, one file each:

- `Strings` (`strings.dfy`): Python's `str.lower()`, `str.title()` and the
  ordering of `str` values, for ASCII text.
- `Frequency` (`frequency.dfy`): pandas column statistics — `mode()[0]`,
  `value_counts()`, `min()`, `max()` — generic over the column type.
- `Trips` (`trips.dfy`): the trip row, the table with its optional
  `Gender` / `Birth Year` columns, the column projections and the
  `Combined Stations` trip key.
- `Filters` (`filters.dfy`): the month and day filter of `load_data` and the
  answers `get_filters` accepts.
- `Stats` (`stats.dfy`): `time_stats`, `station_stats`,
  `trip_duration_stats`, `user_stats`, the five-row pages of
  `display_raw_data`, and the two-trip worked example.

Design decisions:

- `mode()[0]` is the most frequent value; pandas returns tied modes sorted,
  so the smallest tied value is reported. "Smallest" is Python's `<`: on
  integers for month, hour and birth year, code-point lexicographic order on
  strings for weekday, stations and trips. `Frequency.Mode` is generic in
  that order and requires it to be a strict total order; `Stats` proves this
  for both orders it uses.
- `value_counts()` lists each distinct value once with its count, most
  frequent first. The model orders equal counts by first occurrence (a
  stable sort of the values in order of appearance).
- Column presence is a flag of the table (`hasGender`, `hasBirthYear`), not
  of the row.
- The table the filter receives is a parameter: reading the CSV file and
  deriving `Month`, `Day of Week` and `Hour` from `Start Time` happen
  before it.
- Empty tables follow the code, not the wish that every statistic tolerate
  zero rows: `mode()[0]` on an empty column fails, and so does `int()` of
  the NaN that `min()` gives for an empty birth-year column. So `TimeStats`
  and `StationStats` require rows, and `UserStats` requires rows when the
  table has a birth-year column. Value counts and the duration total do
  handle an empty table, and the model says what they give.
- The trip key is the string `start + " to " + end`, as in the code. A
  station name containing " to " makes two different station pairs share a
  key (`Trips.TripKeyCollision`); the model keeps the code's behaviour.

## Model

| member | source | states |
|---|---|---|
| Strings.Lower | bikeshare.py:23 | lower-casing keeps the length, leaves no upper-case letter and changes only the case of each character |
| Strings.TitleFrom | bikeshare.py:69 | title-casing keeps the length and changes only case; every character that starts a word (first, or after a non-letter) is not lower-case, and every character after a letter is not upper-case, so each character of the result is fixed |
| Strings.TitleOfLowerWord | bikeshare.py:69 | `title()` of an all-lower-case word upper-cases its first letter and keeps the rest |
| Strings.StrLessIrreflexive | bikeshare.py:81 | no string sorts before itself |
| Strings.StrLessTransitive | bikeshare.py:81 | string order is transitive |
| Strings.StrLessConnected | bikeshare.py:81 | of two different strings one sorts before the other |
| Frequency.Leader | bikeshare.py:78 | the running mode candidate over a prefix is in the prefix, at least as frequent as every value there, and no equally frequent value there sorts before it |
| Frequency.Mode | bikeshare.py:78 | `mode()[0]` is a value of the column that no value outnumbers and no equally frequent value sorts before; it is the only value with that property |
| Frequency.Min | bikeshare.py:142 | the minimum is a value of the column and no value is smaller |
| Frequency.Max | bikeshare.py:143 | the maximum is a value of the column and no value is larger |
| Frequency.Distinct | bikeshare.py:130 | the distinct values are exactly the column's values, each once |
| Frequency.Insert | bikeshare.py:130 | inserting an entry into a list sorted by descending count keeps it sorted, adds exactly that entry and adds its count to the sum |
| Frequency.SortByCount | bikeshare.py:130 | the sort yields a permutation in descending count order with the same count sum |
| Frequency.ValueCounts | bikeshare.py:130 | every listed value occurs in the column with its listed count, every column value is listed, none twice, counts descend, and counts sum to the row count |
| Frequency.TallyCountsEveryRow | bikeshare.py:130 | the occurrence counts of the distinct values add up to the number of rows |
| Frequency.TallyOneMore | bikeshare.py:130 | one more row raises the total tally by one exactly when its value is among those tallied |
| Frequency.SumCountsAppend | bikeshare.py:130 | proof helper for `ValueCounts`: the count sum of two concatenated tallies is the sum of their count sums |
| Frequency.UniqueOnce | bikeshare.py:130 | proof helper for `ValueCounts`: a list without repeats holds each entry at most once as a multiset |
| Frequency.RepeatedTwice | bikeshare.py:130 | proof helper for `ValueCounts`: an entry at two positions has multiplicity at least two |
| Trips.TripKey | bikeshare.py:102 | the trip key is the start station, then " to ", then the end station, each recoverable by position |
| Trips.TripKeyCollision | bikeshare.py:102-103 | two trips with different start stations can have the same trip key |
| Filters.IndexOf | bikeshare.py:65 | `list.index` returns the position of the first occurrence |
| Filters.MonthIndex | bikeshare.py:65 | a month name maps to a number from 1 to 6 whose list entry is that name |
| Filters.Select | bikeshare.py:66 | a boolean mask keeps each passing row as often as it occurs and no other row, in the original order |
| Filters.LoadData | bikeshare.py:64-71 | the result holds exactly the rows matching the month number and title-cased weekday (each "all" disables its test), as an order-preserving subsequence; with "all"/"all" the table is unchanged |
| Filters.SubsequenceReflexive | bikeshare.py:64-71 | proof helper for `LoadData`: every table is a subsequence of itself |
| Filters.SubsequenceTransitive | bikeshare.py:64-71 | proof helper for `LoadData`: a subsequence of a subsequence is a subsequence |
| Filters.SelectKeepsAll | bikeshare.py:66 | a mask every row passes changes nothing |
| Filters.SelectIdempotent | bikeshare.py:66 | applying a mask twice is applying it once |
| Filters.SelectCommutes | bikeshare.py:64-69 | two masks give the same rows in either order |
| Filters.LoadDataIdempotent | bikeshare.py:64-71 | filtering a filtered table again by the same month and day changes nothing |
| Filters.FilterOrderIrrelevant | bikeshare.py:64-69 | filtering by day first and month second gives the same rows |
| Filters.MonthChoiceIndexes | bikeshare.py:32 | an accepted month answer other than "all" is in the month list, so `.index` succeeds and gives back the name |
| Filters.WeekdaysTitleCase | bikeshare.py:69 | each accepted lower-case weekday title-cases to the matching `day_name()` spelling |
| Filters.DayChoiceIsWeekday | bikeshare.py:40 | an accepted day answer other than "all" title-cases to a real weekday name |
| Stats.IntLessIsTotal | bikeshare.py:78 | integer `<` is a strict total order |
| Stats.StrLessIsTotal | bikeshare.py:81 | string order is a strict total order |
| Stats.TimeStats | bikeshare.py:78-85 | the reported month, weekday and hour are the modes of their columns; month is 1..12 and hour 0..23 |
| Stats.StationStats | bikeshare.py:96-103 | the reported start, end and trip are the modes of their columns, and the trip is the key of some row |
| Stats.SingleTripStats | bikeshare.py:78-103 | on a one-trip table each reported value is that trip's own |
| Stats.TotalDuration | bikeshare.py:115 | the total is 0 for no rows and at least every single trip's duration |
| Stats.TotalDurationAppend | bikeshare.py:115 | the total of two tables together is the sum of their totals |
| Stats.TotalDurationSplits | bikeshare.py:115 | a filter splits the total between the rows it keeps and those it drops |
| Stats.DurationStats | bikeshare.py:115-118 | the total is the sum of the trip durations (`TotalDuration`) and the count the number of rows; no rows gives total 0 and no mean; otherwise mean times row count equals the total, and the mean lies between 0 and the total |
| Stats.BirthYearStats | bikeshare.py:141-148 | earliest and latest are column values bounding every birth year, the common year is the column's mode, and earliest ≤ common ≤ latest |
| Stats.UserStats | bikeshare.py:130-150 | user-type counts are the value counts of the column; gender counts and birth-year figures are present exactly when the column exists and then are its value counts and its min, max and mode (earliest and latest are values of the column bounding every birth year) |
| Stats.RawPage | bikeshare.py:163 | a page holds the rows from the offset on, each the row at its offset: five when that many remain, all remaining rows otherwise, none past the end |
| Stats.PagesCoverRows | bikeshare.py:158-164 | after k pages exactly the first 5k rows (or all) have been shown, in order |
| Stats.ExampleJanuaryKeepsBoth | bikeshare.py:64-66 | filtering two January trips by "january" keeps both |
| Stats.ExampleFebruaryIsEmpty | bikeshare.py:64-66 | filtering them by "february" leaves no rows, total 0 and no mean |
| Stats.ExampleTime | bikeshare.py:78-85 | their common month is 1, weekday Sunday, hour 8 |
| Stats.ExampleStations | bikeshare.py:96-103 | their common start is A, end B, trip "A to B" |
| Stats.ExampleDuration | bikeshare.py:115-118 | their durations 300 and 600 give total 900 and mean 450 |
| Stats.ExampleUserTypes | bikeshare.py:130 | their user types count as Subscriber 1, Customer 1 |

## Left out

- Reading the city's CSV file (`pd.read_csv`, line 58): file I/O; the loaded table is a parameter. `Filters.CityData` records the city-to-file mapping and `Filters.IsCityChoice` the accepted cities.
- Parsing `Start Time` and deriving month, weekday name and hour (`pd.to_datetime`, lines 60-62 and 84): a library call; these are fields of each row.
- The floating-point mean (line 118): `DurationStats` reports the exact rational mean, and NaN for an empty table as `None`.
- Missing values: pandas drops NaN in `mode()`, `value_counts()`, `min()` and `max()`; the model assumes the columns have none.
- `Birth Year` is a float column in pandas, printed through `int()`; the model uses integers.
- Case mapping outside ASCII in `lower()` and `title()`.
- `ValueCounts`: the order among values with equal counts is fixed by the model (first occurrence) but not stated in its contract; pandas versions differ on it.
- The interactive `input()` loops of `get_filters`, `display_raw_data` and `main`, all printing, and the `time.time()` elapsed-time reports: interactive I/O and wall-clock observation.
- The in-place column additions `df['Hour']` and `df['Combined Stations']` (lines 84, 102): the model computes those columns from the rows instead; they do not change the reported values.
