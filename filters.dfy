/** The filter step of `load_data` and the input checks of `get_filters`
    that establish its preconditions. Reading the city's CSV file and
    deriving month, weekday and hour from `Start Time` happen before this
    step: the loaded table is a parameter. */
module Filters {
  import opened Strings
  import opened Trips

  /** The city -> data file mapping; its keys are the accepted city names. */
  const CityData: map<string, string> := map[
    "chicago" := "chicago.csv",
    "new york city" := "new_york_city.csv",
    "washington" := "washington.csv"]

  /** The months the data covers, in calendar order. */
  const MonthNames: seq<string> := ["january", "february", "march", "april", "may", "june"]

  const WeekdayNames: seq<string> := ["monday", "tuesday", "wednesday", "thursday", "friday", "saturday", "sunday"]

  /** The weekday names as pandas' `day_name()` spells them. */
  const CanonicalDays: seq<string> := ["Monday", "Tuesday", "Wednesday", "Thursday", "Friday", "Saturday", "Sunday"]

  // The answers `get_filters` accepts, after lower-casing the raw input.

  predicate IsCityChoice(raw: string)
  {
    Lower(raw) in CityData
  }

  predicate IsMonthChoice(raw: string)
  {
    Lower(raw) in MonthNames + ["all"]
  }

  predicate IsDayChoice(raw: string)
  {
    Lower(raw) in WeekdayNames + ["all"]
  }

  /** Python's `list.index`: the position of the first occurrence. */
  function IndexOf(xs: seq<string>, x: string): (i: nat)
    requires x in xs
    ensures i < |xs| && xs[i] == x
    ensures x !in xs[..i]
  {
    if xs[0] == x then 0
    else
      assert xs == [xs[0]] + xs[1..];
      var j := IndexOf(xs[1..], x);
      assert xs[..j + 1] == [xs[0]] + xs[1..][..j];
      j + 1
  }

  /** The month number a month name filters on (line 65). */
  function MonthIndex(month: string): (k: int)
    requires month in MonthNames
    ensures 1 <= k <= 6
    ensures MonthNames[k - 1] == month
  {
    IndexOf(MonthNames, month) + 1
  }

  /** Boolean-mask selection `df[mask]`: the rows for which `keep` holds, in
      their original order. */
  function Select(rows: seq<Row>, keep: Row -> bool): (r: seq<Row>)
    ensures forall x :: multiset(r)[x] == if keep(x) then multiset(rows)[x] else 0
    ensures forall i :: 0 <= i < |r| ==> keep(r[i])
    ensures IsSubsequence(r, rows)
    decreases |rows|
  {
    if rows == [] then []
    else
      var rest := Select(rows[1..], keep);
      assert rows == [rows[0]] + rows[1..];
      if keep(rows[0]) then
        assert ([rows[0]] + rest)[1..] == rest;
        [rows[0]] + rest
      else
        assert rest != [] ==> rest[0] != rows[0];
        rest
  }

  /** `a` can be obtained from `b` by deleting elements. */
  ghost predicate IsSubsequence(a: seq<Row>, b: seq<Row>)
    decreases |b|
  {
    if b == [] then a == []
    else (a != [] && a[0] == b[0] && IsSubsequence(a[1..], b[1..])) || IsSubsequence(a, b[1..])
  }

  function MonthIs(k: int): Row -> bool
  {
    (r: Row) => r.month as int == k
  }

  function DayIs(name: string): Row -> bool
  {
    (r: Row) => r.dayName == name
  }

  /** The filter condition `load_data` applies, row by row. */
  predicate Matches(r: Row, month: string, day: string)
    requires month == "all" || month in MonthNames
  {
    && (month == "all" || r.month as int == MonthIndex(month))
    && (day == "all" || r.dayName == Title(day))
  }

  /** `load_data` after the file is read: narrow by month number unless the
      month is "all", then by title-cased weekday unless the day is "all". */
  function LoadData(t: Table, month: string, day: string): (r: Table)
    requires month == "all" || month in MonthNames
    ensures r.hasGender == t.hasGender && r.hasBirthYear == t.hasBirthYear
    ensures forall x :: multiset(r.rows)[x] == if Matches(x, month, day) then multiset(t.rows)[x] else 0
    ensures forall i :: 0 <= i < |r.rows| ==> Matches(r.rows[i], month, day)
    ensures IsSubsequence(r.rows, t.rows)
    ensures month == "all" && day == "all" ==> r == t
  {
    var byMonth := if month == "all" then t.rows else Select(t.rows, MonthIs(MonthIndex(month)));
    var byDay := if day == "all" then byMonth else Select(byMonth, DayIs(Title(day)));
    if month == "all" && day == "all" then
      SubsequenceReflexive(t.rows);
      t
    else if month != "all" && day != "all" then
      SubsequenceTransitive(byDay, byMonth, t.rows);
      t.(rows := byDay)
    else
      t.(rows := byDay)
  }

  lemma {:induction false} SubsequenceReflexive(a: seq<Row>)
    ensures IsSubsequence(a, a)
    decreases |a|
  {
    if a != [] {
      SubsequenceReflexive(a[1..]);
    }
  }

  lemma {:induction false} SubsequenceTransitive(a: seq<Row>, b: seq<Row>, c: seq<Row>)
    requires IsSubsequence(a, b) && IsSubsequence(b, c)
    ensures IsSubsequence(a, c)
    decreases |c|
  {
    if c != [] {
      if IsSubsequence(b, c[1..]) {
        SubsequenceTransitive(a, b, c[1..]);
      } else if IsSubsequence(a, b[1..]) {
        SubsequenceTransitive(a, b[1..], c[1..]);
      } else {
        SubsequenceTransitive(a[1..], b[1..], c[1..]);
      }
    }
  }

  /** Selecting rows that all pass already changes nothing. */
  lemma {:induction false} SelectKeepsAll(rows: seq<Row>, keep: Row -> bool)
    requires forall i :: 0 <= i < |rows| ==> keep(rows[i])
    ensures Select(rows, keep) == rows
    decreases |rows|
  {
    if rows != [] {
      SelectKeepsAll(rows[1..], keep);
    }
  }

  /** Applying the same selection twice is the same as applying it once. */
  lemma SelectIdempotent(rows: seq<Row>, keep: Row -> bool)
    ensures Select(Select(rows, keep), keep) == Select(rows, keep)
  {
    SelectKeepsAll(Select(rows, keep), keep);
  }

  /** Two selections give the same rows in either order. */
  lemma {:induction false} SelectCommutes(rows: seq<Row>, p: Row -> bool, q: Row -> bool)
    ensures Select(Select(rows, p), q) == Select(Select(rows, q), p)
    decreases |rows|
  {
    if rows != [] {
      SelectCommutes(rows[1..], p, q);
    }
  }

  /** Filtering an already filtered table by the same month and day changes
      nothing. */
  lemma LoadDataIdempotent(t: Table, month: string, day: string)
    requires month == "all" || month in MonthNames
    ensures LoadData(LoadData(t, month, day), month, day) == LoadData(t, month, day)
  {
    var once := LoadData(t, month, day);
    if month != "all" {
      SelectKeepsAll(once.rows, MonthIs(MonthIndex(month)));
    }
    if day != "all" {
      var again := if month == "all" then once.rows else Select(once.rows, MonthIs(MonthIndex(month)));
      SelectKeepsAll(again, DayIs(Title(day)));
    }
  }

  /** Filtering by day first and month second gives the same table. */
  lemma FilterOrderIrrelevant(t: Table, month: string, day: string)
    requires month in MonthNames && day != "all"
    ensures LoadData(t, month, day).rows
         == Select(Select(t.rows, DayIs(Title(day))), MonthIs(MonthIndex(month)))
  {
    SelectCommutes(t.rows, MonthIs(MonthIndex(month)), DayIs(Title(day)));
  }

  /** An accepted month answer other than "all" is a month `load_data` can
      look up, and the lookup gives back the name. */
  lemma MonthChoiceIndexes(raw: string)
    requires IsMonthChoice(raw) && Lower(raw) != "all"
    ensures Lower(raw) in MonthNames
    ensures MonthNames[MonthIndex(Lower(raw)) - 1] == Lower(raw)
  {
  }

  /** Lower-case weekday names title-case to the names `day_name()` gives. */
  lemma WeekdaysTitleCase()
    ensures forall i :: 0 <= i < 7 ==> Title(WeekdayNames[i]) == CanonicalDays[i]
  {
    forall i | 0 <= i < 7
      ensures Title(WeekdayNames[i]) == CanonicalDays[i]
    {
      var d := WeekdayNames[i];
      assert d[1..] == CanonicalDays[i][1..];
      TitleOfLowerWord(d);
    }
  }

  /** An accepted weekday answer title-cases to a name `day_name()`
      produces, so the day filter compares against a real weekday. */
  lemma DayChoiceIsWeekday(raw: string)
    requires IsDayChoice(raw) && Lower(raw) != "all"
    ensures Title(Lower(raw)) in CanonicalDays
  {
    WeekdaysTitleCase();
    var d := Lower(raw);
    var i :| 0 <= i < 7 && WeekdayNames[i] == d;
    assert Title(d) == CanonicalDays[i];
  }
}
