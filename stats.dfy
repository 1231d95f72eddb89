/** The statistics `time_stats`, `station_stats`, `trip_duration_stats` and
    `user_stats` report for a filtered table, and the five-row pages of
    `display_raw_data`. Printing and elapsed-time reporting are left out:
    each statistic is returned as a value. */
module Stats {
  import opened Strings
  import opened Frequency
  import opened Trips
  import opened Filters

  datatype Option<T> = None | Some(value: T)

  /** Python's `<` on integers, the order pandas sorts numeric modes by. */
  predicate IntLess(a: int, b: int) { a < b }

  lemma IntLessIsTotal()
    ensures StrictTotalOrder(IntLess)
  {
  }

  lemma StrLessIsTotal()
    ensures StrictTotalOrder(StrLess)
  {
    forall a: string
      ensures !StrLess(a, a)
    {
      StrLessIrreflexive(a);
    }
    forall a: string, b: string, c: string | StrLess(a, b) && StrLess(b, c)
      ensures StrLess(a, c)
    {
      StrLessTransitive(a, b, c);
    }
    forall a: string, b: string
      ensures a == b || StrLess(a, b) || StrLess(b, a)
    {
      StrLessConnected(a, b);
    }
  }

  // -----------------------------------------------------------------------
  // time_stats

  datatype TimeReport = TimeReport(commonMonth: int, commonDay: string, commonHour: int)

  /** Most common month, weekday and start hour of the trips. */
  function TimeStats(rows: seq<Row>): (r: TimeReport)
    requires |rows| > 0
    ensures IsMode(Months(rows), IntLess, r.commonMonth)
    ensures IsMode(DayNames(rows), StrLess, r.commonDay)
    ensures IsMode(Hours(rows), IntLess, r.commonHour)
    ensures 1 <= r.commonMonth <= 12 && 0 <= r.commonHour < 24
  {
    IntLessIsTotal();
    StrLessIsTotal();
    var month := Mode(Months(rows), IntLess);
    var hour := Mode(Hours(rows), IntLess);
    TimeReport(month, Mode(DayNames(rows), StrLess), hour)
  }

  // -----------------------------------------------------------------------
  // station_stats

  datatype StationReport = StationReport(commonStart: string, commonEnd: string, commonTrip: string)

  /** Most common start station, end station and start-to-end trip key. */
  function StationStats(rows: seq<Row>): (r: StationReport)
    requires |rows| > 0
    ensures IsMode(StartStations(rows), StrLess, r.commonStart)
    ensures IsMode(EndStations(rows), StrLess, r.commonEnd)
    ensures IsMode(TripKeys(rows), StrLess, r.commonTrip)
    ensures exists i :: 0 <= i < |rows| && TripKey(rows[i]) == r.commonTrip
  {
    StrLessIsTotal();
    var trip := Mode(TripKeys(rows), StrLess);
    StationReport(Mode(StartStations(rows), StrLess), Mode(EndStations(rows), StrLess), trip)
  }

  /** On a one-trip table every reported value is that trip's own. */
  lemma SingleTripStats(r: Row)
    ensures TimeStats([r]) == TimeReport(r.month as int, r.dayName, r.hour as int)
    ensures StationStats([r]) == StationReport(r.startStation, r.endStation, TripKey(r))
  {
  }

  // -----------------------------------------------------------------------
  // trip_duration_stats

  /** `df['Trip Duration'].sum()`. */
  function TotalDuration(rows: seq<Row>): (total: nat)
    ensures rows == [] ==> total == 0
    ensures forall i :: 0 <= i < |rows| ==> rows[i].duration <= total
    decreases |rows|
  {
    if rows == [] then 0
    else
      var rest := TotalDuration(rows[1..]);
      assert forall i :: 1 <= i < |rows| ==> rows[i] == rows[1..][i - 1];
      rows[0].duration + rest
  }

  lemma {:induction false} TotalDurationAppend(a: seq<Row>, b: seq<Row>)
    ensures TotalDuration(a + b) == TotalDuration(a) + TotalDuration(b)
    decreases |a|
  {
    if a == [] {
      assert a + b == b;
    } else {
      assert (a + b)[1..] == a[1..] + b;
      TotalDurationAppend(a[1..], b);
    }
  }

  function Not(keep: Row -> bool): Row -> bool
  {
    (r: Row) => !keep(r)
  }

  /** A filter splits the total duration between the rows it keeps and the
      rows it drops. */
  lemma {:induction false} TotalDurationSplits(rows: seq<Row>, keep: Row -> bool)
    ensures TotalDuration(rows) == TotalDuration(Select(rows, keep)) + TotalDuration(Select(rows, Not(keep)))
    decreases |rows|
  {
    if rows != [] {
      TotalDurationSplits(rows[1..], keep);
      var kept := Select(rows[1..], keep);
      var dropped := Select(rows[1..], Not(keep));
      if keep(rows[0]) {
        assert ([rows[0]] + kept)[1..] == kept;
      } else {
        assert ([rows[0]] + dropped)[1..] == dropped;
      }
    }
  }

  datatype DurationReport = DurationReport(total: nat, count: nat, mean: Option<real>)

  /** Total and mean trip duration. pandas' mean of an empty column is NaN,
      reported here as `None`; the mean itself is exact, not floating point. */
  function DurationStats(rows: seq<Row>): (r: DurationReport)
    ensures r.total == TotalDuration(rows) && r.count == |rows|
    ensures rows == [] ==> r.total == 0 && r.mean == None
    ensures rows != [] ==> r.mean.Some? && r.mean.value * (r.count as real) == r.total as real
    ensures rows != [] ==> 0.0 <= r.mean.value <= r.total as real
    ensures forall i :: 0 <= i < |rows| ==> rows[i].duration <= r.total
  {
    var total := TotalDuration(rows);
    if rows == [] then DurationReport(total, 0, None)
    else
      var n := |rows| as real;
      var m := total as real / n;
      assert m * n == total as real;
      assert m <= total as real by {
        assert m * n >= m * 1.0;
      }
      DurationReport(total, |rows|, Some(m))
  }

  // -----------------------------------------------------------------------
  // user_stats

  datatype BirthYearReport = BirthYearReport(earliest: int, latest: int, common: int)

  /** Earliest, most recent and most common birth year of a non-empty column. */
  function BirthYearStats(years: seq<int>): (r: BirthYearReport)
    requires |years| > 0
    ensures r.earliest in years && r.latest in years
    ensures forall y :: y in years ==> r.earliest <= y <= r.latest
    ensures IsMode(years, IntLess, r.common)
    ensures r.earliest <= r.common <= r.latest
  {
    IntLessIsTotal();
    BirthYearReport(Min(years), Max(years), Mode(years, IntLess))
  }

  datatype UserReport = UserReport(
    userTypes: seq<Entry<string>>,
    genders: Option<seq<Entry<string>>>,
    birthYears: Option<BirthYearReport>)

  /** User-type counts always; gender counts and birth-year figures only for
      tables that have those columns. With a birth-year column the table
      must have rows: `min()` of an empty column is NaN and `int()` of it
      fails. */
  function UserStats(t: Table): (r: UserReport)
    requires t.hasBirthYear ==> |t.rows| > 0
    ensures IsValueCounts(UserTypes(t.rows), r.userTypes)
    ensures r.genders.Some? <==> t.hasGender
    ensures t.hasGender ==> IsValueCounts(Genders(t.rows), r.genders.value)
    ensures r.birthYears.Some? <==> t.hasBirthYear
    ensures t.hasBirthYear ==>
      var b := r.birthYears.value;
      && b.earliest <= b.common <= b.latest
      && b.earliest in BirthYears(t.rows) && b.latest in BirthYears(t.rows)
      && (forall y :: y in BirthYears(t.rows) ==> b.earliest <= y <= b.latest)
      && IsMode(BirthYears(t.rows), IntLess, b.common)
  {
    var genders := if t.hasGender then Some(ValueCounts(Genders(t.rows))) else None;
    var years := if t.hasBirthYear then Some(BirthYearStats(BirthYears(t.rows))) else None;
    UserReport(ValueCounts(UserTypes(t.rows)), genders, years)
  }

  // -----------------------------------------------------------------------
  // display_raw_data

  const PageSize: nat := 5

  /** `df.iloc[start:start + 5]`: up to five rows from `start` on; empty
      once `start` is past the end. */
  function RawPage(rows: seq<Row>, start: nat): (p: seq<Row>)
    ensures |p| <= PageSize
    ensures start < |rows| ==> |p| == if start + PageSize <= |rows| then PageSize else |rows| - start
    ensures start >= |rows| ==> p == []
    ensures forall i :: 0 <= i < |p| ==> start + i < |rows| && p[i] == rows[start + i]
  {
    if start >= |rows| then []
    else if start + PageSize >= |rows| then rows[start..]
    else rows[start..start + PageSize]
  }

  /** Everything shown after `k` pages, the offset advancing by five. */
  function Shown(rows: seq<Row>, k: nat): seq<Row>
  {
    if k == 0 then [] else Shown(rows, k - 1) + RawPage(rows, PageSize * (k - 1))
  }

  /** Paging through a table shows its rows in order, each once: after `k`
      pages exactly the first 5k rows (all of them, if fewer). */
  lemma {:induction false} PagesCoverRows(rows: seq<Row>, k: nat)
    ensures Shown(rows, k) == rows[..if PageSize * k <= |rows| then PageSize * k else |rows|]
  {
    if k > 0 {
      PagesCoverRows(rows, k - 1);
      var p := RawPage(rows, PageSize * (k - 1));
      var a := if PageSize * (k - 1) <= |rows| then PageSize * (k - 1) else |rows|;
      var b := if PageSize * k <= |rows| then PageSize * k else |rows|;
      assert rows[..b] == rows[..a] + rows[a..b];
      assert p == rows[a..b];
    }
  }

  // -----------------------------------------------------------------------
  // A worked example: two January trips from A to B at 08:00 and 08:05.

  function ExampleRows(): seq<Row>
  {
    [Row(1, "Sunday", 8, "A", "B", 300, "Subscriber", "", 0),
     Row(1, "Sunday", 8, "A", "B", 600, "Customer", "", 0)]
  }

  lemma ExampleJanuaryKeepsBoth(t: Table)
    requires t.rows == ExampleRows()
    ensures LoadData(t, "january", "all") == t
  {
  }

  lemma ExampleFebruaryIsEmpty(t: Table)
    requires t.rows == ExampleRows()
    ensures LoadData(t, "february", "all").rows == []
    ensures DurationStats(LoadData(t, "february", "all").rows) == DurationReport(0, 0, None)
  {
  }

  lemma ExampleTime()
    ensures TimeStats(ExampleRows()) == TimeReport(1, "Sunday", 8)
  {
  }

  lemma ExampleStations()
    ensures StationStats(ExampleRows()) == StationReport("A", "B", "A to B")
  {
  }

  lemma ExampleDuration()
    ensures DurationStats(ExampleRows()) == DurationReport(900, 2, Some(450.0))
  {
  }

  lemma ExampleUserTypes()
    ensures UserStats(Table(ExampleRows(), false, false)).userTypes
         == [Entry("Subscriber", 1), Entry("Customer", 1)]
  {
    var col := UserTypes(ExampleRows());
    assert col == ["Subscriber", "Customer"];
    assert col[..1] == ["Subscriber"];
    assert Distinct(col[..1]) == ["Subscriber"] by {
      assert col[..1][..0] == [];
    }
    assert Distinct(col) == col;
    assert multiset(col)["Subscriber"] == 1 && multiset(col)["Customer"] == 1;
    var es := Tally(col, col);
    assert es == [Entry("Subscriber", 1), Entry("Customer", 1)];
    assert es[1..] == [Entry("Customer", 1)];
    assert SortByCount(es[1..]) == es[1..] by {
      assert es[1..][1..] == [];
    }
  }
}
