/** The in-memory trip table the bikeshare tool works on: one row per trip,
    with the calendar fields already derived from the parsed start time. */
module Trips {

  type MonthNumber = m: int | 1 <= m <= 12 witness 1
  type HourOfDay = h: int | 0 <= h < 24

  /** One trip. `gender` and `birthYear` are meaningful only when the table
      has those columns. */
  datatype Row = Row(
    month: MonthNumber,
    dayName: string,
    hour: HourOfDay,
    startStation: string,
    endStation: string,
    duration: nat,
    userType: string,
    gender: string,
    birthYear: int)

  /** A loaded city data set. Whether the `Gender` and `Birth Year` columns
      exist is a property of the whole table. */
  datatype Table = Table(rows: seq<Row>, hasGender: bool, hasBirthYear: bool)

  // The columns of a table, as sequences parallel to its rows.

  function Months(rows: seq<Row>): seq<int>
  {
    seq(|rows|, i requires 0 <= i < |rows| => rows[i].month as int)
  }

  function DayNames(rows: seq<Row>): seq<string>
  {
    seq(|rows|, i requires 0 <= i < |rows| => rows[i].dayName)
  }

  function Hours(rows: seq<Row>): seq<int>
  {
    seq(|rows|, i requires 0 <= i < |rows| => rows[i].hour as int)
  }

  function StartStations(rows: seq<Row>): seq<string>
  {
    seq(|rows|, i requires 0 <= i < |rows| => rows[i].startStation)
  }

  function EndStations(rows: seq<Row>): seq<string>
  {
    seq(|rows|, i requires 0 <= i < |rows| => rows[i].endStation)
  }

  function UserTypes(rows: seq<Row>): seq<string>
  {
    seq(|rows|, i requires 0 <= i < |rows| => rows[i].userType)
  }

  function Genders(rows: seq<Row>): seq<string>
  {
    seq(|rows|, i requires 0 <= i < |rows| => rows[i].gender)
  }

  function BirthYears(rows: seq<Row>): seq<int>
  {
    seq(|rows|, i requires 0 <= i < |rows| => rows[i].birthYear)
  }

  /** The `Combined Stations` value of a row: start, " to ", end. */
  function TripKey(r: Row): (k: string)
    ensures |k| == |r.startStation| + 4 + |r.endStation|
    ensures k[..|r.startStation|] == r.startStation
    ensures k[|r.startStation|..|r.startStation| + 4] == " to "
    ensures k[|r.startStation| + 4..] == r.endStation
  {
    r.startStation + " to " + r.endStation
  }

  /** The `Combined Stations` column. */
  function TripKeys(rows: seq<Row>): seq<string>
  {
    seq(|rows|, i requires 0 <= i < |rows| => TripKey(rows[i]))
  }

  /** The combined key does not always tell trips apart: a station name that
      itself contains " to " lets two different station pairs share one key,
      and their trips are then counted together. */
  lemma TripKeyCollision(r1: Row, r2: Row)
    requires r1.startStation == "A to B" && r1.endStation == "C"
    requires r2.startStation == "A" && r2.endStation == "B to C"
    ensures r1.startStation != r2.startStation
    ensures TripKey(r1) == TripKey(r2)
  {
  }
}
