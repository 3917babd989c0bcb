/** Calendar columns derived from the timestamp: `weekday` (Monday = 0),
    `weekday_name`, `is_weekend`, `hour` and the ISO 8601 `week`. */
module Features {
  import opened Calendar
  import opened Records

  datatype CalendarFeatures = CalendarFeatures(
    weekday: int, weekdayName: string, isWeekend: bool, hour: int, week: int)

  /** A record with its derived calendar columns appended. */
  datatype EnrichedRecord = EnrichedRecord(record: Record, features: CalendarFeatures)

  /** The five derived columns of one timestamp. */
  function Derive(t: Timestamp): (f: CalendarFeatures)
    ensures 0 <= f.weekday <= 6
    ensures DayOf(t) - f.weekday == 7 * ((DayOf(t) + 6) / 7) - 6
    ensures f.weekdayName == WeekdayNames[f.weekday]
    ensures f.isWeekend <==> f.weekdayName == "Saturday" || f.weekdayName == "Sunday"
    ensures f.isWeekend <==> f.weekday > 4
    ensures 0 <= f.hour <= 23
    ensures f.hour * 60 <= t % MinutesPerDay < f.hour * 60 + 60
  {
    var day := DayOf(t);
    var weekday := Weekday(day);
    CalendarFeatures(weekday, WeekdayName(day), weekday > 4, HourOf(t), IsoCalendar(day).week)
  }

  /** The `week` column is the ISO 8601 week number of the timestamp's day, and
      the `weekday` column plus one is its ISO weekday. */
  lemma DeriveWeek(t: Timestamp)
    ensures var f := Derive(t);
      && 1 <= f.week <= 53
      && IsIsoDate(DayOf(t), IsoCalendar(DayOf(t)).year, f.week, f.weekday + 1)
  {
    IsoWeekdayAgrees(DayOf(t));
  }

  /** Append the derived columns to every row, keeping the rows and their order. */
  function Enrich(rows: seq<Record>): (out: seq<EnrichedRecord>)
    ensures |out| == |rows|
    ensures forall i :: 0 <= i < |rows| ==> out[i].record == rows[i]
    ensures forall i :: 0 <= i < |rows| ==> out[i].features == Derive(rows[i].timestamp)
  {
    seq(|rows|, i requires 0 <= i < |rows| => EnrichedRecord(rows[i], Derive(rows[i].timestamp)))
  }
}
