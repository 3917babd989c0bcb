/** The dashboard under src/ (src/app.py): a date-range and location filter
    without an empty-selection fallback, and the per-location and
    per-timestamp aggregates behind its charts. */
module DashboardSrc {
  import opened Calendar
  import opened Records
  import opened Seqs
  import opened GroupBy

  /** The mask of lines 27-31: day of the timestamp in [lo, hi] and location
      among those selected. */
  function Keep(lo: Date, hi: Date, selected: seq<Location>): Record -> bool {
    (r: Record) => && !DateBefore(DateOf(r.timestamp), lo)
                   && !DateBefore(hi, DateOf(r.timestamp))
                   && r.location in selected
  }

  /** `filtered_df`: the rows whose day lies in [lo, hi] and whose location was
      picked, in table order; nothing picked means nothing shown. */
  function Filtered(rows: seq<Record>, lo: Date, hi: Date, selected: seq<Location>): (out: seq<Record>)
    requires ValidDate(lo) && ValidDate(hi)
    ensures IsSubsequence(out, rows)
    ensures forall r :: r in out <==>
      && r in rows
      && (ToOrdinal(lo) - 1) * MinutesPerDay <= r.timestamp < ToOrdinal(hi) * MinutesPerDay
      && r.location in selected
    ensures forall r :: r in rows ==>
      multiset(out)[r] ==
        if (ToOrdinal(lo) - 1) * MinutesPerDay <= r.timestamp < ToOrdinal(hi) * MinutesPerDay && r.location in selected
        then multiset(rows)[r] else 0
  {
    FilterIsSubsequence(rows, Keep(lo, hi, selected));
    FilterMultiplicity(rows, Keep(lo, hi, selected));
    assert forall r :: r in rows ==>
      (Keep(lo, hi, selected)(r) <==>
        && (ToOrdinal(lo) - 1) * MinutesPerDay <= r.timestamp < ToOrdinal(hi) * MinutesPerDay
        && r.location in selected)
    by {
      forall r | r in rows {
        DayWindow(r.timestamp, lo, hi);
      }
    }
    Filter(rows, Keep(lo, hi, selected))
  }

  /** Unlike the other two dashboards, an empty multiselect shows no rows. */
  lemma EmptySelectionShowsNothing(rows: seq<Record>, lo: Date, hi: Date)
    requires ValidDate(lo) && ValidDate(hi)
    ensures Filtered(rows, lo, hi, []) == []
  {
    FilterNone(rows, Keep(lo, hi, []));
  }

  /** The location mask `isin(selected_locations)` alone. */
  function InSelection(selected: seq<Location>): Record -> bool {
    (r: Record) => r.location in selected
  }

  /** `location_data` (line 36): the filtered table masked once more by location. */
  function LocationData(filtered: seq<Record>, selected: seq<Location>): (out: seq<Record>)
    ensures IsSubsequence(out, filtered)
    ensures forall r :: r in out <==> r in filtered && r.location in selected
    ensures forall r :: r in filtered ==>
      multiset(out)[r] == if r.location in selected then multiset(filtered)[r] else 0
  {
    FilterIsSubsequence(filtered, InSelection(selected));
    FilterMultiplicity(filtered, InSelection(selected));
    Filter(filtered, InSelection(selected))
  }

  /** The second location mask is redundant: `location_data` is `filtered_df`. */
  lemma LocationDataIsFiltered(rows: seq<Record>, lo: Date, hi: Date, selected: seq<Location>)
    requires ValidDate(lo) && ValidDate(hi)
    ensures LocationData(Filtered(rows, lo, hi, selected), selected) == Filtered(rows, lo, hi, selected)
  {
    FilterKeepsAll(Filtered(rows, lo, hi, selected), InSelection(selected));
  }

  function LocationOf(r: Record): Location { r.location }
  function TimestampOf(r: Record): Timestamp { r.timestamp }
  function AvailableOf(r: Record): int { r.available }
  function CellOf(r: Record): (Timestamp, Location) { (r.timestamp, r.location) }

  /** Rows with no bicycle available. */
  function IsZero(r: Record): bool { r.available == 0 }

  /** Rows of location l with no bicycle available. */
  function ZeroAt(l: Location): Record -> bool {
    (r: Record) => r.available == 0 && r.location == l
  }

  /** `zeros_df` (line 46): for each location with at least one empty-station
      row, the number of such rows; locations that never ran empty get no bar. */
  function ZeroCounts(filtered: seq<Record>): (z: map<Location, nat>)
    ensures z.Keys == set r | r in filtered && r.available == 0 :: r.location
    ensures forall l :: l in z ==> z[l] == Count(filtered, ZeroAt(l)) && z[l] > 0
  {
    var zeros := Filter(filtered, IsZero);
    ZeroLocations(filtered);
    forall l | l in SizeBy(zeros, LocationOf)
      ensures Count(zeros, HasKey(LocationOf, l)) == Count(filtered, ZeroAt(l))
    {
      FilterTwice(filtered, IsZero, HasKey(LocationOf, l), ZeroAt(l));
    }
    SizeBy(zeros, LocationOf)
  }

  /** The locations of the empty-station rows. */
  lemma ZeroLocations(filtered: seq<Record>)
    ensures (set x | x in Filter(filtered, IsZero) :: LocationOf(x))
         == (set r | r in filtered && r.available == 0 :: r.location)
  {
    var zeros := Filter(filtered, IsZero);
    var grouped := set x | x in zeros :: LocationOf(x);
    var empty := set r | r in filtered && r.available == 0 :: r.location;
    forall l
      ensures l in grouped <==> l in empty
    {
      if l in empty {
        var r :| r in filtered && r.available == 0 && r.location == l;
        assert r in zeros;
      }
    }
  }

  /** `avg_availability` (line 51) before the division: per timestamp, the sum
      of the values and the number of rows. */
  function MeanParts(filtered: seq<Record>): (m: map<Timestamp, Tally>)
    ensures IsGrouping(filtered, TimestampOf, AvailableOf, m)
  {
    Group(filtered, TimestampOf, AvailableOf)
  }

  /** A mean of in-range values is in range: count * lo <= sum <= count * hi,
      with a non-zero count, for every timestamp present and no other. */
  lemma MeanWithinBounds(filtered: seq<Record>, t: Timestamp, lo: int, hi: int)
    requires forall r :: r in filtered ==> lo <= r.available <= hi
    ensures t in MeanParts(filtered) <==> exists r :: r in filtered && r.timestamp == t
    ensures t in MeanParts(filtered) ==>
      var p := MeanParts(filtered)[t];
      p.count > 0 && p.count * lo <= p.sum <= p.count * hi
  {
    if t in MeanParts(filtered) {
      TallyBounds(filtered, TimestampOf, AvailableOf, t, lo, hi);
    }
  }

  /** `stacked_location_data` (line 56) in long form: per (timestamp, location)
      cell of `location_data`, the sum of its values. */
  function Stacked(locationData: seq<Record>): (m: map<(Timestamp, Location), int>)
    ensures IsSumming(locationData, CellOf, AvailableOf, m)
  {
    SumBy(locationData, CellOf, AvailableOf)
  }

  /** On a table whose locations are all selected (as `filtered_df`'s are),
      the stacked chart has one cell per (timestamp, location) present, and
      only cells of selected locations. */
  lemma StackedCells(filtered: seq<Record>, selected: seq<Location>, t: Timestamp, l: Location)
    requires forall r :: r in filtered ==> r.location in selected
    ensures (t, l) in Stacked(LocationData(filtered, selected)) <==>
      exists r :: r in filtered && r.timestamp == t && r.location == l
    ensures (t, l) in Stacked(LocationData(filtered, selected)) ==> l in selected
  {
    FilterKeepsAll(filtered, InSelection(selected));
    if (t, l) in Stacked(filtered) {
      var r :| r in filtered && CellOf(r) == (t, l);
    }
    if exists r :: r in filtered && r.timestamp == t && r.location == l {
      var r :| r in filtered && r.timestamp == t && r.location == l;
      assert CellOf(r) in Stacked(filtered);
    }
  }
}
