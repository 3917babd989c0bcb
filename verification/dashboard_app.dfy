/** The sidebar filter of the first dashboard (app/app.py): a start and an end
    date, compared with the date part of each timestamp, and a location
    multiselect whose empty selection means every location. */
module DashboardApp {
  import opened Calendar
  import opened Records
  import opened Seqs
  import opened Features
  import opened Selection

  /** The mask of lines 35-39 over the enriched table. */
  function Keep(lo: Date, hi: Date, sel: seq<Location>): EnrichedRecord -> bool {
    (e: EnrichedRecord) => && !DateBefore(DateOf(e.record.timestamp), lo)
                          && !DateBefore(hi, DateOf(e.record.timestamp))
                          && e.record.location in sel
  }

  /** `filtered_df`: the enriched rows whose day lies in [lo, hi] and whose
      location is selected (every location when the selection is empty), in
      table order. */
  function Filtered(rows: seq<Record>, lo: Date, hi: Date, selected: seq<Location>): (out: seq<EnrichedRecord>)
    requires ValidDate(lo) && ValidDate(hi)
    ensures IsSubsequence(out, Enrich(rows))
    ensures forall e :: e in out <==>
      && e in Enrich(rows)
      && (ToOrdinal(lo) - 1) * MinutesPerDay <= e.record.timestamp < ToOrdinal(hi) * MinutesPerDay
      && e.record.location in WithFallback(rows, selected)
    ensures forall e :: e in Enrich(rows) ==>
      multiset(out)[e] ==
        if && (ToOrdinal(lo) - 1) * MinutesPerDay <= e.record.timestamp < ToOrdinal(hi) * MinutesPerDay
           && e.record.location in WithFallback(rows, selected)
        then multiset(Enrich(rows))[e] else 0
  {
    var sel := WithFallback(rows, selected);
    var table := Enrich(rows);
    FilterIsSubsequence(table, Keep(lo, hi, sel));
    FilterMultiplicity(table, Keep(lo, hi, sel));
    assert forall e :: e in table ==>
      (Keep(lo, hi, sel)(e) <==>
        && (ToOrdinal(lo) - 1) * MinutesPerDay <= e.record.timestamp < ToOrdinal(hi) * MinutesPerDay
        && e.record.location in sel)
    by {
      forall e | e in table {
        DayWindow(e.record.timestamp, lo, hi);
      }
    }
    Filter(table, Keep(lo, hi, sel))
  }

  /** With nothing selected, row i is shown exactly when its day lies in [lo, hi]. */
  lemma EmptySelectionShowsWholeWindow(rows: seq<Record>, lo: Date, hi: Date, i: int)
    requires ValidDate(lo) && ValidDate(hi)
    requires 0 <= i < |rows|
    ensures Enrich(rows)[i] in Filtered(rows, lo, hi, []) <==>
      ToOrdinal(lo) <= DayOf(rows[i].timestamp) <= ToOrdinal(hi)
  {
    assert Enrich(rows)[i] in Enrich(rows);
  }

  /** Every hour of the end date is shown, including the last minute of the day. */
  lemma EndDateIncludedWhole(rows: seq<Record>, lo: Date, hi: Date, selected: seq<Location>, i: int)
    requires ValidDate(lo) && ValidDate(hi)
    requires 0 <= i < |rows|
    requires !DateBefore(hi, lo)
    requires DateOf(rows[i].timestamp) == hi
    requires rows[i].location in selected
    ensures Enrich(rows)[i] in Filtered(rows, lo, hi, selected)
  {
    OrdinalMonotone(hi, lo);
    assert Enrich(rows)[i] in Enrich(rows);
  }
}
