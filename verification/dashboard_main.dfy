/** The sidebar filter of the top-level dashboard (app.py): a start and an end
    datetime, both inclusive, and a location multiselect that defaults to every
    location and falls back to every location when emptied. */
module DashboardMain {
  import opened Calendar
  import opened Records
  import opened Seqs
  import opened Selection

  /** The mask of lines 53-57. */
  function Keep(start: Timestamp, end: Timestamp, sel: seq<Location>): Record -> bool {
    (r: Record) => start <= r.timestamp && r.timestamp <= end && r.location in sel
  }

  /** `filtered_df`: the rows stamped within [start, end] whose location is
      selected (every location when the selection is empty), in table order. */
  function Filtered(rows: seq<Record>, start: Timestamp, end: Timestamp, selected: seq<Location>): (out: seq<Record>)
    ensures IsSubsequence(out, rows)
    ensures forall r :: r in out <==>
      && r in rows
      && start <= r.timestamp <= end
      && (r.location in selected || |selected| == 0)
    ensures forall r :: r in rows ==>
      multiset(out)[r] == if start <= r.timestamp <= end && (r.location in selected || |selected| == 0)
                          then multiset(rows)[r] else 0
  {
    var sel := WithFallback(rows, selected);
    FilterIsSubsequence(rows, Keep(start, end, sel));
    FilterMultiplicity(rows, Keep(start, end, sel));
    assert forall r :: r in rows ==> (r.location in sel <==> r.location in selected || |selected| == 0) by {
      forall r | r in rows {
        FallbackSelects(rows, selected, r);
      }
    }
    Filter(rows, Keep(start, end, sel))
  }

  /** The sidebar's default (every location ticked) shows the same rows as an
      emptied selection. */
  lemma DefaultSelectionIsFallback(rows: seq<Record>, start: Timestamp, end: Timestamp)
    ensures Filtered(rows, start, end, AllLocations(rows)) == Filtered(rows, start, end, [])
  {
    var all := AllLocations(rows);
    if |all| > 0 {
      FilterAgree(rows, Keep(start, end, WithFallback(rows, all)), Keep(start, end, WithFallback(rows, [])));
    }
  }

  /** An end before the start shows nothing. */
  lemma ReversedWindowIsEmpty(rows: seq<Record>, start: Timestamp, end: Timestamp, selected: seq<Location>)
    requires end < start
    ensures Filtered(rows, start, end, selected) == []
  {
    FilterNone(rows, Keep(start, end, WithFallback(rows, selected)));
  }

  /** Applying the sidebar filter a second time, with the same inputs, to its
      own output changes nothing; with an empty selection the second fallback
      is the set of locations left after the first pass. */
  lemma {:induction false} FilteringTwiceChangesNothing(rows: seq<Record>, start: Timestamp, end: Timestamp, selected: seq<Location>)
    ensures Filtered(Filtered(rows, start, end, selected), start, end, selected) == Filtered(rows, start, end, selected)
  {
    var once := Filtered(rows, start, end, selected);
    FilterKeepsAll(once, Keep(start, end, WithFallback(once, selected)));
  }
}
