/** The location multiselect of the dashboards: the list of distinct
    locations and the empty-selection fallback of app/app.py and app.py. */
module Selection {
  import opened Records
  import opened Seqs

  /** `df["location_name"].unique()`: each location once, in order of first appearance. */
  function AllLocations(rows: seq<Record>): (locs: seq<Location>)
    ensures NoDuplicates(locs)
    ensures forall l :: l in locs <==> l in LocationColumn(rows)
    ensures forall l :: l in locs <==> exists i :: 0 <= i < |rows| && rows[i].location == l
    ensures forall i, j :: 0 <= i < j < |locs| ==>
      FirstIndex(LocationColumn(rows), locs[i]) < FirstIndex(LocationColumn(rows), locs[j])
  {
    var column := LocationColumn(rows);
    assert forall l :: l in column <==> exists i :: 0 <= i < |rows| && rows[i].location == l by {
      forall l | l in column
        ensures exists i :: 0 <= i < |rows| && rows[i].location == l
      {
        var i :| 0 <= i < |column| && column[i] == l;
        assert rows[i].location == l;
      }
    }
    Unique(column)
  }

  /** `if len(selected_locations) == 0: selected_locations = <all locations>`. */
  function WithFallback(rows: seq<Record>, selected: seq<Location>): (sel: seq<Location>)
    ensures |selected| > 0 ==> sel == selected
    ensures |selected| == 0 ==> forall l :: l in sel <==> exists i :: 0 <= i < |rows| && rows[i].location == l
  {
    if |selected| == 0 then AllLocations(rows) else selected
  }

  /** After the fallback, a row's location is selected iff it was chosen or nothing was chosen. */
  lemma FallbackSelects(rows: seq<Record>, selected: seq<Location>, r: Record)
    requires r in rows
    ensures r.location in WithFallback(rows, selected) <==> r.location in selected || |selected| == 0
  {
    var i :| 0 <= i < |rows| && rows[i] == r;
  }
}
