/** The rows of the availability table shared by the generators and the dashboards. */
module Records {
  import opened Calendar

  /** A station label such as "BikeTown". */
  type Location = string

  datatype Option<T> = None | Some(value: T)

  /** One row of the flat export: the generator in data/ writes three columns
      (predicted = None), the one in src/ four (predicted = Some). */
  datatype Record = Record(timestamp: Timestamp, location: Location, available: int, predicted: Option<int>)

  /** Location column of a table, in row order. */
  function LocationColumn(rows: seq<Record>): (locs: seq<Location>)
    ensures |locs| == |rows|
    ensures forall i :: 0 <= i < |rows| ==> locs[i] == rows[i].location
  {
    seq(|rows|, i requires 0 <= i < |rows| => rows[i].location)
  }
}
