/**
 The dashboard's dataset: one record per country, with its WHO region and
 its cumulative Confirmed, Deaths and Recovered counts, as the CSV export is
 read into a data frame. Also the option lists offered in the sidebar's two
 multiselect controls: a "select all" sentinel followed by the distinct
 values of the column.
 */
module Dataset {
  import opened Seqs

  /** A country or region label, as it appears in the data. */
  type Label = string

  /** One row of the data frame (columns Country/Region, WHO Region, Confirmed, Deaths, Recovered). */
  datatype Row = Row(country: Label, region: Label, confirmed: nat, deaths: nat, recovered: nat)

  /** The sentinel that, listed in the region selection, switches off region filtering. */
  const AllRegions: Label := "All Regions"

  /** The sentinel that, listed in the country selection, switches off country filtering. */
  const AllCountries: Label := "All Countries"

  /** The WHO Region column. */
  function RegionColumn(rows: seq<Row>): (col: seq<Label>)
    ensures |col| == |rows|
    ensures forall i :: 0 <= i < |rows| ==> col[i] == rows[i].region
  {
    seq(|rows|, i requires 0 <= i < |rows| => rows[i].region)
  }

  /** The Country/Region column. */
  function CountryColumn(rows: seq<Row>): (col: seq<Label>)
    ensures |col| == |rows|
    ensures forall i :: 0 <= i < |rows| ==> col[i] == rows[i].country
  {
    seq(|rows|, i requires 0 <= i < |rows| => rows[i].country)
  }

  /**
   The options of a multiselect: the sentinel, then every distinct value of
   the column exactly once, in order of first occurrence. The sentinel is
   not removed from the values, so a column that itself holds the sentinel
   string lists it twice.
   */
  function Options(sentinel: Label, column: seq<Label>): (opts: seq<Label>)
    ensures |opts| >= 1 && opts[0] == sentinel
    ensures forall v :: v in opts[1..] <==> v in column
    ensures forall i, j :: 1 <= i < j < |opts| ==> opts[i] != opts[j]
    ensures forall i, j :: 1 <= i < j < |opts| ==> FirstIndex(column, opts[i]) < FirstIndex(column, opts[j])
  {
    var values := Unique(column);
    assert ([sentinel] + values)[1..] == values;
    [sentinel] + values
  }

  /** The options of the region multiselect: "All Regions", then each region of the data. */
  function RegionOptions(rows: seq<Row>): (opts: seq<Label>)
    ensures opts == Options(AllRegions, RegionColumn(rows))
    ensures |opts| >= 1 && opts[0] == AllRegions
    ensures forall i :: 0 <= i < |rows| ==> rows[i].region in opts[1..]
    ensures forall k :: 1 <= k < |opts| ==> exists i :: 0 <= i < |rows| && rows[i].region == opts[k]
    ensures forall i, j :: 1 <= i < j < |opts| ==> opts[i] != opts[j]
  {
    var col := RegionColumn(rows);
    var opts := Options(AllRegions, col);
    assert forall i :: 0 <= i < |rows| ==> col[i] in opts[1..];
    assert forall k :: 1 <= k < |opts| ==> opts[k] in opts[1..];
    opts
  }

  /** The options of the country multiselect: "All Countries", then each country of the data. */
  function CountryOptions(rows: seq<Row>): (opts: seq<Label>)
    ensures opts == Options(AllCountries, CountryColumn(rows))
    ensures |opts| >= 1 && opts[0] == AllCountries
    ensures forall i :: 0 <= i < |rows| ==> rows[i].country in opts[1..]
    ensures forall k :: 1 <= k < |opts| ==> exists i :: 0 <= i < |rows| && rows[i].country == opts[k]
    ensures forall i, j :: 1 <= i < j < |opts| ==> opts[i] != opts[j]
  {
    var col := CountryColumn(rows);
    var opts := Options(AllCountries, col);
    assert forall i :: 0 <= i < |rows| ==> col[i] in opts[1..];
    assert forall k :: 1 <= k < |opts| ==> opts[k] in opts[1..];
    opts
  }
}
