/**
 The sidebar selection and the four-way filter that turns it into the
 filtered view. A selection is the list of labels a multiselect returns;
 membership is the only thing the filter asks of it.
 */
module Selection {
  import opened Seqs
  import opened Dataset

  /**
   The filtered view, by the guard chain: both sentinels selected keeps the
   data as is; only the country sentinel keeps rows whose region is selected;
   only the region sentinel keeps rows whose country is selected; otherwise
   a row must match both the country and the region selection.
   */
  function Filter(rows: seq<Row>, regions: seq<Label>, countries: seq<Label>): (r: seq<Row>)
    ensures IsSubsequence(r, rows)
    ensures forall row :: row in r <==> row in rows && Passes(regions, countries, row)
    ensures forall row :: multiset(r)[row] == if Passes(regions, countries, row) then multiset(rows)[row] else 0
  {
    if AllCountries in countries && AllRegions in regions then
      SubsequenceReflexive(rows);
      rows
    else if AllCountries in countries then
      Where(rows, (row: Row) => row.region in regions)
    else if AllRegions in regions then
      Where(rows, (row: Row) => row.country in countries)
    else
      Where(rows, (row: Row) => row.country in countries && row.region in regions)
  }

  /**
   The selection read dimension by dimension: a row passes a dimension when
   that selection holds the sentinel or the row's own label.
   */
  predicate Passes(regions: seq<Label>, countries: seq<Label>, row: Row) {
    && (AllRegions in regions || row.region in regions)
    && (AllCountries in countries || row.country in countries)
  }

  /**
   The guard chain is exactly the per-dimension wildcard reading: the
   filtered view is the data masked by `Passes`, row for row and in order.
   */
  lemma FilterIsWildcardMask(rows: seq<Row>, regions: seq<Label>, countries: seq<Label>)
    ensures Filter(rows, regions, countries) == Where(rows, (row: Row) => Passes(regions, countries, row))
  {
    var passes := (row: Row) => Passes(regions, countries, row);
    if AllCountries in countries && AllRegions in regions {
      WhereKeepsAll(rows, passes);
    } else if AllCountries in countries {
      WhereAgrees(rows, (row: Row) => row.region in regions, passes);
    } else if AllRegions in regions {
      WhereAgrees(rows, (row: Row) => row.country in countries, passes);
    } else {
      WhereAgrees(rows, (row: Row) => row.country in countries && row.region in regions, passes);
    }
  }

  /** Both sentinels selected: the filtered view is the whole dataset. */
  lemma FilterAllIsIdentity(rows: seq<Row>, regions: seq<Label>, countries: seq<Label>)
    requires AllCountries in countries && AllRegions in regions
    ensures Filter(rows, regions, countries) == rows
  {
  }

  /**
   Only the country sentinel: a row is kept iff its region is selected, and
   which countries are listed besides the sentinel makes no difference.
   */
  lemma FilterByRegionOnly(rows: seq<Row>, regions: seq<Label>, countries: seq<Label>, countries': seq<Label>)
    requires AllCountries in countries && AllCountries in countries'
    requires AllRegions !in regions
    ensures forall row :: row in Filter(rows, regions, countries) <==> row in rows && row.region in regions
    ensures Filter(rows, regions, countries) == Filter(rows, regions, countries')
  {
  }

  /** Only the country sentinel and no region selected: nothing is kept, not everything. */
  lemma FilterEmptyRegionSelection(rows: seq<Row>, countries: seq<Label>)
    requires AllCountries in countries
    ensures Filter(rows, [], countries) == []
  {
  }

  /**
   Only the region sentinel: a row is kept iff its country is selected, and
   which regions are listed besides the sentinel makes no difference.
   */
  lemma FilterByCountryOnly(rows: seq<Row>, regions: seq<Label>, regions': seq<Label>, countries: seq<Label>)
    requires AllRegions in regions && AllRegions in regions'
    requires AllCountries !in countries
    ensures forall row :: row in Filter(rows, regions, countries) <==> row in rows && row.country in countries
    ensures Filter(rows, regions, countries) == Filter(rows, regions', countries)
  {
  }

  /** No sentinel: a row is kept iff its country AND its region are both selected. */
  lemma FilterByBoth(rows: seq<Row>, regions: seq<Label>, countries: seq<Label>)
    requires AllRegions !in regions && AllCountries !in countries
    ensures forall row :: row in Filter(rows, regions, countries) <==>
      row in rows && row.country in countries && row.region in regions
  {
  }

  /**
   No sentinel and no row matching both selections (for instance a region
   and a country of another region): the filtered view is empty.
   */
  lemma FilterDisjointSelections(rows: seq<Row>, regions: seq<Label>, countries: seq<Label>)
    requires AllRegions !in regions && AllCountries !in countries
    requires forall i :: 0 <= i < |rows| ==> rows[i].country !in countries || rows[i].region !in regions
    ensures Filter(rows, regions, countries) == []
  {
  }

  /**
   A sentinel listed alongside real labels still acts as a wildcard: the
   view equals the one obtained with the sentinel alone in that selection.
   */
  lemma SentinelAbsorbsLabels(rows: seq<Row>, regions: seq<Label>, countries: seq<Label>)
    ensures AllRegions in regions ==>
      Filter(rows, regions, countries) == Filter(rows, [AllRegions], countries)
    ensures AllCountries in countries ==>
      Filter(rows, regions, countries) == Filter(rows, regions, [AllCountries])
  {
    FilterIsWildcardMask(rows, regions, countries);
    FilterIsWildcardMask(rows, [AllRegions], countries);
    FilterIsWildcardMask(rows, regions, [AllCountries]);
    if AllRegions in regions {
      WhereAgrees(rows, (row: Row) => Passes(regions, countries, row), (row: Row) => Passes([AllRegions], countries, row));
    }
    if AllCountries in countries {
      WhereAgrees(rows, (row: Row) => Passes(regions, countries, row), (row: Row) => Passes(regions, [AllCountries], row));
    }
  }
}
