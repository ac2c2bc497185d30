/**
 One evaluation of the dashboard: from the dataset and the two sidebar
 selections to the filtered view, its column sums and its percentages.
 The evaluation is a pure function of its inputs, so it is recomputed from
 scratch on every change of selection.
 */
module Dashboard {
  import opened Wrappers
  import opened Seqs
  import opened Dataset
  import opened Selection
  import opened Aggregate

  /** The filtered rows, their column sums (from which the shares are computed), and the donut shares. */
  datatype Summary = Summary(view: seq<Row>, totals: Totals, percentages: Option<Percentages>)

  /**
   Filters the dataset by the selections, then sums and apportions the
   kept rows. The sums never exceed those of the whole dataset, and the
   percentages are missing exactly when no confirmed case is kept.
   */
  function Summarize(rows: seq<Row>, regions: seq<Label>, countries: seq<Label>): (s: Summary)
    ensures IsSubsequence(s.view, rows)
    ensures forall row :: row in s.view <==> row in rows && Passes(regions, countries, row)
    ensures forall row :: multiset(s.view)[row] == if Passes(regions, countries, row) then multiset(rows)[row] else 0
    ensures s.totals == Totals(Total(s.view, Confirmed), Total(s.view, Deaths), Total(s.view, Recovered))
    ensures s.percentages == Percent(s.totals)
    ensures s.totals.cases <= Total(rows, Confirmed)
    ensures s.totals.deaths <= Total(rows, Deaths)
    ensures s.totals.recovered <= Total(rows, Recovered)
    ensures s.percentages.None? <==> s.totals.cases == 0
    ensures s.view == [] ==> s.totals == Totals(0, 0, 0) && s.percentages.None?
  {
    var view := Filter(rows, regions, countries);
    TotalOfSubsequence(view, rows, Confirmed);
    TotalOfSubsequence(view, rows, Deaths);
    TotalOfSubsequence(view, rows, Recovered);
    var totals := Tally(view);
    Summary(view, totals, Percent(totals))
  }

  /** The two-country dataset used in the examples below. */
  function SampleData(): (rows: seq<Row>) {
    [ Row("US", "Americas", 100, 10, 80),
      Row("France", "Europe", 50, 5, 40) ]
  }

  /** All regions and the single country "US": the US row, with shares 10/80/10. */
  lemma ExampleSingleCountry()
    ensures Summarize(SampleData(), [AllRegions], ["US"]) ==
      Summary([Row("US", "Americas", 100, 10, 80)], Totals(100, 10, 80),
              Some(Percentages(10.0, 80.0, 10.0)))
  {
    var d := SampleData();
    assert d[1..][1..] == [];
    assert Filter(d, [AllRegions], ["US"]) == [d[0]];
  }

  /** Region "Europe" and country "US" select nothing: zero totals, no percentages. */
  lemma ExampleDisjointSelection()
    ensures Summarize(SampleData(), ["Europe"], ["US"]) == Summary([], Totals(0, 0, 0), None)
  {
    var d := SampleData();
    assert d[1..][1..] == [];
    assert Filter(d, ["Europe"], ["US"]) == [];
  }

  /** The region options of the sample: the sentinel, then the regions in data order. */
  lemma ExampleRegionOptions()
    ensures RegionOptions(SampleData()) == [AllRegions, "Americas", "Europe"]
  {
    var col := RegionColumn(SampleData());
    var first: seq<Label> := ["Americas"];
    assert col == first + ["Europe"];
    assert col[..1] == first;
    assert first[..0] == [];
    assert Unique(first) == first;
    assert "Europe" !in first;
    assert Unique(col) == first + ["Europe"];
  }
}
