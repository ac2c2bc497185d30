/**
 The headline figures of the filtered view: the sums of the Confirmed,
 Deaths and Recovered columns, and the three shares of the donut chart
 (deaths, recovered, and the "unknown" residual) as percentages of the
 confirmed total. Percentages are exact reals; they are undefined when the
 confirmed total is zero.
 */
module Aggregate {
  import opened Wrappers
  import opened Seqs
  import opened Dataset

  /** One of the three summed count columns. */
  datatype Measure = Confirmed | Deaths | Recovered

  /** The value of column `m` in `row`. */
  function Count(row: Row, m: Measure): (n: nat) {
    match m
    case Confirmed => row.confirmed
    case Deaths => row.deaths
    case Recovered => row.recovered
  }

  /**
   The sum of column `m` over `rows`: no row counts more than the sum, and
   the sum is zero exactly when every row's count is zero (so also for no rows).
   */
  function Total(rows: seq<Row>, m: Measure): (t: nat)
    ensures forall i :: 0 <= i < |rows| ==> Count(rows[i], m) <= t
    ensures t == 0 <==> forall i :: 0 <= i < |rows| ==> Count(rows[i], m) == 0
    decreases |rows|
  {
    if rows == [] then 0 else Count(rows[0], m) + Total(rows[1..], m)
  }

  /** Column sums are additive over concatenation. */
  lemma {:induction false} TotalAppend(a: seq<Row>, b: seq<Row>, m: Measure)
    ensures Total(a + b, m) == Total(a, m) + Total(b, m)
    decreases |a|
  {
    if a != [] {
      assert (a + b)[1..] == a[1..] + b;
      TotalAppend(a[1..], b, m);
    } else {
      assert a + b == b;
    }
  }

  /** Deleting rows never increases a column sum (counts are non-negative). */
  lemma {:induction false} TotalOfSubsequence(xs: seq<Row>, ys: seq<Row>, m: Measure)
    requires IsSubsequence(xs, ys)
    ensures Total(xs, m) <= Total(ys, m)
    decreases |ys|
  {
    if ys != [] {
      if xs != [] && xs[0] == ys[0] && IsSubsequence(xs[1..], ys[1..]) {
        TotalOfSubsequence(xs[1..], ys[1..], m);
      } else {
        TotalOfSubsequence(xs, ys[1..], m);
      }
    }
  }

  /** A mask and its complement split a column sum between them. */
  lemma {:induction false} TotalOfMaskPartition(rows: seq<Row>, keep: Row -> bool, m: Measure)
    ensures Total(Where(rows, keep), m) + Total(Where(rows, (row: Row) => !keep(row)), m) == Total(rows, m)
    decreases |rows|
  {
    if rows != [] {
      TotalOfMaskPartition(rows[1..], keep, m);
    }
  }

  /** The three column sums of a view. */
  datatype Totals = Totals(cases: nat, deaths: nat, recovered: nat)

  /**
   The three column sums of `rows`: each bounds the row values of its column,
   and the confirmed sum is zero exactly when no row has a confirmed case.
   */
  function Tally(rows: seq<Row>): (t: Totals)
    ensures forall i :: 0 <= i < |rows| ==>
      rows[i].confirmed <= t.cases && rows[i].deaths <= t.deaths && rows[i].recovered <= t.recovered
    ensures t.cases == 0 <==> forall i :: 0 <= i < |rows| ==> rows[i].confirmed == 0
  {
    Totals(Total(rows, Confirmed), Total(rows, Deaths), Total(rows, Recovered))
  }

  /** The donut chart's shares, in percent of the confirmed total. */
  datatype Percentages = Percentages(deaths: real, recovered: real, unknown: real)

  /**
   The shares of deaths, of recoveries and of the residual "unknown" cases,
   each as a percentage of the confirmed total. There are none when the
   total is zero. The residual is not clamped: it is negative exactly when
   deaths and recoveries together exceed the confirmed count.
   */
  function Percent(t: Totals): (p: Option<Percentages>)
    ensures p.None? <==> t.cases == 0
    ensures p.Some? ==> p.value.deaths * t.cases as real == 100.0 * t.deaths as real
    ensures p.Some? ==> p.value.recovered * t.cases as real == 100.0 * t.recovered as real
    ensures p.Some? ==> p.value.unknown * t.cases as real == 100.0 * (t.cases - t.deaths - t.recovered) as real
    ensures p.Some? ==> p.value.deaths + p.value.recovered + p.value.unknown == 100.0
    ensures p.Some? ==> 0.0 <= p.value.deaths && 0.0 <= p.value.recovered
    ensures p.Some? ==> (p.value.unknown < 0.0 <==> t.deaths + t.recovered > t.cases)
  {
    if t.cases == 0 then None
    else
      var c := t.cases as real;
      Some(Percentages(
        (t.deaths as real / c) * 100.0,
        (t.recovered as real / c) * 100.0,
        ((t.cases - (t.deaths + t.recovered)) as real / c) * 100.0))
  }
}
