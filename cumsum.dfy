/** The column `Acumulado_Pagos` that the dashboard adds to the filtered
    table: `groupby('Mes_Creacion')['Pagos'].cumsum()`. Each row receives the
    sum of `Pagos` over itself and every earlier row of the same creation
    month, in row order (the table is never sorted by day), and the total
    starts afresh for each month. */
module CumSum {
  import opened Frame

  /** A filtered row with the added running-total column. */
  datatype Row = Row(rec: Record, acumulado: real)

  /** No payment in the table is negative. */
  predicate NoRefunds(df: seq<Record>)
  {
    forall i :: 0 <= i < |df| ==> df[i].pagos >= 0.0
  }

  /** Sum of `Pagos` over the rows of month `m`. */
  function MonthTotal(df: seq<Record>, m: Month): real
  {
    if df == [] then 0.0
    else MonthTotal(df[..|df| - 1], m) + (if df[|df| - 1].mes == m then df[|df| - 1].pagos else 0.0)
  }

  /** The table with the running-total column added, built row by row: each
      row carries its month's total over the table up to and including it. */
  function Accumulate(df: seq<Record>): (frame: seq<Row>)
    ensures |frame| == |df|
  {
    if df == [] then []
    else
      var last := df[|df| - 1];
      Accumulate(df[..|df| - 1]) + [Row(last, MonthTotal(df, last.mes))]
  }

  /** Row `i` keeps its fields and carries the sum of `Pagos` over the rows
      `j <= i` of its own month. */
  lemma {:induction false} AccumulateAt(df: seq<Record>, i: nat)
    requires i < |df|
    ensures Accumulate(df)[i] == Row(df[i], MonthTotal(df[..i + 1], df[i].mes))
  {
    if i < |df| - 1 {
      var init := df[..|df| - 1];
      AccumulateAt(init, i);
      assert init[..i + 1] == df[..i + 1];
    } else {
      assert df[..i + 1] == df;
    }
  }

  /** The original table, with the added column dropped. */
  function Records(frame: seq<Row>): (df: seq<Record>)
    ensures |df| == |frame|
  {
    seq(|frame|, i requires 0 <= i < |frame| => frame[i].rec)
  }

  /** The grouped cumulative sum as the source runs it: one pass over the rows
      with a running total per month, writing each row's total as it goes. */
  method WithRunningTotals(df: seq<Record>) returns (frame: array<Row>)
    ensures fresh(frame)
    ensures frame[..] == Accumulate(df)
  {
    frame := new Row[|df|](i => Row(Record("", "", 0, 0.0), 0.0));
    var totals: map<Month, real> := map[];
    var i := 0;
    while i < |df|
      invariant 0 <= i <= |df| && frame.Length == |df|
      invariant forall m :: MonthTotal(df[..i], m) == if m in totals then totals[m] else 0.0
      invariant frame[..i] == Accumulate(df[..i])
    {
      var r := df[i];
      var before := if r.mes in totals then totals[r.mes] else 0.0;
      assert df[..i + 1][..i] == df[..i];
      assert frame[..i + 1] == frame[..i] + [frame[i]];
      frame[i] := Row(r, before + r.pagos);
      totals := totals[r.mes := before + r.pagos];
      i := i + 1;
    }
    assert df[..i] == df && frame[..i] == frame[..];
  }

  /** Adding the column keeps every row and every other field: dropping the
      column gives back the table. */
  lemma DropColumn(df: seq<Record>)
    ensures Records(Accumulate(df)) == df
  {
    forall i | 0 <= i < |df|
      ensures Records(Accumulate(df))[i] == df[i]
    {
      AccumulateAt(df, i);
    }
  }

  /** Appending a row leaves the earlier totals alone and gives the new row
      the month's previous total plus its own payment. */
  lemma AccumulateSnoc(df: seq<Record>, x: Record)
    ensures Accumulate(df + [x]) == Accumulate(df) + [Row(x, MonthTotal(df, x.mes) + x.pagos)]
  {
    assert (df + [x])[..|df|] == df;
  }

  /** A month's total depends only on the rows of that month. */
  lemma {:induction false} MonthTotalLocal(a: seq<Record>, b: seq<Record>, m: Month, n: Month)
    requires |a| == |b| && n != m
    requires forall i :: 0 <= i < |a| && a[i] != b[i] ==> a[i].mes == m && b[i].mes == m
    ensures MonthTotal(a, n) == MonthTotal(b, n)
  {
    if a != [] {
      MonthTotalLocal(a[..|a| - 1], b[..|b| - 1], m, n);
    }
  }

  /** Changing rows of month `m` (and keeping them in month `m`) never changes
      the running total of a row of any other month. */
  lemma OtherMonthsUnchanged(a: seq<Record>, b: seq<Record>, m: Month)
    requires |a| == |b|
    requires forall i :: 0 <= i < |a| && a[i] != b[i] ==> a[i].mes == m && b[i].mes == m
    ensures forall i :: 0 <= i < |a| && a[i].mes != m ==> Accumulate(a)[i] == Accumulate(b)[i]
  {
    forall i | 0 <= i < |a| && a[i].mes != m
      ensures Accumulate(a)[i] == Accumulate(b)[i]
    {
      AccumulateAt(a, i);
      AccumulateAt(b, i);
      MonthTotalLocal(a[..i + 1], b[..i + 1], m, a[i].mes);
    }
  }

  /** A month that never occurs has total zero. */
  lemma {:induction false} MonthTotalAbsent(df: seq<Record>, m: Month)
    requires m !in Months(df)
    ensures MonthTotal(df, m) == 0.0
  {
    if df != [] {
      assert Months(df[..|df| - 1]) == Months(df)[..|df| - 1];
      MonthTotalAbsent(df[..|df| - 1], m);
    }
  }

  /** With no negative payment, a month's total over a prefix of the table is
      at most its total over the whole table. */
  lemma {:induction false} MonthTotalPrefix(df: seq<Record>, k: nat, m: Month)
    requires k <= |df|
    requires NoRefunds(df)
    ensures MonthTotal(df[..k], m) <= MonthTotal(df, m)
  {
    if k < |df| {
      var init := df[..|df| - 1];
      assert init[..k] == df[..k];
      MonthTotalPrefix(init, k, m);
    } else {
      assert df[..k] == df;
    }
  }
}
