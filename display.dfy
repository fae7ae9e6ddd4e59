/** The values the dashboard plots and reports once the running totals
    exist: each selected month's sub-table and its last point (the value
    annotated on each line), and the largest running total shown as a metric. */
module Display {
  import opened Frame
  import opened CumSum

  /** The rows of month `m`, in their original order. */
  function MonthSlice(frame: seq<Row>, m: Month): (s: seq<Row>)
    ensures |s| <= |frame|
  {
    if frame == [] then []
    else
      var last := frame[|frame| - 1];
      MonthSlice(frame[..|frame| - 1], m) + (if last.rec.mes == m then [last] else [])
  }

  /** A slice holds only rows of the table that belong to month `m`, and
      every such row. */
  lemma {:induction false} MonthSliceMembers(frame: seq<Row>, m: Month)
    ensures forall r :: r in MonthSlice(frame, m) <==> r in frame && r.rec.mes == m
  {
    if frame != [] {
      var init := frame[..|frame| - 1];
      assert frame == init + [frame[|frame| - 1]];
      MonthSliceMembers(init, m);
    }
  }

  /** Each row of month `m` appears in the slice exactly as often as in the
      table, and no row of another month appears: one point per row. */
  lemma {:induction false} MonthSliceCount(frame: seq<Row>, m: Month, r: Row)
    ensures multiset(MonthSlice(frame, m))[r] == if r.rec.mes == m then multiset(frame)[r] else 0
  {
    if frame != [] {
      var init := frame[..|frame| - 1];
      assert frame == init + [frame[|frame| - 1]];
      MonthSliceCount(init, m, r);
    }
  }

  /** Slicing distributes over concatenation: the slice keeps the rows of the
      month in their relative order in the table. */
  lemma {:induction false} MonthSliceAppend(a: seq<Row>, b: seq<Row>, m: Month)
    ensures MonthSlice(a + b, m) == MonthSlice(a, m) + MonthSlice(b, m)
  {
    if b != [] {
      var init := b[..|b| - 1];
      var last := b[|b| - 1];
      var tail := if last.rec.mes == m then [last] else [];
      assert (a + b)[..|a + b| - 1] == a + init;
      assert MonthSlice(a + b, m) == MonthSlice(a + init, m) + tail;
      assert MonthSlice(b, m) == MonthSlice(init, m) + tail;
      MonthSliceAppend(a, init, m);
    } else {
      assert a + b == a;
    }
  }

  /** Day and running total of the last row (`iloc[-1]`); `None` where the
      source would raise an index error on an empty slice. */
  function LastPoint(s: seq<Row>): (p: Option<(int, real)>)
    ensures p.Some? <==> s != []
    ensures p.Some? ==> p.value.1 == s[|s| - 1].acumulado
  {
    if s == [] then None else Some((s[|s| - 1].rec.dia, s[|s| - 1].acumulado))
  }

  /** Sum of the payments of a slice. */
  function SumPagos(s: seq<Row>): real
  {
    if s == [] then 0.0 else SumPagos(s[..|s| - 1]) + s[|s| - 1].rec.pagos
  }

  /** Every point carries the sum of the payments of its own row and all rows
      before it in the slice. */
  ghost predicate IsRunningSum(s: seq<Row>)
  {
    forall k :: 0 <= k < |s| ==> s[k].acumulado == SumPagos(s[..k + 1])
  }

  /** The month column of a table with one more row ends in that row's month. */
  lemma MonthsSnoc(df: seq<Record>, x: Record)
    ensures Months(df + [x]) == Months(df) + [x.mes]
  {
  }

  /** Appending a row extends a month's slice by that row exactly when the row
      belongs to the month. */
  lemma MonthSliceSnoc(a: seq<Row>, r: Row, m: Month)
    ensures MonthSlice(a + [r], m) == MonthSlice(a, m) + (if r.rec.mes == m then [r] else [])
  {
    assert (a + [r])[..|a|] == a;
  }

  /** A running-sum line stays one when extended by a row whose total is the
      line's payments plus its own. */
  lemma RunningSumSnoc(s: seq<Row>, r: Row)
    requires IsRunningSum(s)
    requires r.acumulado == SumPagos(s) + r.rec.pagos
    ensures IsRunningSum(s + [r])
  {
    var t := s + [r];
    forall k | 0 <= k < |t|
      ensures t[k].acumulado == SumPagos(t[..k + 1])
    {
      if k < |s| {
        assert t[..k + 1] == s[..k + 1];
      } else {
        assert t[..k + 1] == t && t[..k] == s;
      }
    }
  }

  /** The points of a month's line are the running sums of that month's
      payments in row order, and together they sum to the month's total. */
  lemma {:induction false} MonthSliceSums(df: seq<Record>, m: Month)
    ensures IsRunningSum(MonthSlice(Accumulate(df), m))
    ensures SumPagos(MonthSlice(Accumulate(df), m)) == MonthTotal(df, m)
  {
    if df != [] {
      var init, x := df[..|df| - 1], df[|df| - 1];
      assert df == init + [x];
      MonthSliceSums(init, m);
      AccumulateSnoc(init, x);
      var r := Row(x, MonthTotal(init, x.mes) + x.pagos);
      MonthSliceSnoc(Accumulate(init), r, m);
      var s', s := MonthSlice(Accumulate(init), m), MonthSlice(Accumulate(df), m);
      assert MonthTotal(df, m) == MonthTotal(init, m) + (if x.mes == m then x.pagos else 0.0);
      if x.mes == m {
        assert s == s' + [r];
        RunningSumSnoc(s', r);
        assert s[..|s'|] == s';
        assert SumPagos(s) == SumPagos(s') + x.pagos;
      } else {
        assert s == s';
      }
    }
  }

  /** A month's line is empty exactly when the month does not occur. */
  lemma {:induction false} MonthSliceEmpty(df: seq<Record>, m: Month)
    ensures MonthSlice(Accumulate(df), m) == [] <==> m !in Months(df)
  {
    if df != [] {
      var init, x := df[..|df| - 1], df[|df| - 1];
      assert df == init + [x];
      MonthSliceEmpty(init, m);
      AccumulateSnoc(init, x);
      MonthSliceSnoc(Accumulate(init), Row(x, MonthTotal(init, x.mes) + x.pagos), m);
      MonthsSnoc(init, x);
    }
  }

  /** A month's line is the running sum of that month's payments in row order,
      it is empty exactly when the month does not occur, and its last point is
      the month's total. */
  lemma MonthSliceIsRunningSum(df: seq<Record>, m: Month)
    ensures IsRunningSum(MonthSlice(Accumulate(df), m))
    ensures MonthSlice(Accumulate(df), m) == [] <==> m !in Months(df)
    ensures MonthSlice(Accumulate(df), m) != [] ==>
              MonthSlice(Accumulate(df), m)[|MonthSlice(Accumulate(df), m)| - 1].acumulado == MonthTotal(df, m)
  {
    var s := MonthSlice(Accumulate(df), m);
    MonthSliceSums(df, m);
    MonthSliceEmpty(df, m);
    assert s[..|s|] == s;
  }

  /** Each month of the table has a last point, and its value is the sum of
      all that month's payments: the figure annotated at the end of its line. */
  lemma LastPointIsMonthTotal(df: seq<Record>, m: Month)
    requires m in Months(df)
    ensures LastPoint(MonthSlice(Accumulate(df), m)).Some?
    ensures LastPoint(MonthSlice(Accumulate(df), m)).value.1 == MonthTotal(df, m)
  {
    MonthSliceIsRunningSum(df, m);
  }

  /** On a running-sum line each point is the previous point plus its own
      payment. */
  lemma RunningSumStep(s: seq<Row>, k: nat)
    requires IsRunningSum(s) && 0 < k < |s|
    ensures s[k].acumulado == s[k - 1].acumulado + s[k].rec.pagos
  {
    assert s[..k + 1][..k] == s[..k];
  }

  /** On a running-sum line with no negative payment, a later point is never
      below an earlier one. */
  lemma {:induction false} RunningSumMonotone(s: seq<Row>, i: nat, j: nat)
    requires IsRunningSum(s) && i <= j < |s|
    requires forall r :: r in s ==> r.rec.pagos >= 0.0
    ensures s[i].acumulado <= s[j].acumulado
    decreases j - i
  {
    if i < j {
      RunningSumStep(s, j);
      assert s[j] in s;
      RunningSumMonotone(s, i, j - 1);
    }
  }

  /** With no negative payment, each month's line never goes down. */
  lemma MonthSliceNonDecreasing(df: seq<Record>, m: Month)
    requires NoRefunds(df)
    ensures forall i, j :: 0 <= i <= j < |MonthSlice(Accumulate(df), m)| ==>
              MonthSlice(Accumulate(df), m)[i].acumulado <= MonthSlice(Accumulate(df), m)[j].acumulado
  {
    var s := MonthSlice(Accumulate(df), m);
    MonthSliceIsRunningSum(df, m);
    MonthSliceMembers(Accumulate(df), m);
    forall r | r in s
      ensures r.rec.pagos >= 0.0
    {
      var i :| 0 <= i < |Accumulate(df)| && Accumulate(df)[i] == r;
      AccumulateAt(df, i);
    }
    forall i, j | 0 <= i <= j < |s|
      ensures s[i].acumulado <= s[j].acumulado
    {
      RunningSumMonotone(s, i, j);
    }
  }

  /** Every month offered for selection has a line with a last point, so the
      annotation loop never indexes an empty slice. */
  lemma SelectedMonthsHaveLastPoint(df: seq<Record>, cartera: string, seleccion: seq<Month>)
    requires forall m :: m in seleccion ==> m in Unique(Months(FilterCartera(df, cartera)))
    ensures forall m :: m in seleccion ==>
              var p := LastPoint(MonthSlice(Accumulate(FilterCartera(df, cartera)), m));
              p.Some? && p.value.1 == MonthTotal(FilterCartera(df, cartera), m)
  {
    forall m | m in seleccion
      ensures LastPoint(MonthSlice(Accumulate(FilterCartera(df, cartera)), m)).Some?
      ensures LastPoint(MonthSlice(Accumulate(FilterCartera(df, cartera)), m)).value.1
              == MonthTotal(FilterCartera(df, cartera), m)
    {
      LastPointIsMonthTotal(FilterCartera(df, cartera), m);
    }
  }

  /** The largest running total of the table (`max()`); `None` for an empty
      table, where the source reports a missing value. */
  function MaxAcumulado(frame: seq<Row>): (r: Option<real>)
    ensures r.None? <==> frame == []
    ensures r.Some? ==> forall i :: 0 <= i < |frame| ==> frame[i].acumulado <= r.value
    ensures r.Some? ==> exists i :: 0 <= i < |frame| && frame[i].acumulado == r.value
  {
    if frame == [] then None
    else
      var last := frame[|frame| - 1].acumulado;
      match MaxAcumulado(frame[..|frame| - 1])
      case None => Some(last)
      case Some(v) => Some(if last > v then last else v)
  }

  /** With no negative payment, no row's running total exceeds its month's
      total. */
  lemma RowTotalAtMostMonthTotal(df: seq<Record>, i: nat)
    requires i < |df|
    requires NoRefunds(df)
    ensures Accumulate(df)[i].acumulado <= MonthTotal(df, df[i].mes)
  {
    AccumulateAt(df, i);
    MonthTotalPrefix(df, i + 1, df[i].mes);
  }

  /** Each month's total is the running total of some row: the month's last. */
  lemma MonthTotalAttained(df: seq<Record>, m: Month)
    requires m in Months(df)
    ensures exists i :: 0 <= i < |df| && Accumulate(df)[i].acumulado == MonthTotal(df, m)
  {
    var frame := Accumulate(df);
    LastPointIsMonthTotal(df, m);
    var s := MonthSlice(frame, m);
    MonthSliceMembers(frame, m);
    var last := s[|s| - 1];
    assert last in s;
    var i :| 0 <= i < |frame| && frame[i] == last;
  }

  /** With no negative payment, the reported maximum is the largest month
      total: it is some month's total and no month's total exceeds it. */
  lemma MaxIsLargestMonthTotal(df: seq<Record>)
    requires df != []
    requires NoRefunds(df)
    ensures MaxAcumulado(Accumulate(df)).Some?
    ensures exists m :: m in Months(df) && MaxAcumulado(Accumulate(df)).value == MonthTotal(df, m)
    ensures forall m :: m in Months(df) ==> MonthTotal(df, m) <= MaxAcumulado(Accumulate(df)).value
  {
    var frame := Accumulate(df);
    var v := MaxAcumulado(frame).value;
    var i :| 0 <= i < |frame| && frame[i].acumulado == v;
    var m := df[i].mes;
    assert Months(df)[i] == m;
    RowTotalAtMostMonthTotal(df, i);
    MonthTotalAttained(df, m);
    forall n | n in Months(df)
      ensures MonthTotal(df, n) <= v
    {
      MonthTotalAttained(df, n);
    }
  }
}
