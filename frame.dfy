/** The payments table the dashboard loads, and the two column-level
    operations it applies before any accumulation: keeping the rows of the
    selected portfolio (`df[df['Cartera_y'] == cartera]`) and listing the
    creation months in order of first appearance (`unique()`). */
module Frame {

  datatype Option<+T> = None | Some(value: T)

  /** A creation-month label, the value of column `Mes_Creacion`. */
  type Month = string

  /** One row of the loaded table: portfolio (`Cartera_y`), creation month
      (`Mes_Creacion`), day of month (`Dia`) and payment amount (`Pagos`).
      Amounts are exact reals rather than floating point. */
  datatype Record = Record(cartera: string, mes: Month, dia: int, pagos: real)

  /** The rows whose portfolio is `cartera`, in their original order. */
  function FilterCartera(df: seq<Record>, cartera: string): (r: seq<Record>)
    ensures forall x :: x in r ==> x in df && x.cartera == cartera
  {
    if df == [] then []
    else
      var last := df[|df| - 1];
      assert df == df[..|df| - 1] + [last];
      FilterCartera(df[..|df| - 1], cartera) + (if last.cartera == cartera then [last] else [])
  }

  /** Every row of the portfolio is kept exactly as often as it occurs, and no
      other row is kept: nothing is dropped or duplicated. */
  lemma {:induction false} FilterCarteraCount(df: seq<Record>, cartera: string, x: Record)
    ensures multiset(FilterCartera(df, cartera))[x] == if x.cartera == cartera then multiset(df)[x] else 0
  {
    if df != [] {
      var init, last := df[..|df| - 1], df[|df| - 1];
      assert df == init + [last];
      FilterCarteraCount(init, cartera, x);
    }
  }

  /** Filtering distributes over concatenation: rows keep their relative order. */
  lemma {:induction false} FilterCarteraAppend(a: seq<Record>, b: seq<Record>, cartera: string)
    ensures FilterCartera(a + b, cartera) == FilterCartera(a, cartera) + FilterCartera(b, cartera)
  {
    if b != [] {
      var init := b[..|b| - 1];
      var last := b[|b| - 1];
      var tail := if last.cartera == cartera then [last] else [];
      assert (a + b)[..|a + b| - 1] == a + init;
      assert FilterCartera(a + b, cartera) == FilterCartera(a + init, cartera) + tail;
      assert FilterCartera(b, cartera) == FilterCartera(init, cartera) + tail;
      FilterCarteraAppend(a, init, cartera);
    } else {
      assert a + b == a;
    }
  }

  /** Filtering a second time by the same portfolio changes nothing. */
  lemma {:induction false} FilterCarteraIdempotent(df: seq<Record>, cartera: string)
    ensures FilterCartera(FilterCartera(df, cartera), cartera) == FilterCartera(df, cartera)
  {
    if df != [] {
      var last := df[|df| - 1];
      FilterCarteraIdempotent(df[..|df| - 1], cartera);
      FilterCarteraAppend(FilterCartera(df[..|df| - 1], cartera),
                          if last.cartera == cartera then [last] else [], cartera);
    }
  }

  /** The `Mes_Creacion` column of a table. */
  function Months(df: seq<Record>): (ms: seq<Month>)
    ensures |ms| == |df|
    ensures forall i :: 0 <= i < |df| ==> ms[i] == df[i].mes
  {
    seq(|df|, i requires 0 <= i < |df| => df[i].mes)
  }

  /** Index of the first occurrence of `x` in `s`. */
  function FirstIndex(s: seq<Month>, x: Month): (k: nat)
    requires x in s
    ensures k < |s| && s[k] == x && x !in s[..k]
  {
    var init := s[..|s| - 1];
    if x in init then
      var k := FirstIndex(init, x);
      assert s[..k] == init[..k];
      k
    else |s| - 1
  }

  /** The distinct values of `s`, each once, in order of first appearance. */
  function Unique(s: seq<Month>): (u: seq<Month>)
    ensures forall x :: x in u <==> x in s
    ensures forall i, j :: 0 <= i < j < |u| ==> u[i] != u[j]
  {
    if s == [] then []
    else
      var init := Unique(s[..|s| - 1]);
      var last := s[|s| - 1];
      assert s == s[..|s| - 1] + [last];
      if last in init then init else init + [last]
  }

  /** `Unique` lists months in strictly increasing order of first appearance. */
  lemma {:induction false} UniqueInFirstAppearanceOrder(s: seq<Month>)
    ensures forall i, j :: 0 <= i < j < |Unique(s)| ==>
              FirstIndex(s, Unique(s)[i]) < FirstIndex(s, Unique(s)[j])
  {
    if s != [] {
      var init := s[..|s| - 1];
      var last := s[|s| - 1];
      UniqueInFirstAppearanceOrder(init);
      var u, u' := Unique(s), Unique(init);
      forall x | x in init
        ensures FirstIndex(s, x) == FirstIndex(init, x)
      {
      }
      forall i, j | 0 <= i < j < |u|
        ensures FirstIndex(s, u[i]) < FirstIndex(s, u[j])
      {
        assert u[i] in u' && u[i] in init;
        if j < |u'| {
          assert u[j] == u'[j] && u[i] == u'[i];
        } else {
          assert u[j] == last && last !in init;
        }
      }
    }
  }
}
