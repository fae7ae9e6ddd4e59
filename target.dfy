/** The per-portfolio configuration and the dashed goal line drawn against
    the payment lines: thirty points, day 1 to day 30, each the running sum of
    a daily goal of one thirtieth of the portfolio's monthly goal. */
module Target {
  import opened Frame

  /** The portfolios offered by the selector: the keys of the table of data
      sources, in its order. The data-source addresses themselves are not
      modelled. */
  const Carteras: seq<string> :=
    ["Comfama", "Azzorti", "Cueros", "Keypago", "Linea Directa", "Nova Mexico", "Nova Colombia"]

  /** Monthly payment goal per portfolio. */
  const Metas: map<string, int> := map[
    "Comfama" := 100000000,
    "Azzorti" := 100000000,
    "Cueros" := 100000000,
    "Keypago" := 100000000,
    "Linea Directa" := 100000000,
    "Nova Mexico" := 100000000,
    "Nova Colombia" := 100000000
  ]

  /** Number of days on the goal line. */
  const Dias: nat := 30

  /** The goal of a portfolio; `None` where the source's dictionary lookup
      would raise a missing-key error. */
  function MetaFor(cartera: string): (meta: Option<int>)
    ensures meta.Some? <==> cartera in Metas
    ensures meta.Some? ==> meta.value == Metas[cartera]
  {
    if cartera in Metas then Some(Metas[cartera]) else None
  }

  /** The goals and the data sources have the same portfolios, so whatever the
      selector returns has a goal, and every goal is positive. */
  lemma EverySelectableCarteraHasMeta()
    ensures forall c :: c in Carteras <==> c in Metas
    ensures forall c :: c in Carteras ==> MetaFor(c).Some? && MetaFor(c).value > 0
  {
  }

  /** `n` copies of `x`. */
  function Repeat(x: real, n: nat): (r: seq<real>)
    ensures |r| == n
  {
    seq(n, _ => x)
  }

  /** The cumulative sum of `xs`, accumulated left to right. */
  function RunningSum(xs: seq<real>): (r: seq<real>)
    ensures |r| == |xs|
  {
    if xs == [] then []
    else
      var p := RunningSum(xs[..|xs| - 1]);
      p + [(if p == [] then 0.0 else p[|p| - 1]) + xs[|xs| - 1]]
  }

  /** Repeatedly adding `x` gives `k * x` after `k` additions. */
  lemma {:induction false} RunningSumOfRepeat(x: real, n: nat, k: nat)
    requires k < n
    ensures RunningSum(Repeat(x, n))[k] == (k + 1) as real * x
  {
    var xs := Repeat(x, n);
    var init := xs[..n - 1];
    assert init == Repeat(x, n - 1);
    if k < n - 1 {
      RunningSumOfRepeat(x, n - 1, k);
    } else if k > 0 {
      RunningSumOfRepeat(x, n - 1, k - 1);
    }
  }

  /** A point of the goal line. */
  datatype Point = Point(dia: int, valor: real)

  /** The goal line for a monthly goal `meta`: day `d` of 1 to 30 carries the
      running sum of `meta / 30` up to day `d`. */
  function Trajectory(meta: int): (t: seq<Point>)
    ensures |t| == Dias
  {
    var acumulada := RunningSum(Repeat(meta as real / Dias as real, Dias));
    seq(Dias, d requires 0 <= d < Dias => Point(d + 1, acumulada[d]))
  }

  /** The goal line has thirty points for days 1 to 30, day `d` carries
      `d * meta / 30`, and the last point reaches the goal itself. */
  lemma TrajectoryClosedForm(meta: int)
    ensures |Trajectory(meta)| == 30
    ensures forall i :: 0 <= i < 30 ==>
              Trajectory(meta)[i] == Point(i + 1, (i + 1) as real * meta as real / 30.0)
    ensures Trajectory(meta)[29].valor == meta as real
  {
    var daily := meta as real / 30.0;
    forall i | 0 <= i < 30
      ensures Trajectory(meta)[i] == Point(i + 1, (i + 1) as real * meta as real / 30.0)
    {
      RunningSumOfRepeat(daily, 30, i);
      assert (i + 1) as real * daily == (i + 1) as real * meta as real / 30.0;
    }
  }
}
