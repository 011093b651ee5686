/** The rate formula `calculate_rate_constant(T, A, n, Ea, R)`, the
    temperature grid `np.linspace(T_min, T_max, 500)`, and the arithmetic the
    plot and the table build on top of them: a duplicate reaction's rate is the
    sum of its channels' rates, taken before the logarithm.

    The formula k = A·T^n·exp(−Ea/(R·T)) and `np.log10` are floating-point
    library calls; they enter the model as function-valued parameters, so
    every property below holds whatever they compute. */
module Kinetics {

  /** `calculate_rate_constant` with its arguments in the source's order:
      temperature, A, n, Ea, gas constant. */
  type RateLaw = (real, real, real, real, real) -> real

  /** The gas constant's default, in cal/(mol·K). */
  const DefaultGasConstant: real := 1.987

  /** Number of temperatures on the plotting grid. */
  const GridSize: nat := 500

  /** The temperatures of the summary table. */
  const TableTemperatures: seq<real> := [300.0, 1000.0, 2000.0]

  /** One rate channel with its parsed parameters. */
  datatype Channel = Channel(a: real, n: real, ea: real)

  function Rate(law: RateLaw, c: Channel, t: real, r: real): real
  {
    law(t, c.a, c.n, c.ea, r)
  }

  /** The rate of a set of channels at one temperature: Python's `sum`,
      which adds from left to right starting at zero. */
  function TotalRate(law: RateLaw, cs: seq<Channel>, t: real, r: real): real
  {
    if cs == [] then 0.0 else TotalRate(law, cs[..|cs| - 1], t, r) + Rate(law, cs[|cs| - 1], t, r)
  }

  /** Splitting the channels splits the sum. */
  lemma {:induction false} TotalRateAppend(law: RateLaw, cs: seq<Channel>, ds: seq<Channel>, t: real, r: real)
    ensures TotalRate(law, cs + ds, t, r) == TotalRate(law, cs, t, r) + TotalRate(law, ds, t, r)
  {
    if ds != [] {
      var last := |ds| - 1;
      assert (cs + ds)[..|cs + ds| - 1] == cs + ds[..last];
      TotalRateAppend(law, cs, ds[..last], t, r);
    } else {
      assert cs + ds == cs;
    }
  }

  /** A reaction with one channel has that channel's rate. */
  lemma TotalRateSingle(law: RateLaw, c: Channel, t: real, r: real)
    ensures TotalRate(law, [c], t, r) == Rate(law, c, t, r)
  {
    assert [c][..0] == [];
  }

  /** Taking one element out of a sequence takes it out of its multiset. */
  lemma MultisetWithout<T>(s: seq<T>, k: nat)
    requires k < |s|
    ensures s == s[..k] + [s[k]] + s[k + 1..]
    ensures multiset(s) == multiset(s[..k] + s[k + 1..]) + multiset{s[k]}
  {
    assert s == s[..k] + [s[k]] + s[k + 1..];
  }

  lemma MultisetCancel<T>(a: multiset<T>, b: multiset<T>, x: T)
    requires a + multiset{x} == b + multiset{x}
    ensures a == b
  {
    assert a == a + multiset{x} - multiset{x};
    assert b == b + multiset{x} - multiset{x};
  }

  /** Taking the last element out of one sequence and an equal element out of
      a permutation of it leaves permutations of each other. */
  lemma MatchingRemoval<T>(cs: seq<T>, ds: seq<T>, k: nat)
    requires multiset(cs) == multiset(ds) && cs != []
    requires k < |ds| && ds[k] == cs[|cs| - 1]
    ensures multiset(cs[..|cs| - 1]) == multiset(ds[..k] + ds[k + 1..])
  {
    var n := |cs| - 1;
    MultisetWithout(cs, n);
    MultisetWithout(ds, k);
    assert cs[..n] + cs[n + 1..] == cs[..n];
    MultisetCancel(multiset(cs[..n]), multiset(ds[..k] + ds[k + 1..]), cs[n]);
  }

  /** Taking one channel out of a list takes its rate out of the total. */
  lemma TotalRateWithout(law: RateLaw, ds: seq<Channel>, k: nat, t: real, r: real)
    requires k < |ds|
    ensures TotalRate(law, ds, t, r)
         == TotalRate(law, ds[..k] + ds[k + 1..], t, r) + Rate(law, ds[k], t, r)
  {
    assert ds == ds[..k] + ([ds[k]] + ds[k + 1..]);
    TotalRateAppend(law, ds[..k], [ds[k]] + ds[k + 1..], t, r);
    TotalRateAppend(law, [ds[k]], ds[k + 1..], t, r);
    TotalRateAppend(law, ds[..k], ds[k + 1..], t, r);
    TotalRateSingle(law, ds[k], t, r);
  }

  /** The order of the channels does not change the total. */
  lemma {:induction false} TotalRatePermutation(law: RateLaw, cs: seq<Channel>, ds: seq<Channel>, t: real, r: real)
    requires multiset(cs) == multiset(ds)
    ensures TotalRate(law, cs, t, r) == TotalRate(law, ds, t, r)
    decreases |cs|
  {
    if cs != [] {
      var n := |cs| - 1;
      assert cs[n] in multiset(ds);
      var k :| 0 <= k < |ds| && ds[k] == cs[n];
      MatchingRemoval(cs, ds, k);
      TotalRatePermutation(law, cs[..n], ds[..k] + ds[k + 1..], t, r);
      TotalRateWithout(law, ds, k, t, r);
    } else {
      assert |ds| == |multiset(ds)| == 0;
    }
  }

  /** When every channel's rate is positive, so is the total, and its
      logarithm is defined. */
  lemma {:induction false} TotalRatePositive(law: RateLaw, cs: seq<Channel>, t: real, r: real)
    requires cs != []
    requires forall j :: 0 <= j < |cs| ==> Rate(law, cs[j], t, r) > 0.0
    ensures TotalRate(law, cs, t, r) > 0.0
  {
    var rest := cs[..|cs| - 1];
    if rest != [] {
      assert forall j :: 0 <= j < |rest| ==> rest[j] == cs[j];
      TotalRatePositive(law, rest, t, r);
    }
  }

  /** `np.linspace(lo, hi, n)`: n evenly spaced temperatures from lo to hi,
      both ends included. Its exact real values stand in for the floats. */
  function Linspace(lo: real, hi: real, n: nat): (grid: seq<real>)
    requires n >= 2
    ensures |grid| == n && grid[0] == lo && grid[n - 1] == hi
  {
    var step := (hi - lo) / ((n - 1) as real);
    seq(n, i requires 0 <= i < n => if i == n - 1 then hi else lo + (i as real) * step)
  }

  /** `x` lies between `a` and `b`, whichever of the two is the larger. */
  predicate Between(a: real, b: real, x: real)
  {
    a <= x <= b || b <= x <= a
  }

  /** The grid stays between its ends, also when it runs downward because the
      minimum entered is above the maximum, so with the temperature bounds of
      the sidebar every grid temperature is positive. */
  lemma LinspaceBounds(lo: real, hi: real, n: nat)
    requires n >= 2
    ensures forall i :: 0 <= i < n ==> Between(lo, hi, Linspace(lo, hi, n)[i])
    ensures lo <= hi ==> forall i :: 0 <= i < n ==> lo <= Linspace(lo, hi, n)[i] <= hi
  {
    var grid := Linspace(lo, hi, n);
    var step := (hi - lo) / ((n - 1) as real);
    assert step * ((n - 1) as real) == hi - lo;
    forall i | 0 <= i < n - 1 ensures Between(lo, hi, grid[i]) {
      if step >= 0.0 {
        assert 0.0 <= (i as real) * step <= ((n - 1) as real) * step;
      } else {
        assert ((n - 1) as real) * step <= (i as real) * step <= 0.0;
      }
    }
  }

  /** `calculate_rate_constant` applied to the whole grid: numpy evaluates the
      formula temperature by temperature. */
  function RateCurve(law: RateLaw, c: Channel, grid: seq<real>, r: real): (ks: seq<real>)
    ensures |ks| == |grid|
    ensures forall i :: 0 <= i < |grid| ==> ks[i] == Rate(law, c, grid[i], r)
  {
    seq(|grid|, i requires 0 <= i < |grid| => Rate(law, c, grid[i], r))
  }

  /** `np.log10` applied element by element. */
  function LogCurve(log10: real -> real, ks: seq<real>): (ys: seq<real>)
    ensures |ys| == |ks|
    ensures forall i :: 0 <= i < |ks| ==> ys[i] == log10(ks[i])
  {
    seq(|ks|, i requires 0 <= i < |ks| => log10(ks[i]))
  }

  /** `k_components`: one rate curve per channel, in channel order. */
  function ComponentCurves(law: RateLaw, cs: seq<Channel>, grid: seq<real>, r: real): (curves: seq<seq<real>>)
    ensures |curves| == |cs|
    ensures forall j :: 0 <= j < |cs| ==> curves[j] == RateCurve(law, cs[j], grid, r)
  {
    seq(|cs|, j requires 0 <= j < |cs| => RateCurve(law, cs[j], grid, r))
  }

  predicate SameLength(curves: seq<seq<real>>, n: nat)
  {
    forall j :: 0 <= j < |curves| ==> |curves[j]| == n
  }

  /** The sum of column i over the curves, added curve by curve. */
  function ColumnSum(curves: seq<seq<real>>, i: nat): real
    requires forall j :: 0 <= j < |curves| ==> i < |curves[j]|
  {
    if curves == [] then 0.0 else ColumnSum(curves[..|curves| - 1], i) + curves[|curves| - 1][i]
  }

  /** `np.sum(curves, axis=0)`: the element-by-element sum of equally long
      curves. */
  function SumCurves(curves: seq<seq<real>>, n: nat): (total: seq<real>)
    requires SameLength(curves, n)
    ensures |total| == n
  {
    seq(n, i requires 0 <= i < n => ColumnSum(curves, i))
  }

  /** At every grid temperature the summed curve of a duplicate reaction is
      the total rate of its channels at that temperature. */
  lemma {:induction false} ColumnSumIsTotalRate(law: RateLaw, cs: seq<Channel>, grid: seq<real>, r: real, i: nat)
    requires i < |grid|
    ensures ColumnSum(ComponentCurves(law, cs, grid, r), i) == TotalRate(law, cs, grid[i], r)
  {
    var curves := ComponentCurves(law, cs, grid, r);
    if cs != [] {
      var rest := cs[..|cs| - 1];
      assert curves[..|curves| - 1] == ComponentCurves(law, rest, grid, r);
      ColumnSumIsTotalRate(law, rest, grid, r, i);
    }
  }

  /** The curve of a duplicate reaction: its channels' rates are summed on
      the grid first and the logarithm is taken of the sum. */
  function TotalLogCurve(law: RateLaw, log10: real -> real, cs: seq<Channel>, grid: seq<real>, r: real): (ys: seq<real>)
    ensures |ys| == |grid|
    ensures forall i :: 0 <= i < |grid| ==> ys[i] == log10(TotalRate(law, cs, grid[i], r))
  {
    var curves := ComponentCurves(law, cs, grid, r);
    forall i | 0 <= i < |grid| ensures ColumnSum(curves, i) == TotalRate(law, cs, grid[i], r) {
      ColumnSumIsTotalRate(law, cs, grid, r, i);
    }
    LogCurve(log10, SumCurves(curves, |grid|))
  }
}
