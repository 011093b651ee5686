/** The data behind the chart: one curve per kept reaction (plus one per
    channel of a duplicate reaction when the components are shown), their
    colours and legend labels, the values `all_log_k` collected for the
    automatic Y-range, the x-data and x-limits of both axis modes, and the
    temperature ticks of the secondary axis. Drawing itself is not modelled:
    a curve here is what would be handed to the plotting call. */
module Plot {
  import opened Common
  import opened Kinetics
  import opened Reactions

  /** `generate_color`'s palette, in order. */
  const Palette: seq<string> := ["#1f77b4", "#ff7f0e", "#2ca02c", "#d62728", "#9467bd",
                                 "#8c564b", "#e377c2", "#7f7f7f", "#bcbd22", "#17becf"]

  /** `generate_color(index)`: the palette cycled by position. */
  function GenerateColor(index: nat): (c: string)
    ensures c in Palette
  {
    Palette[index % |Palette|]
  }

  lemma PaletteDistinct()
    ensures forall i, j :: 0 <= i < j < |Palette| ==> Palette[i] != Palette[j]
  {
  }

  /** The colours repeat every ten reactions, and any ten consecutive
      reactions get ten different colours. */
  lemma GenerateColorCycle(i: nat, j: nat)
    ensures GenerateColor(i + |Palette|) == GenerateColor(i)
    ensures i < j < i + |Palette| ==> GenerateColor(i) != GenerateColor(j)
  {
    assert (i + 10) % 10 == i % 10;
    PaletteDistinct();
    if i < j < i + |Palette| {
      var q, r, d := i / 10, i % 10, j - i;
      if r + d < 10 {
        assert j == 10 * q + (r + d);
      } else {
        assert j == 10 * (q + 1) + (r + d - 10);
      }
    }
  }

  /** The colour of the reaction at position `i` of the kept list: its own
      colour when one was picked (a non-empty text), the palette's
      otherwise. */
  function CurveColor(r: ValidReaction, i: nat): (c: string)
    ensures !(r.customColor.Some? && r.customColor.value != "") ==> c == GenerateColor(i)
    ensures r.customColor.Some? && r.customColor.value != "" ==> c == r.customColor.value
  {
    if r.customColor.Some? && r.customColor.value != "" then r.customColor.value else GenerateColor(i)
  }

  /** The reference in brackets after a space, or nothing when the reference
      is empty. */
  function ReferenceSuffix(reference: string): string
  {
    if reference == "" then "" else " [" + reference + "]"
  }

  /** The legend label of a reaction's main curve: the equation, for a
      duplicate reaction the number of channels summed, then the
      reference. */
  function CurveLabel(r: ValidReaction): (legend: string)
  {
    var head := if r.kind == Single then r.equation
                else r.equation + " (sum of " + NatToString(|r.channels|) + " channels)";
    head + ReferenceSuffix(r.reference)
  }

  /** A label starts with the equation and ends with the bracketed reference
      when there is one; a single reaction without reference is labelled by
      its equation alone, and a duplicate reaction's label names the number
      of channels summed in decimal. */
  lemma CurveLabelParts(r: ValidReaction)
    ensures |r.equation| <= |CurveLabel(r)| && CurveLabel(r)[..|r.equation|] == r.equation
    ensures r.reference != "" ==> var suffix := " [" + r.reference + "]";
      |suffix| <= |CurveLabel(r)| && CurveLabel(r)[|CurveLabel(r)| - |suffix|..] == suffix
    ensures r.kind == Single && r.reference == "" ==> CurveLabel(r) == r.equation
    ensures r.kind == Duplicate ==>
      (exists digits :: AllDigits(digits) && DigitsValue(digits) == |r.channels|
        && CurveLabel(r) == r.equation + " (sum of " + digits + " channels)" + ReferenceSuffix(r.reference))
  {
    var digits := NatToString(|r.channels|);
    var head := if r.kind == Single then r.equation else r.equation + " (sum of " + digits + " channels)";
    assert CurveLabel(r) == head + ReferenceSuffix(r.reference);
    assert head[..|r.equation|] == r.equation;
  }

  /** The legend label of channel `j` of a duplicate reaction, counted from
      one. */
  function ComponentLabel(j: nat): string
  {
    "  └─ Channel " + NatToString(j + 1)
  }

  /** Different channels get different labels, and the number in a label is
      the channel's position counted from one. */
  lemma ComponentLabelsDistinct(j: nat, k: nat)
    ensures j != k ==> ComponentLabel(j) != ComponentLabel(k)
    ensures DigitsValue(ComponentLabel(j)[|"  └─ Channel "|..]) == j + 1
  {
    var prefix := "  └─ Channel ";
    assert ComponentLabel(j)[|prefix|..] == NatToString(j + 1);
    assert ComponentLabel(k)[|prefix|..] == NatToString(k + 1);
  }

  /** The sidebar settings the curves depend on, with the rate formula and
      the logarithm as parameters. */
  datatype PlotSettings = PlotSettings(
    law: RateLaw,
    log10: real -> real,
    gasConstant: real,
    showComponents: bool)

  /** One plotted line: its label, colour and log10(k) values, and whether
      it is a channel of a duplicate reaction (drawn thinner and dotted). */
  datatype Curve = Curve(legend: string, color: string, ys: seq<real>, isComponent: bool)

  /** The main curve of the reaction at position `i`: a single reaction's
      first channel, or a duplicate reaction's channels summed before the
      logarithm. */
  function MainCurve(s: PlotSettings, r: ValidReaction, i: nat, grid: seq<real>): (c: Curve)
    requires r.channels != []
    ensures |c.ys| == |grid| && !c.isComponent
    ensures c.legend == CurveLabel(r) && c.color == CurveColor(r, i)
  {
    var ys := if r.kind == Single then LogCurve(s.log10, RateCurve(s.law, r.channels[0], grid, s.gasConstant))
              else TotalLogCurve(s.law, s.log10, r.channels, grid, s.gasConstant);
    Curve(CurveLabel(r), CurveColor(r, i), ys, false)
  }

  /** The dotted curve of channel `j` of the reaction at position `i`, in the
      reaction's colour. */
  function ComponentCurve(s: PlotSettings, r: ValidReaction, i: nat, j: nat, grid: seq<real>): (c: Curve)
    requires j < |r.channels|
    ensures |c.ys| == |grid| && c.isComponent
    ensures c.legend == ComponentLabel(j) && c.color == CurveColor(r, i)
    ensures forall m :: 0 <= m < |grid| ==> c.ys[m] == s.log10(Rate(s.law, r.channels[j], grid[m], s.gasConstant))
  {
    Curve(ComponentLabel(j), CurveColor(r, i), LogCurve(s.log10, RateCurve(s.law, r.channels[j], grid, s.gasConstant)), true)
  }

  function ChannelCurves(s: PlotSettings, r: ValidReaction, i: nat, grid: seq<real>): (cs: seq<Curve>)
    ensures |cs| == |r.channels|
    ensures forall j :: 0 <= j < |r.channels| ==> cs[j] == ComponentCurve(s, r, i, j, grid)
  {
    seq(|r.channels|, j requires 0 <= j < |r.channels| => ComponentCurve(s, r, i, j, grid))
  }

  /** The lines drawn for the reaction at position `i`: the main curve, then,
      for a duplicate reaction with the components shown, one curve per
      channel in channel order. */
  function ReactionCurves(s: PlotSettings, r: ValidReaction, i: nat, grid: seq<real>): seq<Curve>
    requires r.channels != []
  {
    [MainCurve(s, r, i, grid)]
    + (if r.kind == Duplicate && s.showComponents then ChannelCurves(s, r, i, grid) else [])
  }

  predicate HasChannels(rs: seq<ValidReaction>)
  {
    forall k :: 0 <= k < |rs| ==> rs[k].channels != []
  }

  /** The lines of each reaction, in the kept order. */
  function CurvesPerReaction(s: PlotSettings, rs: seq<ValidReaction>, grid: seq<real>): (xss: seq<seq<Curve>>)
    requires HasChannels(rs)
    ensures |xss| == |rs|
    ensures forall k :: 0 <= k < |rs| ==> xss[k] == ReactionCurves(s, rs[k], k, grid)
  {
    if rs == [] then []
    else
      var n := |rs| - 1;
      CurvesPerReaction(s, rs[..n], grid) + [ReactionCurves(s, rs[n], n, grid)]
  }

  /** Every line of the chart, reaction by reaction in the kept order. */
  function AllCurves(s: PlotSettings, rs: seq<ValidReaction>, grid: seq<real>): seq<Curve>
    requires HasChannels(rs)
  {
    Flatten(CurvesPerReaction(s, rs, grid))
  }

  /** `all_log_k`: the values of the given curves, one curve after the
      other. */
  function LogData(curves: seq<Curve>): seq<real>
  {
    if curves == [] then [] else LogData(curves[..|curves| - 1]) + curves[|curves| - 1].ys
  }

  lemma LogDataSnoc(curves: seq<Curve>, c: Curve)
    ensures LogData(curves + [c]) == LogData(curves) + c.ys
  {
    assert (curves + [c])[..|curves|] == curves;
  }

  lemma {:induction false} LogDataAppend(curves: seq<Curve>, more: seq<Curve>)
    ensures LogData(curves + more) == LogData(curves) + LogData(more)
  {
    if more == [] {
      assert curves + more == curves;
    } else {
      var n := |more| - 1;
      assert more == more[..n] + [more[n]];
      assert curves + more == (curves + more[..n]) + [more[n]];
      LogDataSnoc(curves + more[..n], more[n]);
      LogDataSnoc(more[..n], more[n]);
      LogDataAppend(curves, more[..n]);
    }
  }

  /** Every value of every curve is among the collected values. */
  lemma {:induction false} LogDataHasAll(curves: seq<Curve>)
    ensures forall k, m :: 0 <= k < |curves| && 0 <= m < |curves[k].ys| ==> curves[k].ys[m] in LogData(curves)
  {
    if curves != [] {
      var n := |curves| - 1;
      LogDataHasAll(curves[..n]);
      assert forall k :: 0 <= k < n ==> curves[..n][k] == curves[k];
    }
  }

  /** Every collected value comes from one of the curves. */
  lemma {:induction false} LogDataFromCurves(curves: seq<Curve>)
    ensures forall y :: y in LogData(curves) ==> exists k, m :: 0 <= k < |curves| && 0 <= m < |curves[k].ys| && curves[k].ys[m] == y
  {
    if curves != [] {
      var n := |curves| - 1;
      LogDataFromCurves(curves[..n]);
      assert forall k :: 0 <= k < n ==> curves[..n][k] == curves[k];
    }
  }

  /** One more reaction adds its lines as one more group. */
  lemma CurvesPerReactionSnoc(s: PlotSettings, rs: seq<ValidReaction>, r: ValidReaction, grid: seq<real>)
    requires HasChannels(rs) && r.channels != []
    ensures HasChannels(rs + [r])
    ensures CurvesPerReaction(s, rs + [r], grid) == CurvesPerReaction(s, rs, grid) + [ReactionCurves(s, r, |rs|, grid)]
  {
    assert (rs + [r])[..|rs|] == rs;
  }

  lemma AllCurvesSnoc(s: PlotSettings, rs: seq<ValidReaction>, r: ValidReaction, grid: seq<real>)
    requires HasChannels(rs) && r.channels != []
    ensures HasChannels(rs + [r])
    ensures AllCurves(s, rs + [r], grid) == AllCurves(s, rs, grid) + ReactionCurves(s, r, |rs|, grid)
  {
    CurvesPerReactionSnoc(s, rs, r, grid);
    FlattenSnoc(CurvesPerReaction(s, rs, grid), ReactionCurves(s, r, |rs|, grid));
  }

  /** The lines of the first `i + 1` reactions extend those of the first
      `i`. */
  lemma AllCurvesPrefix(s: PlotSettings, rs: seq<ValidReaction>, i: nat, grid: seq<real>)
    requires HasChannels(rs) && i < |rs|
    ensures HasChannels(rs[..i]) && HasChannels(rs[..i + 1])
    ensures AllCurves(s, rs[..i + 1], grid) == AllCurves(s, rs[..i], grid) + ReactionCurves(s, rs[i], i, grid)
  {
    assert rs[..i + 1] == rs[..i] + [rs[i]];
    AllCurvesSnoc(s, rs[..i], rs[i], grid);
  }

  /** Without the components option there is exactly one line per kept
      reaction, its main curve, in the kept order. */
  lemma AllCurvesMainOnly(s: PlotSettings, rs: seq<ValidReaction>, grid: seq<real>)
    requires HasChannels(rs) && !s.showComponents
    ensures |AllCurves(s, rs, grid)| == |rs|
    ensures forall k :: 0 <= k < |rs| ==> AllCurves(s, rs, grid)[k] == MainCurve(s, rs[k], k, grid)
  {
    var xss := CurvesPerReaction(s, rs, grid);
    forall k | 0 <= k < |rs| ensures xss[k] == [MainCurve(s, rs[k], k, grid)] { }
    FlattenSingletons(xss);
  }

  /** Component lines appear only with the components option, and every
      line has one value per grid temperature. */
  lemma AllCurvesMembers(s: PlotSettings, rs: seq<ValidReaction>, grid: seq<real>)
    requires HasChannels(rs)
    ensures forall c :: c in AllCurves(s, rs, grid) ==> |c.ys| == |grid| && (c.isComponent ==> s.showComponents)
  {
    var xss := CurvesPerReaction(s, rs, grid);
    FlattenMembers(xss);
    forall c: Curve, k | 0 <= k < |rs| && c in xss[k] ensures |c.ys| == |grid| && (c.isComponent ==> s.showComponents) {
    }
  }

  /** There is something to put in the automatic range as soon as one
      reaction is kept. */
  lemma LogDataNonEmpty(s: PlotSettings, rs: seq<ValidReaction>, grid: seq<real>)
    requires HasChannels(rs) && rs != [] && grid != []
    ensures LogData(AllCurves(s, rs, grid)) != []
  {
    var xss := CurvesPerReaction(s, rs, grid);
    var curves := AllCurves(s, rs, grid);
    var main := MainCurve(s, rs[0], 0, grid);
    assert xss[0][0] == main;
    FlattenMembers(xss);
    assert main in curves;
    var k :| 0 <= k < |curves| && curves[k] == main;
    LogDataHasAll(curves);
    assert curves[k].ys[0] in LogData(curves);
  }

  /** A main curve's value at each grid temperature is the logarithm of the
      reaction's total rate there: for a duplicate reaction the sum of its
      channels, for a single reaction (which has one channel) its rate. */
  lemma MainCurveIsLogOfTotal(s: PlotSettings, r: ValidReaction, i: nat, grid: seq<real>)
    requires r.channels != [] && (r.kind == Single ==> |r.channels| == 1)
    ensures forall m :: 0 <= m < |grid| ==>
      MainCurve(s, r, i, grid).ys[m] == s.log10(TotalRate(s.law, r.channels, grid[m], s.gasConstant))
  {
    if r.kind == Single {
      assert r.channels == [r.channels[0]];
      forall m | 0 <= m < |grid|
        ensures TotalRate(s.law, r.channels, grid[m], s.gasConstant) == Rate(s.law, r.channels[0], grid[m], s.gasConstant)
      {
        TotalRateSingle(s.law, r.channels[0], grid[m], s.gasConstant);
      }
    }
  }

  /** The lines of the first `j + 1` channels extend those of the first
      `j`. */
  lemma ChannelCurvesPrefix(s: PlotSettings, r: ValidReaction, i: nat, j: nat, grid: seq<real>)
    requires j < |r.channels|
    ensures ChannelCurves(s, r, i, grid)[..j + 1] == ChannelCurves(s, r, i, grid)[..j]
      + [Curve(ComponentLabel(j), CurveColor(r, i), LogCurve(s.log10, RateCurve(s.law, r.channels[j], grid, s.gasConstant)), true)]
  {
    var lines := ChannelCurves(s, r, i, grid);
    assert lines[..j + 1] == lines[..j] + [lines[j]];
  }

  /** The first loop of a duplicate reaction: one rate curve per channel,
      then their sum and its logarithm. */
  method SumChannels(s: PlotSettings, r: ValidReaction, grid: seq<real>)
    returns (components: seq<seq<real>>, ys: seq<real>)
    ensures components == Kinetics.ComponentCurves(s.law, r.channels, grid, s.gasConstant)
    ensures ys == TotalLogCurve(s.law, s.log10, r.channels, grid, s.gasConstant)
  {
    components := [];
    var j := 0;
    while j < |r.channels|
      invariant 0 <= j <= |r.channels|
      invariant |components| == j
      invariant forall m :: 0 <= m < j ==> components[m] == RateCurve(s.law, r.channels[m], grid, s.gasConstant)
    {
      components := components + [RateCurve(s.law, r.channels[j], grid, s.gasConstant)];
      j := j + 1;
    }
    ys := LogCurve(s.log10, SumCurves(components, |grid|));
  }

  /** The second loop of a duplicate reaction: a dotted line per channel,
      each one's values collected in turn. */
  method ChannelLines(s: PlotSettings, r: ValidReaction, i: nat, grid: seq<real>, components: seq<seq<real>>)
    returns (lines: seq<Curve>, values: seq<real>)
    requires components == Kinetics.ComponentCurves(s.law, r.channels, grid, s.gasConstant)
    ensures lines == ChannelCurves(s, r, i, grid)
    ensures values == LogData(lines)
  {
    var color := CurveColor(r, i);
    lines, values := [], [];
    var j := 0;
    while j < |components|
      invariant 0 <= j <= |components|
      invariant lines == ChannelCurves(s, r, i, grid)[..j]
      invariant values == LogData(lines)
    {
      var c := Curve(ComponentLabel(j), color, LogCurve(s.log10, components[j]), true);
      ChannelCurvesPrefix(s, r, i, j, grid);
      LogDataSnoc(lines, c);
      lines := lines + [c];
      values := values + c.ys;
      j := j + 1;
    }
  }

  /** One turn of the drawing loop: the reaction's main line, then its
      channel lines when they are shown, each extending `all_log_k`. */
  method AddReactionCurves(s: PlotSettings, r: ValidReaction, i: nat, grid: seq<real>,
                           curves: seq<Curve>, allLogK: seq<real>)
    returns (curves': seq<Curve>, allLogK': seq<real>)
    requires r.channels != [] && allLogK == LogData(curves)
    ensures curves' == curves + ReactionCurves(s, r, i, grid)
    ensures allLogK' == LogData(curves')
  {
    var color := CurveColor(r, i);
    var main: Curve;
    var components: seq<seq<real>> := [];
    if r.kind == Single {
      var ks := RateCurve(s.law, r.channels[0], grid, s.gasConstant);
      main := Curve(CurveLabel(r), color, LogCurve(s.log10, ks), false);
    } else {
      var ys;
      components, ys := SumChannels(s, r, grid);
      main := Curve(CurveLabel(r), color, ys, false);
    }
    assert main == MainCurve(s, r, i, grid);
    LogDataSnoc(curves, main);
    curves' := curves + [main];
    allLogK' := allLogK + main.ys;
    if r.kind == Duplicate && s.showComponents {
      var lines, values := ChannelLines(s, r, i, grid, components);
      LogDataAppend(curves', lines);
      curves', allLogK' := curves' + lines, allLogK' + values;
    }
  }

  /** The loop that draws the curves and extends `all_log_k`, reaction by
      reaction in the kept order. */
  method AssembleCurves(s: PlotSettings, rs: seq<ValidReaction>, grid: seq<real>)
    returns (curves: seq<Curve>, allLogK: seq<real>)
    requires HasChannels(rs)
    ensures curves == AllCurves(s, rs, grid)
    ensures allLogK == LogData(curves)
  {
    curves, allLogK := [], [];
    var i := 0;
    while i < |rs|
      invariant 0 <= i <= |rs|
      invariant HasChannels(rs[..i])
      invariant curves == AllCurves(s, rs[..i], grid)
      invariant allLogK == LogData(curves)
    {
      AllCurvesPrefix(s, rs, i, grid);
      curves, allLogK := AddReactionCurves(s, rs[i], i, grid, curves, allLogK);
      i := i + 1;
    }
    assert rs[..i] == rs;
  }

  /** The choice of the x-axis radio button. */
  datatype XAxis = Temperature | InverseTemperature

  /** The temperature inputs accept whole kelvins from 100 to 5000. */
  predicate TemperatureInput(t: int)
  {
    100 <= t <= 5000
  }

  /** The x-values of every curve: the grid itself, or 1000/T. */
  function XData(axis: XAxis, grid: seq<real>): (xs: seq<real>)
    requires forall m :: 0 <= m < |grid| ==> grid[m] > 0.0
    ensures |xs| == |grid|
    ensures axis == Temperature ==> xs == grid
    ensures axis == InverseTemperature ==> forall m :: 0 <= m < |grid| ==> xs[m] * grid[m] == 1000.0
  {
    seq(|grid|, m requires 0 <= m < |grid| => if axis == InverseTemperature then 1000.0 / grid[m] else grid[m])
  }

  /** The x-limits: the temperature range, or its reciprocals in swapped
      order so that high temperatures sit on the left. */
  function XLimits(axis: XAxis, tMin: int, tMax: int): (lim: (real, real))
    requires TemperatureInput(tMin) && TemperatureInput(tMax)
  {
    if axis == InverseTemperature then (1000.0 / tMax as real, 1000.0 / tMin as real)
    else (tMin as real, tMax as real)
  }

  /** 1000/T falls as T rises. */
  lemma InverseDecreasing(t: real, u: real)
    requires 0.0 < t <= u
    ensures 1000.0 / u <= 1000.0 / t
    ensures t < u ==> 1000.0 / u < 1000.0 / t
  {
    var a, b := 1000.0 / t, 1000.0 / u;
    assert a * t == 1000.0 && b * u == 1000.0;
    assert a - b == b * (u - t) / t by {
      assert (a - b) * t == b * u - b * t;
    }
    assert b > 0.0;
  }

  /** The limits keep the order of the two inputs in both modes: they
      increase when the minimum is below the maximum, also in 1000/T mode
      where they are swapped, and they are inverted when the inputs are.
      Either way a grid between the two temperatures is positive, and each of
      its x-values lies between the limits. */
  lemma XLimitsHoldData(axis: XAxis, tMin: int, tMax: int, grid: seq<real>)
    requires TemperatureInput(tMin) && TemperatureInput(tMax)
    requires forall m :: 0 <= m < |grid| ==> Between(tMin as real, tMax as real, grid[m])
    ensures forall m :: 0 <= m < |grid| ==> grid[m] > 0.0
    ensures tMin < tMax ==> XLimits(axis, tMin, tMax).0 < XLimits(axis, tMin, tMax).1
    ensures tMax < tMin ==> XLimits(axis, tMin, tMax).1 < XLimits(axis, tMin, tMax).0
    ensures forall m :: 0 <= m < |grid| ==>
      Between(XLimits(axis, tMin, tMax).0, XLimits(axis, tMin, tMax).1, XData(axis, grid)[m])
    ensures tMin <= tMax ==> forall m :: 0 <= m < |grid| ==>
      XLimits(axis, tMin, tMax).0 <= XData(axis, grid)[m] <= XLimits(axis, tMin, tMax).1
  {
    var lo, hi := if tMin <= tMax then tMin else tMax, if tMin <= tMax then tMax else tMin;
    InverseDecreasing(lo as real, hi as real);
    forall m | 0 <= m < |grid|
      ensures Between(XLimits(axis, tMin, tMax).0, XLimits(axis, tMin, tMax).1, XData(axis, grid)[m])
    {
      InverseDecreasing(lo as real, grid[m]);
      InverseDecreasing(grid[m], hi as real);
    }
  }

  /** The grid itself, built from the sidebar's inputs in whichever order
      they were entered, meets the premise above. */
  lemma GridWithinInputs(tMin: int, tMax: int)
    requires TemperatureInput(tMin) && TemperatureInput(tMax)
    ensures var grid := Linspace(tMin as real, tMax as real, GridSize);
      forall m :: 0 <= m < |grid| ==> Between(tMin as real, tMax as real, grid[m])
  {
    LinspaceBounds(tMin as real, tMax as real, GridSize);
  }

  /** The candidate temperatures of the secondary axis. */
  const TickCandidates: seq<int> := [300, 400, 500, 700, 1000, 1500, 2000, 2500, 3000]

  /** The elements of `xs` between `lo` and `hi`, in their order. */
  function InRange(xs: seq<int>, lo: int, hi: int): (ys: seq<int>)
    ensures forall y :: y in ys <==> y in xs && lo <= y <= hi
    ensures forall k :: 0 <= k < |ys| ==> lo <= ys[k] <= hi
  {
    if xs == [] then []
    else
      var last := xs[|xs| - 1];
      InRange(xs[..|xs| - 1], lo, hi) + (if lo <= last <= hi then [last] else [])
  }

  predicate StrictlyIncreasing(xs: seq<int>)
  {
    forall k, m :: 0 <= k < m < |xs| ==> xs[k] < xs[m]
  }

  /** Keeping some elements of an increasing list keeps it increasing. */
  lemma {:induction false} InRangeIncreasing(xs: seq<int>, lo: int, hi: int)
    requires StrictlyIncreasing(xs)
    ensures StrictlyIncreasing(InRange(xs, lo, hi))
  {
    if xs != [] {
      var n := |xs| - 1;
      InRangeIncreasing(xs[..n], lo, hi);
      var front := InRange(xs[..n], lo, hi);
      forall y | y in front ensures y < xs[n] {
        var k :| 0 <= k < n && xs[..n][k] == y;
      }
      if lo <= xs[n] <= hi {
        var ys := front + [xs[n]];
        forall k, m | 0 <= k < m < |ys| ensures ys[k] < ys[m] {
          if m == |front| {
            assert ys[k] == front[k];
            assert front[k] in front;
          }
        }
      }
    }
  }

  /** No element lies in a range whose lower end is above its upper end. */
  lemma {:induction false} InRangeReversed(xs: seq<int>, lo: int, hi: int)
    requires hi < lo
    ensures InRange(xs, lo, hi) == []
  {
    if xs != [] {
      InRangeReversed(xs[..|xs| - 1], lo, hi);
    }
  }

  /** `temp_ticks`: the candidates inside the temperature range. */
  function TempTicks(tMin: int, tMax: int): (ticks: seq<int>)
    ensures forall t :: t in ticks <==> t in TickCandidates && tMin <= t <= tMax
    ensures forall k :: 0 <= k < |ticks| ==> tMin <= ticks[k] <= tMax
  {
    InRange(TickCandidates, tMin, tMax)
  }

  /** The ticks keep the candidates' rising order, so their positions on the
      1000/T axis fall from left to right, and each lies within the
      x-limits of that axis. */
  lemma TempTicksOrdered(tMin: int, tMax: int)
    requires TemperatureInput(tMin) && TemperatureInput(tMax)
    ensures StrictlyIncreasing(TempTicks(tMin, tMax))
    ensures var ticks := TempTicks(tMin, tMax);
      forall k, m :: 0 <= k < m < |ticks| ==> InverseTicks(ticks)[m] < InverseTicks(ticks)[k]
    ensures var ticks := TempTicks(tMin, tMax); var lim := XLimits(InverseTemperature, tMin, tMax);
      forall k :: 0 <= k < |ticks| ==> lim.0 <= InverseTicks(ticks)[k] <= lim.1
  {
    InRangeIncreasing(TickCandidates, tMin, tMax);
    var ticks := TempTicks(tMin, tMax);
    forall k | 0 <= k < |ticks| ensures ticks[k] > 0 {
      assert ticks[k] in ticks;
    }
    forall k, m | 0 <= k < m < |ticks| ensures InverseTicks(ticks)[m] < InverseTicks(ticks)[k] {
      InverseDecreasing(ticks[k] as real, ticks[m] as real);
    }
    forall k | 0 <= k < |ticks|
      ensures XLimits(InverseTemperature, tMin, tMax).0 <= InverseTicks(ticks)[k] <= XLimits(InverseTemperature, tMin, tMax).1
    {
      assert ticks[k] in ticks;
      InverseDecreasing(tMin as real, ticks[k] as real);
      InverseDecreasing(ticks[k] as real, tMax as real);
    }
  }

  /** With the minimum entered above the maximum no tick is drawn. */
  lemma TempTicksReversed(tMin: int, tMax: int)
    requires tMax < tMin
    ensures TempTicks(tMin, tMax) == []
  {
    InRangeReversed(TickCandidates, tMin, tMax);
  }

  /** `inv_temp_ticks`: where each tick sits on the 1000/T axis. */
  function InverseTicks(ticks: seq<int>): (xs: seq<real>)
    requires forall k :: 0 <= k < |ticks| ==> ticks[k] > 0
    ensures |xs| == |ticks|
    ensures forall k :: 0 <= k < |ticks| ==> xs[k] * ticks[k] as real == 1000.0
  {
    seq(|ticks|, k requires 0 <= k < |ticks| => 1000.0 / ticks[k] as real)
  }

  /** A tick's label: the temperature followed by "K". */
  function TickLabel(t: nat): (legend: string)
    ensures |legend| >= 2 && legend[|legend| - 1] == 'K' && AllDigits(legend[..|legend| - 1])
    ensures DigitsValue(legend[..|legend| - 1]) == t
  {
    var digits := NatToString(t);
    assert (digits + "K")[..|digits|] == digits;
    digits + "K"
  }

  /** The choice of the Y-range radio button, with the manual bounds. */
  datatype YMode = Auto | Manual(lo: real, hi: real)

  function SeqMin(xs: seq<real>): (m: real)
    requires xs != []
    ensures m in xs && forall k :: 0 <= k < |xs| ==> m <= xs[k]
  {
    if |xs| == 1 then xs[0]
    else
      var rest := SeqMin(xs[..|xs| - 1]);
      assert forall k :: 0 <= k < |xs| - 1 ==> xs[..|xs| - 1][k] == xs[k];
      if xs[|xs| - 1] < rest then xs[|xs| - 1] else rest
  }

  function SeqMax(xs: seq<real>): (m: real)
    requires xs != []
    ensures m in xs && forall k :: 0 <= k < |xs| ==> xs[k] <= m
  {
    if |xs| == 1 then xs[0]
    else
      var rest := SeqMax(xs[..|xs| - 1]);
      assert forall k :: 0 <= k < |xs| - 1 ==> xs[..|xs| - 1][k] == xs[k];
      if xs[|xs| - 1] > rest then xs[|xs| - 1] else rest
  }

  /** The Y-limits set on the chart, if any: the manual bounds as entered,
      or the range of the collected values widened by a tenth of its span on
      each side; with nothing collected the automatic mode sets none. */
  function YLimits(mode: YMode, data: seq<real>): (lim: Option<(real, real)>)
    ensures mode.Manual? ==> lim == Some((mode.lo, mode.hi))
    ensures mode == Auto ==> (lim.None? <==> data == [])
  {
    match mode
    case Manual(lo, hi) => Some((lo, hi))
    case Auto =>
      if data == [] then None
      else
        var low, high := SeqMin(data), SeqMax(data);
        var margin := (high - low) * 0.1;
        Some((low - margin, high + margin))
  }

  /** The automatic range holds every collected value, with the lowest and
      highest values exactly a tenth of the span inside its ends. */
  lemma AutoRangeHoldsData(data: seq<real>)
    requires data != []
    ensures var lim := YLimits(Auto, data).value;
      (forall k :: 0 <= k < |data| ==> lim.0 <= data[k] <= lim.1)
      && SeqMin(data) - lim.0 == lim.1 - SeqMax(data) == (SeqMax(data) - SeqMin(data)) / 10.0
  {
  }

  /** In the automatic mode every point of every line whose values were
      collected lies inside the Y-limits. */
  lemma CurvesWithinAutoRange(curves: seq<Curve>)
    requires LogData(curves) != []
    ensures var lim := YLimits(Auto, LogData(curves));
      lim.Some? && forall k, m :: 0 <= k < |curves| && 0 <= m < |curves[k].ys| ==>
        lim.value.0 <= curves[k].ys[m] <= lim.value.1
  {
    var data := LogData(curves);
    LogDataHasAll(curves);
    AutoRangeHoldsData(data);
    forall k, m | 0 <= k < |curves| && 0 <= m < |curves[k].ys|
      ensures YLimits(Auto, data).value.0 <= curves[k].ys[m] <= YLimits(Auto, data).value.1
    {
      var j :| 0 <= j < |data| && data[j] == curves[k].ys[m];
    }
  }

  /** In the automatic mode every plotted point of every line lies inside
      the Y-limits. */
  lemma PlottedWithinAutoRange(s: PlotSettings, rs: seq<ValidReaction>, grid: seq<real>)
    requires HasChannels(rs) && rs != [] && grid != []
    ensures var curves := AllCurves(s, rs, grid);
      var lim := YLimits(Auto, LogData(curves));
      lim.Some? && forall k, m :: 0 <= k < |curves| && 0 <= m < |curves[k].ys| ==>
        lim.value.0 <= curves[k].ys[m] <= lim.value.1
  {
    LogDataNonEmpty(s, rs, grid);
    CurvesWithinAutoRange(AllCurves(s, rs, grid));
  }
}
