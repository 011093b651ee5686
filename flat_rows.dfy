/** The first version of the tool: a flat list of rows, each with one set
    of Arrhenius parameters. The list starts with one blank row and can
    never become empty; the rows that parse are plotted one curve each and
    tabulated one table row each, and every kept row remembers its position
    in the list. */
module FlatRows {
  import opened Common
  import opened NumericLiteral
  import opened Kinetics
  import opened Reactions
  import opened Plot

  /** One input row as typed. */
  datatype FlatRow = FlatRow(equation: string, a: string, n: string, ea: string, reference: string)

  const BlankRow: FlatRow := FlatRow("", "", "", "", "")

  class FlatRowList {
    /** `st.session_state.reactions`. */
    var rows: seq<FlatRow>

    ghost predicate Valid()
      reads this
    {
      rows != []
    }

    /** The list starts with one blank row. */
    constructor()
      ensures rows == [BlankRow] && Valid()
    {
      rows := [BlankRow];
    }

    /** The ➕ button of row `i`: a blank row directly below it. */
    method InsertAfter(i: nat)
      requires Valid() && i < |rows|
      modifies this
      ensures rows == old(rows)[..i + 1] + [BlankRow] + old(rows)[i + 1..]
      ensures Valid()
    {
      rows := rows[..i + 1] + [BlankRow] + rows[i + 1..];
    }

    /** The ❌ button of row `i`, offered only while there is more than one
        row. */
    method Delete(i: nat)
      requires Valid() && 1 < |rows| && i < |rows|
      modifies this
      ensures rows == RemoveAt(old(rows), i)
      ensures Valid()
    {
      rows := RemoveAt(rows, i);
    }

    /** The button under the list: a blank row at the end. */
    method Append()
      requires Valid()
      modifies this
      ensures rows == old(rows) + [BlankRow]
      ensures Valid()
    {
      rows := rows + [BlankRow];
    }

    /** The five text inputs of row `i`. */
    method SetRow(i: nat, row: FlatRow)
      requires Valid() && i < |rows|
      modifies this
      ensures rows == old(rows)[i := row]
      ensures Valid()
    {
      rows := rows[i := row];
    }
  }

  /** A kept row: its equation, parsed parameters, reference and position in
      the input list. */
  datatype FlatReaction = FlatReaction(equation: string, channel: Channel, reference: string, index: nat)

  /** One turn of the filter: row `i` is kept when its equation and its three
      numbers are non-empty and the numbers all parse. */
  function ValidateRow(entry: (nat, FlatRow)): (v: Option<FlatReaction>)
    ensures v.Some? ==> v.value.index == entry.0 && v.value.equation == entry.1.equation
                        && v.value.reference == entry.1.reference
  {
    var row := entry.1;
    var c := ParseChannel(ChannelText(row.a, row.n, row.ea));
    if row.equation != "" && c.Some? then Some(FlatReaction(row.equation, c.value, row.reference, entry.0))
    else None
  }

  /** A row is kept exactly when its equation is non-empty and its three
      numbers parse; then it carries their values. */
  lemma ValidateRowIff(i: nat, row: FlatRow)
    ensures ValidateRow((i, row)).Some? <==> row.equation != "" && ParseChannel(ChannelText(row.a, row.n, row.ea)).Some?
    ensures ValidateRow((i, row)).Some? ==>
      ValidateRow((i, row)).value.channel == ParseChannel(ChannelText(row.a, row.n, row.ea)).value
  {
  }

  /** Each row paired with its position, as `enumerate` gives them. */
  function Enumerate(rows: seq<FlatRow>): (es: seq<(nat, FlatRow)>)
    ensures |es| == |rows|
    ensures forall i :: 0 <= i < |rows| ==> es[i] == (i, rows[i])
  {
    seq(|rows|, i requires 0 <= i < |rows| => (i, rows[i]))
  }

  /** `valid_reactions`, specified: the kept rows in list order. */
  function ValidRows(rows: seq<FlatRow>): seq<FlatReaction>
  {
    Kept(ValidateRow, Enumerate(rows))
  }

  /** The kept rows are exactly the rows that parse, each kept with its own
      position. */
  lemma ValidRowsMembers(rows: seq<FlatRow>)
    ensures forall v :: v in ValidRows(rows) <==> v.index < |rows| && ValidateRow((v.index, rows[v.index])) == Some(v)
  {
    var es := Enumerate(rows);
    KeptMembers(ValidateRow, es);
    forall v | v in ValidRows(rows)
      ensures v.index < |rows| && ValidateRow((v.index, rows[v.index])) == Some(v)
    {
      var j :| 0 <= j < |es| && ValidateRow(es[j]) == Some(v);
    }
  }

  /** Over rows paired with their positions, the positions of the kept
      rows stay below the count and rise strictly. */
  lemma {:induction false} KeptPositions(es: seq<(nat, FlatRow)>)
    requires forall j :: 0 <= j < |es| ==> es[j].0 == j
    ensures forall k :: 0 <= k < |Kept(ValidateRow, es)| ==> Kept(ValidateRow, es)[k].index < |es|
    ensures forall k, m :: 0 <= k < m < |Kept(ValidateRow, es)| ==>
      Kept(ValidateRow, es)[k].index < Kept(ValidateRow, es)[m].index
  {
    if es != [] {
      var n := |es| - 1;
      var front := es[..n];
      KeptPositions(front);
      assert es == front + [es[n]];
      KeptSnoc(ValidateRow, front, es[n]);
    }
  }

  /** The positions of the kept rows rise strictly, so the filter keeps list
      order and keeps no row twice. */
  lemma ValidRowsIncreasing(rows: seq<FlatRow>)
    ensures forall k :: 0 <= k < |ValidRows(rows)| ==> ValidRows(rows)[k].index < |rows|
    ensures forall k, m :: 0 <= k < m < |ValidRows(rows)| ==> ValidRows(rows)[k].index < ValidRows(rows)[m].index
  {
    KeptPositions(Enumerate(rows));
  }

  /** The tests the filter loop makes inline, which decide the same as
      `ValidateRow`. */
  lemma ValidateRowSteps(i: nat, row: FlatRow)
    ensures ValidateRow((i, row)) ==
      if row.equation != "" && row.a != "" && row.n != "" && row.ea != ""
         && FieldValue(row.a).Some? && FieldValue(row.n).Some? && FieldValue(row.ea).Some?
      then Some(FlatReaction(row.equation,
        Channel(FieldValue(row.a).value, FieldValue(row.n).value, FieldValue(row.ea).value), row.reference, i))
      else None
  {
  }

  /** The filter loop, which walks the rows with their positions. */
  method FilterRows(rows: seq<FlatRow>) returns (valid: seq<FlatReaction>)
    ensures valid == ValidRows(rows)
  {
    ghost var es := Enumerate(rows);
    valid := [];
    var i := 0;
    while i < |rows|
      invariant 0 <= i <= |rows|
      invariant valid == Kept(ValidateRow, es[..i])
    {
      var row := rows[i];
      assert es[..i + 1] == es[..i] + [es[i]];
      KeptSnoc(ValidateRow, es[..i], es[i]);
      ValidateRowSteps(i, row);
      if row.equation != "" && row.a != "" && row.n != "" && row.ea != "" {
        var aVal := FieldValue(row.a);
        var nVal := FieldValue(row.n);
        var eaVal := FieldValue(row.ea);
        if aVal.Some? && nVal.Some? && eaVal.Some? {
          valid := valid + [FlatReaction(row.equation, Channel(aVal.value, nVal.value, eaVal.value), row.reference, i)];
        }
      }
      i := i + 1;
    }
    assert es[..i] == es;
  }

  /** The legend label: the equation, then the reference in parentheses
      when there is one. */
  function FlatLabel(r: FlatReaction): (legend: string)
    ensures r.reference == "" ==> legend == r.equation
    ensures r.reference != "" ==> legend == r.equation + " (" + r.reference + ")"
  {
    if r.reference == "" then r.equation else r.equation + " (" + r.reference + ")"
  }

  /** The curve of the kept row at position `i` of the kept list, coloured by
      that position. */
  function FlatCurve(s: PlotSettings, r: FlatReaction, i: nat, grid: seq<real>): (c: Curve)
    ensures |c.ys| == |grid| && !c.isComponent && c.legend == FlatLabel(r) && c.color == GenerateColor(i)
    ensures forall m :: 0 <= m < |grid| ==> c.ys[m] == s.log10(Rate(s.law, r.channel, grid[m], s.gasConstant))
  {
    Curve(FlatLabel(r), GenerateColor(i), LogCurve(s.log10, RateCurve(s.law, r.channel, grid, s.gasConstant)), false)
  }

  /** One curve per kept row, in the kept order. */
  function FlatCurves(s: PlotSettings, rs: seq<FlatReaction>, grid: seq<real>): (cs: seq<Curve>)
    ensures |cs| == |rs|
    ensures forall i :: 0 <= i < |rs| ==> cs[i] == FlatCurve(s, rs[i], i, grid)
  {
    if rs == [] then []
    else
      var n := |rs| - 1;
      FlatCurves(s, rs[..n], grid) + [FlatCurve(s, rs[n], n, grid)]
  }

  /** The drawing loop: one curve per kept row, each extending `all_log_k`. */
  method AssembleFlatCurves(s: PlotSettings, rs: seq<FlatReaction>, grid: seq<real>)
    returns (curves: seq<Curve>, allLogK: seq<real>)
    ensures curves == FlatCurves(s, rs, grid)
    ensures allLogK == LogData(curves)
  {
    curves, allLogK := [], [];
    var i := 0;
    while i < |rs|
      invariant 0 <= i <= |rs|
      invariant curves == FlatCurves(s, rs[..i], grid)
      invariant allLogK == LogData(curves)
    {
      var r := rs[i];
      var ks := RateCurve(s.law, r.channel, grid, s.gasConstant);
      var c := Curve(FlatLabel(r), GenerateColor(i), LogCurve(s.log10, ks), false);
      assert rs[..i + 1][..i] == rs[..i];
      LogDataSnoc(curves, c);
      curves := curves + [c];
      allLogK := allLogK + c.ys;
      i := i + 1;
    }
    assert rs[..i] == rs;
  }

  /** In the automatic mode, with at least one kept row, every plotted point
      lies inside the Y-limits. */
  lemma FlatCurvesWithinAutoRange(s: PlotSettings, rs: seq<FlatReaction>, grid: seq<real>)
    requires rs != [] && grid != []
    ensures var curves := FlatCurves(s, rs, grid);
      var lim := YLimits(Auto, LogData(curves));
      lim.Some? && forall k, m :: 0 <= k < |curves| && 0 <= m < |curves[k].ys| ==>
        lim.value.0 <= curves[k].ys[m] <= lim.value.1
  {
    var curves := FlatCurves(s, rs, grid);
    LogDataHasAll(curves);
    assert curves[0].ys[0] in LogData(curves);
    CurvesWithinAutoRange(curves);
  }

  /** One table row: the kept row's fields, then k and log10(k) at each
      table temperature. */
  datatype FlatTableRow = FlatTableRow(
    equation: string,
    channel: Channel,
    reference: string,
    rates: seq<real>,
    logRates: seq<real>)

  function FlatTableRowOf(law: RateLaw, log10: real -> real, gasConstant: real, r: FlatReaction): (row: FlatTableRow)
    ensures |row.rates| == |row.logRates| == |TableTemperatures|
    ensures forall q :: 0 <= q < |TableTemperatures| ==>
      row.rates[q] == Rate(law, r.channel, TableTemperatures[q], gasConstant) && row.logRates[q] == log10(row.rates[q])
    ensures row.reference != "" && (r.reference != "" ==> row.reference == r.reference)
  {
    var ks := seq(|TableTemperatures|, q requires 0 <= q < |TableTemperatures| => Rate(law, r.channel, TableTemperatures[q], gasConstant));
    FlatTableRow(r.equation, r.channel, if r.reference == "" then "N/A" else r.reference, ks, LogCurve(log10, ks))
  }

  /** `data_table`: exactly one row per kept row, in the kept order. */
  function FlatTable(law: RateLaw, log10: real -> real, gasConstant: real, rs: seq<FlatReaction>): (table: seq<FlatTableRow>)
    ensures |table| == |rs|
    ensures forall k :: 0 <= k < |rs| ==> table[k] == FlatTableRowOf(law, log10, gasConstant, rs[k])
  {
    seq(|rs|, k requires 0 <= k < |rs| => FlatTableRowOf(law, log10, gasConstant, rs[k]))
  }

  /** The table loop, one row per kept row. */
  method BuildFlatTable(law: RateLaw, log10: real -> real, gasConstant: real, rs: seq<FlatReaction>)
    returns (table: seq<FlatTableRow>)
    ensures table == FlatTable(law, log10, gasConstant, rs)
  {
    table := [];
    var i := 0;
    while i < |rs|
      invariant 0 <= i <= |rs|
      invariant |table| == i
      invariant forall k :: 0 <= k < i ==> table[k] == FlatTableRowOf(law, log10, gasConstant, rs[k])
    {
      table := table + [FlatTableRowOf(law, log10, gasConstant, rs[i])];
      i := i + 1;
    }
  }

  /** The table agrees with the chart: where the grid passes through a table
      temperature, the row's curve takes the logarithm shown in the table. */
  lemma FlatTableMatchesCurve(s: PlotSettings, r: FlatReaction, i: nat, grid: seq<real>, m: nat, q: nat)
    requires m < |grid| && q < |TableTemperatures| && grid[m] == TableTemperatures[q]
    ensures FlatCurve(s, r, i, grid).ys[m] == FlatTableRowOf(s.law, s.log10, s.gasConstant, r).logRates[q]
  {
  }
}
