/** The detail table under the chart: rate constants of every kept reaction
    at 300, 1000 and 2000 K. A single reaction takes one row; a duplicate
    reaction takes one row per channel followed by one row for the sum of
    its channels. Number formatting is not modelled: a row carries the
    parsed parameters and the exact rates that would be formatted. */
module Table {
  import opened Common
  import opened Kinetics
  import opened Reactions
  import opened Plot

  /** The text of an empty cell. */
  const Dash: string := "-"

  /** The "type" column. */
  datatype RowKind = SingleRate | DuplicateChannel(number: nat) | DuplicateTotal

  /** One row: the equation, its kind, the channel's parameters (none on a
      sum row, whose parameter cells are dashes), the reference cell, the
      two style cells and k at each table temperature. */
  datatype Row = Row(
    equation: string,
    kind: RowKind,
    params: Option<Channel>,
    reference: string,
    lineStyle: string,
    markerStyle: string,
    rates: seq<real>)

  /** `reference or 'N/A'`. */
  function ReferenceCell(reference: string): (cell: string)
    ensures cell != ""
    ensures reference != "" ==> cell == reference
  {
    if reference == "" then "N/A" else reference
  }

  /** k of one channel at each table temperature. */
  function ChannelRates(law: RateLaw, c: Channel, gasConstant: real): (ks: seq<real>)
    ensures |ks| == |TableTemperatures|
    ensures forall q :: 0 <= q < |ks| ==> ks[q] == Rate(law, c, TableTemperatures[q], gasConstant)
  {
    seq(|TableTemperatures|, q requires 0 <= q < |TableTemperatures| => Rate(law, c, TableTemperatures[q], gasConstant))
  }

  /** The sum of the channels' k at each table temperature. */
  function TotalRates(law: RateLaw, cs: seq<Channel>, gasConstant: real): (ks: seq<real>)
    ensures |ks| == |TableTemperatures|
    ensures forall q :: 0 <= q < |ks| ==> ks[q] == TotalRate(law, cs, TableTemperatures[q], gasConstant)
  {
    seq(|TableTemperatures|, q requires 0 <= q < |TableTemperatures| => TotalRate(law, cs, TableTemperatures[q], gasConstant))
  }

  /** The row of a single reaction: its first channel, its own styles. */
  function SingleRow(law: RateLaw, gasConstant: real, r: ValidReaction): Row
    requires r.channels != []
  {
    Row(r.equation, SingleRate, Some(r.channels[0]), ReferenceCell(r.reference),
        r.lineStyle, r.markerStyle, ChannelRates(law, r.channels[0], gasConstant))
  }

  /** The row of channel `j` of a duplicate reaction, numbered from one, with
      dashes for the styles. */
  function ChannelRow(law: RateLaw, gasConstant: real, r: ValidReaction, j: nat): Row
    requires j < |r.channels|
  {
    Row(r.equation, DuplicateChannel(j + 1), Some(r.channels[j]), ReferenceCell(r.reference),
        Dash, Dash, ChannelRates(law, r.channels[j], gasConstant))
  }

  /** The sum row of a duplicate reaction: dashes for the parameters, the
      reaction's styles, the channels' k added up. */
  function TotalRow(law: RateLaw, gasConstant: real, r: ValidReaction): Row
  {
    Row(r.equation, DuplicateTotal, None, ReferenceCell(r.reference),
        r.lineStyle, r.markerStyle, TotalRates(law, r.channels, gasConstant))
  }

  function ChannelRows(law: RateLaw, gasConstant: real, r: ValidReaction): (rows: seq<Row>)
    ensures |rows| == |r.channels|
    ensures forall j :: 0 <= j < |r.channels| ==> rows[j] == ChannelRow(law, gasConstant, r, j)
  {
    seq(|r.channels|, j requires 0 <= j < |r.channels| => ChannelRow(law, gasConstant, r, j))
  }

  /** The rows of one reaction. */
  function ReactionRows(law: RateLaw, gasConstant: real, r: ValidReaction): seq<Row>
    requires r.channels != []
  {
    if r.kind == Single then [SingleRow(law, gasConstant, r)]
    else ChannelRows(law, gasConstant, r) + [TotalRow(law, gasConstant, r)]
  }

  function RowsPerReaction(law: RateLaw, gasConstant: real, rs: seq<ValidReaction>): (xss: seq<seq<Row>>)
    requires HasChannels(rs)
    ensures |xss| == |rs|
    ensures forall k :: 0 <= k < |rs| ==> xss[k] == ReactionRows(law, gasConstant, rs[k])
  {
    seq(|rs|, k requires 0 <= k < |rs| => ReactionRows(law, gasConstant, rs[k]))
  }

  /** `data_table`: the rows of every kept reaction, in the kept order. */
  function TableRows(law: RateLaw, gasConstant: real, rs: seq<ValidReaction>): seq<Row>
    requires HasChannels(rs)
  {
    Flatten(RowsPerReaction(law, gasConstant, rs))
  }

  /** A single reaction takes one row; a duplicate reaction one per channel,
      in channel order and numbered from one, and then its sum row. Every
      row names the reaction's equation and shows a non-empty reference
      cell. */
  lemma ReactionRowsLayout(law: RateLaw, gasConstant: real, r: ValidReaction)
    requires r.channels != []
    ensures var rows := ReactionRows(law, gasConstant, r);
      |rows| == (if r.kind == Single then 1 else |r.channels| + 1)
      && (forall k :: 0 <= k < |rows| ==> rows[k].equation == r.equation && rows[k].reference != "")
      && (r.kind == Single ==> rows[0].kind == SingleRate && rows[0].params == Some(r.channels[0]))
      && (r.kind == Duplicate ==>
            (forall j :: 0 <= j < |r.channels| ==>
               rows[j].kind == DuplicateChannel(j + 1) && rows[j].params == Some(r.channels[j]))
            && rows[|r.channels|].kind == DuplicateTotal && rows[|r.channels|].params == None)
  {
  }

  /** The rows of one more reaction come after those already there. */
  lemma TableRowsSnoc(law: RateLaw, gasConstant: real, rs: seq<ValidReaction>, r: ValidReaction)
    requires HasChannels(rs) && r.channels != []
    ensures HasChannels(rs + [r])
    ensures TableRows(law, gasConstant, rs + [r]) == TableRows(law, gasConstant, rs) + ReactionRows(law, gasConstant, r)
  {
    var xss := RowsPerReaction(law, gasConstant, rs);
    assert RowsPerReaction(law, gasConstant, rs + [r]) == xss + [ReactionRows(law, gasConstant, r)];
    FlattenSnoc(xss, ReactionRows(law, gasConstant, r));
  }

  /** Every row of the table belongs to a kept reaction, and the table holds
      at least one row per kept reaction. */
  lemma TableRowsFromReactions(law: RateLaw, gasConstant: real, rs: seq<ValidReaction>)
    requires HasChannels(rs)
    ensures forall row :: row in TableRows(law, gasConstant, rs) ==>
      exists k :: 0 <= k < |rs| && row in ReactionRows(law, gasConstant, rs[k])
    ensures forall k :: 0 <= k < |rs| ==> SingleOrTotalRow(law, gasConstant, rs[k]) in TableRows(law, gasConstant, rs)
  {
    var xss := RowsPerReaction(law, gasConstant, rs);
    FlattenMembers(xss);
    forall k | 0 <= k < |rs| ensures SingleOrTotalRow(law, gasConstant, rs[k]) in xss[k] {
      var rows := ReactionRows(law, gasConstant, rs[k]);
      assert rows[|rows| - 1] == SingleOrTotalRow(law, gasConstant, rs[k]);
    }
  }

  /** The last row of a reaction: its only row, or its sum row. */
  function SingleOrTotalRow(law: RateLaw, gasConstant: real, r: ValidReaction): Row
    requires r.channels != []
  {
    if r.kind == Single then SingleRow(law, gasConstant, r) else TotalRow(law, gasConstant, r)
  }

  /** The k column at table temperature `q`, added over the given rows. */
  function ColumnTotal(rows: seq<Row>, q: nat): real
    requires forall k :: 0 <= k < |rows| ==> q < |rows[k].rates|
  {
    if rows == [] then 0.0 else ColumnTotal(rows[..|rows| - 1], q) + rows[|rows| - 1].rates[q]
  }

  /** Rows that carry each channel's k add up to the channels' total. */
  lemma {:induction false} ColumnTotalOfChannels(law: RateLaw, gasConstant: real, rows: seq<Row>, cs: seq<Channel>, q: nat)
    requires |rows| == |cs| && q < |TableTemperatures|
    requires forall k :: 0 <= k < |rows| ==> rows[k].rates == ChannelRates(law, cs[k], gasConstant) && q < |rows[k].rates|
    ensures ColumnTotal(rows, q) == TotalRate(law, cs, TableTemperatures[q], gasConstant)
  {
    if rows != [] {
      var n := |rows| - 1;
      assert forall k :: 0 <= k < n ==> rows[..n][k] == rows[k] && cs[..n][k] == cs[k];
      ColumnTotalOfChannels(law, gasConstant, rows[..n], cs[..n], q);
    }
  }

  /** A duplicate reaction's sum row shows, at each table temperature, the
      sum of the k shown on its channel rows; and it does not depend on the
      order in which the channels were entered. */
  lemma TotalRowIsSumOfChannelRows(law: RateLaw, gasConstant: real, r: ValidReaction, q: nat)
    requires q < |TableTemperatures|
    ensures TotalRow(law, gasConstant, r).rates[q] == ColumnTotal(ChannelRows(law, gasConstant, r), q)
    ensures forall r': ValidReaction :: r'.channels != [] && multiset(r'.channels) == multiset(r.channels) ==>
      TotalRow(law, gasConstant, r').rates[q] == TotalRow(law, gasConstant, r).rates[q]
  {
    ColumnTotalOfChannels(law, gasConstant, ChannelRows(law, gasConstant, r), r.channels, q);
    forall r': ValidReaction | r'.channels != [] && multiset(r'.channels) == multiset(r.channels)
      ensures TotalRow(law, gasConstant, r').rates[q] == TotalRow(law, gasConstant, r).rates[q]
    {
      TotalRatePermutation(law, r'.channels, r.channels, TableTemperatures[q], gasConstant);
    }
  }

  /** The table agrees with the chart: wherever the grid passes through a
      table temperature, the reaction's main curve is the logarithm of the
      k on its single row or sum row. */
  lemma TableMatchesCurve(s: PlotSettings, r: ValidReaction, i: nat, grid: seq<real>, m: nat, q: nat)
    requires r.channels != [] && (r.kind == Single ==> |r.channels| == 1)
    requires m < |grid| && q < |TableTemperatures| && grid[m] == TableTemperatures[q]
    ensures MainCurve(s, r, i, grid).ys[m] == s.log10(SingleOrTotalRow(s.law, s.gasConstant, r).rates[q])
  {
    MainCurveIsLogOfTotal(s, r, i, grid);
    if r.kind == Single {
      assert r.channels == [r.channels[0]];
      TotalRateSingle(s.law, r.channels[0], grid[m], s.gasConstant);
    }
  }

  /** The rows of one reaction, built as the loop builds them: the channel
      rows one by one, then the sum row. */
  method AddReactionRows(law: RateLaw, gasConstant: real, r: ValidReaction, table: seq<Row>)
    returns (table': seq<Row>)
    requires r.channels != []
    ensures table' == table + ReactionRows(law, gasConstant, r)
  {
    if r.kind == Single {
      var c := r.channels[0];
      table' := table + [Row(r.equation, SingleRate, Some(c), ReferenceCell(r.reference),
                             r.lineStyle, r.markerStyle, ChannelRates(law, c, gasConstant))];
    } else {
      ghost var rows := ChannelRows(law, gasConstant, r);
      table' := table;
      var j := 0;
      while j < |r.channels|
        invariant 0 <= j <= |r.channels|
        invariant table' == table + rows[..j]
      {
        var c := r.channels[j];
        var row := Row(r.equation, DuplicateChannel(j + 1), Some(c), ReferenceCell(r.reference),
                       Dash, Dash, ChannelRates(law, c, gasConstant));
        assert rows[..j + 1] == rows[..j] + [row];
        table' := table' + [row];
        j := j + 1;
      }
      assert rows[..j] == rows;
      table' := table' + [Row(r.equation, DuplicateTotal, None, ReferenceCell(r.reference),
                              r.lineStyle, r.markerStyle, TotalRates(law, r.channels, gasConstant))];
    }
  }

  /** The loop that fills `data_table`, reaction by reaction. */
  method BuildTable(law: RateLaw, gasConstant: real, rs: seq<ValidReaction>) returns (table: seq<Row>)
    requires HasChannels(rs)
    ensures table == TableRows(law, gasConstant, rs)
  {
    table := [];
    var i := 0;
    while i < |rs|
      invariant 0 <= i <= |rs|
      invariant HasChannels(rs[..i])
      invariant table == TableRows(law, gasConstant, rs[..i])
    {
      assert rs[..i + 1] == rs[..i] + [rs[i]];
      TableRowsSnoc(law, gasConstant, rs[..i], rs[i]);
      table := AddReactionRows(law, gasConstant, rs[i], table);
      i := i + 1;
    }
    assert rs[..i] == rs;
  }
}
