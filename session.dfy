/** The reaction list held in the session between reruns of the page, and
    the buttons and inputs that change it in place. Every button keeps each
    record well shaped: a single reaction has exactly one channel and a
    duplicate reaction never loses its last one. The style selectors only
    offer the names of their style tables, so a record's style names are
    always among those names. */
module Session {
  import opened Common
  import opened Reactions

  /** The keys of the line-style table, in display order. */
  const LineStyleNames: seq<string> := ["实线", "虚线", "点线", "点划线"]

  /** The keys of the marker table, in display order. */
  const MarkerStyleNames: seq<string> :=
    ["无", "圆形", "方形", "三角形(上)", "三角形(下)", "菱形", "五边形", "六边形", "加号", "叉号", "星形"]

  /** A record whose style names the selectors can show. */
  predicate StylesKnown(r: Reaction)
  {
    r.lineStyle in LineStyleNames && r.markerStyle in MarkerStyleNames
  }

  /** The record the "add single-rate reaction" button appends. */
  function NewSingle(): (r: Reaction)
    ensures r.kind == Single && r.channels == [BlankChannel]
    ensures r.equation == "" && r.reference == "" && r.customColor == None
    ensures r.lineStyle == DefaultLineStyle && r.markerStyle == DefaultMarkerStyle
  {
    Reaction(Single, "", "", [BlankChannel], DefaultLineStyle, DefaultMarkerStyle, None)
  }

  /** The record the "add duplicate reaction" button appends: two blank
      channels. */
  function NewDuplicate(): (r: Reaction)
    ensures r.kind == Duplicate && r.channels == [BlankChannel, BlankChannel]
    ensures r.equation == "" && r.reference == "" && r.customColor == None
    ensures r.lineStyle == DefaultLineStyle && r.markerStyle == DefaultMarkerStyle
  {
    Reaction(Duplicate, "", "", [BlankChannel, BlankChannel], DefaultLineStyle, DefaultMarkerStyle, None)
  }

  /** New records are well shaped and start with the first style of each
      table. */
  lemma NewRecordsWellShaped()
    ensures WellShaped(NewSingle()) && StylesKnown(NewSingle())
    ensures WellShaped(NewDuplicate()) && StylesKnown(NewDuplicate())
    ensures DefaultLineStyle == LineStyleNames[0] && DefaultMarkerStyle == MarkerStyleNames[0]
  {
  }

  /** A blank channel is never usable, so a freshly added reaction is not
      plotted until its fields are filled in. */
  lemma NewRecordsNotPlotted()
    ensures ParseChannel(BlankChannel) == None
    ensures ValidateReaction(NewSingle()) == None
    ensures ValidateReaction(NewDuplicate()) == None
  {
    ValidChannelsEmpty(NewSingle().channels);
    ValidChannelsEmpty(NewDuplicate().channels);
  }

  class ReactionList {
    /** `st.session_state.reactions`. */
    var reactions: seq<Reaction>

    ghost predicate Valid()
      reads this
    {
      forall k :: 0 <= k < |reactions| ==> WellShaped(reactions[k]) && StylesKnown(reactions[k])
    }

    /** The list starts empty on the first run of the page. */
    constructor()
      ensures reactions == [] && Valid()
    {
      reactions := [];
    }

    method AddSingle()
      requires Valid()
      modifies this
      ensures reactions == old(reactions) + [NewSingle()]
      ensures Valid()
    {
      reactions := reactions + [NewSingle()];
    }

    method AddDuplicate()
      requires Valid()
      modifies this
      ensures reactions == old(reactions) + [NewDuplicate()]
      ensures Valid()
    {
      reactions := reactions + [NewDuplicate()];
    }

    /** The delete button of reaction `i`. */
    method DeleteReaction(i: nat)
      requires Valid() && i < |reactions|
      modifies this
      ensures reactions == RemoveAt(old(reactions), i)
      ensures Valid()
    {
      reactions := RemoveAt(reactions, i);
    }

    /** The "add channel" button, shown for duplicate reactions only: one
        blank channel at the end. */
    method AddChannel(i: nat)
      requires Valid() && i < |reactions| && reactions[i].kind == Duplicate
      modifies this
      ensures reactions == old(reactions)[i := old(reactions)[i].(channels := old(reactions)[i].channels + [BlankChannel])]
      ensures Valid()
    {
      var r := reactions[i];
      reactions := reactions[i := r.(channels := r.channels + [BlankChannel])];
    }

    /** The delete button of channel `j`, shown for a duplicate reaction only
        while it has more than one channel. */
    method DeleteChannel(i: nat, j: nat)
      requires Valid() && i < |reactions| && reactions[i].kind == Duplicate
      requires 1 < |reactions[i].channels| && j < |reactions[i].channels|
      modifies this
      ensures reactions == old(reactions)[i := old(reactions)[i].(channels := RemoveAt(old(reactions)[i].channels, j))]
      ensures Valid()
    {
      var r := reactions[i];
      reactions := reactions[i := r.(channels := RemoveAt(r.channels, j))];
    }

    /** The equation input of reaction `i`. */
    method SetEquation(i: nat, text: string)
      requires Valid() && i < |reactions|
      modifies this
      ensures reactions == old(reactions)[i := old(reactions)[i].(equation := text)]
      ensures Valid()
    {
      reactions := reactions[i := reactions[i].(equation := text)];
    }

    /** The reference input of reaction `i`. */
    method SetReference(i: nat, text: string)
      requires Valid() && i < |reactions|
      modifies this
      ensures reactions == old(reactions)[i := old(reactions)[i].(reference := text)]
      ensures Valid()
    {
      reactions := reactions[i := reactions[i].(reference := text)];
    }

    /** The three inputs of channel `j` of reaction `i`. */
    method SetChannel(i: nat, j: nat, c: ChannelText)
      requires Valid() && i < |reactions| && j < |reactions[i].channels|
      modifies this
      ensures reactions == old(reactions)[i := old(reactions)[i].(channels := old(reactions)[i].channels[j := c])]
      ensures Valid()
    {
      var r := reactions[i];
      reactions := reactions[i := r.(channels := r.channels[j := c])];
    }

    /** The two style selectors of reaction `i`; they offer table keys only. */
    method SetStyles(i: nat, lineStyle: string, markerStyle: string)
      requires Valid() && i < |reactions|
      requires lineStyle in LineStyleNames && markerStyle in MarkerStyleNames
      modifies this
      ensures reactions == old(reactions)[i := old(reactions)[i].(lineStyle := lineStyle, markerStyle := markerStyle)]
      ensures Valid()
    {
      reactions := reactions[i := reactions[i].(lineStyle := lineStyle, markerStyle := markerStyle)];
    }

    /** The custom-colour box of reaction `i`: the picked colour while the box
        is ticked, nothing otherwise. */
    method SetCustomColor(i: nat, ticked: bool, picked: string)
      requires Valid() && i < |reactions|
      modifies this
      ensures reactions == old(reactions)[i := old(reactions)[i].(customColor := if ticked then Some(picked) else None)]
      ensures Valid()
    {
      var color: Option<string> := None;
      if ticked {
        color := Some(picked);
      }
      reactions := reactions[i := reactions[i].(customColor := color)];
    }
  }
}
