/** The reaction records kept in the session, and the filter that turns
    them into the reactions that are plotted and tabulated. A reaction is
    kept when its equation is non-empty and at least one of its channels has
    three non-empty fields that all parse; the other channels are dropped
    without notice and the kept ones stay in their order. */
module Reactions {
  import opened Common
  import opened NumericLiteral
  import opened Kinetics

  datatype Kind = Single | Duplicate

  /** One rate channel as typed: the texts of A, n and Ea. */
  datatype ChannelText = ChannelText(a: string, n: string, ea: string)

  const BlankChannel: ChannelText := ChannelText("", "", "")

  /** The line-style and marker names a new reaction starts with (the keys
      of the style tables for a solid line and for no marker). */
  const DefaultLineStyle: string := "实线"
  const DefaultMarkerStyle: string := "无"

  /** One entry of the session's reaction list. */
  datatype Reaction = Reaction(
    kind: Kind,
    equation: string,
    reference: string,
    channels: seq<ChannelText>,
    lineStyle: string,
    markerStyle: string,
    customColor: Option<string>)

  /** The shape the buttons maintain: a single reaction has exactly one
      channel, a duplicate reaction at least one. */
  predicate WellShaped(r: Reaction)
  {
    match r.kind
    case Single => |r.channels| == 1
    case Duplicate => |r.channels| >= 1
  }

  /** A reaction that passed the filter, with its channels' parsed values. */
  datatype ValidReaction = ValidReaction(
    kind: Kind,
    equation: string,
    reference: string,
    channels: seq<Channel>,
    lineStyle: string,
    markerStyle: string,
    customColor: Option<string>)

  /** A field's value when the parser yields one. */
  function FieldValue(s: string): (v: Option<real>)
    ensures v.Some? <==> ParseScientific(s).Value?
    ensures v.Some? ==> v.value == ToReal(ParseScientific(s).v)
  {
    match ParseScientific(s)
    case Value(d) => Some(ToReal(d))
    case _ => None
  }

  /** A channel is usable when all three fields are non-empty and all three
      parse. */
  function ParseChannel(c: ChannelText): (r: Option<Channel>)
  {
    if c.a != "" && c.n != "" && c.ea != "" then
      var a, n, ea := FieldValue(c.a), FieldValue(c.n), FieldValue(c.ea);
      if a.Some? && n.Some? && ea.Some? then Some(Channel(a.value, n.value, ea.value)) else None
    else None
  }

  /** The emptiness test before parsing never decides anything on its own:
      the parser already yields no value for the empty text. A channel is
      usable exactly when its three fields parse, and then it carries their
      values. */
  lemma ParseChannelIff(c: ChannelText)
    ensures ParseChannel(c).Some? <==>
      ParseScientific(c.a).Value? && ParseScientific(c.n).Value? && ParseScientific(c.ea).Value?
    ensures ParseChannel(c).Some? ==> ParseChannel(c).value == Channel(
      ToReal(ParseScientific(c.a).v), ToReal(ParseScientific(c.n).v), ToReal(ParseScientific(c.ea).v))
  {
  }

  /** The values `f` yields on `xs`, in order, skipping the elements it
      yields nothing for: the shape of both accumulator loops of the
      filter. */
  function Kept<A, B>(f: A -> Option<B>, xs: seq<A>): (vs: seq<B>)
    ensures |vs| <= |xs|
  {
    if xs == [] then []
    else
      var last := f(xs[|xs| - 1]);
      Kept(f, xs[..|xs| - 1]) + (if last.Some? then [last.value] else [])
  }

  /** Keeping works piece by piece, so it preserves order. */
  lemma {:induction false} KeptAppend<A, B>(f: A -> Option<B>, xs: seq<A>, ys: seq<A>)
    ensures Kept(f, xs + ys) == Kept(f, xs) + Kept(f, ys)
  {
    if ys == [] {
      assert xs + ys == xs;
    } else {
      var n := |ys| - 1;
      assert (xs + ys)[..|xs + ys| - 1] == xs + ys[..n];
      KeptAppend(f, xs, ys[..n]);
    }
  }

  /** What is kept is exactly what `f` yields on some element. */
  lemma {:induction false} KeptMembers<A, B>(f: A -> Option<B>, xs: seq<A>)
    ensures forall v :: v in Kept(f, xs) <==> exists j :: 0 <= j < |xs| && f(xs[j]) == Some(v)
  {
    if xs != [] {
      var n := |xs| - 1;
      KeptMembers(f, xs[..n]);
      assert forall j :: 0 <= j < n ==> xs[..n][j] == xs[j];
    }
  }

  /** Nothing is kept exactly when `f` yields nothing on every element. */
  lemma {:induction false} KeptEmpty<A, B>(f: A -> Option<B>, xs: seq<A>)
    ensures Kept(f, xs) == [] <==> forall j :: 0 <= j < |xs| ==> f(xs[j]).None?
  {
    if xs != [] {
      var n := |xs| - 1;
      KeptEmpty(f, xs[..n]);
      assert forall j :: 0 <= j < n ==> xs[..n][j] == xs[j];
    }
  }

  /** One more element adds what `f` yields on it, at the end. */
  lemma KeptSnoc<A, B>(f: A -> Option<B>, xs: seq<A>, x: A)
    ensures Kept(f, xs + [x]) == Kept(f, xs) + (if f(x).Some? then [f(x).value] else [])
  {
    assert (xs + [x])[..|xs|] == xs;
  }

  /** `valid_params`: the usable channels, in their order. */
  function ValidChannels(cs: seq<ChannelText>): (vs: seq<Channel>)
    ensures |vs| <= |cs|
  {
    Kept(ParseChannel, cs)
  }

  /** The channel filter works piece by piece, so it keeps the order of the
      channels it keeps. */
  lemma ValidChannelsAppend(cs: seq<ChannelText>, ds: seq<ChannelText>)
    ensures ValidChannels(cs + ds) == ValidChannels(cs) + ValidChannels(ds)
  {
    KeptAppend(ParseChannel, cs, ds);
  }

  /** Every kept channel is the reading of a typed channel, and every usable
      typed channel is kept. */
  lemma ValidChannelsMembers(cs: seq<ChannelText>)
    ensures forall v :: v in ValidChannels(cs) <==> exists j :: 0 <= j < |cs| && ParseChannel(cs[j]) == Some(v)
  {
    KeptMembers(ParseChannel, cs);
  }

  /** No channel is kept exactly when no channel is usable. */
  lemma ValidChannelsEmpty(cs: seq<ChannelText>)
    ensures ValidChannels(cs) == [] <==> forall j :: 0 <= j < |cs| ==> ParseChannel(cs[j]).None?
  {
    KeptEmpty(ParseChannel, cs);
  }

  /** One turn of the outer loop: the reaction's record in `valid_reactions`,
      if it gets one. */
  function ValidateReaction(r: Reaction): (v: Option<ValidReaction>)
    ensures v.Some? ==> v.value.channels == ValidChannels(r.channels) && v.value.channels != []
  {
    var vs := ValidChannels(r.channels);
    if r.equation != "" && vs != [] then
      Some(ValidReaction(r.kind, r.equation, r.reference, vs, r.lineStyle, r.markerStyle, r.customColor))
    else None
  }

  /** A reaction is kept exactly when its equation is non-empty and one of
      its channels is usable; what is kept is the reaction's own equation,
      reference, kind and styles. */
  lemma ValidateReactionIff(r: Reaction)
    ensures ValidateReaction(r).Some? <==>
      r.equation != "" && exists j :: 0 <= j < |r.channels| && ParseChannel(r.channels[j]).Some?
    ensures ValidateReaction(r).Some? ==>
      var v := ValidateReaction(r).value;
      v.kind == r.kind && v.equation == r.equation && v.reference == r.reference
      && v.lineStyle == r.lineStyle && v.markerStyle == r.markerStyle && v.customColor == r.customColor
  {
    ValidChannelsEmpty(r.channels);
  }

  /** A kept single reaction has exactly one channel, as the shape of the
      session's records promises. */
  lemma ValidSingleHasOneChannel(r: Reaction)
    requires WellShaped(r) && r.kind == Single && ValidateReaction(r).Some?
    ensures |ValidateReaction(r).value.channels| == 1
  {
  }

  /** `valid_reactions`, specified: the kept reactions in list order. */
  function ValidReactions(rs: seq<Reaction>): (vs: seq<ValidReaction>)
    ensures |vs| <= |rs|
  {
    Kept(ValidateReaction, rs)
  }

  /** The reaction filter works piece by piece, so it keeps list order. */
  lemma ValidReactionsAppend(rs: seq<Reaction>, qs: seq<Reaction>)
    ensures ValidReactions(rs + qs) == ValidReactions(rs) + ValidReactions(qs)
  {
    KeptAppend(ValidateReaction, rs, qs);
  }

  /** Every kept reaction has at least one channel and, when it is a single
      reaction from a well-shaped list, exactly one. */
  lemma ValidReactionsShape(rs: seq<Reaction>)
    requires forall k :: 0 <= k < |rs| ==> WellShaped(rs[k])
    ensures forall v :: v in ValidReactions(rs) ==>
      v.channels != [] && (v.kind == Single ==> |v.channels| == 1)
  {
    KeptMembers(ValidateReaction, rs);
  }

  /** The inner loop of the filter: the usable channels of one reaction. */
  method FilterChannels(channels: seq<ChannelText>) returns (validParams: seq<Channel>)
    ensures validParams == ValidChannels(channels)
  {
    validParams := [];
    var j := 0;
    while j < |channels|
      invariant 0 <= j <= |channels|
      invariant validParams == ValidChannels(channels[..j])
    {
      var params := channels[j];
      assert channels[..j + 1] == channels[..j] + [params];
      KeptSnoc(ParseChannel, channels[..j], params);
      if params.a != "" && params.n != "" && params.ea != "" {
        var aVal := FieldValue(params.a);
        var nVal := FieldValue(params.n);
        var eaVal := FieldValue(params.ea);
        if aVal.Some? && nVal.Some? && eaVal.Some? {
          validParams := validParams + [Channel(aVal.value, nVal.value, eaVal.value)];
        }
      }
      j := j + 1;
    }
    assert channels[..j] == channels;
  }

  /** The outer loop of the filter: it walks the reactions and keeps those
      with an equation and at least one usable channel. */
  method FilterValid(rs: seq<Reaction>) returns (valid: seq<ValidReaction>)
    ensures valid == ValidReactions(rs)
  {
    valid := [];
    var i := 0;
    while i < |rs|
      invariant 0 <= i <= |rs|
      invariant valid == ValidReactions(rs[..i])
    {
      var reaction := rs[i];
      assert rs[..i + 1] == rs[..i] + [reaction];
      KeptSnoc(ValidateReaction, rs[..i], reaction);
      if reaction.equation != "" {
        var validParams := FilterChannels(reaction.channels);
        if validParams != [] {
          valid := valid + [ValidReaction(reaction.kind, reaction.equation, reaction.reference,
            validParams, reaction.lineStyle, reaction.markerStyle, reaction.customColor)];
        }
      }
      i := i + 1;
    }
    assert rs[..i] == rs;
  }
}
