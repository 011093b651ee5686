/** The numeric-literal parser `parse_scientific_notation`: a direct decimal
    parse of the stripped text, then three rewrites of multiplication
    spellings into `<mantissa>e<exponent>`, tried in a fixed order.

    Python's `float()` is modelled by `ParseDecimal`, which accepts
    `[+-]?(digits('.'digits?)?|'.'digits)([eE][+-]?digits)?` and yields the
    exact decimal number it denotes, as a coefficient and a power of ten. Each regular expression is modelled by `Match`,
    which succeeds when the pattern covers the whole stripped text: with this
    decimal grammar a match that leaves a tail behind rewrites to text that
    `float()` refuses, so the outcome is the same as no match. */
module NumericLiteral {
  import opened Common

  predicate IsSign(c: char) { c == '+' || c == '-' }

  predicate IsExponentMarker(c: char) { c == 'e' || c == 'E' }

  /** The characters a decimal literal can contain at all. */
  predicate InDecimalAlphabet(c: char)
  {
    IsDigit(c) || IsSign(c) || c == '.' || IsExponentMarker(c)
  }

  predicate InMantissaAlphabet(c: char) { IsDigit(c) || IsSign(c) || c == '.' }

  /** The text after an optional leading sign. */
  function Unsigned(s: string): (u: string)
    ensures u == s || (s != [] && IsSign(s[0]) && u == s[1..])
  {
    if s != [] && IsSign(s[0]) then s[1..] else s
  }

  /** The exact number `coefficient × 10^exponent`. A literal's value is
      kept in this form so that reading it needs no real arithmetic. */
  datatype Decimal = Decimal(coefficient: int, exponent: int)

  function Negate(d: Decimal): (r: Decimal)
    ensures r.coefficient == -d.coefficient && r.exponent == d.exponent
  {
    Decimal(-d.coefficient, d.exponent)
  }

  function Signed(negative: bool, d: Decimal): Decimal
  {
    if negative then Negate(d) else d
  }

  /** Ten to an integer power. */
  function Pow10(e: int): (p: real)
    ensures p > 0.0
    ensures e >= 0 ==> p >= 1.0
  {
    if e >= 0 then Pow10Nat(e) as real else 1.0 / (Pow10Nat(-e) as real)
  }

  /** The real number a decimal denotes. */
  function ToReal(d: Decimal): real
  {
    d.coefficient as real * Pow10(d.exponent)
  }

  /** Position of the first '.', or the length when there is none. */
  function FindDot(s: string): (k: nat)
    ensures k <= |s|
    ensures forall j :: 0 <= j < k ==> s[j] != '.'
    ensures k < |s| ==> s[k] == '.'
  {
    if s == [] || s[0] == '.' then 0 else 1 + FindDot(s[1..])
  }

  /** Position of the first exponent marker, or the length when there is none. */
  function FindExponentMarker(s: string): (k: nat)
    ensures k <= |s|
    ensures forall j :: 0 <= j < k ==> !IsExponentMarker(s[j])
    ensures k < |s| ==> IsExponentMarker(s[k])
  {
    if s == [] || IsExponentMarker(s[0]) then 0 else 1 + FindExponentMarker(s[1..])
  }

  /** Value of an unsigned mantissa as `float()` reads it: `1`, `1.`, `1.5`
      and `.5` are accepted, a lone `.` is not. The digits on both sides of
      the dot form the coefficient, and each fractional digit lowers the
      exponent by one. */
  function MantissaValue(m: string): (r: Option<Decimal>)
    ensures r.Some? ==> m != [] && r.value.coefficient >= 0 && r.value.exponent <= 0
    ensures r.Some? ==> forall k :: 0 <= k < |m| ==> IsDigit(m[k]) || m[k] == '.'
  {
    var d := FindDot(m);
    var whole := m[..d];
    if d == |m| then
      if whole != [] && AllDigits(whole) then Some(Decimal(DigitsValue(whole), 0)) else None
    else
      var frac := m[d + 1..];
      if AllDigits(whole) && AllDigits(frac) && (whole != [] || frac != []) then
        assert forall k :: d < k < |m| ==> m[k] == frac[k - d - 1];
        Some(Decimal(DigitsValue(whole + frac), -|frac|))
      else None
  }

  /** Value of a signed run of digits. */
  function ExponentValue(x: string): (r: Option<int>)
    ensures r.Some? ==> forall k :: 0 <= k < |x| ==> IsDigit(x[k]) || IsSign(x[k])
  {
    var digits := Unsigned(x);
    if digits != [] && AllDigits(digits) then
      var v := DigitsValue(digits);
      Some(if x[0] == '-' then -(v as int) else v as int)
    else None
  }

  /** Multiplication by ten to the given power. */
  function Scale(d: Decimal, e: int): (r: Decimal)
    ensures r.coefficient == d.coefficient && r.exponent == d.exponent + e
  {
    Decimal(d.coefficient, d.exponent + e)
  }

  /** Value of an unsigned literal: a mantissa, optionally followed by an
      exponent marker and a signed exponent. */
  function UnsignedValue(body: string): (r: Option<Decimal>)
    ensures r.Some? ==> forall k :: 0 <= k < |body| ==> InDecimalAlphabet(body[k])
  {
    var k := FindExponentMarker(body);
    var mantissa := MantissaValue(body[..k]);
    if mantissa.None? then None
    else if k == |body| then
      assert body[..k] == body;
      mantissa
    else
      var exponent := ExponentValue(body[k + 1..]);
      if exponent.None? then None
      else
        assert forall j :: 0 <= j < k ==> body[j] == body[..k][j];
        assert forall j :: k < j < |body| ==> body[j] == body[k + 1..][j - k - 1];
        Some(Scale(mantissa.value, exponent.value))
  }

  /** The decimal literals that Python's `float()` accepts (without
      underscores, `inf`/`nan` or surrounding whitespace), with their exact
      value. */
  function ParseDecimal(s: string): (r: Option<Decimal>)
  {
    var v := UnsignedValue(Unsigned(s));
    if v.None? then None else Some(Signed(s != [] && s[0] == '-', v.value))
  }

  /** A text that `float()` accepts is made of signs, digits, dots and
      exponent markers only; in particular it holds no whitespace and no
      multiplication sign. */
  lemma DecimalAlphabet(s: string)
    requires ParseDecimal(s).Some?
    ensures forall k :: 0 <= k < |s| ==> InDecimalAlphabet(s[k])
  {
    var body := Unsigned(s);
    var off := |s| - |body|;
    forall k | 0 <= k < |s| ensures InDecimalAlphabet(s[k]) {
      if k >= off {
        assert s[k] == body[k - off];
      }
    }
  }

  /** `float()` of `"-"` followed by an unsigned literal is the negation of
      `float()` of that literal. */
  lemma NegatedLiteral(s: string)
    requires s == [] || !IsSign(s[0])
    ensures ParseDecimal(s).None? ==> ParseDecimal("-" + s).None?
    ensures ParseDecimal(s).Some? ==> ParseDecimal("-" + s) == Some(Negate(ParseDecimal(s).value))
  {
    assert ("-" + s)[1..] == s;
    assert Unsigned("-" + s) == s;
    assert Unsigned(s) == s;
  }

  // ---------------------------------------------------------------------
  // The three regular expressions

  /** `[+-]?\d*\.?\d+`, the mantissa group of every pattern. */
  predicate IsRegexMantissa(m: string)
  {
    var body := Unsigned(m);
    var d := FindDot(body);
    if d == |body| then body != [] && AllDigits(body)
    else AllDigits(body[..d]) && AllDigits(body[d + 1..]) && d + 1 < |body|
  }

  /** `[+-]?\d+`, the exponent group of every pattern. */
  predicate IsRegexExponent(x: string)
  {
    var body := Unsigned(x);
    body != [] && AllDigits(body)
  }

  /** `float()` reads the regex mantissa as this magnitude. */
  lemma RegexMantissaValue(m: string)
    requires IsRegexMantissa(m)
    ensures m != [] && MantissaValue(Unsigned(m)).Some?
  {
  }

  /** mantissa times ten to the exponent, the value of `<m>e<x>`. */
  function ScaledValue(m: string, x: string): Decimal
    requires IsRegexMantissa(m) && IsRegexExponent(x)
  {
    RegexMantissaValue(m);
    Signed(m[0] == '-', Scale(MantissaValue(Unsigned(m)).value, ExponentValue(x).value))
  }

  datatype Pattern =
    | CaretPower      // m [×xX*] 10^e
    | BarePower       // m [×xX*] 10e, the exponent's digits run on from the "10"
    | SpacedExponent  // m [eE] e, with whitespace allowed around the marker

  /** The order in which the rewrites are tried. */
  const Patterns: seq<Pattern> := [CaretPower, BarePower, SpacedExponent]

  predicate IsSeparator(p: Pattern, c: char)
  {
    match p
    case SpacedExponent => IsExponentMarker(c)
    case _ => c == '\U{D7}' || c == 'x' || c == 'X' || c == '*'
  }

  /** The literal text between the second whitespace run and the exponent. */
  function Infix(p: Pattern): string
  {
    match p
    case CaretPower => "10^"
    case BarePower => "10"
    case SpacedExponent => ""
  }

  /** What a full match of a pattern captures: the mantissa group, the
      whitespace before the separator, the separator, the whitespace after
      it, and the exponent group. */
  datatype Groups = Groups(mantissa: string, lead: string, sep: char, trail: string, exponent: string)

  predicate WellFormed(p: Pattern, g: Groups)
  {
    IsRegexMantissa(g.mantissa) && AllSpace(g.lead) && IsSeparator(p, g.sep)
    && AllSpace(g.trail) && IsRegexExponent(g.exponent)
  }

  /** The text a pattern matches in full for the given groups. */
  function Spell(p: Pattern, g: Groups): string
  {
    g.mantissa + (g.lead + ([g.sep] + (g.trail + (Infix(p) + g.exponent))))
  }

  /** The replacement `\1e\2`. */
  function Rewritten(g: Groups): string
  {
    g.mantissa + ("e" + g.exponent)
  }

  /** The longest prefix made of signs, digits and dots. */
  function MantissaPrefix(t: string): (m: string)
    ensures |m| <= |t| && m == t[..|m|]
    ensures forall k :: 0 <= k < |m| ==> InMantissaAlphabet(m[k])
    ensures |m| < |t| ==> !InMantissaAlphabet(t[|m|])
  {
    if t == [] || !InMantissaAlphabet(t[0]) then [] else [t[0]] + MantissaPrefix(t[1..])
  }

  /** The longest prefix made of whitespace. */
  function SpacePrefix(t: string): (w: string)
    ensures |w| <= |t| && w == t[..|w|] && AllSpace(w)
    ensures |w| < |t| ==> !IsSpace(t[|w|])
  {
    if t == [] || !IsSpace(t[0]) then [] else [t[0]] + SpacePrefix(t[1..])
  }

  lemma Split(s: string, k: nat)
    requires k <= |s|
    ensures s == s[..k] + s[k..]
  {
  }

  lemma SplitHead(s: string)
    requires s != []
    ensures s == [s[0]] + s[1..]
  {
  }

  /** The end of a pattern: its infix followed by the exponent group, which
      runs to the end of the text. */
  function ExponentPart(p: Pattern, r: string): (x: Option<string>)
    ensures x.Some? ==> IsRegexExponent(x.value) && r == Infix(p) + x.value
  {
    var n := |Infix(p)|;
    if n <= |r| && r[..n] == Infix(p) && IsRegexExponent(r[n..]) then
      Split(r, n);
      Some(r[n..])
    else None
  }

  /** Full match of one pattern against the stripped text. The mantissa group
      cannot contain whitespace or a separator and must be followed by one of
      them, so it ends where the first character outside `[+-0-9.]` stands;
      every later group boundary is fixed the same way. */
  function Match(p: Pattern, t: string): (r: Option<Groups>)
    ensures r.Some? ==> WellFormed(p, r.value) && Spell(p, r.value) == t
  {
    var m := MantissaPrefix(t);
    var r1 := t[|m|..];
    var w1 := SpacePrefix(r1);
    var r2 := r1[|w1|..];
    if !IsRegexMantissa(m) || r2 == [] || !IsSeparator(p, r2[0]) then None
    else
      var r3 := r2[1..];
      var w2 := SpacePrefix(r3);
      match ExponentPart(p, r3[|w2|..])
      case None => None
      case Some(x) =>
        Split(t, |m|); Split(r1, |w1|); SplitHead(r2); Split(r3, |w2|);
        Some(Groups(m, w1, r2[0], w2, x))
  }

  /** The exponent part of a spelling is found by its own pattern and not by
      the other pattern with the same separators. */
  lemma ExponentPartOf(p: Pattern, q: Pattern, x: string)
    requires IsRegexExponent(x)
    requires (p == SpacedExponent) == (q == SpacedExponent)
    ensures ExponentPart(p, Infix(q) + x) == if p == q then Some(x) else None
  {
    var r := Infix(q) + x;
    if p == q {
      assert r[..|Infix(p)|] == Infix(p);
      assert r[|Infix(p)|..] == x;
    } else if p == CaretPower && q == BarePower {
      assert x[0] != '^';
      assert |r| >= 3 ==> r[2] == x[0];
    } else if p == BarePower && q == CaretPower {
      assert r[2..] == "^" + x;
      assert !IsRegexExponent(r[2..]);
    }
  }

  /** The characters of a regex mantissa are signs, digits and dots. */
  lemma RegexMantissaAlphabet(m: string)
    requires IsRegexMantissa(m)
    ensures m != [] && forall k :: 0 <= k < |m| ==> InMantissaAlphabet(m[k])
  {
    RegexMantissaValue(m);
    var body := Unsigned(m);
    var off := |m| - |body|;
    forall k | 0 <= k < |m| ensures InMantissaAlphabet(m[k]) {
      if k >= off {
        assert m[k] == body[k - off];
      }
    }
  }

  lemma {:induction false} MantissaPrefixOf(m: string, rest: string)
    requires forall k :: 0 <= k < |m| ==> InMantissaAlphabet(m[k])
    requires rest == [] || !InMantissaAlphabet(rest[0])
    ensures MantissaPrefix(m + rest) == m
  {
    if m != [] {
      assert (m + rest)[1..] == m[1..] + rest;
      MantissaPrefixOf(m[1..], rest);
      SplitHead(m);
    }
  }

  lemma {:induction false} SpacePrefixOf(w: string, rest: string)
    requires AllSpace(w)
    requires rest == [] || !IsSpace(rest[0])
    ensures SpacePrefix(w + rest) == w
  {
    if w != [] {
      assert (w + rest)[1..] == w[1..] + rest;
      SpacePrefixOf(w[1..], rest);
      SplitHead(w);
    }
  }

  /** The matcher, run over a spelled text, reaches the exponent part with
      the mantissa, whitespace and separator groups of the spelling. */
  lemma MatchPrefixes(q: Pattern, g: Groups)
    requires WellFormed(q, g)
    ensures var t := Spell(q, g);
      var m := MantissaPrefix(t);
      var r1 := t[|m|..];
      var w1 := SpacePrefix(r1);
      var r2 := r1[|w1|..];
      && m == g.mantissa && w1 == g.lead && r2 != [] && r2[0] == g.sep
      && SpacePrefix(r2[1..]) == g.trail
      && r2[1..][|g.trail|..] == Infix(q) + g.exponent
  {
    var r2 := [g.sep] + (g.trail + (Infix(q) + g.exponent));
    HeadPrefixes(g.mantissa, g.lead, r2);
    TailPrefixes(q, g);
  }

  /** The mantissa and the whitespace before the separator. */
  lemma HeadPrefixes(m: string, lead: string, r2: string)
    requires IsRegexMantissa(m) && AllSpace(lead)
    requires r2 != [] && !IsSpace(r2[0]) && !InMantissaAlphabet(r2[0])
    ensures MantissaPrefix(m + (lead + r2)) == m && (m + (lead + r2))[|m|..] == lead + r2
    ensures SpacePrefix(lead + r2) == lead && (lead + r2)[|lead|..] == r2
  {
    RegexMantissaAlphabet(m);
    MantissaPrefixOf(m, lead + r2);
    SpacePrefixOf(lead, r2);
  }

  /** The separator, the whitespace after it, and what follows. */
  lemma TailPrefixes(q: Pattern, g: Groups)
    requires WellFormed(q, g)
    ensures var r2 := [g.sep] + (g.trail + (Infix(q) + g.exponent));
      && SpacePrefix(r2[1..]) == g.trail
      && r2[1..][|g.trail|..] == Infix(q) + g.exponent
  {
    var r4 := Infix(q) + g.exponent;
    assert r4 != [] && !IsSpace(r4[0]);
    SpacePrefixOf(g.trail, r4);
    assert ([g.sep] + (g.trail + r4))[1..] == g.trail + r4;
  }

  /** A pattern whose separators differ from the spelling's does not match. */
  lemma MatchOtherSeparator(p: Pattern, q: Pattern, g: Groups)
    requires WellFormed(q, g) && !IsSeparator(p, g.sep)
    ensures Match(p, Spell(q, g)).None?
  {
    MatchPrefixes(q, g);
  }

  /** Matching a spelled text gives back its groups, and the three patterns
      never match the same text. */
  lemma MatchSpell(p: Pattern, q: Pattern, g: Groups)
    requires WellFormed(q, g)
    ensures Match(p, Spell(q, g)) == if p == q then Some(g) else None
  {
    if (p == SpacedExponent) == (q == SpacedExponent) {
      MatchPrefixes(q, g);
      ExponentPartOf(p, q, g.exponent);
    } else {
      MatchOtherSeparator(p, q, g);
    }
  }

  // ---------------------------------------------------------------------
  // The parser

  /** What `parse_scientific_notation` produces: nothing for the empty text,
      a value, or the stripped text it could not read (which the source shows
      through `st.error` before returning `None`). */
  datatype Parsed = NoValue | Value(v: Decimal) | Unparsable(text: string)

  /** One turn of the loop over the patterns: match, rewrite to
      `<mantissa>e<exponent>` and hand the rewrite to `float()`. */
  function Attempt(p: Pattern, t: string): Option<Decimal>
  {
    match Match(p, t)
    case Some(g) => ParseDecimal(Rewritten(g))
    case None => None
  }

  /** The loop over the pattern list: the first pattern that matches and
      whose rewrite `float()` accepts gives the value. */
  function TryPatterns(t: string, ps: seq<Pattern>): Option<Decimal>
  {
    if ps == [] then None
    else
      var v := Attempt(ps[0], t);
      if v.Some? then v else TryPatterns(t, ps[1..])
  }

  function ParseScientific(text: string): (r: Parsed)
    ensures r.NoValue? <==> text == ""
    ensures r.Unparsable? ==> r.text == Strip(text)
  {
    if text == "" then NoValue
    else
      var t := Strip(text);
      match ParseDecimal(t)
      case Some(v) => Value(v)
      case None =>
        match TryPatterns(t, Patterns)
        case Some(v) => Value(v)
        case None =>
          match ParseDecimal(t)
          case Some(v) => Value(v)
          case None => Unparsable(t)
  }

  // ---------------------------------------------------------------------
  // Properties

  lemma {:induction false} FindExponentMarkerOf(a: string, c: char, rest: string)
    requires forall j :: 0 <= j < |a| ==> !IsExponentMarker(a[j])
    requires IsExponentMarker(c)
    ensures FindExponentMarker(a + ([c] + rest)) == |a|
  {
    if a != [] {
      assert (a + ([c] + rest))[1..] == a[1..] + ([c] + rest);
      FindExponentMarkerOf(a[1..], c, rest);
    }
  }

  /** An unsigned mantissa, an exponent marker and an exponent denote the
      mantissa times ten to the exponent. */
  lemma UnsignedExponentForm(mb: string, c: char, x: string)
    requires MantissaValue(mb).Some? && IsExponentMarker(c) && ExponentValue(x).Some?
    ensures UnsignedValue(mb + ([c] + x))
         == Some(Scale(MantissaValue(mb).value, ExponentValue(x).value))
  {
    var body := mb + ([c] + x);
    FindExponentMarkerOf(mb, c, x);
    assert body[..|mb|] == mb;
    assert body[|mb| + 1..] == x;
  }

  /** `<m>` followed by an exponent marker and `<x>` is read by `float()` as
      mantissa times ten to the exponent. */
  lemma ExponentForm(m: string, c: char, x: string)
    requires IsRegexMantissa(m) && IsExponentMarker(c) && IsRegexExponent(x)
    ensures ParseDecimal(m + ([c] + x)) == Some(ScaledValue(m, x))
  {
    var s := m + ([c] + x);
    RegexMantissaValue(m);
    var mb := Unsigned(m);
    assert s[0] == m[0];
    assert Unsigned(s) == mb + ([c] + x) by {
      if IsSign(m[0]) {
        assert s[1..] == m[1..] + ([c] + x);
      }
    }
    UnsignedExponentForm(mb, c, x);
  }

  /** Every rewrite of a full match is accepted by `float()`, so the
      `except: pass` branch after a match is never taken: a turn of the loop
      yields a value exactly when its pattern matches. */
  lemma AttemptMatches(p: Pattern, t: string)
    ensures Attempt(p, t).Some? <==> Match(p, t).Some?
    ensures Match(p, t).Some? ==>
      Attempt(p, t).value == ScaledValue(Match(p, t).value.mantissa, Match(p, t).value.exponent)
  {
    var r := Match(p, t);
    if r.Some? {
      ExponentForm(r.value.mantissa, 'e', r.value.exponent);
    }
  }

  /** The pattern loop yields nothing exactly when no pattern matches. */
  lemma {:induction false} TryPatternsNone(t: string, ps: seq<Pattern>)
    ensures TryPatterns(t, ps).None? <==> forall p :: p in ps ==> Match(p, t).None?
  {
    if ps != [] {
      TryPatternsNone(t, ps[1..]);
      AttemptMatches(ps[0], t);
      assert forall p :: p in ps <==> p == ps[0] || p in ps[1..];
    }
  }

  /** The list holds every pattern. */
  lemma AllPatterns(p: Pattern)
    ensures p in Patterns
  {
    assert p == Patterns[0] || p == Patterns[1] || p == Patterns[2];
  }

  lemma NoPatternMatches(t: string)
    ensures TryPatterns(t, Patterns).None? <==> forall p :: Match(p, t).None?
  {
    TryPatternsNone(t, Patterns);
    forall p ensures p in Patterns { AllPatterns(p); }
  }

  /** The parser reports unparsable text exactly when the text is non-empty,
      the direct parse fails and none of the three patterns matches; the final
      retry re-reads the same text and so never rescues a value. */
  lemma UnparsableIff(text: string)
    ensures ParseScientific(text).Unparsable? <==>
      text != "" && ParseDecimal(Strip(text)).None?
      && forall p :: Match(p, Strip(text)).None?
  {
    NoPatternMatches(Strip(text));
  }

  /** When exactly one pattern of the list matches, the loop yields that
      pattern's reading. */
  lemma {:induction false} TryPatternsOnly(t: string, ps: seq<Pattern>, p: Pattern)
    requires p in ps && Match(p, t).Some?
    requires forall q :: q != p ==> Match(q, t).None?
    ensures TryPatterns(t, ps) == Attempt(p, t)
  {
    AttemptMatches(ps[0], t);
    if ps[0] != p {
      TryPatternsOnly(t, ps[1..], p);
    }
  }

  /** A spelling neither starts nor ends with whitespace. */
  lemma SpellStrips(lead: string, p: Pattern, g: Groups, trail: string)
    requires WellFormed(p, g) && AllSpace(lead) && AllSpace(trail)
    ensures Strip(lead + Spell(p, g) + trail) == Spell(p, g)
  {
    var m, x := g.mantissa, g.exponent;
    var t := Spell(p, g);
    RegexMantissaAlphabet(m);
    assert t[0] == m[0];
    assert t[|t| - 1] == x[|x| - 1];
    assert !IsSpace(t[|t| - 1]) by {
      var xb := Unsigned(x);
      assert x[|x| - 1] == xb[|xb| - 1];
    }
    StripPadding(lead, t, trail);
  }

  /** The first character of a text, or a stand-in for the empty text. */
  function FirstOr(s: string, default: char): char
  {
    if s == [] then default else s[0]
  }

  /** A decimal literal holds no whitespace. */
  lemma SpaceFree(w: string)
    requires forall k :: 0 <= k < |w| ==> InDecimalAlphabet(w[k])
    requires AllSpace(w)
    ensures w == []
  {
    assert IsSpace(FirstOr(w, ' ')) && InDecimalAlphabet(FirstOr(w, '0'));
  }

  /** Only the spaced-exponent spelling without whitespace is made of
      decimal-literal characters alone. */
  lemma DecimalSpelling(p: Pattern, g: Groups)
    requires WellFormed(p, g)
    requires forall k :: 0 <= k < |Spell(p, g)| ==> InDecimalAlphabet(Spell(p, g)[k])
    ensures p == SpacedExponent && Spell(p, g) == g.mantissa + ([g.sep] + g.exponent)
  {
    var m := g.mantissa;
    var t := Spell(p, g);
    var j := |m| + |g.lead|;
    assert t[j] == g.sep;
    assert IsExponentMarker(g.sep);
    assert p == SpacedExponent;
    assert t[|m|..j] == g.lead;
    SpaceFree(t[|m|..j]);
    assert t[j + 1..j + 1 + |g.trail|] == g.trail;
    SpaceFree(t[j + 1..j + 1 + |g.trail|]);
    assert Infix(p) == [];
  }

  /** A spelling that is itself a decimal literal is read as its rewrite
      would be. */
  lemma SpellDirect(p: Pattern, g: Groups)
    requires WellFormed(p, g) && ParseDecimal(Spell(p, g)).Some?
    ensures ParseDecimal(Spell(p, g)) == Some(ScaledValue(g.mantissa, g.exponent))
  {
    DecimalAlphabet(Spell(p, g));
    DecimalSpelling(p, g);
    ExponentForm(g.mantissa, g.sep, g.exponent);
  }

  /** Every spelling, with whitespace around it or not, is read as mantissa
      times ten to the exponent: `2.64×10^16`, `2.64*10^16`, `2.64 e16` and
      `2.64×1016` all mean 2.64·10^16. */
  lemma SpellingValue(lead: string, p: Pattern, g: Groups, trail: string)
    requires WellFormed(p, g) && AllSpace(lead) && AllSpace(trail)
    ensures ParseScientific(lead + Spell(p, g) + trail)
         == Value(ScaledValue(g.mantissa, g.exponent))
  {
    var t := Spell(p, g);
    SpellStrips(lead, p, g, trail);
    if ParseDecimal(t).Some? {
      SpellDirect(p, g);
    } else {
      forall q ensures q != p ==> Match(q, t).None? {
        MatchSpell(q, p, g);
      }
      MatchSpell(p, p, g);
      AllPatterns(p);
      TryPatternsOnly(t, Patterns, p);
      AttemptMatches(p, t);
    }
  }

  lemma SpellingValueBare(p: Pattern, g: Groups)
    requires WellFormed(p, g)
    ensures ParseScientific(Spell(p, g)) == Value(ScaledValue(g.mantissa, g.exponent))
  {
    var t := Spell(p, g);
    assert "" + t + "" == t;
    SpellingValue("", p, g, "");
  }

  /** The rewrite `<mantissa>e<exponent>` is itself the spaced-exponent
      spelling without whitespace. */
  lemma RewriteIsSpelling(g: Groups)
    requires IsRegexMantissa(g.mantissa) && IsRegexExponent(g.exponent)
    ensures var e := Groups(g.mantissa, "", 'e', "", g.exponent);
      WellFormed(SpacedExponent, e) && Spell(SpacedExponent, e) == Rewritten(g)
  {
  }

  /** Two spellings with the same mantissa and exponent groups parse to the
      same value, whichever separators and whitespace they use, and to the
      value of their rewrite. */
  lemma SpellingsAgree(p: Pattern, g: Groups, q: Pattern, h: Groups)
    requires WellFormed(p, g) && WellFormed(q, h)
    requires g.mantissa == h.mantissa && g.exponent == h.exponent
    ensures ParseScientific(Spell(p, g)) == ParseScientific(Spell(q, h))
    ensures ParseScientific(Spell(p, g)) == ParseScientific(Rewritten(g))
  {
    SpellingValueBare(p, g);
    SpellingValueBare(q, h);
    RewriteIsSpelling(g);
    SpellingValueBare(SpacedExponent, Groups(g.mantissa, "", 'e', "", g.exponent));
  }
}
