# Arrhenius rate-constant calculator: a verified model of its core

The calculator lets a user type chemical reactions with their Arrhenius
parameters A, n and Ea. It keeps the reactions whose parameters can be read
and draws log10(k) against T or against 1000/T, where
k = A·T^n·exp(−Ea/(R·T)). It also tabulates k at 300, 1000 and 2000 K.
The repository holds three versions of the page script:

- `v3.py` keeps single-rate and duplicate reactions. A duplicate reaction has
  several rate channels whose rates add up. Each reaction also carries a line
  style, a marker and an optional custom colour.
- `v2.py` is `v3.py` without the styling fields.
- `v1.py` keeps a flat list of rows, each with one set of parameters.

This project models the computation under the widgets. The modules are:

- `Common`: whitespace stripping as Python's `str.strip()` does it, decimal
  digits, list concatenation and `pop(i)`.
- `NumericLiteral`: `parse_scientific_notation`. It strips the text and
  tries `float()` directly. It then tries three rewrites into
  `<mantissa>e<exponent>` in a fixed order: `m×10^e`, `m×10e` and `m e e`.
  `float()` is a decimal-literal grammar with exact values. The result is
  `NoValue` for the empty text, `Value(v)`, or `Unparsable(text)` where the
  page shows an error.
- `Kinetics`: the rate formula as a parameter of the model. It also holds
  the channel total, the temperature grid, and the element-wise sum and
  logarithm of rate curves.
- `Reactions`: the v2/v3 reaction record and the filter that builds
  `valid_reactions`. The filter is a generic "keep what yields a value"
  function (`Kept`), proved equal to the source's nested loops.
- `Session`: the session's reaction list as a class, with one method per
  button or input. It keeps every record well shaped: a single reaction has
  one channel, a duplicate reaction at least one.
- `Plot`: colours, legend labels, the main and component curves, the values
  collected for the automatic Y-range (`all_log_k`), the x-limits, the
  secondary temperature ticks and the Y-limits.
- `Table`: the rows of the detail table.
- `FlatRows`: the whole of `v1.py`. It holds the never-empty row list, the
  index-keeping filter, the curves, and a table with k and log10(k).

`v3.py` and `v2.py` share the `Reactions`, `Plot` and `Table` modules. The
styling fields exist only in `v3.py`; `v2.py` never reads them. The
differences between the versions are listed below.

## Model

| member | source | states |
|---|---|---|
| Common.StripLeft | v3.py:51 | drops exactly the leading whitespace: the result is a suffix, everything dropped is whitespace, and the result does not start with whitespace |
| Common.StripRight | v3.py:51 | drops exactly the trailing whitespace, symmetrically |
| Common.StripPadding | v3.py:51 | stripping whitespace around a text that neither starts nor ends with whitespace gives back that text |
| Common.StripUnchanged | v3.py:51 | a text without leading or trailing whitespace is left unchanged |
| Common.NatToString | v3.py:450 | `f"{n}"` of a natural number is a non-empty run of digits without a leading zero whose value is n |
| Common.RemoveAt | v3.py:280 | `pop(i)` leaves one element fewer: the elements before i stay in place and those after move down by one |
| Common.RemoveAtMultiset | v3.py:342 | `pop(i)` removes exactly the element at i and keeps all the others |
| Common.FlattenMembers | v3.py:410-477 | an element of the concatenated lists is in one of the lists, and the reverse also holds |
| Common.FlattenSingletons | v3.py:405-434 | concatenating one-element lists gives one element per list, in order |
| NumericLiteral.ParseScientific | v3.py:42-80 | the result is `NoValue` exactly for the empty text; an unparsable result carries the stripped text |
| NumericLiteral.UnparsableIff | v3.py:47-80 | the text is unparsable exactly when it is non-empty, the direct parse of the stripped text fails and none of the three patterns matches; the final retry never rescues a value; the same parser is at `v2.py` lines 20-58 and `v1.py` lines 20-58 |
| NumericLiteral.AttemptMatches | v3.py:66-73 | every rewrite of a match is accepted by `float()`, so a loop turn yields a value exactly when its pattern matches, and the value is mantissa·10^exponent |
| NumericLiteral.TryPatternsNone | v3.py:66-73 | the pattern loop yields nothing exactly when no pattern of the list matches |
| NumericLiteral.TryPatternsOnly | v3.py:66-73 | when exactly one pattern matches, the loop yields that pattern's reading |
| NumericLiteral.MatchSpell | v3.py:60-64 | a pattern matches the text spelled from its own groups and gives those groups back; the other two patterns do not match it |
| NumericLiteral.Match | v3.py:67 | a successful match gives groups that spell exactly the matched text |
| NumericLiteral.SpellingValue | v3.py:45-71 | any spelling (`m×10^e`, `mx10^e`, `mX10^e`, `m*10^e`, `m×10e`, `m e e`), with whitespace around it or not, parses to mantissa·10^exponent; the same holds for `v1.py` lines 38-51 |
| NumericLiteral.SpellingsAgree | v3.py:60-71 | two spellings with the same mantissa and exponent parse to the same value, which is the value of their rewrite `<m>e<e>`; the same holds for `v2.py` lines 38-51 |
| NumericLiteral.RewriteIsSpelling | v3.py:61-63 | the replacement `\1e\2` is itself the compact spaced-exponent spelling |
| NumericLiteral.ExponentForm | v3.py:71 | `float()` reads `<m>` + exponent marker + `<x>` as mantissa·10^x |
| NumericLiteral.NegatedLiteral | v3.py:55 | a leading minus sign negates the literal's value, and a literal that fails still fails with the sign |
| NumericLiteral.DecimalAlphabet | v3.py:55 | a text that `float()` accepts holds only signs, digits, dots and exponent markers |
| NumericLiteral.DecimalSpelling | v3.py:54-64 | of all spellings, only the spaced-exponent one without whitespace is already a decimal literal |
| NumericLiteral.SpellDirect | v3.py:54-57 | when the direct parse already accepts a spelling, it gives the same value as the rewrite would |
| NumericLiteral.SpellStrips | v3.py:51 | stripping whitespace around a spelling leaves exactly the spelling |
| NumericLiteral.MantissaValue | v3.py:61 | a mantissa that `float()` reads has a non-negative coefficient and no positive exponent, and holds only digits and a dot |
| NumericLiteral.RegexMantissaValue | v3.py:61 | every text the mantissa group `[+-]?\d*\.?\d+` matches is read by `float()` |
| Kinetics.TotalRateAppend | v3.py:581-586 | Python's `sum` over a list of channels splits over concatenation |
| Kinetics.TotalRateSingle | v3.py:541-544 | a reaction with one channel has exactly that channel's rate |
| Kinetics.TotalRatePermutation | v3.py:581-586 | the order of the channels does not change the summed rate |
| Kinetics.TotalRateWithout | v3.py:581-586 | taking one channel out of the list takes its rate out of the sum |
| Kinetics.TotalRatePositive | v3.py:445-446 | with every channel's rate positive, the sum whose logarithm is taken is positive |
| Kinetics.Linspace | v3.py:385 | `np.linspace(T_min, T_max, 500)` has 500 points and starts and ends at the bounds |
| Kinetics.LinspaceBounds | v3.py:385 | every grid temperature lies between the two ends, in either order: within [T_min, T_max] when T_min <= T_max, and within [T_max, T_min] when the grid runs downward |
| Kinetics.RateCurve | v3.py:408 | the formula applied to the grid gives one rate per grid temperature |
| Kinetics.LogCurve | v3.py:409 | `np.log10` acts element by element |
| Kinetics.ComponentCurves | v3.py:439-442 | `k_components` holds one rate curve per channel, in channel order |
| Kinetics.SumCurves | v3.py:445 | `np.sum(axis=0)` keeps the grid length |
| Kinetics.ColumnSumIsTotalRate | v3.py:445 | at every grid index the column sum of the channel curves is the channels' total rate at that temperature |
| Kinetics.TotalLogCurve | v3.py:439-446 | a duplicate reaction's curve is log10 of the summed rate: the logarithm is taken after the sum; the same holds for `v2.py` lines 369-377 |
| Reactions.FieldValue | v3.py:361-365 | a field has a value exactly when the parser yields one, and that value is the parsed number |
| Reactions.ParseChannelIff | v3.py:360-370 | a channel is kept exactly when its three fields parse, and it then carries their values; the emptiness test never decides alone |
| Reactions.KeptAppend | v3.py:354-381 | the accumulator filter works piece by piece, so it keeps order |
| Reactions.KeptMembers | v3.py:354-381 | what the filter keeps is exactly what the per-element test yields on some element |
| Reactions.KeptEmpty | v3.py:372 | nothing is kept exactly when the test yields nothing on every element |
| Reactions.KeptSnoc | v3.py:366-373 | one more element adds the test's value, if any, at the end |
| Reactions.ValidChannelsAppend | v3.py:358-370 | the channel filter keeps the kept channels in their original order |
| Reactions.ValidChannelsMembers | v3.py:358-370 | a kept channel is the reading of a typed channel, and every usable typed channel is kept |
| Reactions.ValidChannelsEmpty | v3.py:372 | no channel is kept exactly when no channel is usable |
| Reactions.ValidateReaction | v3.py:356-381 | a kept reaction carries the filtered channels, and there is at least one |
| Reactions.ValidateReactionIff | v3.py:354-381 | a reaction is kept exactly when its equation is non-empty and some channel is usable; it keeps its kind, equation, reference, styles and colour; the same holds for `v2.py` lines 305-329 |
| Reactions.ValidSingleHasOneChannel | v3.py:405-407 | a kept single reaction from a well-shaped record has exactly one channel, so `parameters[0]` is its only one |
| Reactions.ValidReactionsAppend | v3.py:354-381 | the reaction filter keeps list order |
| Reactions.ValidReactionsShape | v3.py:354-381 | every kept reaction has a channel, and a kept single reaction has exactly one |
| Reactions.FilterChannels | v3.py:358-370 | the inner loop computes exactly the usable channels, in their order |
| Reactions.FilterValid | v3.py:354-381 | the nested loops compute exactly the specified filter; the same holds for `v2.py` lines 305-329 |
| Session.NewSingle | v3.py:205-214 | the single-rate button's record: kind single, one blank channel, empty texts, solid line, no marker, no custom colour |
| Session.NewDuplicate | v3.py:218-227 | the duplicate button's record: kind duplicate, two blank channels, otherwise as above |
| Session.NewRecordsWellShaped | v3.py:205-228 | new records are well shaped, and their styles are the first keys of the style tables |
| Session.NewRecordsNotPlotted | v3.py:354-372 | a blank channel is never usable, so a new reaction is not plotted until it is filled in |
| Session.ReactionList.constructor | v3.py:189-190 | the list starts empty |
| Session.ReactionList.AddSingle | v3.py:205-215 | appends one single-rate record and keeps every record well shaped; the same holds for `v2.py` lines 175-182 |
| Session.ReactionList.AddDuplicate | v3.py:218-228 | appends one duplicate record with two channels and keeps every record well shaped; the same holds for `v2.py` lines 185-192 |
| Session.ReactionList.DeleteReaction | v3.py:279-281 | removes exactly reaction i; the same holds for `v2.py` lines 216-218 |
| Session.ReactionList.AddChannel | v3.py:346-348 | appends one blank channel to duplicate reaction i and changes nothing else; the same holds for `v2.py` lines 210-213 |
| Session.ReactionList.DeleteChannel | v3.py:340-343 | removes channel j of reaction i; it is offered only while there is more than one channel, so every reaction keeps at least one; the same holds for `v2.py` lines 294-297 |
| Session.ReactionList.SetEquation | v3.py:236-241 | the equation input replaces reaction i's equation only |
| Session.ReactionList.SetReference | v3.py:243-248 | the reference input replaces reaction i's reference only |
| Session.ReactionList.SetChannel | v3.py:289-338 | the three parameter inputs replace channel j of reaction i only |
| Session.ReactionList.SetStyles | v3.py:254-266 | the selectors set reaction i's styles to keys of the style tables |
| Session.ReactionList.SetCustomColor | v3.py:269-277 | the colour box stores the picked colour while ticked and nothing otherwise |
| Plot.GenerateColor | v3.py:96-101 | the colour is one of the ten palette entries |
| Plot.PaletteDistinct | v3.py:99-100 | the ten palette colours are pairwise different |
| Plot.GenerateColorCycle | v3.py:101 | colours repeat every ten positions, and any ten consecutive positions get ten different colours |
| Plot.CurveColor | v3.py:396-399 | a reaction's own colour when it has a non-empty one, otherwise (no colour or the empty text) the palette colour of its position |
| Plot.CurveLabelParts | v3.py:413-452 | a label starts with the equation and ends with ` [reference]` exactly when there is a reference; a duplicate's label carries ` (sum of <n> channels)` with n its number of kept channels |
| Plot.ComponentLabelsDistinct | v3.py:479 | different channels get different labels, and the label's number is the channel's position plus one |
| Plot.MainCurve | v3.py:405-471 | the main curve has one value per grid point and the reaction's label and colour |
| Plot.ComponentCurve | v3.py:474-482 | component curve j is log10 of channel j's rate at every grid point, with the reaction's colour |
| Plot.ChannelCurves | v3.py:475-482 | one component curve per channel, in channel order |
| Plot.CurvesPerReaction | v3.py:394-482 | the lines of each kept reaction, in the kept order |
| Plot.MainCurveIsLogOfTotal | v3.py:405-447 | the main curve is log10 of the total rate at every grid point, for single and duplicate reactions alike |
| Plot.LogDataSnoc | v3.py:410 | one more curve extends `all_log_k` by that curve's values |
| Plot.LogDataAppend | v3.py:447-477 | the collected values of two groups of curves are those of the first followed by those of the second |
| Plot.LogDataHasAll | v3.py:410-477 | every value of every curve is among the collected values |
| Plot.LogDataFromCurves | v3.py:410-477 | every collected value comes from one of the curves |
| Plot.AllCurvesSnoc | v3.py:394-482 | one more kept reaction adds its lines after the others |
| Plot.AllCurvesMainOnly | v3.py:474 | without the components option there is exactly one curve per kept reaction, its main curve; the same holds for `v2.py` line 394 |
| Plot.AllCurvesMembers | v3.py:474-477 | every curve spans the grid, and a component curve appears only with the components option |
| Plot.LogDataNonEmpty | v3.py:383-410 | with one kept reaction and a non-empty grid, `all_log_k` is not empty |
| Plot.SumChannels | v3.py:439-447 | the channel loop builds `k_components` and the logarithm of their sum |
| Plot.ChannelLines | v3.py:474-482 | the component loop draws the channel curves and collects their values |
| Plot.AddReactionCurves | v3.py:394-482 | one turn of the drawing loop adds the reaction's lines and their values |
| Plot.AssembleCurves | v3.py:391-482 | the drawing loop produces exactly the specified curves, and `all_log_k` is exactly their values; the same holds for `v2.py` lines 339-402 |
| Plot.XData | v3.py:418-421 | one x-value per grid point: in T mode the grid itself, in 1000/T mode a value whose product with its temperature is 1000 |
| Plot.InverseDecreasing | v3.py:487 | 1000/T falls as T rises |
| Plot.XLimitsHoldData | v3.py:485-504 | the x-limits increase when T_min < T_max, also in 1000/T mode where they are swapped, and are inverted when T_max < T_min; in both cases the grid is positive and every x-value lies between the two limits; the same holds for `v2.py` lines 405-424 and `v1.py` lines 312-332 |
| Plot.GridWithinInputs | v3.py:115-117 | the grid built from the two independent inputs lies between them, whichever is larger |
| Plot.InRange | v3.py:495 | the comprehension keeps exactly the elements inside the bounds |
| Plot.InRangeIncreasing | v3.py:495 | filtering an increasing list keeps it increasing |
| Plot.TempTicks | v3.py:494-495 | the ticks are exactly the candidates inside [T_min, T_max]; the same holds for `v1.py` lines 322-323 |
| Plot.InRangeReversed | v3.py:495 | the comprehension keeps nothing when its lower bound is above its upper bound |
| Plot.TempTicksReversed | v3.py:495 | with T_min above T_max no tick is drawn on the secondary axis |
| Plot.TempTicksOrdered | v3.py:494-498 | the ticks rise, their 1000/T positions fall, and every position lies within the x-limits |
| Plot.InverseTicks | v3.py:496 | each tick's position times the tick is 1000 |
| Plot.TickLabel | v3.py:499 | a tick label is the tick's digits followed by `K` |
| Plot.SeqMin | v3.py:526 | `min` is an element that no element is below |
| Plot.SeqMax | v3.py:527 | `max` is an element that no element exceeds |
| Plot.YLimits | v3.py:521-529 | manual bounds pass through unchanged; in automatic mode limits are set exactly when values were collected |
| Plot.AutoRangeHoldsData | v3.py:525-529 | the automatic limits hold every collected value, with a margin of a tenth of the span on each side; the same holds for `v2.py` lines 445-449 and `v1.py` lines 353-357 |
| Plot.CurvesWithinAutoRange | v3.py:521-529 | every point of every curve whose values were collected lies inside the automatic limits |
| Plot.PlottedWithinAutoRange | v3.py:383-529 | every plotted point lies inside the automatic limits, component curves included |
| Table.ReferenceCell | v3.py:552 | `reference or 'N/A'` is never empty and is the reference when there is one |
| Table.ChannelRates | v3.py:562-564 | k of one channel at 300, 1000 and 2000 K |
| Table.TotalRates | v3.py:581-586 | the summed k of the channels at 300, 1000 and 2000 K |
| Table.ChannelRows | v3.py:561-578 | one row per channel, in channel order |
| Table.ReactionRowsLayout | v3.py:539-600 | a single reaction gives one row; a duplicate gives one row per channel, numbered from one, then one sum row; the same holds for `v2.py` lines 458-514 |
| Table.TableRowsSnoc | v3.py:538 | the rows of one more reaction come after the others |
| Table.TableRowsFromReactions | v3.py:537-600 | every row belongs to a kept reaction, and every kept reaction has its row |
| Table.ColumnTotalOfChannels | v3.py:581-586 | the channel rows' k add up to the channels' total |
| Table.TotalRowIsSumOfChannelRows | v3.py:580-600 | the sum row equals the sum of the channel rows at each table temperature, whatever the channel order; the same holds for `v2.py` lines 496-514 |
| Table.TableMatchesCurve | v3.py:541-599 | where the grid passes a table temperature, the main curve is log10 of the k in the reaction's single or sum row |
| Table.AddReactionRows | v3.py:539-600 | one turn of the table loop appends exactly the reaction's rows |
| Table.BuildTable | v3.py:537-600 | the table loop builds exactly the specified rows; the same holds for `v2.py` lines 457-514 |
| FlatRows.FlatRowList.constructor | v1.py:164-173 | the list starts with one blank row |
| FlatRows.FlatRowList.InsertAfter | v1.py:232-240 | ➕ inserts a blank row directly after row i, and the list stays non-empty |
| FlatRows.FlatRowList.Delete | v1.py:243-246 | ❌ removes exactly row i; it is offered only while there is more than one row, so the list is never empty |
| FlatRows.FlatRowList.Append | v1.py:249-257 | the bottom button appends a blank row at the end |
| FlatRows.FlatRowList.SetRow | v1.py:191-229 | the five inputs replace row i only |
| FlatRows.ValidateRow | v1.py:265-278 | a kept row carries its own position, equation and reference |
| FlatRows.ValidateRowIff | v1.py:265-270 | a row is kept exactly when its equation is non-empty and its three numbers are non-empty and parse; it then carries their values |
| FlatRows.ValidateRowSteps | v1.py:265-278 | the loop's inline tests decide exactly as the specified test |
| FlatRows.Enumerate | v1.py:264 | `enumerate` pairs each row with its position |
| FlatRows.ValidRowsMembers | v1.py:263-278 | the kept rows are exactly the rows that parse, each with its own position |
| FlatRows.KeptPositions | v1.py:263-278 | over rows paired with their positions, the kept positions lie in the list and rise strictly |
| FlatRows.ValidRowsIncreasing | v1.py:263-278 | kept rows keep their original order and no row is kept twice |
| FlatRows.FilterRows | v1.py:263-278 | the loop computes exactly the specified filter |
| FlatRows.FlatLabel | v1.py:297-299 | the label is the equation, followed by ` (reference)` only when there is a reference |
| FlatRows.FlatCurve | v1.py:291-309 | a row's curve is log10 of its rate at every grid point, with its label and the palette colour of its position |
| FlatRows.FlatCurves | v1.py:291-309 | one curve per kept row, in the kept order |
| FlatRows.AssembleFlatCurves | v1.py:288-309 | the drawing loop produces exactly these curves, and `all_log_k` is exactly their values |
| FlatRows.FlatCurvesWithinAutoRange | v1.py:349-357 | with one kept row, every plotted point lies inside the automatic limits |
| FlatRows.FlatTableRowOf | v1.py:372-388 | a table row holds k and log10(k) at 300, 1000 and 2000 K, and `reference or 'N/A'` |
| FlatRows.FlatTable | v1.py:370-388 | exactly one table row per kept row, in the kept order |
| FlatRows.BuildFlatTable | v1.py:370-388 | the table loop builds exactly these rows |
| FlatRows.FlatTableMatchesCurve | v1.py:372-388 | where the grid passes a table temperature, the curve takes the log10(k) shown in the table |

## Left out

- Widgets, reruns, expanders, columns and the CSV download are not modelled. Each button or input is a method of the list classes; `st.error` becomes the `Unparsable` result of the parser.
- The v1 quick-set buttons for the axis bounds (`v1.py:148-161`) are not modelled, because their assignments do not survive the rerun that follows them.
- Matplotlib is not modelled: fonts, line widths, alpha, grid, legend placement and `twiny`. A curve is its label, colour and values.
- The style tables' values (matplotlib codes) and the marker subsampling `[::marker_frequency]` are not modelled. A reaction keeps its style names, and the model proves those names are always table keys.
- The line style of a component curve, dotted in `v3.py` and dashed in `v2.py`, is not modelled; a component curve is marked by `isComponent`.
- In `v1.py` and `v2.py`, `generate_color` takes colours from matplotlib's `tab10` colormap as RGBA tuples. The model uses the same ten colours as the hex codes of `v3.py`'s list. In `v2.py` a reaction has no custom colour.
- The colour picker's opening value is not modelled; the model takes the picked colour as an input. The picker is opened with the stored value (`v3.py:273`), which is `None` for every record the buttons create (`v3.py:213`, `v3.py:226`) and after the box is unticked (`v3.py:277`), so the `generate_color(i)` fallback of `get` is never used.
- Floating point is not modelled. Numbers are exact reals, `float()` yields the exact decimal value, and there is no rounding, overflow, `inf` or NaN.
- The parser accepts a pre-exponential factor A that is zero or negative, such as `0` or `-1e5`, as the source does. `np.log10` then yields `-inf` or NaN, and the automatic Y-range (`v3.py:525-529`) hands such limits to matplotlib. The model's `log10` parameter returns a real for every input, so this case is not captured.
- `np.exp`, `T**n` and `np.log10` are not modelled. The rate formula `calculate_rate_constant` and `log10` are parameters of the model, so every property holds for any formula. `RateLaw` stands in for the formula; its default gas constant 1.987 is kept as a constant.
- `Kinetics.Linspace` gives exact evenly spaced reals, not numpy's rounded values.
- The `pandas` table and the `%.2e`/`%.3f`/`%.2f` formatting are not modelled. A row holds the numbers, and the duplicate rows' type column holds the channel number.
- `float()`'s grammar is modelled without underscores, `inf`/`nan`, non-ASCII digits and surrounding whitespace. Surrounding whitespace is already stripped before the parse.
- `\d` in the three patterns also matches non-ASCII decimal digits, and `float()` reads them, so a text such as `١×10^5` is rewritten and read by the source. The model knows the ASCII digits only and calls such a text `Unparsable`.
- `re.match` and `re.sub` are modelled as a full match of the stripped text. With the decimal grammar above, a match that leaves text behind rewrites to text that `float()` refuses, so the outcome is the same as no match. One consequence is that the three patterns never match the same text, so the order in which they are tried never changes the result.
- The `text is None` test and `str(text)` are not modelled, because the fields are always strings.
- `NumericLiteral.ParseScientific` returns exact `Decimal` values; `Reactions.FieldValue` converts them to reals with `ToReal`.
- Table.ReactionRowsLayout: the type column's texts (`单一速率`, `Duplicate-通道j`, `Duplicate-总和`) are modelled as `RowKind` values, and the sum row's dashed parameter cells as a missing channel. The rows always carry the style cells of `v3.py`, which `v2.py` does not show.
- The page's title, y-label and axis-label texts are not modelled.
