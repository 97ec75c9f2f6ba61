# HitScoreVisualizer judgment engine, modelled in Dafny

This project models the judgment engine of HitScoreVisualizer (`JudgmentService`). The engine
replaces the game's score popup for one cut with a colour and a text. It works in four steps:

1. Pick the judgment tier for the cut's total score: the largest threshold not above the score,
   with a fallback to the lowest tier.
2. Fade the tier's colour toward the previous tier in the configured list, when the tier asks for it.
3. Choose the text by display mode.
4. In the `"format"` mode, expand the `%` specifiers of the tier's text. These include nested
   lookups in the before-cut, after-cut, accuracy and time-dependence segment lists, and the
   time-dependence text has a restricted `%` grammar of its own.

Modules:

- `Settings`: the configuration entities (`Judgment`, `JudgmentSegment`,
  `TimeDependenceJudgmentSegment`, `Configuration`). A nullable list or text is an `Option`.
- `Outcomes`: `Option`, and `Result` for a thrown exception. The only exception the model
  represents is `InvalidOperationException` from `First()`/`Last()` on an empty sequence; the
  null-reference cases under "## Left out" would raise others.
- `LinqOrder`: the LINQ operators the selection uses, over positions in a list.
  `OrderByDescending` is a stable sort: descending key, original order among equal keys.
  `Where`, `DefaultIfEmpty`, `First` and `Last` are modelled too.
- `UnityColor`: `Color`, `Mathf.Clamp01`, `Mathf.InverseLerp` and `Color.Lerp`, over exact reals.
- `DecimalText`: `Int32.ToString()` and a parser that reads its output back.
- `PercentTemplate`: the scan loop shared by `DisplayModeFormat` and
  `FormatTimeDependenceSegment`. It has two parts:
  - `Scanned`, a recursive specification parameterised by what each specifier character expands to;
  - `ScanTemplate`, the imperative loop with a builder string, proved equal to `Scanned`.
- `JudgmentService`:
  - tier selection (`SelectIndex`), fade (`FadeDistance`, `FadeColor`) and display modes (`ModeText`);
  - the segment lookups (`JudgeSegment`, `JudgeTimeDependenceSegment`);
  - the two specifier tables (`FullSpecifier`, `TimeSpecifier`), used with the one scan;
  - `Judge`, which stores a colour and writes the text of a `TextMeshPro` object.

Four behaviours of the code are easy to miss:

- The fade partner is the previous entry in the *configured* list (`index - 1` in the original
  list), not the previous entry in descending-threshold order.
- An empty primary list is not a silent precondition. `DefaultIfEmpty`'s argument
  (`OrderByDescending(...).Last()`) is evaluated eagerly and throws. `Judge` models this as
  `Failure(SequenceContainsNoElements)`, with colour and text unchanged.
- An empty but non-null time-dependence list does not give empty text. `First()` throws, so
  `%T` fails, and with it the whole `"format"` rendering.
- `Judge` is not a pure function of its inputs. It writes the colour before it evaluates the
  text. If rendering throws, the new colour stays and the old text remains.

External pieces become parameters:

- `ConvertTimeDependencePrecision` becomes `Formatters.timeDependence`. It uses float `Mathf.Pow`
  and the culture-dependent `"n"` format.
- The `%p` expression `(double) score / maxCutScore * 100` with format `"0"` becomes
  `Formatters.percentage`.
- The configuration that `ConfigProvider.GetCurrentConfig()` returns becomes the
  `Option<Configuration>` argument of `Judge`.

## Model

| member | source | states |
|---|---|---|
| `LinqOrder.OrderByDescending` | HitScoreVisualizer/Services/JudgmentService.cs:40-42 | the sorted order holds every position of the list exactly once, by descending threshold, keeping list order among equal thresholds (stable) |
| `LinqOrder.FirstIsLargest` | HitScoreVisualizer/Services/JudgmentService.cs:170 | `First()` of the descending order has the largest threshold and is the earliest in list order among equal thresholds |
| `LinqOrder.LastIsSmallest` | HitScoreVisualizer/Services/JudgmentService.cs:42 | `Last()` of the descending order has the smallest threshold and is the latest in list order among equal thresholds |
| `LinqOrder.Where` | HitScoreVisualizer/Services/JudgmentService.cs:41 | `Where(p)` keeps exactly the elements of the sequence that satisfy p |
| `LinqOrder.Last` | HitScoreVisualizer/Services/JudgmentService.cs:42 | `Last()` is the final element of a non-empty sequence |
| `LinqOrder.WhereHead` | HitScoreVisualizer/Services/JudgmentService.cs:41-43 | `Where(p).First()` is the first element, in the sequence's order, that satisfies p |
| `LinqOrder.DefaultIfEmpty` | HitScoreVisualizer/Services/JudgmentService.cs:42 | the sequence itself when non-empty, else the one-element sequence of the default |
| `JudgmentService.SelectIndex` | HitScoreVisualizer/Services/JudgmentService.cs:37-45 | the LINQ pipeline plus `IndexOf` yields a position of the non-empty configured list |
| `JudgmentService.SelectIndexCharacterized` | HitScoreVisualizer/Services/JudgmentService.cs:37-45 | the position chosen is exactly the tier rule's (if and only if): if some threshold is at most the score, the largest such, earliest among ties; otherwise the smallest threshold, latest among ties |
| `JudgmentService.SelectIndexIsSelected` | HitScoreVisualizer/Services/JudgmentService.cs:37-45 | the chosen position satisfies the tier rule |
| `JudgmentService.SelectedIsUnique` | HitScoreVisualizer/Services/JudgmentService.cs:37-45 | the tier rule picks a single position, so the tie-breaks leave no choice |
| `JudgmentService.FadePartner` | HitScoreVisualizer/Services/JudgmentService.cs:49 | the fade partner is the entry just before in the configured list, or the entry itself exactly at position 0 |
| `JudgmentService.FadeDistance` | HitScoreVisualizer/Services/JudgmentService.cs:49-52 | the fade weight lies in [0, 1]; it is 0 at position 0 (partner is the judgment itself), when the partner's threshold equals the judgment's own, at the judgment's own threshold and on the far side of it from the partner's; it is 1 at the partner's distinct threshold and beyond it; between the two thresholds it is the score's linear position |
| `JudgmentService.FadeColor` | HitScoreVisualizer/Services/JudgmentService.cs:47-58 | without the selected judgment's fade flag the colour is its own exactly; with it, the colour is the lerp from its own colour to the partner's by the fade weight: its own at position 0, when the partner's threshold equals its own, at its own threshold and on the far side of it (the fallback tier scored below its threshold), the partner's at and beyond the partner's distinct threshold; every channel lies between the two colours |
| `JudgmentService.FadeFlagOfSelectedTierOnly` | HitScoreVisualizer/Services/JudgmentService.cs:39-58 | tiers 115 (fading) and 101 (not fading, red) with score 108: tier 101 is chosen and the colour is red, because the fade flag is read from the chosen tier only |
| `JudgmentService.EqualThresholdFallbackKeepsOwnColor` | HitScoreVisualizer/Services/JudgmentService.cs:39-53 | two fading tiers at 100 scored 50: the fallback picks the second, whose partner has the same threshold, so the fade weight is 0 and the colour is the tier's own |
| `UnityColor.Clamp01` | HitScoreVisualizer/Services/JudgmentService.cs:52-53 | the value itself inside [0, 1], 0 below it and 1 above it |
| `UnityColor.InverseLerp` | HitScoreVisualizer/Services/JudgmentService.cs:52 | the weight is clamped to [0, 1]: 0 for equal end points, at the start and before it, 1 at the end and beyond it, the exact fraction in between |
| `UnityColor.Lerp` | HitScoreVisualizer/Services/JudgmentService.cs:53 | weight 0 (or less) gives the base colour, 1 (or more) the fade colour; a weight t in [0, 1] gives each channel (1 - t) times the base channel plus t times the fade channel, which lies between the two |
| `JudgmentService.ModeText` | HitScoreVisualizer/Services/JudgmentService.cs:63-66 | `"textOnly"` is the raw text, `"numeric"` the score, `"scoreOnTop"` score, newline, text, newline; any other mode is text, newline, score, newline; the text is never expanded |
| `JudgmentService.ModeTextLayout` | HitScoreVisualizer/Services/JudgmentService.cs:63-66 | for a one-line text, the lines of what each fixed mode shows are exactly the text and the score's numeral in that mode's order |
| `JudgmentService.NumericModeShowsScoreOnly` | HitScoreVisualizer/Services/JudgmentService.cs:64 | `"numeric"` with score 42 shows `"42"` whatever the tier's text |
| `JudgmentService.TextOrEmpty` | HitScoreVisualizer/Services/JudgmentService.cs:147 | a segment's text, or the empty string for a null text |
| `JudgmentService.FirstSegmentText` | HitScoreVisualizer/Services/JudgmentService.cs:143-151 | the text, null read as empty, of the first entry in list order whose threshold the value reaches; empty when none is reached |
| `JudgmentService.JudgeSegment` | HitScoreVisualizer/Services/JudgmentService.cs:136-152 | a null list gives empty text; otherwise the first entry reached in list order, without sorting; empty when nothing matches |
| `JudgmentService.FirstTimeSegment` | HitScoreVisualizer/Services/JudgmentService.cs:161-167 | the position of the first time-dependence entry whose threshold the value reaches, or none when no entry is reached |
| `JudgmentService.TimeSegmentIndex` | HitScoreVisualizer/Services/JudgmentService.cs:161-170 | the entry formatted is a position of the non-empty list |
| `JudgmentService.TimeSegmentIndexCharacterized` | HitScoreVisualizer/Services/JudgmentService.cs:161-170 | it is the first entry reached when there is one; otherwise the highest threshold, earliest in list order among ties |
| `JudgmentService.JudgeTimeDependenceSegment` | HitScoreVisualizer/Services/JudgmentService.cs:154-171 | a null list gives empty text; an empty non-null list throws; otherwise the chosen entry's text rendered through the restricted grammar |
| `JudgmentService.TimeSpecifier` | HitScoreVisualizer/Services/JudgmentService.cs:193-207 | `t` is the formatted time dependence, `%` is `%`, `n` is a newline, and any other character c is `%` followed by c |
| `JudgmentService.TimeTextKeepsOtherSpecifiers` | HitScoreVisualizer/Services/JudgmentService.cs:193-207 | in a time-dependence text, any specifier other than `t`, `%`, `n` (such as `%s` or `%B`) renders as written |
| `JudgmentService.FormatTimeDependenceSegment` | HitScoreVisualizer/Services/JudgmentService.cs:173-214 | the loop over a segment's text (null as empty) yields the restricted scan of it, which never throws |
| `JudgmentService.FullSpecifier` | HitScoreVisualizer/Services/JudgmentService.cs:86-127 | only `T` can throw; `b`, `c`, `a` are the before, accuracy and after scores as numerals; `t` is the formatted time dependence with the configured offset and precision; `T`, `B`, `A`, `C` are the segment lookups of time dependence, before, after and accuracy; `s` is the score; `p` is the formatted percentage of score over the maximum cut score; `%` is `%`; `n` is a newline; any unknown c is `%` followed by c |
| `JudgmentService.DisplayModeFormat` | HitScoreVisualizer/Services/JudgmentService.cs:71-134 | the `"format"` loop over the judgment's text yields the full-grammar scan of it, or the exception thrown by `%T` |
| `JudgmentService.FormatSingleSpecifier` | HitScoreVisualizer/Services/JudgmentService.cs:84-129 | a lone two-character specifier renders as its expansion |
| `JudgmentService.FormatLineBreakAndUnknown` | HitScoreVisualizer/Services/JudgmentService.cs:121-125 | `"%n"` renders as a newline and the unknown `"%z"` as `"%z"` |
| `JudgmentService.FormatScore115` | HitScoreVisualizer/Services/JudgmentService.cs:112-113 | `"%s"` with score 115 renders as `"115"` |
| `JudgmentService.FormatDoublePercentNotRescanned` | HitScoreVisualizer/Services/JudgmentService.cs:118-130 | `"%%s"` renders as `"%s"`: expansions are not scanned again |
| `JudgmentService.FormatTrailingPercent` | HitScoreVisualizer/Services/JudgmentService.cs:79-84 | a text ending in a lone `%` renders that `%` as `"% "` |
| `JudgmentService.FormatFailsOnlyOnEmptyTimeList` | HitScoreVisualizer/Services/JudgmentService.cs:109-110 | unless the time-dependence list is empty but not null, the format rendering never throws |
| `JudgmentService.FormatThrowsOnTimeSpecifier` | HitScoreVisualizer/Services/JudgmentService.cs:170 | with an empty non-null time-dependence list, a scanned `%T` throws |
| `JudgmentService.JudgmentText` | HitScoreVisualizer/Services/JudgmentService.cs:60-67 | `"format"` gives the full-grammar scan of the judgment's text, any other mode its fixed-mode text; only `"format"` can throw, and only with an empty non-null time-dependence list |
| `JudgmentService.Judge` | HitScoreVisualizer/Services/JudgmentService.cs:23-68 | no configuration: colour and text unchanged; empty tier list: throws with both unchanged; otherwise the colour is the fade colour of the selected tier, and the text is the display-mode text, or unchanged when rendering throws (the colour is then already updated) |
| `PercentTemplate.IndexOfPercent` | HitScoreVisualizer/Services/JudgmentService.cs:75 | the first position of `%`, or -1 exactly when there is none |
| `PercentTemplate.Scanned` | HitScoreVisualizer/Services/JudgmentService.cs:73-133 | the recursive scan: the text before the first `%` (all of it when there is none) begins every successful result |
| `PercentTemplate.Padded` | HitScoreVisualizer/Services/JudgmentService.cs:79-82 | a `%` that ends the text gets one space appended, so a specifier character always follows it; the text is otherwise unchanged |
| `PercentTemplate.ScanTemplate` | HitScoreVisualizer/Services/JudgmentService.cs:73-133 | the builder loop produces exactly the scan specification, stopping at the first exception |
| `PercentTemplate.ScanWithoutPercent` | HitScoreVisualizer/Services/JudgmentService.cs:75-76 | a text with no `%` is returned unchanged |
| `PercentTemplate.ScanSpecifier` | HitScoreVisualizer/Services/JudgmentService.cs:78-130 | literal text is copied, `%c` is replaced by c's expansion, and the scan resumes after the two characters, so the expansion is never scanned again |
| `PercentTemplate.ScanTrailingPercent` | HitScoreVisualizer/Services/JudgmentService.cs:79-84 | a lone `%` at the end is expanded as the specifier ' ' (a space is appended first) |
| `PercentTemplate.ScanNeverFails` | HitScoreVisualizer/Services/JudgmentService.cs:183-213 | when no specifier's expansion throws, neither does the scan |
| `DecimalText.NatToString` | HitScoreVisualizer/Services/JudgmentService.cs:64 | a non-empty string of decimal digits with no leading zero |
| `DecimalText.IntToString` | HitScoreVisualizer/Services/JudgmentService.cs:64 | a minus sign exactly for negative numbers, followed by a non-empty string of decimal digits with no leading zero |
| `DecimalText.IntToStringRoundTrip` | HitScoreVisualizer/Services/JudgmentService.cs:64-66 | the score's text reads back as the score |

## Left out

- Host integration is not modelled. This covers `HitScoreVisualizer/Models/HsvFlyingScoreEffect.cs`
  (patch hooks, Unity behaviour state, transforms, callback registration and the animation curve)
  and `HitScoreVisualizer/Plugin.cs` (lifecycle, patching, installers). Their `Judge` overload,
  taking a cut score buffer, is not part of this model.
- `ConvertTimeDependencePrecision` (lines 216-220) is a parameter, `Formatters.timeDependence`.
  It uses float `Mathf.Pow` and the culture-dependent `"n"` number format.
- `%p` (line 116) is a parameter, `Formatters.percentage`. It relies on double division and .NET
  `"0"` rounding, including division by a zero `maxCutScore`.
- Float arithmetic: `InverseLerp`, `Lerp` and the time-dependence comparisons are over exact
  reals, so no IEEE rounding results are claimed.
- The TextMeshPro settings of lines 32-35 (rich text, word wrap, overflow) are left out. The
  `TextMeshPro` class has only the `text` field.
- The logger and configuration loading are left out. `ConfigProvider.GetCurrentConfig()` is the
  `config` argument of `Judge`.
- `IndexOf` (line 45) is assumed to find the selected entry's own position, because entries are
  distinct objects. `judgment == fadeJudgment` (line 52) is likewise read as "position 0".
- Null references the code does not guard are not modelled: a null `Judgments` list, a null
  judgment text, and null entries inside a list. For the same reason,
  `FormatTimeDependenceSegment`'s null-judgment branch (lines 175-178) cannot be reached.
- `judgment.Color.ToColor()` (lines 50-51 and 57) is not modelled. A `Judgment` holds a `Color`
  value directly, instead of the configured list of channel numbers that the code converts.
- `DecimalText.IntToString` assumes the invariant culture's minus sign.
