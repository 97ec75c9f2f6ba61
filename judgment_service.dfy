/**
 * The judgment engine: picks the judgment tier for a cut's total score, resolves its
 * (possibly faded) colour, and renders its text by display mode, expanding `%` specifiers
 * in the "format" mode with nested lookups in the segment lists.
 */
module JudgmentService {
  import opened Outcomes
  import opened DecimalText
  import opened UnityColor
  import opened LinqOrder
  import opened PercentTemplate
  import opened Settings

  /** What one call of Judge is given about the cut; maxCutScore comes from the note's score definition. */
  datatype CutScores = CutScores(
    score: int, before: int, after: int, accuracy: int, timeDependence: real, maxCutScore: int)

  /**
   * Number formatting done by .NET and UnityEngine, which the model takes as given:
   * timeDependence(value, decimalOffset, decimalPrecision) is ConvertTimeDependencePrecision,
   * percentage(score, maxCutScore) is the `%p` rendering of score / maxCutScore * 100.
   */
  datatype Formatters = Formatters(
    timeDependence: (real, int, int) -> string,
    percentage: (int, int) -> string)

  // ---------------------------------------------------------------------------------------
  // Tier selection

  function Thresholds(js: seq<Judgment>): (keys: seq<real>)
    ensures |keys| == |js|
    ensures forall i :: 0 <= i < |js| ==> keys[i] == js[i].threshold as real
  {
    seq(|js|, i requires 0 <= i < |js| => js[i].threshold as real)
  }

  ghost predicate SomeQualifies(js: seq<Judgment>, score: int)
  {
    exists k :: 0 <= k < |js| && js[k].threshold <= score
  }

  /**
   * The tier rule: the entry with the largest threshold not above score, the earliest in
   * list order among equal thresholds; when no threshold is at most score, the entry with
   * the smallest threshold, the latest in list order among equal thresholds.
   */
  ghost predicate IsSelected(js: seq<Judgment>, score: int, i: nat)
  {
    i < |js| &&
    if SomeQualifies(js, score) then
      js[i].threshold <= score &&
      forall k :: 0 <= k < |js| && js[k].threshold <= score ==>
        js[k].threshold < js[i].threshold || (js[k].threshold == js[i].threshold && i <= k)
    else
      forall k :: 0 <= k < |js| ==>
        js[i].threshold < js[k].threshold || (js[i].threshold == js[k].threshold && k <= i)
  }

  /**
   * OrderByDescending(Threshold).Where(Threshold <= score).DefaultIfEmpty(lowest).First(),
   * where lowest is the Last() of the sorted list, followed by IndexOf: the position in the
   * configured list of the entry chosen (entries are distinct objects, so IndexOf finds it).
   */
  function SelectIndex(js: seq<Judgment>, score: int): (index: nat)
    requires |js| > 0
    ensures index < |js|
  {
    var keys := Thresholds(js);
    var sorted := OrderByDescending(keys);
    var lowest := Last(sorted);
    var qualifying := Where(sorted, (k: nat) => k < |keys| && keys[k] <= score as real);
    var chosen := DefaultIfEmpty(qualifying, lowest)[0];
    assert chosen in sorted;
    chosen
  }

  lemma SelectIndexIsSelected(js: seq<Judgment>, score: int)
    requires |js| > 0
    ensures IsSelected(js, score, SelectIndex(js, score))
  {
    var keys := Thresholds(js);
    var sorted := OrderByDescending(keys);
    var keep := (k: nat) => k < |keys| && keys[k] <= score as real;
    var qualifying := Where(sorted, keep);
    var chosen := SelectIndex(js, score);
    if qualifying != [] {
      var p := WhereHead(sorted, keep);
      assert chosen == sorted[p];
      forall k | 0 <= k < |js| && js[k].threshold <= score
        ensures js[k].threshold < js[chosen].threshold || (js[k].threshold == js[chosen].threshold && chosen <= k)
      {
        var q := PositionInOrder(keys, k);
        assert keep(sorted[q]);
        if q != p {
          assert Precedes(keys, sorted[p], sorted[q]);
        }
      }
    } else {
      LastIsSmallest(keys);
      assert chosen == Last(sorted);
      assert !SomeQualifies(js, score) by {
        forall k | 0 <= k < |js| ensures js[k].threshold > score {
          var q := PositionInOrder(keys, k);
          assert sorted[q] !in qualifying;
        }
      }
      forall k | 0 <= k < |js|
        ensures js[chosen].threshold < js[k].threshold || (js[chosen].threshold == js[k].threshold && k <= chosen)
      {
        if k != chosen {
          assert Precedes(keys, k, chosen);
        }
      }
    }
  }

  lemma SelectedIsUnique(js: seq<Judgment>, score: int, i: nat, j: nat)
    requires IsSelected(js, score, i) && IsSelected(js, score, j)
    ensures i == j
  {
    if SomeQualifies(js, score) {
      assert js[i].threshold <= score && js[j].threshold <= score;
      assert js[j].threshold < js[i].threshold || (js[j].threshold == js[i].threshold && i <= j);
      assert js[i].threshold < js[j].threshold || (js[i].threshold == js[j].threshold && j <= i);
    } else {
      assert js[i].threshold < js[j].threshold || (js[i].threshold == js[j].threshold && j <= i);
      assert js[j].threshold < js[i].threshold || (js[j].threshold == js[i].threshold && i <= j);
    }
  }

  /** SelectIndex picks exactly the entry the tier rule describes. */
  lemma SelectIndexCharacterized(js: seq<Judgment>, score: int, i: nat)
    requires |js| > 0
    ensures SelectIndex(js, score) == i <==> IsSelected(js, score, i)
  {
    SelectIndexIsSelected(js, score);
    if IsSelected(js, score, i) {
      SelectedIsUnique(js, score, i, SelectIndex(js, score));
    }
  }

  // ---------------------------------------------------------------------------------------
  // Fade colour

  /** The fade partner: the previous entry in configured order, or the entry itself at position 0. */
  function FadePartner(index: nat): (partner: nat)
    ensures partner <= index
    ensures partner == index <==> index == 0
    ensures partner < index ==> partner + 1 == index
  {
    if index > 0 then index - 1 else index
  }

  /** The interpolation weight: 0 without a partner, else InverseLerp(threshold, partner threshold, score). */
  function FadeDistance(js: seq<Judgment>, index: nat, score: int): (t: real)
    requires index < |js|
    ensures 0.0 <= t <= 1.0
    ensures index == 0 || score == js[index].threshold ==> t == 0.0
    ensures index > 0 && js[index - 1].threshold == js[index].threshold ==> t == 0.0
    ensures index > 0 && js[index - 1].threshold != js[index].threshold && score == js[index - 1].threshold
      ==> t == 1.0
    ensures index > 0 && Between(js[index].threshold as real, js[index - 1].threshold as real, score as real)
      ==> t * ((js[index - 1].threshold - js[index].threshold) as real) == (score - js[index].threshold) as real
    ensures (index > 0 &&
      ((js[index].threshold < js[index - 1].threshold && score <= js[index].threshold) ||
       (js[index].threshold > js[index - 1].threshold && score >= js[index].threshold))) ==> t == 0.0
    ensures (index > 0 &&
      ((js[index].threshold < js[index - 1].threshold && score >= js[index - 1].threshold) ||
       (js[index].threshold > js[index - 1].threshold && score <= js[index - 1].threshold))) ==> t == 1.0
  {
    var partner := FadePartner(index);
    if partner == index then 0.0
    else InverseLerp(js[index].threshold as real, js[partner].threshold as real, score as real)
  }

  /** The colour Judge stores: the judgment's own, or, when it fades, lerped toward its partner's. */
  function FadeColor(js: seq<Judgment>, index: nat, score: int): (c: Color)
    requires index < |js|
    ensures !js[index].fade ==> c == js[index].color
    ensures index == 0 || score == js[index].threshold ==> c == js[index].color
    ensures index > 0 && js[index - 1].threshold == js[index].threshold ==> c == js[index].color
    ensures (js[index].fade && index > 0 && js[index - 1].threshold != js[index].threshold
      && score == js[index - 1].threshold) ==> c == js[index - 1].color
    ensures ColorBetween(js[index].color, js[FadePartner(index)].color, c)
    ensures js[index].fade ==>
      c == Lerp(js[index].color, js[FadePartner(index)].color, FadeDistance(js, index, score))
    ensures (js[index].fade && index > 0 &&
      ((js[index].threshold < js[index - 1].threshold && score <= js[index].threshold) ||
       (js[index].threshold > js[index - 1].threshold && score >= js[index].threshold))) ==> c == js[index].color
    ensures (js[index].fade && index > 0 &&
      ((js[index].threshold < js[index - 1].threshold && score >= js[index - 1].threshold) ||
       (js[index].threshold > js[index - 1].threshold && score <= js[index - 1].threshold))) ==> c == js[index - 1].color
  {
    if js[index].fade then
      Lerp(js[index].color, js[FadePartner(index)].color, FadeDistance(js, index, score))
    else
      js[index].color
  }

  /**
   * A list of a fading 115 tier then a non-fading red 101 tier, scored 108: the 101 tier is
   * chosen and its colour is used unchanged, since the fade flag is read from that tier only.
   */
  lemma FadeFlagOfSelectedTierOnly(white: Color, red: Color)
    ensures var js := [Judgment(115, "%s", white, true), Judgment(101, "ok", red, false)];
      SelectIndex(js, 108) == 1 && FadeColor(js, SelectIndex(js, 108), 108) == red
  {
    var js := [Judgment(115, "%s", white, true), Judgment(101, "ok", red, false)];
    assert SomeQualifies(js, 108) by { assert js[1].threshold <= 108; }
    SelectIndexCharacterized(js, 108, 1);
  }

  /**
   * Two fading tiers at 100, scored 50: the fallback picks the second one, whose partner has
   * the same threshold, so InverseLerp(100, 100, 50) is 0 and the colour is its own.
   */
  lemma EqualThresholdFallbackKeepsOwnColor(first: Color, second: Color)
    ensures var js := [Judgment(100, "a", first, true), Judgment(100, "b", second, true)];
      SelectIndex(js, 50) == 1 && FadeColor(js, SelectIndex(js, 50), 50) == second
  {
    var js := [Judgment(100, "a", first, true), Judgment(100, "b", second, true)];
    assert !SomeQualifies(js, 50);
    SelectIndexCharacterized(js, 50, 1);
  }

  // ---------------------------------------------------------------------------------------
  // Display modes other than "format"

  /** The text of the fixed display modes; the judgment's text is used raw, never expanded. */
  function ModeText(mode: string, text: string, score: int): (s: string)
    requires mode != "format"
    ensures mode == "textOnly" ==> s == text
    ensures mode == "numeric" ==> s == IntToString(score)
    ensures mode == "scoreOnTop" ==> s == IntToString(score) + "\n" + text + "\n"
    ensures mode !in {"textOnly", "numeric", "scoreOnTop"} ==> s == text + "\n" + IntToString(score) + "\n"
  {
    if mode == "textOnly" then text
    else if mode == "numeric" then IntToString(score)
    else if mode == "scoreOnTop" then IntToString(score) + "\n" + text + "\n"
    else text + "\n" + IntToString(score) + "\n"
  }

  predicate NoLineBreak(s: string) { forall i :: 0 <= i < |s| ==> s[i] != '\n' }

  /**
   * The lines of s, cut at each line break; a text ending in a line break has an empty last
   * line. Used only to read back what a fixed display mode shows, in ModeTextLayout.
   */
  function Lines(s: string): (ls: seq<string>)
    ensures |ls| > 0
    decreases |s|
  {
    if s == [] then [""]
    else
      var tail := Lines(s[1..]);
      if s[0] == '\n' then [""] + tail else [[s[0]] + tail[0]] + tail[1..]
  }

  lemma {:induction false} LinesAfterLine(line: string, rest: string)
    requires NoLineBreak(line)
    ensures Lines(line + "\n" + rest) == [line] + Lines(rest)
    decreases |line|
  {
    if line == [] {
      assert line + "\n" + rest == "\n" + rest;
      assert ("\n" + rest)[1..] == rest;
    } else {
      assert (line + "\n" + rest)[1..] == line[1..] + "\n" + rest;
      LinesAfterLine(line[1..], rest);
      assert [line[0]] + line[1..] == line;
    }
  }

  lemma {:induction false} LinesOfLine(line: string)
    requires NoLineBreak(line)
    ensures Lines(line) == [line]
    decreases |line|
  {
    if line != [] {
      LinesOfLine(line[1..]);
      assert [line[0]] + line[1..] == line;
    }
  }

  /**
   * The fixed modes keep a one-line text and the score on lines of their own, so both can be
   * read back from what is shown (the score with ParseInt, by IntToStringRoundTrip).
   */
  lemma ModeTextLayout(mode: string, text: string, score: int)
    requires mode != "format" && NoLineBreak(text)
    ensures mode == "textOnly" ==> Lines(ModeText(mode, text, score)) == [text]
    ensures mode == "numeric" ==> Lines(ModeText(mode, text, score)) == [IntToString(score)]
    ensures mode == "scoreOnTop" ==> Lines(ModeText(mode, text, score)) == [IntToString(score), text, ""]
    ensures mode !in {"textOnly", "numeric", "scoreOnTop"} ==>
      Lines(ModeText(mode, text, score)) == [text, IntToString(score), ""]
  {
    var n := IntToString(score);
    assert NoLineBreak(n) by {
      forall i | 0 <= i < |n| ensures n[i] != '\n' {
        if score < 0 && i > 0 { assert n[1..][i - 1] == n[i]; }
      }
    }
    LinesOfLine(text);
    LinesOfLine(n);
    var empty := "";
    assert Lines(empty) == [""];
    if mode == "scoreOnTop" {
      LinesAfterLine(text, empty);
      assert text + "\n" == text + "\n" + empty;
      LinesAfterLine(n, text + "\n");
      assert ModeText(mode, text, score) == n + "\n" + (text + "\n");
    } else if mode !in {"textOnly", "numeric"} {
      LinesAfterLine(n, empty);
      assert n + "\n" == n + "\n" + empty;
      LinesAfterLine(text, n + "\n");
      assert ModeText(mode, text, score) == text + "\n" + (n + "\n");
    }
  }

  /** "numeric" shows only the score, whatever the judgment's text: 42 shows as "42". */
  lemma NumericModeShowsScoreOnly(text: string)
    ensures ModeText("numeric", text, 42) == "42"
  {
    assert NatToString(4) == "4";
    assert NatToString(42) == NatToString(4) + [DigitChar(2)];
  }

  // ---------------------------------------------------------------------------------------
  // Segment lookups

  /** `text ?? string.Empty`: a segment's text, a null text read as empty. */
  function TextOrEmpty(text: Option<string>): (r: string)
    ensures text.Some? ==> r == text.value
    ensures text == None ==> r == ""
  {
    match text
    case Some(t) => t
    case None => ""
  }

  /** Entry i is the first, in list order, whose threshold value reaches. */
  predicate IsFirstReached(value: int, js: seq<JudgmentSegment>, i: int)
  {
    0 <= i < |js| && value >= js[i].threshold && forall k :: 0 <= k < i ==> value < js[k].threshold
  }

  /** The foreach of JudgeSegment: the text of the first entry reached, else empty. */
  function FirstSegmentText(value: int, js: seq<JudgmentSegment>): (r: string)
    ensures forall i :: IsFirstReached(value, js, i) ==> r == TextOrEmpty(js[i].text)
    ensures (forall k :: 0 <= k < |js| ==> value < js[k].threshold) ==> r == ""
    decreases |js|
  {
    if js == [] then ""
    else if value >= js[0].threshold then TextOrEmpty(js[0].text)
    else
      var r := FirstSegmentText(value, js[1..]);
      assert forall i :: IsFirstReached(value, js, i) ==> i > 0 && IsFirstReached(value, js[1..], i - 1);
      r
  }

  /** `%B`, `%A`, `%C`: a null list gives empty text, otherwise the first entry reached (no sorting). */
  function JudgeSegment(value: int, judgments: Option<seq<JudgmentSegment>>): (r: string)
    ensures judgments.None? ==> r == ""
    ensures judgments.Some? ==>
      forall i :: IsFirstReached(value, judgments.value, i) ==> r == TextOrEmpty(judgments.value[i].text)
    ensures judgments.Some? && (forall k :: 0 <= k < |judgments.value| ==> value < judgments.value[k].threshold)
      ==> r == ""
  {
    match judgments
    case None => ""
    case Some(js) => FirstSegmentText(value, js)
  }

  predicate IsFirstReachedTime(value: real, js: seq<TimeDependenceJudgmentSegment>, i: int)
  {
    0 <= i < |js| && value >= js[i].threshold && forall k :: 0 <= k < i ==> value < js[k].threshold
  }

  /** The foreach of JudgeTimeDependenceSegment: the position of the first entry reached. */
  function FirstTimeSegment(value: real, js: seq<TimeDependenceJudgmentSegment>): (r: Option<nat>)
    ensures r.Some? ==> IsFirstReachedTime(value, js, r.value)
    ensures r.None? ==> forall k :: 0 <= k < |js| ==> value < js[k].threshold
    decreases |js|
  {
    if js == [] then None
    else if value >= js[0].threshold then Some(0)
    else
      match FirstTimeSegment(value, js[1..])
      case None => None
      case Some(i) => Some(i + 1)
  }

  function TimeThresholds(js: seq<TimeDependenceJudgmentSegment>): (keys: seq<real>)
    ensures |keys| == |js|
    ensures forall i :: 0 <= i < |js| ==> keys[i] == js[i].threshold
  {
    seq(|js|, i requires 0 <= i < |js| => js[i].threshold)
  }

  /** The entry JudgeTimeDependenceSegment formats: the first reached, else OrderByDescending(...).First(). */
  function TimeSegmentIndex(value: real, js: seq<TimeDependenceJudgmentSegment>): (i: nat)
    requires |js| > 0
    ensures i < |js|
  {
    match FirstTimeSegment(value, js)
    case Some(i) => i
    case None => OrderByDescending(TimeThresholds(js))[0]
  }

  /**
   * The first entry reached if there is one; otherwise an entry with the highest threshold,
   * the earliest in list order among equal thresholds.
   */
  lemma TimeSegmentIndexCharacterized(value: real, js: seq<TimeDependenceJudgmentSegment>)
    requires |js| > 0
    ensures (exists k :: 0 <= k < |js| && value >= js[k].threshold) ==>
      IsFirstReachedTime(value, js, TimeSegmentIndex(value, js))
    ensures (forall k :: 0 <= k < |js| ==> value < js[k].threshold) ==>
      forall k :: 0 <= k < |js| ==>
        js[k].threshold < js[TimeSegmentIndex(value, js)].threshold ||
        (js[k].threshold == js[TimeSegmentIndex(value, js)].threshold && TimeSegmentIndex(value, js) <= k)
  {
    if FirstTimeSegment(value, js).None? {
      var keys := TimeThresholds(js);
      FirstIsLargest(keys);
      var i := TimeSegmentIndex(value, js);
      assert i == OrderByDescending(keys)[0];
      forall k | 0 <= k < |js|
        ensures js[k].threshold < js[i].threshold || (js[k].threshold == js[i].threshold && i <= k)
      {
        if k != i {
          assert Precedes(keys, i, k);
        }
      }
    }
  }

  /** The restricted grammar of a time-dependence segment's text: only `%t`, `%%` and `%n`. */
  const TimeSpecifierChars: set<char> := {'t', '%', 'n'}

  function TimeSpecifier(specifier: char, timeDependence: real, config: Configuration, fmt: Formatters): (s: string)
    ensures specifier == 't' ==>
      s == fmt.timeDependence(timeDependence, config.timeDependenceDecimalOffset, config.timeDependenceDecimalPrecision)
    ensures specifier == '%' ==> s == "%"
    ensures specifier == 'n' ==> s == "\n"
    ensures specifier !in TimeSpecifierChars ==> s == ['%', specifier]
  {
    match specifier
    case 't' => fmt.timeDependence(timeDependence, config.timeDependenceDecimalOffset, config.timeDependenceDecimalPrecision)
    case '%' => "%"
    case 'n' => "\n"
    case _ => ['%', specifier]
  }

  function TimeExpander(timeDependence: real, config: Configuration, fmt: Formatters): char -> Result<string>
  {
    c => Ok(TimeSpecifier(c, timeDependence, config, fmt))
  }

  /** What FormatTimeDependenceSegment builds from a segment's text (null text reads as empty). */
  function FormatTimeDependenceText(
    segment: TimeDependenceJudgmentSegment, timeDependence: real, config: Configuration, fmt: Formatters): string
  {
    var expand := TimeExpander(timeDependence, config, fmt);
    ScanNeverFails(TextOrEmpty(segment.text), expand);
    Scanned(TextOrEmpty(segment.text), expand).value
  }

  /**
   * `%T`: a null list gives empty text; an empty list throws from First(); otherwise the
   * chosen entry's text rendered through the restricted grammar.
   */
  function JudgeTimeDependenceSegment(
    value: real, judgments: Option<seq<TimeDependenceJudgmentSegment>>, config: Configuration, fmt: Formatters)
    : (r: Result<string>)
    ensures judgments.None? ==> r == Ok("")
    ensures judgments == Some([]) ==> r == Failure(SequenceContainsNoElements)
    ensures judgments.Some? && judgments.value != [] ==>
      r == Ok(FormatTimeDependenceText(judgments.value[TimeSegmentIndex(value, judgments.value)], value, config, fmt))
  {
    match judgments
    case None => Ok("")
    case Some(js) =>
      if js == [] then Failure(SequenceContainsNoElements)
      else Ok(FormatTimeDependenceText(js[TimeSegmentIndex(value, js)], value, config, fmt))
  }

  // ---------------------------------------------------------------------------------------
  // The "format" display mode

  /** The full grammar of a judgment's text. */
  const FullSpecifierChars: set<char> := {'b', 'c', 'a', 't', 'B', 'C', 'A', 'T', 's', 'p', '%', 'n'}

  function FullSpecifier(specifier: char, cut: CutScores, config: Configuration, fmt: Formatters)
    : (r: Result<string>)
    ensures specifier != 'T' ==> r.Ok?
    ensures specifier == 'T' ==>
      r == JudgeTimeDependenceSegment(cut.timeDependence, config.timeDependenceJudgments, config, fmt)
    ensures specifier == 'B' ==> r == Ok(JudgeSegment(cut.before, config.beforeCutAngleJudgments))
    ensures specifier == 'A' ==> r == Ok(JudgeSegment(cut.after, config.afterCutAngleJudgments))
    ensures specifier == 'C' ==> r == Ok(JudgeSegment(cut.accuracy, config.accuracyJudgments))
    ensures specifier == 'b' ==> r == Ok(IntToString(cut.before))
    ensures specifier == 'c' ==> r == Ok(IntToString(cut.accuracy))
    ensures specifier == 'a' ==> r == Ok(IntToString(cut.after))
    ensures specifier == 't' ==> r == Ok(fmt.timeDependence(
      cut.timeDependence, config.timeDependenceDecimalOffset, config.timeDependenceDecimalPrecision))
    ensures specifier == 'p' ==> r == Ok(fmt.percentage(cut.score, cut.maxCutScore))
    ensures specifier == 's' ==> r == Ok(IntToString(cut.score))
    ensures specifier == '%' ==> r == Ok("%")
    ensures specifier == 'n' ==> r == Ok("\n")
    ensures specifier !in FullSpecifierChars ==> r == Ok(['%', specifier])
  {
    match specifier
    case 'b' => Ok(IntToString(cut.before))
    case 'c' => Ok(IntToString(cut.accuracy))
    case 'a' => Ok(IntToString(cut.after))
    case 't' =>
      Ok(fmt.timeDependence(cut.timeDependence, config.timeDependenceDecimalOffset, config.timeDependenceDecimalPrecision))
    case 'B' => Ok(JudgeSegment(cut.before, config.beforeCutAngleJudgments))
    case 'C' => Ok(JudgeSegment(cut.accuracy, config.accuracyJudgments))
    case 'A' => Ok(JudgeSegment(cut.after, config.afterCutAngleJudgments))
    case 'T' => JudgeTimeDependenceSegment(cut.timeDependence, config.timeDependenceJudgments, config, fmt)
    case 's' => Ok(IntToString(cut.score))
    case 'p' => Ok(fmt.percentage(cut.score, cut.maxCutScore))
    case '%' => Ok("%")
    case 'n' => Ok("\n")
    case _ => Ok(['%', specifier])
  }

  function FullExpander(cut: CutScores, config: Configuration, fmt: Formatters): char -> Result<string>
  {
    c => FullSpecifier(c, cut, config, fmt)
  }

  /** `%%` becomes `%` and the scan goes on after it, so "%%s" gives "%s", not the score. */
  lemma FormatDoublePercentNotRescanned(cut: CutScores, config: Configuration, fmt: Formatters)
    ensures Scanned("%%s", FullExpander(cut, config, fmt)) == Ok("%s")
  {
    var expand := FullExpander(cut, config, fmt);
    ScanSpecifier("", '%', "s", expand);
    assert "" + ['%', '%'] + "s" == "%%s";
    ScanWithoutPercent("s", expand);
    assert expand('%') == Ok("%");
    assert "" + "%" + "s" == "%s";
  }

  /** A single specifier with nothing around it renders as its expansion. */
  lemma FormatSingleSpecifier(specifier: char, cut: CutScores, config: Configuration, fmt: Formatters)
    requires specifier != 'T'
    ensures Scanned(['%', specifier], FullExpander(cut, config, fmt))
      == Ok(FullSpecifier(specifier, cut, config, fmt).value)
  {
    var expand := FullExpander(cut, config, fmt);
    ScanSpecifier("", specifier, "", expand);
    assert "" + ['%', specifier] + "" == ['%', specifier];
    ScanWithoutPercent("", expand);
    var x := FullSpecifier(specifier, cut, config, fmt).value;
    assert "" + x + "" == x;
  }

  /** `%n` is a line break and an unknown `%z` stays as written. */
  lemma FormatLineBreakAndUnknown(cut: CutScores, config: Configuration, fmt: Formatters)
    ensures Scanned("%n", FullExpander(cut, config, fmt)) == Ok("\n")
    ensures Scanned("%z", FullExpander(cut, config, fmt)) == Ok("%z")
  {
    FormatSingleSpecifier('n', cut, config, fmt);
    assert "%n" == ['%', 'n'];
    FormatSingleSpecifier('z', cut, config, fmt);
    assert "%z" == ['%', 'z'];
  }

  /** `%s` of a cut scored 115 is "115". */
  lemma FormatScore115(cut: CutScores, config: Configuration, fmt: Formatters)
    requires cut.score == 115
    ensures Scanned("%s", FullExpander(cut, config, fmt)) == Ok("115")
  {
    FormatSingleSpecifier('s', cut, config, fmt);
    assert "%s" == ['%', 's'];
    assert NatToString(1) == "1";
    assert NatToString(11) == NatToString(1) + [DigitChar(1)] == "11";
    assert NatToString(115) == NatToString(11) + [DigitChar(5)] == "115";
    assert IntToString(115) == "115";
  }

  /** A trailing lone `%` renders as "% ": the padding space is an unknown specifier. */
  lemma FormatTrailingPercent(literal: string, cut: CutScores, config: Configuration, fmt: Formatters)
    requires NoPercent(literal)
    ensures Scanned(literal + "%", FullExpander(cut, config, fmt)) == Ok(literal + "% ")
  {
    var expand := FullExpander(cut, config, fmt);
    ScanTrailingPercent(literal, expand);
    assert expand(' ') == Ok("% ");
  }

  /** Only `%T` can throw, and only when the time-dependence list is empty but not null. */
  lemma FormatFailsOnlyOnEmptyTimeList(text: string, cut: CutScores, config: Configuration, fmt: Formatters)
    ensures config.timeDependenceJudgments != Some([]) ==> Scanned(text, FullExpander(cut, config, fmt)).Ok?
  {
    if config.timeDependenceJudgments != Some([]) {
      var expand := FullExpander(cut, config, fmt);
      forall c ensures expand(c).Ok? {
        if c == 'T' {
          match config.timeDependenceJudgments
          case None =>
          case Some(js) =>
        }
      }
      ScanNeverFails(text, expand);
    }
  }

  /** With an empty, non-null time-dependence list, a `%T` in the scanned text throws. */
  lemma FormatThrowsOnTimeSpecifier(
    literal: string, rest: string, cut: CutScores, config: Configuration, fmt: Formatters)
    requires NoPercent(literal) && config.timeDependenceJudgments == Some([])
    ensures Scanned(literal + "%T" + rest, FullExpander(cut, config, fmt)) == Failure(SequenceContainsNoElements)
  {
    ScanSpecifier(literal, 'T', rest, FullExpander(cut, config, fmt));
    assert literal + ['%', 'T'] + rest == literal + "%T" + rest;
  }

  /** The restricted grammar leaves every other specifier as written: "%s" stays "%s". */
  lemma TimeTextKeepsOtherSpecifiers(
    specifier: char, timeDependence: real, config: Configuration, fmt: Formatters)
    requires specifier !in TimeSpecifierChars
    ensures Scanned(['%', specifier], TimeExpander(timeDependence, config, fmt)) == Ok(['%', specifier])
  {
    var expand := TimeExpander(timeDependence, config, fmt);
    ScanSpecifier("", specifier, "", expand);
    assert "" + ['%', specifier] + "" == ['%', specifier];
    ScanWithoutPercent("", expand);
  }

  /** What the "format" mode shows, or the exception it throws. */
  method DisplayModeFormat(cut: CutScores, judgment: Judgment, config: Configuration, fmt: Formatters)
    returns (r: Result<string>)
    ensures r == Scanned(judgment.text, FullExpander(cut, config, fmt))
  {
    r := ScanTemplate(judgment.text, FullExpander(cut, config, fmt));
  }

  /** The restricted scan of a time-dependence segment's text. */
  method FormatTimeDependenceSegment(
    segment: TimeDependenceJudgmentSegment, timeDependence: real, config: Configuration, fmt: Formatters)
    returns (s: string)
    ensures s == FormatTimeDependenceText(segment, timeDependence, config, fmt)
  {
    var expand := TimeExpander(timeDependence, config, fmt);
    var r := ScanTemplate(TextOrEmpty(segment.text), expand);
    ScanNeverFails(TextOrEmpty(segment.text), expand);
    s := r.value;
  }

  // ---------------------------------------------------------------------------------------
  // Judge

  /** The text Judge shows for the selected judgment under the configured display mode. */
  function JudgmentText(config: Configuration, fmt: Formatters, cut: CutScores, judgment: Judgment)
    : (r: Result<string>)
    ensures config.displayMode == "format" ==> r == Scanned(judgment.text, FullExpander(cut, config, fmt))
    ensures config.displayMode != "format" ==> r == Ok(ModeText(config.displayMode, judgment.text, cut.score))
    ensures r.Failure? ==> config.displayMode == "format" && config.timeDependenceJudgments == Some([])
  {
    if config.displayMode == "format" then
      FormatFailsOnlyOnEmptyTimeList(judgment.text, cut, config, fmt);
      Scanned(judgment.text, FullExpander(cut, config, fmt))
    else Ok(ModeText(config.displayMode, judgment.text, cut.score))
  }

  /** The text mesh whose text Judge replaces. */
  class TextMeshPro {
    var text: string

    constructor (text: string)
      ensures this.text == text
    {
      this.text := text;
    }
  }

  /**
   * Judge: with no configuration nothing changes. Otherwise the colour is stored first and
   * the text second, so an exception while rendering leaves the new colour and the old text.
   */
  method Judge(config: Option<Configuration>, fmt: Formatters, text: TextMeshPro, color: Color, cut: CutScores)
    returns (newColor: Color, outcome: Result<()>)
    modifies text
    ensures config.None? ==> newColor == color && text.text == old(text.text) && outcome == Ok(())
    ensures config.Some? && config.value.judgments == [] ==>
      newColor == color && text.text == old(text.text) && outcome == Failure(SequenceContainsNoElements)
    ensures config.Some? && config.value.judgments != [] ==>
      var js := config.value.judgments;
      var index := SelectIndex(js, cut.score);
      newColor == FadeColor(js, index, cut.score) &&
      match JudgmentText(config.value, fmt, cut, js[index])
      case Ok(s) => text.text == s && outcome == Ok(())
      case Failure(e) => text.text == old(text.text) && outcome == Failure(e)
  {
    if config.None? {
      return color, Ok(());
    }
    var cfg := config.value;
    if cfg.judgments == [] {
      return color, Failure(SequenceContainsNoElements);
    }
    var index := SelectIndex(cfg.judgments, cut.score);
    var judgment := cfg.judgments[index];
    newColor := FadeColor(cfg.judgments, index, cut.score);
    if cfg.displayMode == "format" {
      var formatted := DisplayModeFormat(cut, judgment, cfg, fmt);
      if formatted.Failure? {
        return newColor, Failure(formatted.error);
      }
      text.text := formatted.value;
    } else {
      text.text := ModeText(cfg.displayMode, judgment.text, cut.score);
    }
    outcome := Ok(());
  }
}
