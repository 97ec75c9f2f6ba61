/** The configuration entities the judgment engine reads (it never changes them). */
module Settings {
  import opened Outcomes
  import opened UnityColor

  /** One tier of the primary list: the colour and text for totals from threshold upward. */
  datatype Judgment = Judgment(threshold: int, text: string, color: Color, fade: bool)

  /** One tier of a before-cut, after-cut or accuracy list; the text may be null. */
  datatype JudgmentSegment = JudgmentSegment(threshold: int, text: Option<string>)

  /** One tier of the time-dependence list; its text is itself a restricted template. */
  datatype TimeDependenceJudgmentSegment = TimeDependenceJudgmentSegment(threshold: real, text: Option<string>)

  /** The active configuration; every segment list may be null. */
  datatype Configuration = Configuration(
    displayMode: string,
    judgments: seq<Judgment>,
    beforeCutAngleJudgments: Option<seq<JudgmentSegment>>,
    accuracyJudgments: Option<seq<JudgmentSegment>>,
    afterCutAngleJudgments: Option<seq<JudgmentSegment>>,
    timeDependenceJudgments: Option<seq<TimeDependenceJudgmentSegment>>,
    timeDependenceDecimalPrecision: int,
    timeDependenceDecimalOffset: int)
}
