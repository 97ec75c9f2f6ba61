/**
 * The `%`-template scan shared by DisplayModeFormat and FormatTimeDependenceSegment:
 * find the next `%`, copy the text before it, pad a trailing `%` with one space,
 * append the expansion of the character after the `%`, drop the two characters and go on.
 * What a specifier expands to is a parameter, so both grammars use this one scan.
 */
module PercentTemplate {
  import opened Outcomes

  predicate NoPercent(s: string) { forall i :: 0 <= i < |s| ==> s[i] != '%' }

  /** `s.IndexOf('%')`: the first position of `%`, or -1 when there is none. */
  function IndexOfPercent(s: string): (k: int)
    ensures -1 <= k < |s|
    ensures k == -1 <==> NoPercent(s)
    ensures k >= 0 ==> s[k] == '%' && NoPercent(s[..k])
    decreases |s|
  {
    if s == [] then -1
    else if s[0] == '%' then 0
    else
      var k := IndexOfPercent(s[1..]);
      if k == -1 then -1
      else
        assert s[..k + 1] == [s[0]] + s[1..][..k];
        k + 1
  }

  /** What scanning fmt yields; the expansion of a specifier may throw (a Failure). */
  function Scanned(fmt: string, expand: char -> Result<string>): (r: Result<string>)
    ensures r.Ok? ==> fmt[..if IndexOfPercent(fmt) == -1 then |fmt| else IndexOfPercent(fmt)] <= r.value
    decreases |fmt|
  {
    var next := IndexOfPercent(fmt);
    if next == -1 then Ok(fmt)
    else
      var padded := Padded(fmt, next);
      Append(Append(Ok(fmt[..next]), expand(padded[next + 1])), Scanned(padded[next + 2..], expand))
  }

  /** A `%` at position next that ends s gets a space appended after it. */
  function Padded(s: string, next: nat): (padded: string)
    requires next < |s|
    ensures |padded| == if |s| == next + 1 then |s| + 1 else |s|
    ensures |padded| >= next + 2 && padded[..|s|] == s
    ensures |s| == next + 1 ==> padded[|s|] == ' '
  {
    if |s| == next + 1 then s + " " else s
  }

  /** A string with no `%` comes out unchanged. */
  lemma ScanWithoutPercent(fmt: string, expand: char -> Result<string>)
    requires NoPercent(fmt)
    ensures Scanned(fmt, expand) == Ok(fmt)
  {
  }

  /**
   * A specifier `%c` after literal text: the literal is copied, c is expanded, and the scan
   * resumes after the two characters, so the expansion itself is never scanned again.
   */
  lemma ScanSpecifier(literal: string, specifier: char, rest: string, expand: char -> Result<string>)
    requires NoPercent(literal)
    ensures Scanned(literal + ['%', specifier] + rest, expand)
      == Append(Append(Ok(literal), expand(specifier)), Scanned(rest, expand))
  {
    var fmt := literal + ['%', specifier] + rest;
    var next := IndexOfPercent(fmt);
    assert fmt[|literal|] == '%';
    assert fmt[..|literal|] == literal;
    assert next == |literal|;
    assert fmt[next + 1] == specifier;
    assert fmt[next + 2..] == rest;
  }

  /** A lone `%` at the end is read as the specifier ' ' (a space is appended first). */
  lemma ScanTrailingPercent(literal: string, expand: char -> Result<string>)
    requires NoPercent(literal)
    ensures Scanned(literal + "%", expand) == Append(Ok(literal), expand(' '))
  {
    var fmt := literal + "%";
    assert fmt[..|literal|] == literal;
    var next := IndexOfPercent(fmt);
    assert fmt[|literal|] == '%';
    assert next == |literal|;
    var padded := fmt + " ";
    assert padded[|literal| + 1] == ' ';
    assert padded[|literal| + 2..] == "";
    ScanWithoutPercent("", expand);
    EmptyTail(Append(Ok(literal), expand(' ')));
  }

  lemma EmptyTail(r: Result<string>)
    ensures Append(r, Ok("")) == r
  {
    if r.Ok? { assert r.value + "" == r.value; }
  }

  /** When no specifier throws, neither does the scan. */
  lemma {:induction false} ScanNeverFails(fmt: string, expand: char -> Result<string>)
    requires forall c :: expand(c).Ok?
    ensures Scanned(fmt, expand).Ok?
    decreases |fmt|
  {
    var next := IndexOfPercent(fmt);
    if next != -1 {
      var padded := if |fmt| == next + 1 then fmt + " " else fmt;
      assert expand(padded[next + 1]).Ok?;
      ScanNeverFails(padded[next + 2..], expand);
    }
  }

  /** One turn of the scan loop, seen from a builder that already holds built. */
  lemma ScanStep(s: string, built: string, x: string, expand: char -> Result<string>)
    requires IndexOfPercent(s) != -1
    requires expand(Padded(s, IndexOfPercent(s))[IndexOfPercent(s) + 1]) == Ok(x)
    ensures Append(Ok(built), Scanned(s, expand)) ==
      Append(Ok(built + s[..IndexOfPercent(s)] + x),
        Scanned(Padded(s, IndexOfPercent(s))[IndexOfPercent(s) + 2..], expand))
  {
    var next := IndexOfPercent(s);
    var tail := Scanned(Padded(s, next)[next + 2..], expand);
    assert Scanned(s, expand) == Append(Append(Ok(s[..next]), Ok(x)), tail);
    ShiftIntoBuilder(built, s[..next], x, tail);
  }

  /** Text already built absorbs the literal and the expansion in front of the rest. */
  lemma ShiftIntoBuilder(built: string, literal: string, x: string, tail: Result<string>)
    ensures Append(Ok(built), Append(Append(Ok(literal), Ok(x)), tail))
      == Append(Ok(built + literal + x), tail)
  {
    if tail.Ok? {
      assert built + (literal + x + tail.value) == built + literal + x + tail.value;
    }
  }

  /** The scan loop, appending into a builder string. */
  method ScanTemplate(fmt: string, expand: char -> Result<string>) returns (r: Result<string>)
    ensures r == Scanned(fmt, expand)
  {
    var builder := "";
    var formatString := fmt;
    var nextPercentIndex := IndexOfPercent(formatString);
    assert Append(Ok(""), Scanned(fmt, expand)) == Scanned(fmt, expand) by {
      if Scanned(fmt, expand).Ok? { assert "" + Scanned(fmt, expand).value == Scanned(fmt, expand).value; }
    }
    while nextPercentIndex != -1
      invariant nextPercentIndex == IndexOfPercent(formatString)
      invariant Scanned(fmt, expand) == Append(Ok(builder), Scanned(formatString, expand))
      decreases |formatString|
    {
      ghost var before := formatString;
      var literal := formatString[..nextPercentIndex];
      if |formatString| == nextPercentIndex + 1 {
        formatString := formatString + " ";
      }
      assert formatString == Padded(before, nextPercentIndex);
      var specifier := formatString[nextPercentIndex + 1];
      var expansion := expand(specifier);
      if expansion.Failure? {
        return Failure(expansion.error);
      }
      ScanStep(before, builder, expansion.value, expand);
      builder := builder + literal + expansion.value;
      formatString := formatString[nextPercentIndex + 2..];
      nextPercentIndex := IndexOfPercent(formatString);
    }
    ScanWithoutPercent(formatString, expand);
    r := Ok(builder + formatString);
  }
}
