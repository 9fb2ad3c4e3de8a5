/**
 * The media-query preview shown under the custom breakpoint controls: a
 * first-match-wins chain over (direction, min, max) that always yields a
 * string. The decision is kept apart from its text, so that the queries it
 * shows can be compared with those the server writes.
 */
module EditorPreview {
  import opened EditorRule
  import Css
  import Decimal

  /** What the preview displays. */
  datatype Preview =
    | Shows(query: Css.Query)
    | InvalidRange(min: nat, max: nat)
    | EnterValues

  /** The checks of the preview, in their order. */
  function PreviewFor(minWidth: JsNumber, maxWidth: JsNumber, direction: string): (p: Preview)
    ensures p.Shows? ==> match p.query
      case MinWidth(w) => direction == "over" && Positive(minWidth) && w == Css.Px(minWidth.v)
      case MaxWidth(w) => direction == "under" && Positive(maxWidth) && w == Css.Px(maxWidth.v)
      case Between(lo, hi) =>
        && direction == "between" && Positive(minWidth) && Positive(maxWidth)
        && minWidth.v < maxWidth.v && lo == Css.Px(minWidth.v) && hi == Css.Px(maxWidth.v)
    ensures p.InvalidRange? <==>
      && Positive(minWidth) && Positive(maxWidth) && minWidth.v >= maxWidth.v
      && direction != "over" && direction != "under"
    ensures p.InvalidRange? ==> minWidth == Num(p.min) && maxWidth == Num(p.max)
  {
    if Positive(minWidth) && direction == "over" then
      Shows(Css.MinWidth(Css.Px(minWidth.v)))
    else if Positive(maxWidth) && direction == "under" then
      Shows(Css.MaxWidth(Css.Px(maxWidth.v)))
    else if Positive(minWidth) && direction == "between" && Positive(maxWidth) && minWidth.v < maxWidth.v then
      Shows(Css.Between(Css.Px(minWidth.v), Css.Px(maxWidth.v)))
    else if Positive(minWidth) && Positive(maxWidth) && minWidth.v >= maxWidth.v then
      InvalidRange(minWidth.v, maxWidth.v)
    else
      EnterValues
  }

  const InvalidPrefix := "Invalid: min-width ("
  const InvalidMiddle := ") must be less than max-width ("
  const InvalidSuffix := ")"
  const EnterValuesText := "Enter width values to see media query preview"

  const MediaPrefix := "@media ("

  /**
   * The string the preview renders: a media query exactly when one is shown,
   * the invalid-range message exactly for an invalid range, and the prompt
   * otherwise.
   */
  function PreviewText(p: Preview): (t: string)
    ensures MediaPrefix <= t <==> p.Shows?
    ensures InvalidPrefix <= t <==> p.InvalidRange?
    ensures t == EnterValuesText <==> p.EnterValues?
  {
    match p
    case Shows(q) =>
      var t := Css.Condition(q) + " { ... }";
      assert t[..|MediaPrefix|] == MediaPrefix;
      TextHeads();
      FirstCharsDiffer(InvalidPrefix, t);
      FirstCharsDiffer(EnterValuesText, t);
      t
    case InvalidRange(min, max) =>
      var t := InvalidPrefix + Css.Px(min) + InvalidMiddle + Css.Px(max) + InvalidSuffix;
      assert t[..|InvalidPrefix|] == InvalidPrefix;
      TextHeads();
      FirstCharsDiffer(MediaPrefix, t);
      FirstCharsDiffer(EnterValuesText, t);
      t
    case EnterValues =>
      TextHeads();
      FirstCharsDiffer(MediaPrefix, EnterValuesText);
      FirstCharsDiffer(InvalidPrefix, EnterValuesText);
      EnterValuesText
  }

  /** The first characters of the three kinds of preview text. */
  lemma TextHeads()
    ensures |MediaPrefix| > 0 && MediaPrefix[0] == '@'
    ensures |InvalidPrefix| > 0 && InvalidPrefix[0] == 'I'
    ensures |EnterValuesText| > 0 && EnterValuesText[0] == 'E'
  {
    assert MediaPrefix == ['@'] + MediaPrefix[1..];
    assert InvalidPrefix == ['I'] + InvalidPrefix[1..];
    assert EnterValuesText == ['E'] + EnterValuesText[1..];
  }

  /** Texts that start with different characters are neither equal nor one a prefix of the other. */
  lemma FirstCharsDiffer(p: string, t: string)
    requires |p| > 0 && |t| > 0 && p[0] != t[0]
    ensures !(p <= t) && p != t
  {
  }

  /**
   * The preview of a block's attributes: a media query for a positive "over"
   * minimum, a positive "under" maximum or an increasing positive "between"
   * range; the invalid message for a positive but backwards range under any
   * other direction; the prompt otherwise.
   */
  function PreviewMediaQuery(r: Rule): (t: string)
    ensures MediaPrefix <= t <==>
      || (Positive(r.customMinWidth) && r.customDirection == "over")
      || (Positive(r.customMaxWidth) && r.customDirection == "under")
      || (&& r.customDirection == "between" && Positive(r.customMinWidth) && Positive(r.customMaxWidth)
          && r.customMinWidth.v < r.customMaxWidth.v)
    ensures InvalidPrefix <= t <==>
      && Positive(r.customMinWidth) && Positive(r.customMaxWidth)
      && r.customMinWidth.v >= r.customMaxWidth.v
      && r.customDirection != "over" && r.customDirection != "under"
  {
    PreviewText(PreviewFor(r.customMinWidth, r.customMaxWidth, r.customDirection))
  }

  /** `t` occurs in `s`. */
  predicate Contains(s: string, t: string) {
    exists i :: 0 <= i <= |s| && t <= s[i..]
  }

  /** "over" with a positive minimum wins, whatever the maximum is. */
  lemma OverWins(minWidth: nat, maxWidth: JsNumber)
    requires minWidth > 0
    ensures PreviewFor(Num(minWidth), maxWidth, "over") == Shows(Css.MinWidth(Css.Px(minWidth)))
  {
  }

  /** "under" with a positive maximum wins, whatever the minimum is. */
  lemma UnderWins(minWidth: JsNumber, maxWidth: nat)
    requires maxWidth > 0
    ensures PreviewFor(minWidth, Num(maxWidth), "under") == Shows(Css.MaxWidth(Css.Px(maxWidth)))
  {
  }

  /** "between" is shown only for an increasing range of positive widths. */
  lemma BetweenShownIff(minWidth: JsNumber, maxWidth: JsNumber)
    ensures PreviewFor(minWidth, maxWidth, "between").Shows?
        <==> Positive(minWidth) && Positive(maxWidth) && minWidth.v < maxWidth.v
  {
  }

  /** No direction, or one the preview does not know, never shows a query. */
  lemma NoQueryWithoutDirection(minWidth: JsNumber, maxWidth: JsNumber, direction: string)
    requires direction != "over" && direction != "under" && direction != "between"
    ensures !PreviewFor(minWidth, maxWidth, direction).Shows?
  {
  }

  /** The default attributes prompt for values. */
  lemma DefaultsPrompt()
    ensures PreviewMediaQuery(DefaultRule) == EnterValuesText
  {
  }

  /** The invalid-range message names both widths, in pixels. */
  lemma InvalidTextMentionsBoth(min: nat, max: nat)
    ensures Contains(PreviewText(InvalidRange(min, max)), Css.Px(min))
    ensures Contains(PreviewText(InvalidRange(min, max)), Css.Px(max))
  {
    var a, b := Css.Px(min), Css.Px(max);
    var s := PreviewText(InvalidRange(min, max));
    assert s == InvalidPrefix + a + (InvalidMiddle + b + InvalidSuffix);
    ContainsInfix(InvalidPrefix, a, InvalidMiddle + b + InvalidSuffix);
    assert s == (InvalidPrefix + a + InvalidMiddle) + b + InvalidSuffix;
    ContainsInfix(InvalidPrefix + a + InvalidMiddle, b, InvalidSuffix);
  }

  lemma ContainsInfix(x: string, t: string, y: string)
    ensures Contains(x + t + y, t)
  {
    assert (x + t + y)[|x|..] == t + y;
  }
}
