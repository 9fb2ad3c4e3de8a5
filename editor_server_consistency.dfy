/**
 * How the editor's attributes reach the server, and where the preview and
 * the compiler agree. The block serializer (outside the plugin) stores in
 * the block comment only the attributes that differ from their defaults, as
 * JSON, where NaN becomes null; PHP decodes that JSON into the `attrs` array.
 */
module EditorServerConsistency {
  import opened Wrappers
  import opened PhpValues
  import Css
  import EditorRule
  import EditorPreview
  import VisibilityCollector

  /** JSON of a JavaScript number as PHP decodes it. */
  function JsonNumber(x: EditorRule.JsNumber): Value {
    match x
    case Num(v) => Int(v)
    case NaN => Null
  }

  /** The seven attribute keys. */
  const RuleKeys := {
    VisibilityCollector.HideOnMobile, VisibilityCollector.HideOnTablet, VisibilityCollector.HideOnDesktop,
    VisibilityCollector.HideOnCustomBreakpoint, VisibilityCollector.CustomMinWidth,
    VisibilityCollector.CustomMaxWidth, VisibilityCollector.CustomDirection }

  function Unless<X>(isDefault: bool, v: X): Option<X> {
    if isDefault then None else Some(v)
  }

  /** The stored value of one attribute, None when it equals its default and is left out. */
  function Stored(r: EditorRule.Rule, key: string): Option<Value> {
    if key == VisibilityCollector.HideOnMobile then Unless(!r.hideOnMobile, Bool(true))
    else if key == VisibilityCollector.HideOnTablet then Unless(!r.hideOnTablet, Bool(true))
    else if key == VisibilityCollector.HideOnDesktop then Unless(!r.hideOnDesktop, Bool(true))
    else if key == VisibilityCollector.HideOnCustomBreakpoint then Unless(!r.hideOnCustomBreakpoint, Bool(true))
    else if key == VisibilityCollector.CustomMinWidth then
      Unless(r.customMinWidth == EditorRule.Num(0), JsonNumber(r.customMinWidth))
    else if key == VisibilityCollector.CustomMaxWidth then
      Unless(r.customMaxWidth == EditorRule.Num(0), JsonNumber(r.customMaxWidth))
    else if key == VisibilityCollector.CustomDirection then
      Unless(r.customDirection == "", Str(r.customDirection))
    else None
  }

  /** The attributes the server receives for a block whose editor attributes are `r`. */
  function Serialize(r: EditorRule.Rule): (m: map<string, Value>)
    ensures forall k :: k in RuleKeys ==> Lookup(m, k) == Stored(r, k)
    ensures m.Keys <= RuleKeys
  {
    map k | k in RuleKeys && Stored(r, k).Some? :: Stored(r, k).value
  }

  function Preview(r: EditorRule.Rule): EditorPreview.Preview {
    EditorPreview.PreviewFor(r.customMinWidth, r.customMaxWidth, r.customDirection)
  }

  /** The custom query the server compiles for a block saved with attributes `r`. */
  function ServerCustomQuery(r: EditorRule.Rule): Option<Css.Query> {
    VisibilityCollector.CustomQuery(VisibilityCollector.Sanitize(Serialize(r)))
  }

  /** A saved block qualifies on the server exactly when one of its four flags is on. */
  lemma SavedBlockQualifiesIffFlag(ctx: VisibilityCollector.RequestContext, name: string, r: EditorRule.Rule)
    ensures VisibilityCollector.Qualifies(ctx, VisibilityCollector.Block(name, Some(Arr(Serialize(r)))))
        <==> VisibilityCollector.Serves(ctx)
             && (r.hideOnMobile || r.hideOnTablet || r.hideOnDesktop || r.hideOnCustomBreakpoint)
  {
    var m := Serialize(r);
    assert Lookup(m, VisibilityCollector.HideOnMobile) == if r.hideOnMobile then Some(Bool(true)) else None;
    assert Lookup(m, VisibilityCollector.HideOnTablet) == if r.hideOnTablet then Some(Bool(true)) else None;
    assert Lookup(m, VisibilityCollector.HideOnDesktop) == if r.hideOnDesktop then Some(Bool(true)) else None;
    assert Lookup(m, VisibilityCollector.HideOnCustomBreakpoint)
        == if r.hideOnCustomBreakpoint then Some(Bool(true)) else None;
  }

  /** What `$a[width] ?? ''` gives on the server for a width held by the editor. */
  function ServerWidth(x: EditorRule.JsNumber): Value {
    match x
    case Num(v) => if v == 0 then Str("") else Int(if v < 0 then -v else v)
    case NaN => Str("")
  }

  /** The values the compiler reads from the sanitised attributes of a saved block. */
  lemma ServerView(r: EditorRule.Rule)
    ensures var a := VisibilityCollector.Sanitize(Serialize(r));
      && Lookup(a, VisibilityCollector.HideOnCustomBreakpoint) == Stored(r, VisibilityCollector.HideOnCustomBreakpoint)
      && OrEmptyString(a, VisibilityCollector.CustomDirection) == Str(r.customDirection)
      && OrEmptyString(a, VisibilityCollector.CustomMinWidth) == ServerWidth(r.customMinWidth)
      && OrEmptyString(a, VisibilityCollector.CustomMaxWidth) == ServerWidth(r.customMaxWidth)
  {
    var m := Serialize(r);
    var a := VisibilityCollector.Sanitize(m);
    assert VisibilityCollector.CustomDirection in RuleKeys;
    assert Lookup(m, VisibilityCollector.CustomDirection) == Stored(r, VisibilityCollector.CustomDirection);
    assert VisibilityCollector.CustomMinWidth in RuleKeys;
    assert Lookup(m, VisibilityCollector.CustomMinWidth) == Stored(r, VisibilityCollector.CustomMinWidth);
    assert VisibilityCollector.CustomMaxWidth in RuleKeys;
    assert Lookup(m, VisibilityCollector.CustomMaxWidth) == Stored(r, VisibilityCollector.CustomMaxWidth);
    assert VisibilityCollector.HideOnCustomBreakpoint in RuleKeys;
    assert Lookup(m, VisibilityCollector.HideOnCustomBreakpoint) == Stored(r, VisibilityCollector.HideOnCustomBreakpoint);
  }

  /** A positive editor width reaches the compiler as its pixel text. */
  lemma ServerWidthText(a: map<string, Value>, key: string, x: EditorRule.JsNumber)
    requires OrEmptyString(a, key) == ServerWidth(x)
    requires EditorRule.Positive(x)
    ensures OrEmptyString(a, key) != Str("")
    ensures VisibilityCollector.WidthText(a, key) == Css.Px(x.v)
  {
    AbsIntOfNat(x.v);
  }

  /** The compiler's custom query once the values it reads are known. */
  lemma ServerQueryFromView(a: map<string, Value>, dir: string, min: EditorRule.JsNumber, max: EditorRule.JsNumber)
    requires !Empty(Lookup(a, VisibilityCollector.HideOnCustomBreakpoint))
    requires OrEmptyString(a, VisibilityCollector.CustomDirection) == Str(dir)
    requires OrEmptyString(a, VisibilityCollector.CustomMinWidth) == ServerWidth(min)
    requires OrEmptyString(a, VisibilityCollector.CustomMaxWidth) == ServerWidth(max)
    ensures dir == "over" && EditorRule.Positive(min) ==>
      VisibilityCollector.CustomQuery(a) == Some(Css.MinWidth(Css.Px(min.v)))
    ensures dir == "under" && EditorRule.Positive(max) ==>
      VisibilityCollector.CustomQuery(a) == Some(Css.MaxWidth(Css.Px(max.v)))
    ensures dir == "between" && EditorRule.Positive(min) && EditorRule.Positive(max) ==>
      VisibilityCollector.CustomQuery(a) == Some(Css.Between(Css.Px(min.v), Css.Px(max.v)))
  {
    if EditorRule.Positive(min) {
      ServerWidthText(a, VisibilityCollector.CustomMinWidth, min);
    }
    if EditorRule.Positive(max) {
      ServerWidthText(a, VisibilityCollector.CustomMaxWidth, max);
    }
  }

  /**
   * Whenever the preview shows a query for a block whose custom breakpoint is
   * on, the server compiles that same query for it.
   */
  lemma PreviewAgreesWithCompiler(r: EditorRule.Rule)
    requires r.hideOnCustomBreakpoint
    requires Preview(r).Shows?
    ensures ServerCustomQuery(r) == Some(Preview(r).query)
  {
    var a := VisibilityCollector.Sanitize(Serialize(r));
    ServerView(r);
    assert Stored(r, VisibilityCollector.HideOnCustomBreakpoint) == Some(Bool(true));
    ServerQueryFromView(a, r.customDirection, r.customMinWidth, r.customMaxWidth);
  }

  const BackwardsRange :=
    EditorRule.DefaultRule.(hideOnCustomBreakpoint := true, customDirection := "between",
                            customMinWidth := EditorRule.Num(500), customMaxWidth := EditorRule.Num(300))

  /** The editor's side of `BackwardsRangeAsymmetry`. */
  lemma BackwardsRangePreview()
    ensures Preview(BackwardsRange) == EditorPreview.InvalidRange(500, 300)
    ensures EditorPreview.PreviewMediaQuery(BackwardsRange)
         == "Invalid: min-width (" + "500px" + ") must be less than max-width (" + "300px" + ")"
    ensures Css.Px(500) == "500px" && Css.Px(300) == "300px"
  {
    assert Css.Px(500) == "500px" && Css.Px(300) == "300px";
  }

  /**
   * The preview rejects a backwards "between" range that the server still
   * compiles into a query.
   */
  lemma BackwardsRangeAsymmetry()
    ensures Preview(BackwardsRange) == EditorPreview.InvalidRange(500, 300)
    ensures EditorPreview.PreviewMediaQuery(BackwardsRange)
         == "Invalid: min-width (" + "500px" + ") must be less than max-width (" + "300px" + ")"
    ensures ServerCustomQuery(BackwardsRange) == Some(Css.Between("500px", "300px"))
  {
    BackwardsRangePreview();
    var a := VisibilityCollector.Sanitize(Serialize(BackwardsRange));
    ServerView(BackwardsRange);
    assert Stored(BackwardsRange, VisibilityCollector.HideOnCustomBreakpoint) == Some(Bool(true));
    ServerQueryFromView(a, "between", EditorRule.Num(500), EditorRule.Num(300));
  }

  const NegativeOver :=
    EditorRule.DefaultRule.(hideOnCustomBreakpoint := true, customDirection := "over",
                            customMinWidth := EditorRule.Num(-5))

  /**
   * A negative minimum (the input accepts "-5") prompts for values in the
   * editor, while the server's `absint` turns it into a 5px query.
   */
  lemma NegativeWidthAsymmetry()
    ensures Preview(NegativeOver) == EditorPreview.EnterValues
    ensures ServerCustomQuery(NegativeOver) == Some(Css.MinWidth("5px"))
  {
    var a := VisibilityCollector.Sanitize(Serialize(NegativeOver));
    ServerView(NegativeOver);
    assert Stored(NegativeOver, VisibilityCollector.HideOnCustomBreakpoint) == Some(Bool(true));
    assert Css.Px(5) == "5px";
    ServerQueryFromView(a, "over", EditorRule.Num(5), EditorRule.Num(0));
  }
}
