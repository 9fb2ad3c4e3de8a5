/**
 * The visibility attributes as the block editor holds them, and the block's
 * attribute store that the settings panel updates through `setAttributes`:
 * the toggle and input handlers and the effect that keeps the named flags
 * and the custom breakpoint mutually exclusive.
 */
module EditorRule {
  import opened Wrappers
  import Decimal

  /** A JavaScript number held by a width attribute: an integer, or NaN when `parseInt` read no digit. */
  datatype JsNumber = Num(v: int) | NaN

  /** JavaScript `x > 0`, which is false for NaN. */
  predicate Positive(x: JsNumber) {
    x.Num? && x.v > 0
  }

  /** The seven attributes every supported block gains. */
  datatype Rule = Rule(
    hideOnMobile: bool,
    hideOnTablet: bool,
    hideOnDesktop: bool,
    hideOnCustomBreakpoint: bool,
    customMinWidth: JsNumber,
    customMaxWidth: JsNumber,
    customDirection: string)

  /** The attribute defaults of the schema. */
  const DefaultRule := Rule(false, false, false, false, Num(0), Num(0), "")

  /** The object given to `setAttributes`: only the keys it names are written. */
  datatype Patch = Patch(
    hideOnMobile: Option<bool>,
    hideOnTablet: Option<bool>,
    hideOnDesktop: Option<bool>,
    hideOnCustomBreakpoint: Option<bool>,
    customMinWidth: Option<JsNumber>,
    customMaxWidth: Option<JsNumber>,
    customDirection: Option<string>)

  const NoChange := Patch(None, None, None, None, None, None, None)

  /** `setAttributes(patch)`: a shallow merge of the patch over the current attributes. */
  function ApplyPatch(r: Rule, p: Patch): (r': Rule)
    ensures r'.hideOnMobile == p.hideOnMobile.GetOr(r.hideOnMobile)
    ensures r'.hideOnTablet == p.hideOnTablet.GetOr(r.hideOnTablet)
    ensures r'.hideOnDesktop == p.hideOnDesktop.GetOr(r.hideOnDesktop)
    ensures r'.hideOnCustomBreakpoint == p.hideOnCustomBreakpoint.GetOr(r.hideOnCustomBreakpoint)
    ensures r'.customMinWidth == p.customMinWidth.GetOr(r.customMinWidth)
    ensures r'.customMaxWidth == p.customMaxWidth.GetOr(r.customMaxWidth)
    ensures r'.customDirection == p.customDirection.GetOr(r.customDirection)
  {
    Rule(
      p.hideOnMobile.GetOr(r.hideOnMobile),
      p.hideOnTablet.GetOr(r.hideOnTablet),
      p.hideOnDesktop.GetOr(r.hideOnDesktop),
      p.hideOnCustomBreakpoint.GetOr(r.hideOnCustomBreakpoint),
      p.customMinWidth.GetOr(r.customMinWidth),
      p.customMaxWidth.GetOr(r.customMaxWidth),
      p.customDirection.GetOr(r.customDirection))
  }

  predicate AnyNamedFlag(r: Rule) {
    r.hideOnMobile || r.hideOnTablet || r.hideOnDesktop
  }

  /** A named flag and the custom breakpoint are never on together. */
  predicate Exclusive(r: Rule) {
    AnyNamedFlag(r) ==> !r.hideOnCustomBreakpoint
  }

  /**
   * What the effect leaves: with a named flag on, the custom breakpoint is
   * switched off; nothing else changes.
   */
  function EnforceExclusion(r: Rule): (r': Rule)
    ensures Exclusive(r')
    ensures r' == r.(hideOnCustomBreakpoint := r'.hideOnCustomBreakpoint)
    ensures AnyNamedFlag(r) ==> !r'.hideOnCustomBreakpoint
    ensures !AnyNamedFlag(r) ==> r' == r
  {
    if AnyNamedFlag(r) then ApplyPatch(r, NoChange.(hideOnCustomBreakpoint := Some(false))) else r
  }

  /** JavaScript `parseInt(value)` on the text of a number input. */
  function ParseInt(value: string): (r: JsNumber)
    ensures r.NaN? <==> Decimal.LeadingInt(value).None?
    ensures r.Num? ==> Decimal.LeadingInt(value) == Some(r.v)
  {
    match Decimal.LeadingInt(value)
    case Some(i) => Num(i)
    case None => NaN
  }

  /** Running the effect a second time changes nothing. */
  lemma EnforceExclusionIdempotent(r: Rule)
    ensures EnforceExclusion(EnforceExclusion(r)) == EnforceExclusion(r)
  {
  }

  /** The effect changes attributes only when they break the exclusion. */
  lemma EnforceExclusionFixesOnlyViolations(r: Rule)
    ensures EnforceExclusion(r) == r <==> Exclusive(r)
  {
  }

  /** The text of a non-negative number reads back as that number; an empty input reads as NaN. */
  lemma ParseIntRoundTrip(n: nat)
    ensures ParseInt(Decimal.NatToDecimal(n)) == Num(n)
    ensures ParseInt("") == NaN
  {
    Decimal.DecimalRoundTrip(n);
  }

  /** The attribute store of one block in the editor. */
  class AttributeStore {
    var attributes: Rule

    constructor (initial: Rule)
      ensures attributes == initial
    {
      attributes := initial;
    }

    method SetAttributes(patch: Patch)
      modifies this
      ensures attributes == ApplyPatch(old(attributes), patch)
    {
      attributes := ApplyPatch(attributes, patch);
    }

    /** The effect run whenever the attributes change. */
    method RunExclusionEffect()
      modifies this
      ensures attributes == EnforceExclusion(old(attributes))
    {
      if attributes.hideOnMobile || attributes.hideOnTablet || attributes.hideOnDesktop {
        SetAttributes(NoChange.(hideOnCustomBreakpoint := Some(false)));
      }
    }

    /** The "Hide on Mobile" toggle. */
    method ToggleHideOnMobile()
      modifies this
      ensures attributes == old(attributes).(hideOnMobile := !old(attributes).hideOnMobile)
    {
      SetAttributes(NoChange.(hideOnMobile := Some(!attributes.hideOnMobile)));
    }

    /** The "Hide on Tablet" toggle. */
    method ToggleHideOnTablet()
      modifies this
      ensures attributes == old(attributes).(hideOnTablet := !old(attributes).hideOnTablet)
    {
      SetAttributes(NoChange.(hideOnTablet := Some(!attributes.hideOnTablet)));
    }

    /** The "Hide on Desktop" toggle. */
    method ToggleHideOnDesktop()
      modifies this
      ensures attributes == old(attributes).(hideOnDesktop := !old(attributes).hideOnDesktop)
    {
      SetAttributes(NoChange.(hideOnDesktop := Some(!attributes.hideOnDesktop)));
    }

    /** The "Hide on Custom Breakpoint" toggle, which is disabled while a named flag is on. */
    method ToggleHideOnCustomBreakpoint()
      modifies this
      ensures AnyNamedFlag(old(attributes)) ==> attributes == old(attributes)
      ensures !AnyNamedFlag(old(attributes)) ==>
        attributes == old(attributes).(hideOnCustomBreakpoint := !old(attributes).hideOnCustomBreakpoint)
      ensures Exclusive(old(attributes)) ==> Exclusive(attributes)
    {
      var disabled := attributes.hideOnMobile || attributes.hideOnTablet || attributes.hideOnDesktop;
      if !disabled {
        SetAttributes(NoChange.(hideOnCustomBreakpoint := Some(!attributes.hideOnCustomBreakpoint)));
      }
    }

    /** The under / over / between choice. */
    method SetCustomDirection(value: string)
      modifies this
      ensures attributes == old(attributes).(customDirection := value)
    {
      SetAttributes(NoChange.(customDirection := Some(value)));
    }

    /** The minimum-width input. */
    method SetCustomMinWidth(value: string)
      modifies this
      ensures attributes == old(attributes).(customMinWidth := ParseInt(value))
    {
      SetAttributes(NoChange.(customMinWidth := Some(ParseInt(value))));
    }

    /** The maximum-width input. */
    method SetCustomMaxWidth(value: string)
      modifies this
      ensures attributes == old(attributes).(customMaxWidth := ParseInt(value))
    {
      SetAttributes(NoChange.(customMaxWidth := Some(ParseInt(value))));
    }
  }

  /**
   * Switching a named flag on and letting the effect run leaves that flag on
   * and the custom breakpoint off, whatever was set before.
   */
  method MobileToggleThenEffect(store: AttributeStore)
    requires !store.attributes.hideOnMobile
    modifies store
    ensures store.attributes.hideOnMobile && !store.attributes.hideOnCustomBreakpoint
    ensures Exclusive(store.attributes)
  {
    store.ToggleHideOnMobile();
    store.RunExclusionEffect();
  }
}
