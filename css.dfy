/**
 * The media queries the plugin writes, shared by the editor preview and the
 * server-side compiler. A width is kept as the text that is interpolated
 * into the query: a theme breakpoint such as "480px", or a number followed
 * by "px".
 */
module Css {
  import Decimal

  datatype Query =
    | MaxWidth(width: string)
    | MinWidth(width: string)
    | Between(min: string, max: string)

  /** The `@media (...)` head of a query. */
  function Condition(q: Query): string {
    match q
    case MaxWidth(w) => "@media (max-width: " + w + ")"
    case MinWidth(w) => "@media (min-width: " + w + ")"
    case Between(lo, hi) => "@media (min-width: " + lo + ") and (max-width: " + hi + ")"
  }

  /** The rule that hides the elements of class `cls` while `q` matches. */
  function HideRule(q: Query, cls: string): string {
    Condition(q) + "{." + cls + "{display:none !important;}}"
  }

  /** A pixel width: the decimal text of `n` followed by "px". */
  function Px(n: nat): string {
    Decimal.NatToDecimal(n) + "px"
  }

  lemma {:induction false} PxInjective(m: nat, n: nat)
    requires Px(m) == Px(n)
    ensures m == n
  {
    var a, b := Decimal.NatToDecimal(m), Decimal.NatToDecimal(n);
    assert |a| == |b| by {
      assert |Px(m)| == |a| + 2 && |Px(n)| == |b| + 2;
    }
    assert a == Px(m)[..|a|] && b == Px(n)[..|b|];
    Decimal.DecimalInjective(m, n);
  }
}
