/**
 * The three named breakpoints. Both halves of the plugin lay what the theme
 * configures (`custom.breakpoints` in theme.json) over hard-coded defaults:
 * the PHP flush reads each key with `??`, the editor spreads the theme object
 * over `DEFAULT_BREAKPOINTS`.
 */
module Breakpoints {
  import opened Wrappers

  const MobileKey := "mobile"
  const TabletKey := "tablet"
  const DesktopKey := "desktop"

  const DefaultMobile := "480px"
  const DefaultTablet := "768px"
  const DefaultDesktop := "1024px"

  /** The widths resolved once per flush. */
  datatype BreakpointSet = BreakpointSet(mobile: string, tablet: string, desktop: string)

  /** The theme's value for `key`, or the given default (PHP `$bp[key] ?? default`). */
  function ThemeOr(theme: Option<map<string, string>>, key: string, default: string): (w: string)
    ensures theme.Some? && key in theme.value ==> w == theme.value[key]
    ensures (theme.None? || key !in theme.value) ==> w == default
  {
    if theme.Some? && key in theme.value then theme.value[key] else default
  }

  /** The server-side resolution: each breakpoint falls back to its own default. */
  function Resolve(theme: Option<map<string, string>>): (bp: BreakpointSet)
    ensures bp.mobile == ThemeOr(theme, MobileKey, DefaultMobile)
    ensures bp.tablet == ThemeOr(theme, TabletKey, DefaultTablet)
    ensures bp.desktop == ThemeOr(theme, DesktopKey, DefaultDesktop)
  {
    BreakpointSet(
      ThemeOr(theme, MobileKey, DefaultMobile),
      ThemeOr(theme, TabletKey, DefaultTablet),
      ThemeOr(theme, DesktopKey, DefaultDesktop))
  }

  const DefaultBreakpoints: map<string, string> :=
    map[MobileKey := DefaultMobile, TabletKey := DefaultTablet, DesktopKey := DefaultDesktop]

  /** The editor's `{ ...DEFAULT_BREAKPOINTS, ...breakpoints }`. */
  function Merge(theme: Option<map<string, string>>): (m: map<string, string>)
    ensures m.Keys == DefaultBreakpoints.Keys + (if theme.Some? then theme.value.Keys else {})
    ensures forall k :: k in m ==>
      m[k] == (if theme.Some? && k in theme.value then theme.value[k] else DefaultBreakpoints[k])
  {
    if theme.Some? then DefaultBreakpoints + theme.value else DefaultBreakpoints
  }

  /** With no theme configuration, or an empty one, the defaults apply. */
  lemma ResolveWithoutTheme()
    ensures Resolve(None) == BreakpointSet("480px", "768px", "1024px")
    ensures Resolve(Some(map[])) == Resolve(None)
    ensures Merge(None) == DefaultBreakpoints && Merge(Some(map[])) == DefaultBreakpoints
  {
  }

  /** A theme that supplies only the tablet width changes only the tablet width. */
  lemma ResolveTabletOnly()
    ensures Resolve(Some(map[TabletKey := "700px"])) == BreakpointSet("480px", "700px", "1024px")
  {
  }

  /** The editor and the server resolve every named breakpoint to the same width. */
  lemma ResolveAgreesWithMerge(theme: Option<map<string, string>>)
    ensures MobileKey in Merge(theme) && Merge(theme)[MobileKey] == Resolve(theme).mobile
    ensures TabletKey in Merge(theme) && Merge(theme)[TabletKey] == Resolve(theme).tablet
    ensures DesktopKey in Merge(theme) && Merge(theme)[DesktopKey] == Resolve(theme).desktop
  {
  }
}
