/**
 * The `blocks.registerBlockType` filter: blocks on the allow-list gain the
 * seven visibility attributes; every other block's settings pass through.
 */
module AttributeSchema {
  import opened Wrappers
  import EditorRule

  /** A default value in an attribute definition. */
  datatype JsValue = JBool(b: bool) | JNum(n: int) | JStr(s: string)

  /** One attribute definition: its declared type and, if any, its default. */
  datatype AttrDef = AttrDef(typeName: string, default: Option<JsValue>)

  /**
   * A block type's settings: its attribute definitions (None when the key is
   * absent) and everything else, which the filter spreads through untouched.
   */
  datatype BlockSettings<T> = BlockSettings(attributes: Option<map<string, AttrDef>>, rest: T)

  /** The allow-list, as written: "core/button" appears twice. */
  const SupportedBlocks := [
    "core/group",
    "core/heading",
    "core/button",
    "core/buttons",
    "core/paragraph",
    "core/columns",
    "core/column",
    "core/cover",
    "core/media-text",
    "core/button"
  ]

  const VisibilityAttributes: map<string, AttrDef> := map[
    "hideOnMobile" := AttrDef("boolean", Some(JBool(false))),
    "hideOnTablet" := AttrDef("boolean", Some(JBool(false))),
    "hideOnDesktop" := AttrDef("boolean", Some(JBool(false))),
    "hideOnCustomBreakpoint" := AttrDef("boolean", Some(JBool(false))),
    "customMinWidth" := AttrDef("number", Some(JNum(0))),
    "customMaxWidth" := AttrDef("number", Some(JNum(0))),
    "customDirection" := AttrDef("string", Some(JStr("")))
  ]

  /** `{ ...settings.attributes }`: an absent attribute object spreads as no keys. */
  function ExistingAttributes<T>(settings: BlockSettings<T>): map<string, AttrDef> {
    settings.attributes.GetOr(map[])
  }

  /** The filter. */
  function FilterBlockAttributes<T>(settings: BlockSettings<T>, name: string): (r: BlockSettings<T>)
    ensures name !in SupportedBlocks ==> r == settings
    ensures name in SupportedBlocks ==>
      && r.rest == settings.rest
      && r.attributes.Some?
      && r.attributes.value.Keys == ExistingAttributes(settings).Keys + VisibilityAttributes.Keys
      && (forall k :: k in VisibilityAttributes ==> r.attributes.value[k] == VisibilityAttributes[k])
      && (forall k :: k in ExistingAttributes(settings) && k !in VisibilityAttributes ==>
            r.attributes.value[k] == ExistingAttributes(settings)[k])
  {
    if name !in SupportedBlocks then settings
    else BlockSettings(Some(ExistingAttributes(settings) + VisibilityAttributes), settings.rest)
  }

  /** The distinct names on the allow-list. */
  lemma SupportedBlockNames()
    ensures |SupportedBlocks| == 10
    ensures (set b | b in SupportedBlocks) == {
      "core/group", "core/heading", "core/paragraph", "core/columns", "core/column",
      "core/cover", "core/media-text", "core/button", "core/buttons" }
  {
  }

  /** Applying the filter twice gives the same settings as applying it once. */
  lemma FilterIdempotent<T>(settings: BlockSettings<T>, name: string)
    ensures FilterBlockAttributes(FilterBlockAttributes(settings, name), name)
         == FilterBlockAttributes(settings, name)
  {
    if name in SupportedBlocks {
      var once := ExistingAttributes(settings) + VisibilityAttributes;
      assert once + VisibilityAttributes == once;
    }
  }

  /** The schema's defaults are exactly the editor's default attributes. */
  lemma SchemaDefaultsAreDefaultRule()
    ensures VisibilityAttributes.Keys == {
      "hideOnMobile", "hideOnTablet", "hideOnDesktop", "hideOnCustomBreakpoint",
      "customMinWidth", "customMaxWidth", "customDirection" }
    ensures VisibilityAttributes["hideOnMobile"].default == Some(JBool(EditorRule.DefaultRule.hideOnMobile))
    ensures VisibilityAttributes["hideOnTablet"].default == Some(JBool(EditorRule.DefaultRule.hideOnTablet))
    ensures VisibilityAttributes["hideOnDesktop"].default == Some(JBool(EditorRule.DefaultRule.hideOnDesktop))
    ensures VisibilityAttributes["hideOnCustomBreakpoint"].default
         == Some(JBool(EditorRule.DefaultRule.hideOnCustomBreakpoint))
    ensures VisibilityAttributes["customMinWidth"].default == Some(JNum(EditorRule.DefaultRule.customMinWidth.v))
    ensures VisibilityAttributes["customMaxWidth"].default == Some(JNum(EditorRule.DefaultRule.customMaxWidth.v))
    ensures VisibilityAttributes["customDirection"].default == Some(JStr(EditorRule.DefaultRule.customDirection))
  {
  }
}
