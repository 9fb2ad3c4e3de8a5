# Hide Block Screen Size — a Dafny model of the rule-to-CSS core

This project models how the plugin turns the visibility attributes of a block
(hide on mobile, tablet or desktop, or on a custom breakpoint) into CSS media
queries. It covers both halves of the plugin:

- **Server side** (`hide-block-screen-size.php`). The `render_block` filter
  decides whether a block qualifies. It sanitises the custom widths, tags the
  markup with a fresh `hbss-vis-<uuid>` class and appends a record to the rule
  list of the render pass. The footer action resolves the three breakpoints.
  It then compiles every record, in order, into media-query chunks and emits
  one `<style id="hbss-visibility-rules">` element, or nothing when there is no
  chunk.
- **Editor side** (`src/index.js`). This covers the attribute-schema filter for
  the allow-listed blocks and the breakpoint merge. It also covers the block's
  attribute store, with its toggle and input handlers and the effect that keeps
  the named flags and the custom breakpoint mutually exclusive. Last comes the
  media-query preview, a first-match-wins chain that always yields a string.

Files and modules:

| file | module | contents |
|---|---|---|
| `wrappers.dfy` | `Wrappers` | `Option` |
| `decimal.dfy` | `Decimal` | decimal text of integers, the leading-integer scan used by PHP `(int)` and JavaScript `parseInt`, the round trip between them |
| `php_values.dfy` | `PhpValues` | PHP attribute values and `empty`, `is_bool`, `isset`, `?? ''`, `(int)`, `absint`, string interpolation |
| `css.dfy` | `Css` | the media queries both halves write |
| `breakpoints.dfy` | `Breakpoints` | server-side resolution and editor-side merge of the theme breakpoints |
| `visibility_collector.dfy` | `VisibilityCollector` | the render filter, the `Collector` class (rule list, `RenderBlock`, `Flush`), the compiler's chunk functions |
| `editor_rule.dfy` | `EditorRule` | the editor's attributes, `setAttributes`, the exclusion effect, the `AttributeStore` class |
| `editor_preview.dfy` | `EditorPreview` | the preview decision and its text |
| `attribute_schema.dfy` | `AttributeSchema` | the `blocks.registerBlockType` filter |
| `editor_server_consistency.dfy` | `EditorServerConsistency` | how saved attributes reach the server; where the preview and the compiler agree and where they differ |

WordPress and browser collaborators become inputs:

- The request context is the five booleans of `is_admin`, `wp_doing_ajax`,
  `is_singular`, `is_home` and `is_archive`.
- The sanitised UUID is a string parameter.
- The HTML tag processor is a function `applyClass` that returns None when it
  finds no tag.
- `wp_get_global_settings()['custom']['breakpoints']` is an optional map.
- The `echo` of the flush becomes the returned `Option<string>`.

Behaviour of the code worth knowing:

- The emitted rules have no spaces: `@media (max-width: 480px){.C{display:none !important;}}`.
- The compiler reads its flags with `! empty` only. It does not re-check the
  type, so a truthy non-boolean flag in a record that qualified through another
  flag still emits a chunk (`CompilerReadsTruthinessOnly`).
- The allow-list array has ten entries, with `core/button` twice.
- The PHP keeps its rule list in a `static` array and mirrors it into
  `$GLOBALS`. Here both are one `records` field of a `Collector` object, and a
  new object starts each render pass empty.
- The custom chunk is chosen by `customDirection` alone, because "between",
  "over" and "under" exclude one another. The `elseif` order therefore never
  decides between two of them (`CustomQuery`).

## Model

| member | source | states |
|---|---|---|
| `VisibilityCollector.Serves` | hide-block-screen-size.php:68 | the filter does its work exactly in an admin screen, an AJAX request, a singular view, the home page or an archive; in any other context it returns the markup untouched |
| `VisibilityCollector.HasVisibilityRules` | hide-block-screen-size.php:78-95 | true exactly when one of the four `hideOn*` keys holds boolean `true`; a truthy value of another type does not count |
| `PhpValues.NonEmptyBoolIsTrue` | hide-block-screen-size.php:80-91 | `! empty($v) && is_bool($v)` holds exactly for boolean true |
| `VisibilityCollector.MalformedAttrsDoNotQualify` | hide-block-screen-size.php:72-74 | a block whose `attrs` is missing, an empty array or not an array does not qualify |
| `VisibilityCollector.TruthyStringFlagDoesNotQualify` | hide-block-screen-size.php:79-95 | the string "1" is non-empty, yet a block whose only flag is "1" does not qualify |
| `VisibilityCollector.QualificationIgnoresBlockName` | hide-block-screen-size.php:66-95 | qualification does not depend on the block name: there is no allow-list on the server |
| `VisibilityCollector.Sanitize` | hide-block-screen-size.php:97-103 | the key set is kept and every key except the two widths keeps its value; each width that is set becomes `Int(absint(v))` and a null one stays null, so after sanitising each width is absent, null or a non-negative integer |
| `VisibilityCollector.SanitizeIdempotent` | hide-block-screen-size.php:97-103 | sanitising an already sanitised attribute array changes nothing |
| `VisibilityCollector.SanitizedWidthIsPixels` | hide-block-screen-size.php:152-162 | after sanitising, a width that is set is a non-negative integer and is printed as its decimal digits followed by "px" |
| `PhpValues.IntVal` | hide-block-screen-size.php:99-102 | the `(int)` cast inside `absint`: an integer stays itself, null and false give 0, true gives 1, a string gives its leading integer or 0 when it has none, an array gives 0 exactly when it is empty and 1 otherwise |
| `PhpValues.AbsInt` | hide-block-screen-size.php:99-102 | `absint` is the magnitude of the `(int)` cast: the cast itself when it is non-negative, its negation otherwise |
| `PhpValues.Interpolate` | hide-block-screen-size.php:158-162 | a value interpolated into a string: null and false give "", true gives "1", a non-negative integer its decimal digits, a negative one "-" and the digits of its magnitude, a string itself |
| `PhpValues.CastOfInterpolation` | hide-block-screen-size.php:99-102 | casting the interpolated text of a non-array value to int gives that value's own cast; the text "Array" of an array casts to 0 |
| `Decimal.IntDecimalRoundTrip` | hide-block-screen-size.php:99-102 | the leading-integer scan of the decimal text of any integer, negative ones included, yields that integer |
| `PhpValues.AbsIntOfNat` | hide-block-screen-size.php:99-102 | `absint` keeps a non-negative integer and reads back its own decimal text |
| `Decimal.DecimalRoundTrip` | hide-block-screen-size.php:99-102 | the leading-integer scan of the decimal text of `n` yields `n` |
| `Decimal.NatToDecimal` | hide-block-screen-size.php:158-162 | an interpolated width is a non-empty string of digits without a leading zero |
| `VisibilityCollector.ClassName` | hide-block-screen-size.php:106 | every generated class is `hbss-vis-` followed by exactly the UUID, so the UUID is what remains after the prefix |
| `VisibilityCollector.ClassNameInjective` | hide-block-screen-size.php:106 | different UUIDs give different classes |
| `VisibilityCollector.Collector.Collect` | hide-block-screen-size.php:52-61 | the new record is appended at the end and the earlier records are kept unchanged, so the list is in insertion order |
| `VisibilityCollector.Collector.RenderBlock` | hide-block-screen-size.php:66-120 | a block that does not qualify returns its markup unchanged and leaves the list as it was; a qualifying block returns the tag processor's output, or the original markup when it finds no tag, and appends exactly one record, holding the new class and the sanitised attributes; the list keeps its classes pairwise distinct when the UUID is fresh, and keeps every record sanitised |
| `VisibilityCollector.CustomQuery` | hide-block-screen-size.php:151-163 | with an empty `hideOnCustomBreakpoint` there is no custom query; otherwise "between" gives a min/max query whenever both widths are present, with no check that min < max; "over" gives a min-width query when the minimum is present; "under" gives a max-width query when the maximum is present; any other direction gives none |
| `VisibilityCollector.RecordChunks` | hide-block-screen-size.php:141-164 | a record contributes at most four chunks, and none exactly when its three named flags are empty and it has no custom query |
| `VisibilityCollector.RecordChunksShape` | hide-block-screen-size.php:141-164 | one record's chunks come in the order mobile, tablet, desktop, custom, with at most one of each; there is a mobile, tablet or desktop chunk exactly when that flag is non-empty, and a custom chunk exactly when `CustomQuery` gives one; each chunk holds its own query (`max-width: mobile`, `mobile..tablet`, `min-width: desktop`) |
| `VisibilityCollector.FlaglessRecordEmitsNothing` | hide-block-screen-size.php:141-164 | a record whose four flags are all empty contributes no chunk |
| `VisibilityCollector.CompilerReadsTruthinessOnly` | hide-block-screen-size.php:141-149 | a record holding `hideOnMobile = "1"` and `hideOnTablet = true` qualifies and then emits both a mobile and a tablet chunk |
| `VisibilityCollector.BetweenIsNotOrderChecked` | hide-block-screen-size.php:157-158 | "between" with min 500 and max 300 emits exactly one chunk, `(min-width: 500px) and (max-width: 300px)` |
| `VisibilityCollector.AppendRecordChunks` | hide-block-screen-size.php:138-164 | one pass of the flush loop appends exactly the record's chunk texts, in order, to the chunks so far |
| `VisibilityCollector.AppendCustomChunk` | hide-block-screen-size.php:151-164 | the custom step of the loop appends the rule of the record's custom query when it has one, and nothing otherwise |
| `VisibilityCollector.CompileRecords` | hide-block-screen-size.php:137-165 | the loop over the rule list yields every record's chunk texts, record after record in collection order |
| `VisibilityCollector.Stylesheet` | hide-block-screen-size.php:167-169 | nothing is echoed exactly when there is no chunk; otherwise the output is `<style id="hbss-visibility-rules">`, then the chunks joined with no separator, then `</style>` |
| `VisibilityCollector.Collector.Flush` | hide-block-screen-size.php:125-170 | the output is the style element that wraps the concatenated chunks of every record in collection order, under the breakpoints resolved from the theme; it is nothing at all when there is no chunk |
| `VisibilityCollector.AllChunksAppend` | hide-block-screen-size.php:135-165 | the chunks of two record lists in a row are the first list's chunks followed by the second's |
| `VisibilityCollector.AllChunksSnoc` | hide-block-screen-size.php:137-165 | collecting one more record appends exactly that record's chunks to the stylesheet body |
| `VisibilityCollector.NoChunksIffNoRecordChunks` | hide-block-screen-size.php:135-169 | the flush emits nothing exactly when no record produces a chunk |
| `VisibilityCollector.NoRecordsNoOutput` | hide-block-screen-size.php:126 | an empty rule list emits nothing, not even an empty style element |
| `VisibilityCollector.MobileOnlyUnderDefaults` | hide-block-screen-size.php:131-168 | a record with only `hideOnMobile` and no theme breakpoints emits exactly `<style id="hbss-visibility-rules">@media (max-width: 480px){.C{display:none !important;}}</style>` |
| `Breakpoints.ThemeOr` | hide-block-screen-size.php:131-133 | a breakpoint is the theme's value when the theme supplies the key, and the given default otherwise |
| `Breakpoints.Resolve` | hide-block-screen-size.php:128-133 | mobile, tablet and desktop each fall back to their own default (480px, 768px, 1024px); a value the theme supplies is used verbatim |
| `Breakpoints.ResolveWithoutTheme` | hide-block-screen-size.php:129-133 | with no theme map, or an empty one, the defaults apply on both sides |
| `Breakpoints.ResolveTabletOnly` | hide-block-screen-size.php:129-133 | a theme that sets only tablet to 700px resolves to 480px, 700px and 1024px |
| `Breakpoints.Merge` | src/index.js:78-92 | the merged object has the three default keys plus the theme's keys; a key the theme supplies overrides its default |
| `Breakpoints.ResolveAgreesWithMerge` | src/index.js:89-92 | the editor's merged breakpoints and the server's resolved ones agree on mobile, tablet and desktop |
| `AttributeSchema.FilterBlockAttributes` | src/index.js:35-76 | a block not on the allow-list gets its settings back unchanged; a supported block keeps its other settings and each of its existing attributes, except those the filter redefines, and gains the seven visibility attributes with their definitions |
| `AttributeSchema.SupportedBlockNames` | src/index.js:22-33 | the allow-list has ten entries naming nine distinct blocks |
| `AttributeSchema.FilterIdempotent` | src/index.js:38-75 | filtering settings that were already filtered changes nothing |
| `AttributeSchema.SchemaDefaultsAreDefaultRule` | src/index.js:45-72 | the schema declares exactly the seven keys, with defaults false ×4, 0, 0 and "", which are the editor's default attributes |
| `EditorRule.ApplyPatch` | src/index.js:100 | `setAttributes` writes each key the patch names and keeps every other attribute |
| `EditorRule.EnforceExclusion` | src/index.js:94-102 | after the effect the named flags and the custom breakpoint are never on together; only `hideOnCustomBreakpoint` can change, it is switched off when a named flag is on, and nothing changes when no named flag is on |
| `EditorRule.EnforceExclusionIdempotent` | src/index.js:94-102 | running the effect a second time changes nothing |
| `EditorRule.EnforceExclusionFixesOnlyViolations` | src/index.js:94-102 | the effect changes the attributes exactly when they break the exclusion |
| `EditorRule.AttributeStore.RunExclusionEffect` | src/index.js:94-102 | the store's new attributes are the effect applied to the old ones |
| `EditorRule.AttributeStore.SetAttributes` | src/index.js:100 | the store's new attributes are the patch merged over the old ones |
| `EditorRule.AttributeStore.ToggleHideOnMobile` | src/index.js:111-113 | flips `hideOnMobile` and nothing else |
| `EditorRule.AttributeStore.ToggleHideOnTablet` | src/index.js:120-122 | flips `hideOnTablet` and nothing else |
| `EditorRule.AttributeStore.ToggleHideOnDesktop` | src/index.js:129-131 | flips `hideOnDesktop` and nothing else |
| `EditorRule.AttributeStore.ToggleHideOnCustomBreakpoint` | src/index.js:137-146 | does nothing while the control is disabled because a named flag is on, and otherwise flips `hideOnCustomBreakpoint`; either way the exclusion is preserved |
| `EditorRule.AttributeStore.SetCustomDirection` | src/index.js:156 | sets `customDirection` to the chosen value and nothing else |
| `EditorRule.AttributeStore.SetCustomMinWidth` | src/index.js:175-177 | sets `customMinWidth` to `parseInt` of the input and nothing else |
| `EditorRule.AttributeStore.SetCustomMaxWidth` | src/index.js:201-203 | sets `customMaxWidth` to `parseInt` of the input and nothing else |
| `EditorRule.ParseInt` | src/index.js:176 | `parseInt` of either width input (also line 202) is NaN exactly when the text holds no leading integer, and otherwise that integer |
| `EditorRule.ParseIntRoundTrip` | src/index.js:176 | `parseInt` reads back the decimal text of any non-negative number, and reads an empty input as NaN |
| `EditorRule.MobileToggleThenEffect` | src/index.js:94-113 | switching mobile on and letting the effect run leaves mobile on and the custom breakpoint off |
| `EditorPreview.PreviewFor` | src/index.js:236-266 | a shown query never has a backwards or non-positive range: "over" shows the positive minimum, "under" shows the positive maximum, "between" shows min < max; the invalid message appears exactly when both widths are positive, min >= max and the direction is neither "over" nor "under", and it carries both values |
| `EditorPreview.PreviewText` | src/index.js:242-265 | the rendered text starts with `@media (` exactly when a query is shown, starts with "Invalid: min-width (" exactly for an invalid range, and is the prompt exactly otherwise |
| `EditorPreview.PreviewMediaQuery` | src/index.js:236-266 | a block's preview is a media query exactly for a positive "over" minimum, a positive "under" maximum or an increasing positive "between" range, and the invalid message exactly when both widths are positive, min >= max and the direction is neither "over" nor "under" |
| `EditorPreview.OverWins` | src/index.js:241-243 | "over" with a positive minimum shows `@media (min-width: Npx)` whatever the maximum |
| `EditorPreview.UnderWins` | src/index.js:246-248 | "under" with a positive maximum shows `@media (max-width: Npx)` whatever the minimum |
| `EditorPreview.BetweenShownIff` | src/index.js:251-258 | "between" shows a query exactly when 0 < min < max |
| `EditorPreview.NoQueryWithoutDirection` | src/index.js:240-265 | without one of the three directions the preview never shows a query |
| `EditorPreview.DefaultsPrompt` | src/index.js:264-265 | the default attributes give "Enter width values to see media query preview" |
| `EditorPreview.InvalidTextMentionsBoth` | src/index.js:260-262 | the invalid message contains both widths followed by "px" |
| `EditorServerConsistency.SavedBlockQualifiesIffFlag` | hide-block-screen-size.php:72-95 | a block saved from the editor qualifies on the server exactly when one of its four flags is on (in a serving context) |
| `EditorServerConsistency.PreviewAgreesWithCompiler` | hide-block-screen-size.php:151-163 | whenever the preview shows a query for a block with the custom breakpoint on, the server compiles that same query for the saved block |
| `EditorServerConsistency.BackwardsRangeAsymmetry` | hide-block-screen-size.php:157-158 | for "between" with min 500 and max 300, the preview reads "Invalid: min-width (500px) must be less than max-width (300px)", while the server still compiles `(min-width: 500px) and (max-width: 300px)` |
| `EditorServerConsistency.NegativeWidthAsymmetry` | hide-block-screen-size.php:98-103 | "over" with a minimum of -5 prompts for values in the editor, while `absint` makes the server compile `min-width: 5px` |

## Left out

- Hook registration (`add_filter`, `add_action`) and asset enqueueing (`init`)
  are WordPress plumbing with no logic of the plugin's own.
- `wp_generate_uuid4` and `sanitize_html_class` are not modelled. The sanitised
  UUID is an input, and uniqueness of classes is shown under the assumption
  that it is fresh.
- `class_exists('WP_HTML_Tag_Processor')`, `next_tag`, `add_class` and
  `get_updated_html` are one abstract `applyClass` input that may find no tag.
- `wp_get_global_settings` is the optional theme map. Theme values are taken to
  be strings. A non-array `custom.breakpoints`, non-string values and
  JavaScript `null` or `undefined` values in the theme object are not modelled.
- The `echo` is the returned string. Its position in the footer
  (`wp_footer`, `admin_footer`) is not modelled.
- The process-lifetime `static $rules` and `$GLOBALS['hbss_visibility_rules']`
  are one `records` field. Sharing across requests is not modelled.
- PHP floats are not modelled, because `PhpValues.Value` has no float case.
  Block attributes can hold floats (a cover block's `focalPoint` is
  `{x: 0.5, y: 0.31}`), so such an attribute array cannot be represented, and
  a float width or flag cannot be expressed: the truncation of `absint(12.7)`
  to 12 and the emptiness of `0.0` are lost.
- PhpValues.IntVal: does not model numeric strings with an exponent ("1e3" is
  read as 1, PHP reads 1000) or saturation at `PHP_INT_MAX`, because the
  integers here are unbounded.
- EditorRule.ParseInt: does not model the `0x` hexadecimal prefix or the
  non-ASCII white space that JavaScript's `parseInt` skips, because it shares
  the PHP scan.
- EditorRule.JsNumber: holds unbounded integers or NaN only, while JavaScript
  numbers are doubles. Fractional numbers stored in a block are not modelled;
  neither is the loss of precision of `parseInt` above 2^53, nor the exponent
  text (`1e+21px`) that the `${w}px` template prints for widths from 1e21 up.
- The React rendering is not modelled: the toggle and number widgets, their
  `min`/`max` clamping props, the help texts, the preview disclosure markup,
  the theme hint (src/index.js:273-280) and the `editor.BlockEdit` wrapper
  (src/index.js:285-301). The effect's scheduling is an explicit call to
  `RunExclusionEffect`.
- The block serializer and the JSON decoding between editor and server are
  outside the plugin. `EditorServerConsistency.Serialize` models them as storing
  only non-default attributes, with NaN becoming null.
- `build/index.js` is the bundled copy of `src/index.js` and is not modelled
  separately.
