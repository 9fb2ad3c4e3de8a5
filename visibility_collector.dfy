/**
 * The server half of the plugin: the `render_block` filter that decides
 * whether a block carries visibility rules, tags its markup with a unique
 * class and collects a record for it, and the footer action that compiles
 * every collected record into one `<style>` element.
 *
 * WordPress collaborators are inputs: the request context (`is_admin`,
 * `wp_doing_ajax`, `is_singular`, `is_home`, `is_archive`), the sanitised
 * UUID, the HTML tag processor (`applyClass`, None when it finds no tag) and
 * the theme's `custom.breakpoints` setting.
 */
module VisibilityCollector {
  import opened Wrappers
  import opened PhpValues
  import Css
  import Breakpoints

  const HideOnMobile := "hideOnMobile"
  const HideOnTablet := "hideOnTablet"
  const HideOnDesktop := "hideOnDesktop"
  const HideOnCustomBreakpoint := "hideOnCustomBreakpoint"
  const CustomMinWidth := "customMinWidth"
  const CustomMaxWidth := "customMaxWidth"
  const CustomDirection := "customDirection"

  const FlagKeys := [HideOnMobile, HideOnTablet, HideOnDesktop, HideOnCustomBreakpoint]

  const ClassPrefix := "hbss-vis-"
  const StyleOpen := "<style id=\"hbss-visibility-rules\">"
  const StyleClose := "</style>"

  // ---------------------------------------------------------------------
  // Qualification, sanitisation and tagging (the render_block filter)
  // ---------------------------------------------------------------------

  /** What WordPress reports about the current request. */
  datatype RequestContext = RequestContext(
    isAdmin: bool, doingAjax: bool, isSingular: bool, isHome: bool, isArchive: bool)

  /** The filter works only in the admin, in AJAX requests and on singular, home and archive views. */
  predicate Serves(ctx: RequestContext): (r: bool)
    ensures !r <==> !ctx.isAdmin && !ctx.doingAjax && !ctx.isSingular && !ctx.isHome && !ctx.isArchive
  {
    ctx.isAdmin || ctx.doingAjax || ctx.isSingular || ctx.isHome || ctx.isArchive
  }

  /** A parsed block as the filter receives it; `attrs` is None when the key is missing. */
  datatype Block = Block(blockName: string, attrs: Option<Value>)

  /** The guard of the filter: `attrs` is present, non-empty and an array. */
  predicate HasAttrArray(block: Block) {
    !Empty(block.attrs) && block.attrs.value.Arr?
  }

  /** A flag that is both non-empty and of boolean type. */
  predicate IsTrueFlag(attrs: map<string, Value>, key: string) {
    !Empty(Lookup(attrs, key)) && IsBool(Lookup(attrs, key))
  }

  /** Some visibility flag is boolean true; a truthy value of another type does not count. */
  function HasVisibilityRules(attrs: map<string, Value>): (r: bool)
    ensures r <==> exists k :: k in FlagKeys && Lookup(attrs, k) == Some(Bool(true))
  {
    NonEmptyBoolIsTrue(Lookup(attrs, HideOnMobile));
    NonEmptyBoolIsTrue(Lookup(attrs, HideOnTablet));
    NonEmptyBoolIsTrue(Lookup(attrs, HideOnDesktop));
    NonEmptyBoolIsTrue(Lookup(attrs, HideOnCustomBreakpoint));
    IsTrueFlag(attrs, HideOnMobile) || IsTrueFlag(attrs, HideOnTablet)
    || IsTrueFlag(attrs, HideOnDesktop) || IsTrueFlag(attrs, HideOnCustomBreakpoint)
  }

  /** The block is tagged and recorded. */
  predicate Qualifies(ctx: RequestContext, block: Block) {
    Serves(ctx) && HasAttrArray(block) && HasVisibilityRules(block.attrs.value.entries)
  }

  /** A width attribute is absent, null, or a non-negative integer. */
  predicate WidthSanitized(attrs: map<string, Value>, key: string) {
    key in attrs ==> attrs[key] == Null || (attrs[key].Int? && attrs[key].i >= 0)
  }

  predicate Sanitized(attrs: map<string, Value>) {
    WidthSanitized(attrs, CustomMinWidth) && WidthSanitized(attrs, CustomMaxWidth)
  }

  /** `absint` on one attribute when it is set. */
  function SanitizeWidth(attrs: map<string, Value>, key: string): map<string, Value> {
    if IsSet(attrs, key) then attrs[key := Int(AbsInt(attrs[key]))] else attrs
  }

  /** `absint` on both custom widths; every other attribute is kept as it is. */
  function Sanitize(attrs: map<string, Value>): (r: map<string, Value>)
    ensures r.Keys == attrs.Keys
    ensures Sanitized(r)
    ensures forall k :: k in attrs && k != CustomMinWidth && k != CustomMaxWidth ==> r[k] == attrs[k]
    ensures forall k :: k in attrs && (k == CustomMinWidth || k == CustomMaxWidth) ==>
      r[k] == if attrs[k] == Null then Null else Int(AbsInt(attrs[k]))
  {
    SanitizeWidth(SanitizeWidth(attrs, CustomMinWidth), CustomMaxWidth)
  }

  /** The class `hbss-vis-<uuid>` given to a qualifying block. */
  function ClassName(uuid: string): (cls: string)
    ensures |cls| == |ClassPrefix| + |uuid| && cls[..|ClassPrefix|] == ClassPrefix
    ensures cls[|ClassPrefix|..] == uuid
  {
    ClassPrefix + uuid
  }

  /** The markup after the tag processor: its output when it found a tag, the input otherwise. */
  function Tag(content: string, cls: string, applyClass: (string, string) -> Option<string>): string {
    applyClass(content, cls).GetOr(content)
  }

  /** One collected rule: the block's class and its sanitised attributes. */
  datatype Record = Record(className: string, attrs: map<string, Value>)

  ghost predicate DistinctClasses(records: seq<Record>) {
    forall i, j :: 0 <= i < j < |records| ==> records[i].className != records[j].className
  }

  // ---------------------------------------------------------------------
  // Compilation (the footer action)
  // ---------------------------------------------------------------------

  /** Which of the four conditions of the flush loop produced a chunk. */
  datatype Slot = Mobile | Tablet | Desktop | Custom

  function Rank(s: Slot): nat {
    match s
    case Mobile => 0
    case Tablet => 1
    case Desktop => 2
    case Custom => 3
  }

  datatype Chunk = Chunk(slot: Slot, query: Css.Query)

  /** Slots strictly increase: the fixed order, and at most one chunk per slot. */
  predicate Ordered(cs: seq<Chunk>) {
    forall i, j :: 0 <= i < j < |cs| ==> Rank(cs[i].slot) < Rank(cs[j].slot)
  }

  predicate HasSlot(cs: seq<Chunk>, s: Slot) {
    exists c :: c in cs && c.slot == s
  }

  /** The text `"{$width}px"` of a width read with `?? ''`. */
  function WidthText(attrs: map<string, Value>, key: string): string {
    Interpolate(OrEmptyString(attrs, key)) + "px"
  }

  /**
   * The custom chunk of a record: "between" when both widths are present,
   * "over" when the minimum is, "under" when the maximum is. The order of
   * min and max is not checked.
   */
  function CustomQuery(a: map<string, Value>): (q: Option<Css.Query>)
    ensures q.Some? ==> !Empty(Lookup(a, HideOnCustomBreakpoint))
    ensures Empty(Lookup(a, HideOnCustomBreakpoint)) ==> q.None?
    ensures !Empty(Lookup(a, HideOnCustomBreakpoint)) ==>
      var min, max, dir := OrEmptyString(a, CustomMinWidth), OrEmptyString(a, CustomMaxWidth),
                           OrEmptyString(a, CustomDirection);
      && (dir == Str("between") ==>
            q == if min != Str("") && max != Str("")
                 then Some(Css.Between(WidthText(a, CustomMinWidth), WidthText(a, CustomMaxWidth)))
                 else None)
      && (dir == Str("over") ==>
            q == if min != Str("") then Some(Css.MinWidth(WidthText(a, CustomMinWidth))) else None)
      && (dir == Str("under") ==>
            q == if max != Str("") then Some(Css.MaxWidth(WidthText(a, CustomMaxWidth))) else None)
      && (dir !in {Str("between"), Str("over"), Str("under")} ==> q.None?)
  {
    if Empty(Lookup(a, HideOnCustomBreakpoint)) then None
    else
      var minWidth := OrEmptyString(a, CustomMinWidth);
      var maxWidth := OrEmptyString(a, CustomMaxWidth);
      var direction := OrEmptyString(a, CustomDirection);
      if minWidth != Str("") && maxWidth != Str("") && direction == Str("between") then
        Some(Css.Between(WidthText(a, CustomMinWidth), WidthText(a, CustomMaxWidth)))
      else if minWidth != Str("") && direction == Str("over") then
        Some(Css.MinWidth(WidthText(a, CustomMinWidth)))
      else if maxWidth != Str("") && direction == Str("under") then
        Some(Css.MaxWidth(WidthText(a, CustomMaxWidth)))
      else None
  }

  /** A chunk when its condition holds, and none otherwise. */
  function Given(b: bool, c: Chunk): Option<Chunk> {
    if b then Some(c) else None
  }

  /** The custom chunk of a record that has a custom query. */
  function CustomChunk(q: Option<Css.Query>): Option<Chunk> {
    match q
    case Some(query) => Some(Chunk(Custom, query))
    case None => None
  }

  /** `$chunks[] = ...` for a chunk that may be absent. */
  function Push(cs: seq<Chunk>, c: Option<Chunk>): seq<Chunk> {
    match c
    case Some(x) => cs + [x]
    case None => cs
  }

  /** Pushing a chunk of a later slot keeps the order; the chunk is added exactly when present. */
  lemma PushFacts(cs: seq<Chunk>, c: Option<Chunk>)
    ensures Ordered(cs) && (c.Some? ==> forall x :: x in cs ==> Rank(x.slot) < Rank(c.value.slot))
            ==> Ordered(Push(cs, c))
    ensures forall x :: x in Push(cs, c) <==> x in cs || c == Some(x)
  {
  }

  /** The chunks one record contributes, tagged by the condition that produced each. */
  function RecordChunks(bp: Breakpoints.BreakpointSet, a: map<string, Value>): (cs: seq<Chunk>)
    ensures |cs| <= 4
    ensures cs == [] <==>
      && Empty(Lookup(a, HideOnMobile)) && Empty(Lookup(a, HideOnTablet)) && Empty(Lookup(a, HideOnDesktop))
      && CustomQuery(a).None?
  {
    Push(Push(Push(Push([], Given(!Empty(Lookup(a, HideOnMobile)), Chunk(Mobile, Css.MaxWidth(bp.mobile)))),
                        Given(!Empty(Lookup(a, HideOnTablet)), Chunk(Tablet, Css.Between(bp.mobile, bp.tablet)))),
                   Given(!Empty(Lookup(a, HideOnDesktop)), Chunk(Desktop, Css.MinWidth(bp.desktop)))),
         CustomChunk(CustomQuery(a)))
  }

  /** The query a chunk in a given slot carries, under breakpoints `bp` and custom query `custom`. */
  predicate ChunkQueryOf(bp: Breakpoints.BreakpointSet, custom: Option<Css.Query>, c: Chunk) {
    match c.slot
    case Mobile => c.query == Css.MaxWidth(bp.mobile)
    case Tablet => c.query == Css.Between(bp.mobile, bp.tablet)
    case Desktop => c.query == Css.MinWidth(bp.desktop)
    case Custom => Some(c.query) == custom
  }

  /**
   * A record's chunks come in slot order, at most one per slot; a slot is
   * present exactly when its condition holds, and each chunk carries its
   * slot's query.
   */
  lemma RecordChunksShape(bp: Breakpoints.BreakpointSet, a: map<string, Value>)
    ensures var cs := RecordChunks(bp, a);
      && Ordered(cs)
      && (HasSlot(cs, Mobile) <==> !Empty(Lookup(a, HideOnMobile)))
      && (HasSlot(cs, Tablet) <==> !Empty(Lookup(a, HideOnTablet)))
      && (HasSlot(cs, Desktop) <==> !Empty(Lookup(a, HideOnDesktop)))
      && (HasSlot(cs, Custom) <==> CustomQuery(a).Some?)
      && (forall c :: c in cs ==> ChunkQueryOf(bp, CustomQuery(a), c))
  {
    var custom := CustomQuery(a);
    var om := Given(!Empty(Lookup(a, HideOnMobile)), Chunk(Mobile, Css.MaxWidth(bp.mobile)));
    var ot := Given(!Empty(Lookup(a, HideOnTablet)), Chunk(Tablet, Css.Between(bp.mobile, bp.tablet)));
    var od := Given(!Empty(Lookup(a, HideOnDesktop)), Chunk(Desktop, Css.MinWidth(bp.desktop)));
    var oc := CustomChunk(custom);
    var cs := Push(Push(Push(Push([], om), ot), od), oc);
    assert RecordChunks(bp, a) == cs;
    FourChunks(om, ot, od, oc);
    forall c | c in cs
      ensures ChunkQueryOf(bp, custom, c)
    {
      if oc == Some(c) {
        assert Some(c.query) == custom;
      }
    }
  }

  /** The four optional chunks of a record, appended in slot order, keep that order. */
  lemma FourChunks(om: Option<Chunk>, ot: Option<Chunk>, od: Option<Chunk>, oc: Option<Chunk>)
    requires om.Some? ==> om.value.slot == Mobile
    requires ot.Some? ==> ot.value.slot == Tablet
    requires od.Some? ==> od.value.slot == Desktop
    requires oc.Some? ==> oc.value.slot == Custom
    ensures var cs := Push(Push(Push(Push([], om), ot), od), oc);
      && Ordered(cs)
      && (forall x :: x in cs <==> om == Some(x) || ot == Some(x) || od == Some(x) || oc == Some(x))
      && (HasSlot(cs, Mobile) <==> om.Some?) && (HasSlot(cs, Tablet) <==> ot.Some?)
      && (HasSlot(cs, Desktop) <==> od.Some?) && (HasSlot(cs, Custom) <==> oc.Some?)
  {
    var m := Push([], om);
    PushFacts([], om);
    var t := Push(m, ot);
    PushFacts(m, ot);
    assert forall x :: x in t ==> Rank(x.slot) <= 1;
    var d := Push(t, od);
    PushFacts(t, od);
    assert forall x :: x in d ==> Rank(x.slot) <= 2;
    var cs := Push(d, oc);
    PushFacts(d, oc);
    assert Ordered(cs);
    SlotOfMember(cs, Mobile, om, ot, od, oc);
    SlotOfMember(cs, Tablet, ot, om, od, oc);
    SlotOfMember(cs, Desktop, od, om, ot, oc);
    SlotOfMember(cs, Custom, oc, om, ot, od);
  }

  /**
   * When a list holds at most the four given chunks, and `o0` is the only one
   * of them that can be in slot `s`, the list has slot `s` exactly when `o0` is present.
   */
  lemma SlotOfMember(cs: seq<Chunk>, s: Slot, o0: Option<Chunk>, o1: Option<Chunk>,
                     o2: Option<Chunk>, o3: Option<Chunk>)
    requires o0.Some? ==> o0.value.slot == s
    requires (o1.Some? ==> o1.value.slot != s) && (o2.Some? ==> o2.value.slot != s)
    requires o3.Some? ==> o3.value.slot != s
    requires forall x :: x in cs <==> o0 == Some(x) || o1 == Some(x) || o2 == Some(x) || o3 == Some(x)
    ensures HasSlot(cs, s) <==> o0.Some?
  {
    if o0.Some? {
      assert o0.value in cs;
    }
  }

  /** The rule texts of a list of chunks for one class. */
  function Texts(cs: seq<Chunk>, cls: string): seq<string> {
    seq(|cs|, i requires 0 <= i < |cs| => Css.HideRule(cs[i].query, cls))
  }

  function RecordTexts(bp: Breakpoints.BreakpointSet, r: Record): seq<string> {
    Texts(RecordChunks(bp, r.attrs), r.className)
  }

  /** Every record's chunks, record after record in collection order. */
  function AllChunks(bp: Breakpoints.BreakpointSet, records: seq<Record>): seq<string> {
    FlatMap(TextsUnder(bp), records)
  }

  /** `RecordTexts` under fixed breakpoints, as a function of the record. */
  function TextsUnder(bp: Breakpoints.BreakpointSet): Record -> seq<string> {
    r => RecordTexts(bp, r)
  }

  /** The texts `f` gives for each element, element after element. */
  function FlatMap<T>(f: T -> seq<string>, xs: seq<T>): seq<string> {
    if xs == [] then [] else f(xs[0]) + FlatMap(f, xs[1..])
  }

  lemma {:induction false} FlatMapAppend<T>(f: T -> seq<string>, xs: seq<T>, ys: seq<T>)
    ensures FlatMap(f, xs + ys) == FlatMap(f, xs) + FlatMap(f, ys)
  {
    if xs == [] {
      assert xs + ys == ys;
    } else {
      assert (xs + ys)[1..] == xs[1..] + ys;
      FlatMapAppend(f, xs[1..], ys);
    }
  }

  lemma {:induction false} FlatMapEmpty<T>(f: T -> seq<string>, xs: seq<T>)
    ensures FlatMap(f, xs) == [] <==> forall x :: x in xs ==> f(x) == []
  {
    if xs != [] {
      FlatMapEmpty(f, xs[1..]);
      assert forall x :: x in xs <==> x == xs[0] || x in xs[1..];
    }
  }

  /** PHP `implode('', $chunks)`. */
  function Concat(ss: seq<string>): string {
    if ss == [] then "" else ss[0] + Concat(ss[1..])
  }

  /**
   * The echoed output: nothing at all when there is no chunk; otherwise the
   * opening tag, the chunks in order, and the closing tag.
   */
  function Stylesheet(chunks: seq<string>): (r: Option<string>)
    ensures r.None? <==> chunks == []
    ensures r.Some? ==>
      var body := Concat(chunks);
      && |r.value| == |StyleOpen| + |body| + |StyleClose|
      && r.value[..|StyleOpen|] == StyleOpen
      && r.value[|StyleOpen|..|StyleOpen| + |body|] == body
      && r.value[|StyleOpen| + |body|..] == StyleClose
  {
    if chunks == [] then None else Some(StyleOpen + Concat(chunks) + StyleClose)
  }

  /** The rule text of a chunk that is present, and nothing otherwise. */
  function RuleOf(c: Option<Chunk>, cls: string): seq<string> {
    match c
    case Some(x) => [Css.HideRule(x.query, cls)]
    case None => []
  }

  /** The rule texts of four optional chunks, appended to `pre`, one by one. */
  lemma TextsOfFour(pre: seq<string>, cls: string, om: Option<Chunk>, ot: Option<Chunk>,
                    od: Option<Chunk>, oc: Option<Chunk>)
    ensures pre + Texts(Push(Push(Push(Push([], om), ot), od), oc), cls)
         == pre + RuleOf(om, cls) + RuleOf(ot, cls) + RuleOf(od, cls) + RuleOf(oc, cls)
  {
    var m := Push([], om);
    var t := Push(m, ot);
    var d := Push(t, od);
    assert Texts([], cls) == [];
    TextsPush(pre, [], om, cls);
    TextsPush(pre, m, ot, cls);
    TextsPush(pre, t, od, cls);
    TextsPush(pre, d, oc, cls);
  }

  /** One pass of the flush loop: the chunks of record `r` are appended to `chunks`. */
  method AppendRecordChunks(chunks: seq<string>, bp: Breakpoints.BreakpointSet, r: Record)
    returns (out: seq<string>)
    ensures out == chunks + RecordTexts(bp, r)
  {
    var cls := r.className;
    var a := r.attrs;
    ghost var om := Given(!Empty(Lookup(a, HideOnMobile)), Chunk(Mobile, Css.MaxWidth(bp.mobile)));
    ghost var ot := Given(!Empty(Lookup(a, HideOnTablet)), Chunk(Tablet, Css.Between(bp.mobile, bp.tablet)));
    ghost var od := Given(!Empty(Lookup(a, HideOnDesktop)), Chunk(Desktop, Css.MinWidth(bp.desktop)));
    out := chunks;
    if !Empty(Lookup(a, HideOnMobile)) {
      out := out + [Css.HideRule(Css.MaxWidth(bp.mobile), cls)];
    }
    assert out == chunks + RuleOf(om, cls);
    if !Empty(Lookup(a, HideOnTablet)) {
      out := out + [Css.HideRule(Css.Between(bp.mobile, bp.tablet), cls)];
    }
    assert out == chunks + RuleOf(om, cls) + RuleOf(ot, cls);
    if !Empty(Lookup(a, HideOnDesktop)) {
      out := out + [Css.HideRule(Css.MinWidth(bp.desktop), cls)];
    }
    assert out == chunks + RuleOf(om, cls) + RuleOf(ot, cls) + RuleOf(od, cls);
    out := AppendCustomChunk(out, a, cls);
    TextsOfFour(chunks, cls, om, ot, od, CustomChunk(CustomQuery(a)));
  }

  /** The custom-breakpoint step of the flush loop. */
  method AppendCustomChunk(chunks: seq<string>, a: map<string, Value>, cls: string) returns (out: seq<string>)
    ensures out == chunks + RuleOf(CustomChunk(CustomQuery(a)), cls)
  {
    out := chunks;
    if !Empty(Lookup(a, HideOnCustomBreakpoint)) {
      var minWidth := OrEmptyString(a, CustomMinWidth);
      var maxWidth := OrEmptyString(a, CustomMaxWidth);
      var direction := OrEmptyString(a, CustomDirection);
      if minWidth != Str("") && maxWidth != Str("") && direction == Str("between") {
        out := out + [Css.HideRule(Css.Between(Interpolate(minWidth) + "px", Interpolate(maxWidth) + "px"), cls)];
      } else if minWidth != Str("") && direction == Str("over") {
        out := out + [Css.HideRule(Css.MinWidth(Interpolate(minWidth) + "px"), cls)];
      } else if maxWidth != Str("") && direction == Str("under") {
        out := out + [Css.HideRule(Css.MaxWidth(Interpolate(maxWidth) + "px"), cls)];
      }
    }
  }

  /** Pushing a chunk appends its rule text, and nothing when it is absent. */
  lemma TextsPush(pre: seq<string>, cs: seq<Chunk>, c: Option<Chunk>, cls: string)
    ensures pre + Texts(Push(cs, c), cls) == pre + Texts(cs, cls) + RuleOf(c, cls)
  {
    if c.Some? {
      assert Texts(cs + [c.value], cls) == Texts(cs, cls) + [Css.HideRule(c.value.query, cls)];
    }
  }

  // ---------------------------------------------------------------------
  // The rule list of one render pass
  // ---------------------------------------------------------------------

  class Collector {
    /** The collected records, in the order the blocks were rendered. */
    var records: seq<Record>

    /** A render pass starts with no records. */
    constructor ()
      ensures records == []
    {
      records := [];
    }

    /** Appends one record at the end of the list. */
    method Collect(cls: string, attrs: map<string, Value>)
      modifies this
      ensures records == old(records) + [Record(cls, attrs)]
    {
      records := records + [Record(cls, attrs)];
    }

    /** The `render_block` filter. */
    method RenderBlock(content: string, block: Block, ctx: RequestContext, uuid: string,
                       applyClass: (string, string) -> Option<string>)
      returns (html: string)
      modifies this
      ensures !Qualifies(ctx, block) ==> html == content && records == old(records)
      ensures Qualifies(ctx, block) ==>
        && html == Tag(content, ClassName(uuid), applyClass)
        && records == old(records) + [Record(ClassName(uuid), Sanitize(block.attrs.value.entries))]
      ensures (forall r :: r in old(records) ==> Sanitized(r.attrs)) ==> forall r :: r in records ==> Sanitized(r.attrs)
      ensures DistinctClasses(old(records))
              && (forall r :: r in old(records) ==> r.className != ClassName(uuid))
              ==> DistinctClasses(records)
    {
      if !Serves(ctx) {
        return content;
      }
      if Empty(block.attrs) || !block.attrs.value.Arr? {
        return content;
      }
      var attrs := block.attrs.value.entries;

      var hasVisibilityRules := false;
      if !Empty(Lookup(attrs, HideOnMobile)) && IsBool(Lookup(attrs, HideOnMobile)) {
        hasVisibilityRules := true;
      }
      if !Empty(Lookup(attrs, HideOnTablet)) && IsBool(Lookup(attrs, HideOnTablet)) {
        hasVisibilityRules := true;
      }
      if !Empty(Lookup(attrs, HideOnDesktop)) && IsBool(Lookup(attrs, HideOnDesktop)) {
        hasVisibilityRules := true;
      }
      if !Empty(Lookup(attrs, HideOnCustomBreakpoint)) && IsBool(Lookup(attrs, HideOnCustomBreakpoint)) {
        hasVisibilityRules := true;
      }
      assert hasVisibilityRules == HasVisibilityRules(attrs);
      if !hasVisibilityRules {
        return content;
      }

      if IsSet(attrs, CustomMinWidth) {
        attrs := attrs[CustomMinWidth := Int(AbsInt(attrs[CustomMinWidth]))];
      }
      if IsSet(attrs, CustomMaxWidth) {
        attrs := attrs[CustomMaxWidth := Int(AbsInt(attrs[CustomMaxWidth]))];
      }
      assert attrs == Sanitize(block.attrs.value.entries);

      var uniqueClass := ClassName(uuid);
      html := content;
      var updated := applyClass(content, uniqueClass);
      if updated.Some? {
        html := updated.value;
      }
      Collect(uniqueClass, attrs);
    }

    /** The footer action: compiles every record, in order, into one style element. */
    method Flush(theme: Option<map<string, string>>) returns (out: Option<string>)
      ensures out == Stylesheet(AllChunks(Breakpoints.Resolve(theme), records))
    {
      if records == [] {
        return None;
      }
      var chunks := CompileRecords(Breakpoints.Resolve(theme), records);
      out := if chunks != [] then Some(StyleOpen + Concat(chunks) + StyleClose) else None;
    }
  }

  /** The loop of the footer action: every record's chunks, record after record. */
  method CompileRecords(bp: Breakpoints.BreakpointSet, rs: seq<Record>) returns (chunks: seq<string>)
    ensures chunks == AllChunks(bp, rs)
  {
    chunks := [];
    for n := 0 to |rs|
      invariant chunks == AllChunks(bp, rs[..n])
    {
      var next := AppendRecordChunks(chunks, bp, rs[n]);
      CompileStep(bp, rs, n, chunks, next);
      chunks := next;
    }
    assert rs[..|rs|] == rs;
  }

  /** One pass of the loop keeps its invariant. */
  lemma CompileStep(bp: Breakpoints.BreakpointSet, rs: seq<Record>, n: nat, chunks: seq<string>, next: seq<string>)
    requires n < |rs|
    requires chunks == AllChunks(bp, rs[..n])
    requires next == chunks + RecordTexts(bp, rs[n])
    ensures next == AllChunks(bp, rs[..n + 1])
  {
    assert rs[..n + 1] == rs[..n] + [rs[n]];
    AllChunksSnoc(bp, rs[..n], rs[n]);
  }

  // ---------------------------------------------------------------------
  // Lemmas
  // ---------------------------------------------------------------------

  /** Collecting one more record appends exactly that record's chunks. */
  lemma AllChunksSnoc(bp: Breakpoints.BreakpointSet, xs: seq<Record>, r: Record)
    ensures AllChunks(bp, xs + [r]) == AllChunks(bp, xs) + RecordTexts(bp, r)
  {
    FlatMapAppend(TextsUnder(bp), xs, [r]);
    assert [r][1..] == [];
  }

  /** The stylesheet of a concatenation of record lists is the concatenation of their stylesheets. */
  lemma AllChunksAppend(bp: Breakpoints.BreakpointSet, xs: seq<Record>, ys: seq<Record>)
    ensures AllChunks(bp, xs + ys) == AllChunks(bp, xs) + AllChunks(bp, ys)
  {
    FlatMapAppend(TextsUnder(bp), xs, ys);
  }

  /** No chunk is produced exactly when no record produces one; then nothing is echoed. */
  lemma NoChunksIffNoRecordChunks(bp: Breakpoints.BreakpointSet, records: seq<Record>)
    ensures AllChunks(bp, records) == [] <==> forall r :: r in records ==> RecordChunks(bp, r.attrs) == []
    ensures Stylesheet(AllChunks(bp, records)).None? <==> AllChunks(bp, records) == []
  {
    FlatMapEmpty(TextsUnder(bp), records);
    assert forall r :: TextsUnder(bp)(r) == [] <==> RecordChunks(bp, r.attrs) == [] by {
      forall r ensures TextsUnder(bp)(r) == [] <==> RecordChunks(bp, r.attrs) == [] {
        assert |Texts(RecordChunks(bp, r.attrs), r.className)| == |RecordChunks(bp, r.attrs)|;
      }
    }
  }

  /** An empty rule list emits nothing, not even an empty style element. */
  lemma NoRecordsNoOutput(bp: Breakpoints.BreakpointSet)
    ensures Stylesheet(AllChunks(bp, [])) == None
  {
  }

  /** A record whose flags are all empty contributes no chunk. */
  lemma FlaglessRecordEmitsNothing(bp: Breakpoints.BreakpointSet, a: map<string, Value>)
    requires forall k :: k in FlagKeys ==> Empty(Lookup(a, k))
    ensures RecordChunks(bp, a) == []
  {
    assert Empty(Lookup(a, HideOnMobile)) && Empty(Lookup(a, HideOnTablet));
    assert Empty(Lookup(a, HideOnDesktop)) && Empty(Lookup(a, HideOnCustomBreakpoint));
  }

  /** An attribute array that is missing, empty or not an array leaves the block untouched. */
  lemma MalformedAttrsDoNotQualify(ctx: RequestContext, name: string, v: Value)
    requires !v.Arr?
    ensures !Qualifies(ctx, Block(name, None))
    ensures !Qualifies(ctx, Block(name, Some(Arr(map[]))))
    ensures !Qualifies(ctx, Block(name, Some(v)))
  {
  }

  /** A truthy flag that is not a boolean, such as the string "1", does not qualify a block. */
  lemma TruthyStringFlagDoesNotQualify(ctx: RequestContext, name: string)
    ensures !Empty(Some(Str("1")))
    ensures !Qualifies(ctx, Block(name, Some(Arr(map[HideOnMobile := Str("1")]))))
  {
    var attrs := map[HideOnMobile := Str("1")];
    assert forall k :: k in FlagKeys ==> Lookup(attrs, k) != Some(Bool(true));
  }

  /** The filter reads no block name: any block with a true flag qualifies. */
  lemma QualificationIgnoresBlockName(ctx: RequestContext, name: string, other: string, attrs: Option<Value>)
    ensures Qualifies(ctx, Block(name, attrs)) == Qualifies(ctx, Block(other, attrs))
  {
  }

  /**
   * Once a block qualifies, the compiler honours every truthy flag of its record,
   * boolean or not: a string "1" beside a boolean flag emits a chunk too.
   */
  lemma CompilerReadsTruthinessOnly(ctx: RequestContext, bp: Breakpoints.BreakpointSet, name: string)
    ensures var attrs := map[HideOnMobile := Str("1"), HideOnTablet := Bool(true)];
      && Qualifies(ctx, Block(name, Some(Arr(attrs)))) == Serves(ctx)
      && RecordChunks(bp, attrs) == [Chunk(Mobile, Css.MaxWidth(bp.mobile)), Chunk(Tablet, Css.Between(bp.mobile, bp.tablet))]
  {
    var attrs := map[HideOnMobile := Str("1"), HideOnTablet := Bool(true)];
    assert IsTrueFlag(attrs, HideOnTablet);
    assert Lookup(attrs, HideOnMobile) == Some(Str("1"));
    assert Lookup(attrs, HideOnDesktop) == None && Lookup(attrs, HideOnCustomBreakpoint) == None;
    assert CustomQuery(attrs) == None;
  }

  /** The chunks of a record with only `hideOnMobile`, under the default breakpoints. */
  lemma MobileOnlyChunks(cls: string)
    ensures RecordTexts(Breakpoints.Resolve(None), Record(cls, map[HideOnMobile := Bool(true)]))
         == [Css.HideRule(Css.MaxWidth("480px"), cls)]
  {
    var a := map[HideOnMobile := Bool(true)];
    var bp := Breakpoints.Resolve(None);
    assert bp.mobile == "480px";
    assert Lookup(a, HideOnMobile) == Some(Bool(true));
    assert Lookup(a, HideOnTablet) == None && Lookup(a, HideOnDesktop) == None;
    assert Lookup(a, HideOnCustomBreakpoint) == None;
    assert CustomQuery(a) == None;
    assert RecordChunks(bp, a) == [Chunk(Mobile, Css.MaxWidth("480px"))];
  }

  /** A single record's stylesheet body is that record's rule texts. */
  lemma AllChunksOne(bp: Breakpoints.BreakpointSet, r: Record)
    ensures AllChunks(bp, [r]) == RecordTexts(bp, r)
  {
    AllChunksSnoc(bp, [], r);
    assert [] + [r] == [r];
  }

  /** A record with only `hideOnMobile` and the default breakpoints emits exactly one rule. */
  lemma MobileOnlyUnderDefaults(cls: string)
    ensures var r := Record(cls, map[HideOnMobile := Bool(true)]);
      && RecordTexts(Breakpoints.Resolve(None), r)
         == ["@media (max-width: 480px){." + cls + "{display:none !important;}}"]
      && Stylesheet(AllChunks(Breakpoints.Resolve(None), [r]))
         == Some("<style id=\"hbss-visibility-rules\">"
                 + ("@media (max-width: 480px){." + cls + "{display:none !important;}}")
                 + "</style>")
  {
    var r := Record(cls, map[HideOnMobile := Bool(true)]);
    var t := "@media (max-width: 480px){." + cls + "{display:none !important;}}";
    MobileOnlyChunks(cls);
    MobileRuleText(cls);
    AllChunksOne(Breakpoints.Resolve(None), r);
    ConcatOne(t);
  }

  /** The text of the mobile rule under the default breakpoint. */
  lemma MobileRuleText(cls: string)
    ensures Css.HideRule(Css.MaxWidth("480px"), cls)
         == "@media (max-width: 480px){." + cls + "{display:none !important;}}"
  {
  }

  lemma ConcatOne(t: string)
    ensures Concat([t]) == t
  {
    assert Concat([t]) == t + Concat([]);
  }

  /**
   * "between" is emitted whenever both widths are present, with no check that
   * the minimum is below the maximum.
   */
  lemma BetweenIsNotOrderChecked(bp: Breakpoints.BreakpointSet)
    ensures var a := map[HideOnCustomBreakpoint := Bool(true), CustomDirection := Str("between"),
                         CustomMinWidth := Int(500), CustomMaxWidth := Int(300)];
      RecordChunks(bp, a) == [Chunk(Custom, Css.Between("500px", "300px"))]
  {
    var a := map[HideOnCustomBreakpoint := Bool(true), CustomDirection := Str("between"),
                 CustomMinWidth := Int(500), CustomMaxWidth := Int(300)];
    assert Interpolate(Int(500)) == "500" && Interpolate(Int(300)) == "300";
    assert OrEmptyString(a, CustomMinWidth) == Int(500) && WidthText(a, CustomMinWidth) == "500px";
    assert OrEmptyString(a, CustomMaxWidth) == Int(300) && WidthText(a, CustomMaxWidth) == "300px";
    assert CustomQuery(a) == Some(Css.Between("500px", "300px"));
    assert Lookup(a, HideOnMobile) == None && Lookup(a, HideOnTablet) == None;
    assert Lookup(a, HideOnDesktop) == None;
  }

  /** After sanitisation each present custom width is printed as a non-negative pixel count. */
  lemma SanitizedWidthIsPixels(a: map<string, Value>, key: string)
    requires key == CustomMinWidth || key == CustomMaxWidth
    requires Sanitized(a) && IsSet(a, key)
    ensures a[key].Int? && a[key].i >= 0
    ensures WidthText(a, key) == Css.Px(a[key].i)
  {
  }

  /** Sanitising twice is sanitising once. */
  lemma SanitizeIdempotent(attrs: map<string, Value>)
    ensures Sanitize(Sanitize(attrs)) == Sanitize(attrs)
  {
    var s := Sanitize(attrs);
    var t := Sanitize(s);
    assert forall k :: k in t ==> t[k] == s[k];
  }

  /** Different UUIDs give different classes, so records never share a selector. */
  lemma ClassNameInjective(u: string, v: string)
    requires ClassName(u) == ClassName(v)
    ensures u == v
  {
    assert u == ClassName(u)[|ClassPrefix|..];
    assert v == ClassName(v)[|ClassPrefix|..];
  }
}
