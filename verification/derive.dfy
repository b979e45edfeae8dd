/**
 * Initial state derivation: the widget's `getDerivedStateFromProps`.
 */
module Derive {
  import opened Wrappers
  import opened Props
  import OriginalElement
  import NativeSupport

  const DefaultClosedClass := "djt-details-closed"
  const DefaultNonNativeContainerClass := "djt-details-non-native-container"
  const DefaultNonNativeSummaryClass := "djt-details-non-native-summary"
  const DefaultOpenedClass := "djt-details-opened"

  /**
   * What the base component's derivation returned: `None` for `null`,
   * otherwise a record that may already carry a summary. Its other keys
   * are not part of this model.
   */
  datatype Base = Base(summary: Option<string>)

  /** The derivation's result: the base result untouched, or a fully initialised state. */
  datatype Derived = Untouched(base: Option<Base>) | Initial(state: State)

  /** The visibility prop as the code reads it: anything but "0", `false` and `undefined` opens the body. */
  predicate VisibleProp(v: Loose) {
    v !in [Str("0"), Bool(false), Absent]
  }

  /** The native-mode prop as the code reads it: anything but "0" and `false` asks for native mode. */
  predicate NativeProp(v: Loose) {
    v !in [Str("0"), Bool(false)]
  }

  /** Case by case: the visibility prop opens the body unless it is absent, `false` or the string "0". */
  lemma VisibilityRule(v: Loose)
    ensures VisibleProp(v) <==> match v case Absent => false case Bool(b) => b case Str(s) => s != "0"
  {
  }

  /** Visibility is not truthiness: the empty string opens the body, and so does "1". */
  lemma VisibilityIsNotTruthiness()
    ensures VisibleProp(Str("")) && !Truthy(Str(""))
    ensures VisibleProp(Str("1")) && VisibleProp(Bool(true))
    ensures !VisibleProp(Absent) && !VisibleProp(Str("0")) && !VisibleProp(Bool(false))
  {
  }

  /** Case by case: native mode is asked for unless the prop is `false` or the string "0"; an absent prop asks for it. */
  lemma NativePropRule(v: Loose)
    ensures NativeProp(v) <==> match v case Absent => true case Bool(b) => b case Str(s) => s != "0"
  {
  }

  /** The parse of the pre-existing markup, if the config supplies any. */
  function ParsedMarkup(config: Config): Option<OriginalElement.Parsed> {
    match config.originalElementData
    case Some(data) => OriginalElement.Parse(data)
    case None => None
  }

  /**
   * `getDerivedStateFromProps`. `prior` is the current state (`None` before
   * the first render), `base` what the base component derived and `latch`
   * the process-wide native-support flag.
   */
  function GetDerivedStateFromProps(config: Config, prior: Option<State>, base: Option<Base>,
                                    latch: NativeSupport.Latch): (r: Derived)
    ensures prior.Some? <==> r.Untouched?
    ensures prior.Some? ==> r.base == base
    ensures r.Initial? ==> (r.state.cssClosedClass != "" && r.state.cssOpenedClass != ""
      && r.state.cssNonNativeContainerClass != "" && r.state.cssNonNativeSummaryClass != "")
    ensures r.Initial? ==> (r.state.isVisible <==>
      match config.isVisible case Absent => false case Bool(b) => b case Str(s) => s != "0")
    ensures r.Initial? ==> (r.state.isNativeImplementation <==>
      latch != NativeSupport.Known(false)
      && match config.nativeImplementation case Absent => true case Bool(b) => b case Str(s) => s != "0")
    ensures r.Initial? ==> (r.state.content ==
      (var p := ParsedMarkup(config); if p.Some? && p.value.content.Some? then p.value.content.value
       else StringOr(config.content, "")))
    ensures r.Initial? ==> (r.state.summary ==
      (var p := ParsedMarkup(config); if p.Some? && p.value.summary.Some? then p.value.summary.value
       else if base.Some? && base.value.summary.Some? then base.value.summary.value
       else StringOr(config.summary, "")))
  {
    if prior.Some? then Untouched(base)
    else
      VisibilityRule(config.isVisible);
      NativePropRule(config.nativeImplementation);
      var summary :=
        if base.Some? && base.value.summary.Some? then base.value.summary.value
        else StringOr(config.summary, "");
      var defaults := State(
        content := StringOr(config.content, ""),
        cssClosedClass := StringOr(config.closedClass, DefaultClosedClass),
        cssNonNativeContainerClass := StringOr(config.nonNativeContainerClass, DefaultNonNativeContainerClass),
        cssNonNativeSummaryClass := StringOr(config.nonNativeSummaryClass, DefaultNonNativeSummaryClass),
        cssOpenedClass := StringOr(config.openedClass, DefaultOpenedClass),
        isNativeImplementation := latch != NativeSupport.Known(false) && NativeProp(config.nativeImplementation),
        isVisible := VisibleProp(config.isVisible),
        summary := summary
      );
      Initial(Overlay(defaults, ParsedMarkup(config)))
  }

  /** `Object.assign(state, parsed)`: the keys the parser set overwrite the state's. */
  function Overlay(state: State, parsed: Option<OriginalElement.Parsed>): (r: State)
    ensures r.(content := state.content, summary := state.summary) == state
    ensures parsed.Some? && parsed.value.content.Some? ==> r.content == parsed.value.content.value
    ensures parsed.None? || parsed.value.content.None? ==> r.content == state.content
    ensures parsed.Some? && parsed.value.summary.Some? ==> r.summary == parsed.value.summary.value
    ensures parsed.None? || parsed.value.summary.None? ==> r.summary == state.summary
  {
    match parsed
    case None => state
    case Some(p) => state.(content := p.content.GetOr(state.content), summary := p.summary.GetOr(state.summary))
  }

  /**
   * Seeding from a bare `details` fragment: the body is the concatenated
   * HTML of the non-`summary` children (the configured content when that is
   * empty), the summary the last `summary` child's HTML (the earlier
   * defaults when there is none).
   */
  lemma SeededFromDetailsMarkup(config: Config, base: Option<Base>, latch: NativeSupport.Latch,
                                html: string, items: seq<OriginalElement.Node>)
    requires config.originalElementData == Some(OriginalElement.Node(OriginalElement.DetailsTag, html, items))
    ensures var st := GetDerivedStateFromProps(config, None, base, latch).state;
      && st.content == (var c := OriginalElement.Contents(items); if c != "" then c else StringOr(config.content, ""))
      && st.summary == (match OriginalElement.LastSummary(items)
                        case Some(s) => s
                        case None => if base.Some? && base.value.summary.Some? then base.value.summary.value
                                     else StringOr(config.summary, ""))
  {
    OriginalElement.ContentsEmpty(items);
  }

  /**
   * Each class name is its prop when that is a non-empty string and the
   * fixed default otherwise; the markup never touches them.
   */
  lemma DerivedClassNames(config: Config, base: Option<Base>, latch: NativeSupport.Latch)
    ensures var st := GetDerivedStateFromProps(config, None, base, latch).state;
      && st.cssClosedClass == StringOr(config.closedClass, DefaultClosedClass)
      && st.cssOpenedClass == StringOr(config.openedClass, DefaultOpenedClass)
      && st.cssNonNativeContainerClass == StringOr(config.nonNativeContainerClass, DefaultNonNativeContainerClass)
      && st.cssNonNativeSummaryClass == StringOr(config.nonNativeSummaryClass, DefaultNonNativeSummaryClass)
  {
  }

  /** Markup under an unknown root overrides nothing: the state is what the config alone gives. */
  lemma UnknownRootKeepsDefaults(config: Config, base: Option<Base>, latch: NativeSupport.Latch)
    requires config.originalElementData.Some?
    requires config.originalElementData.value.name != OriginalElement.DetailsTag
    requires config.originalElementData.value.name != OriginalElement.WidgetTag
    ensures GetDerivedStateFromProps(config, None, base, latch)
         == GetDerivedStateFromProps(config.(originalElementData := None), None, base, latch)
  {
  }

  /** Once the flag says "unsupported", every newly derived state is in fallback mode, whatever its config asks. */
  lemma UnsupportedForcesFallback(config: Config, base: Option<Base>)
    ensures !GetDerivedStateFromProps(config, None, base, NativeSupport.Known(false)).state.isNativeImplementation
  {
  }
}
