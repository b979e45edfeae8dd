/**
 * The widget's configuration (props) and its state record, with the
 * JavaScript truthiness the widget applies to loosely typed props.
 */
module Props {
  import opened Wrappers
  import opened Truthiness
  import OriginalElement

  /** A prop typed `string | boolean` that may also be left out. */
  datatype Loose = Absent | Str(s: string) | Bool(b: bool)

  /** JavaScript truthiness: `undefined`, `false` and the empty string are falsy. */
  predicate Truthy(v: Loose) {
    match v
    case Absent => false
    case Str(s) => TruthyString(s)
    case Bool(b) => b
  }

  /** `props.x ? props.x : fallback` for a string-typed prop. */
  function StringOr(p: Option<string>, fallback: string): (r: string)
    ensures p.Some? && p.value != "" ==> r == p.value
    ensures p.None? || p.value == "" ==> r == fallback
  {
    if TruthyOption(p) then p.value else fallback
  }

  datatype Config = Config(
    closedClass: Option<string>,
    content: Option<string>,
    isVisible: Loose,
    nativeImplementation: Loose,
    nonNativeContainerClass: Option<string>,
    nonNativeSummaryClass: Option<string>,
    openedClass: Option<string>,
    summary: Option<string>,
    originalElementData: Option<OriginalElement.Node>
  )

  datatype State = State(
    content: string,
    cssClosedClass: string,
    cssNonNativeContainerClass: string,
    cssNonNativeSummaryClass: string,
    cssOpenedClass: string,
    isNativeImplementation: bool,
    isVisible: bool,
    summary: string
  )
}
