/**
 * The render decision, as an abstract record instead of a component tree:
 * which of the three structures is produced, which classes it carries, and
 * whether the body is hidden by style.
 */
module Render {
  import opened Wrappers
  import opened Props
  import Lifecycle
  import Derive
  import NativeSupport

  /**
   * Native mode decorating a `details` element already in the page, native
   * mode wrapped in a fresh `details` element, or the synthesized fallback.
   */
  datatype Mode = NativeAttached | NativeWrapped | Fallback

  /** The wrapping element the render creates, with its tag and class attribute. */
  datatype Wrapper = Wrapper(tag: string, className: string)

  /**
   * The outcome of one render pass. `stateClass` is the opened/closed class
   * put on the `details` or container element (in attached mode it is the
   * class prepended to the existing element's class list); `summaryClass`
   * is the class on the summary renderer; `hidden` says whether the body
   * renderer carries `display: none`.
   */
  datatype Rendered = Rendered(
    mode: Mode,
    wrapper: Option<Wrapper>,
    stateClass: string,
    summaryClass: Option<string>,
    summary: string,
    content: string,
    hidden: bool
  )

  /** The opened or closed class, as visibility dictates. */
  function StateClass(state: State): (r: string)
    ensures state.isVisible ==> r == state.cssOpenedClass
    ensures !state.isVisible ==> r == state.cssClosedClass
  {
    if state.isVisible then state.cssOpenedClass else state.cssClosedClass
  }

  /**
   * `render`. `attachedToDetails` says whether the widget took over a
   * native `details` element already in the page; how that is decided is
   * not part of this model.
   */
  function Render(state: State, attachedToDetails: bool): (r: Rendered)
    ensures r.mode == Fallback <==> !state.isNativeImplementation
    ensures r.mode == NativeAttached <==> state.isNativeImplementation && attachedToDetails
    ensures r.summary == state.summary && r.content == state.content
    ensures r.hidden <==> r.mode == Fallback && !state.isVisible
    ensures r.wrapper.None? <==> r.mode == NativeAttached
    ensures r.mode == NativeWrapped ==> r.wrapper == Some(Wrapper("details", r.stateClass))
    ensures r.mode == Fallback ==>
      r.wrapper.value.className == state.cssNonNativeContainerClass + " " + r.stateClass
    ensures r.mode == Fallback ==> (r.wrapper.value.tag == "div"
      && ClassTokens(r.wrapper.value.className) == ClassTokens(state.cssNonNativeContainerClass) + ClassTokens(r.stateClass))
    ensures r.summaryClass.Some? <==> r.mode == Fallback
    ensures r.summaryClass.Some? ==> r.summaryClass.value == state.cssNonNativeSummaryClass
    ensures state.isVisible ==> r.stateClass == state.cssOpenedClass
    ensures !state.isVisible ==> r.stateClass == state.cssClosedClass
  {
    var chosen := StateClass(state);
    if state.isNativeImplementation then
      if attachedToDetails then
        Rendered(NativeAttached, None, chosen, None, state.summary, state.content, false)
      else
        Rendered(NativeWrapped, Some(Wrapper("details", chosen)), chosen, None, state.summary, state.content, false)
    else
      var className := state.cssNonNativeContainerClass + " " + chosen;
      TokensJoin(state.cssNonNativeContainerClass, chosen);
      Rendered(Fallback, Some(Wrapper("div", className)), chosen, Some(state.cssNonNativeSummaryClass),
               state.summary, state.content, !state.isVisible)
  }

  /**
   * The space-separated pieces of a class attribute: the attribute split
   * at every space, empty pieces included, as `split(' ')` does.
   */
  function Split(s: string): (r: seq<string>)
    ensures |r| > 0
    decreases |s|
  {
    if |s| == 0 then [""]
    else
      var rest := Split(s[1..]);
      if s[0] == ' ' then [""] + rest else [[s[0]] + rest[0]] + rest[1..]
  }

  /** The non-empty space-separated pieces of a class attribute. */
  function ClassTokens(s: string): seq<string> {
    NonEmptyPieces(Split(s))
  }

  function NonEmptyPieces(pieces: seq<string>): (r: seq<string>)
    ensures forall i :: 0 <= i < |r| ==> r[i] != ""
  {
    if |pieces| == 0 then []
    else (if pieces[0] == "" then [] else [pieces[0]]) + NonEmptyPieces(pieces[1..])
  }

  lemma {:induction false} NonEmptyPiecesAppend(a: seq<string>, b: seq<string>)
    ensures NonEmptyPieces(a + b) == NonEmptyPieces(a) + NonEmptyPieces(b)
    decreases |a|
  {
    if |a| == 0 {
      assert a + b == b;
    } else {
      assert (a + b)[1..] == a[1..] + b;
      NonEmptyPiecesAppend(a[1..], b);
    }
  }

  /** Splitting at a space that is put between two strings splits each of them on its own. */
  lemma {:induction false} SplitJoin(a: string, b: string)
    ensures Split(a + " " + b) == Split(a) + Split(b)
    decreases |a|
  {
    if |a| == 0 {
      assert a + " " + b == [' '] + b;
      assert (a + " " + b)[1..] == b;
    } else {
      assert (a + " " + b)[1..] == a[1..] + " " + b;
      SplitJoin(a[1..], b);
    }
  }

  /** Joining two class attributes with a space yields both class lists, in order. */
  lemma TokensJoin(a: string, b: string)
    ensures ClassTokens(a + " " + b) == ClassTokens(a) + ClassTokens(b)
  {
    SplitJoin(a, b);
    NonEmptyPiecesAppend(Split(a), Split(b));
  }

  /** A class name without spaces is a single class. */
  lemma SingleClass(a: string)
    requires a != "" && ' ' !in a
    ensures ClassTokens(a) == [a]
    decreases |a|
  {
    SplitNoSpace(a);
    assert [a][1..] == [];
    assert NonEmptyPieces([a]) == [a] + NonEmptyPieces([]);
  }

  lemma {:induction false} SplitNoSpace(a: string)
    requires ' ' !in a
    ensures Split(a) == [a]
    decreases |a|
  {
    if |a| > 0 {
      assert a == [a[0]] + a[1..];
      SplitNoSpace(a[1..]);
      assert [a[0]] + a[1..] == a;
    }
  }

  /**
   * In fallback mode, with class names free of spaces, the container
   * carries exactly two classes: the container class, then the opened class
   * when the body shows and the closed class when it does not.
   */
  lemma FallbackContainerClasses(state: State, attachedToDetails: bool)
    requires !state.isNativeImplementation
    requires state.cssNonNativeContainerClass != "" && ' ' !in state.cssNonNativeContainerClass
    requires state.cssOpenedClass != "" && ' ' !in state.cssOpenedClass
    requires state.cssClosedClass != "" && ' ' !in state.cssClosedClass
    ensures ClassTokens(Render(state, attachedToDetails).wrapper.value.className)
         == [state.cssNonNativeContainerClass, if state.isVisible then state.cssOpenedClass else state.cssClosedClass]
  {
    SingleClass(state.cssNonNativeContainerClass);
    SingleClass(state.cssOpenedClass);
    SingleClass(state.cssClosedClass);
  }

  /**
   * In fallback mode a tap keeps the body in the tree with the same HTML and
   * only flips whether it is hidden and which state class the container has.
   */
  lemma FallbackToggleKeepsBody(state: State, attachedToDetails: bool)
    requires !state.isNativeImplementation
    ensures var before := Render(state, attachedToDetails);
      var after := Render(Lifecycle.Toggle(state), attachedToDetails);
      && after.mode == Fallback && after.content == before.content && after.summary == before.summary
      && after.hidden == !before.hidden
      && after.summaryClass == before.summaryClass
  {
  }

  /** In native mode the body is never hidden by style: the native element shows or hides it. */
  lemma NativeNeverHidesByStyle(state: State, attachedToDetails: bool)
    requires state.isNativeImplementation
    ensures !Render(state, attachedToDetails).hidden
    ensures Render(state, attachedToDetails).summaryClass.None?
  {
  }

  /** None of the default class names contains a space. */
  lemma DefaultClassesAreSingle()
    ensures ' ' !in Derive.DefaultNonNativeContainerClass
    ensures ' ' !in Derive.DefaultOpenedClass
    ensures ' ' !in Derive.DefaultClosedClass
  {
  }

  /**
   * A widget configured for fallback mode with none of the class props
   * renders a container carrying exactly the default container class and
   * the default opened or closed class.
   */
  lemma DefaultFallbackContainer(config: Config, base: Option<Derive.Base>, latch: NativeSupport.Latch,
                                 attachedToDetails: bool)
    requires config.nativeImplementation == Bool(false)
    requires config.closedClass.None? && config.openedClass.None? && config.nonNativeContainerClass.None?
    ensures var state := Derive.GetDerivedStateFromProps(config, None, base, latch).state;
      ClassTokens(Render(state, attachedToDetails).wrapper.value.className)
      == [Derive.DefaultNonNativeContainerClass,
          if state.isVisible then Derive.DefaultOpenedClass else Derive.DefaultClosedClass]
  {
    var state := Derive.GetDerivedStateFromProps(config, None, base, latch).state;
    Derive.DerivedClassNames(config, base, latch);
    DefaultClassesAreSingle();
    FallbackContainerClasses(state, attachedToDetails);
  }
}
