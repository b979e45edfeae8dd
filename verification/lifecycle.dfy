/**
 * What happens to a widget after its state is derived: the mount-time
 * native-support probe, the summary tap that toggles the body, and the
 * post-update push of changed HTML into the two child renderers.
 */
module Lifecycle {
  import opened Wrappers
  import opened Props
  import NativeSupport
  import Derive

  /**
   * What a mount leaves behind: the process-wide flag, the instance's state
   * once its requested update is applied, and whether the native node's
   * `open` property was set to true.
   */
  datatype Mounted = Mounted(latch: NativeSupport.Latch, state: State, openSet: bool)

  /** A mount either completes or aborts on a property write to `undefined`. */
  datatype MountOutcome = Completed(mounted: Mounted) | TypeError

  /**
   * The native `details` node the instance resolves, as seen by the probe.
   * `dom` is what the DOM offers (`None` when no node can be resolved,
   * otherwise whether that node's `open` is a boolean); an instance in
   * fallback mode resolves no native node at all.
   */
  function NativeNode(state: State, dom: Option<bool>): (r: Option<bool>)
    ensures r.Some? <==> state.isNativeImplementation && dom.Some?
    ensures r.Some? ==> r == dom
  {
    if state.isNativeImplementation then dom else None
  }

  /** The flag says "unsupported" only of a state already in fallback mode. */
  predicate Consistent(latch: NativeSupport.Latch, state: State) {
    latch == NativeSupport.Known(false) ==> !state.isNativeImplementation
  }

  /**
   * `componentDidMount` as written: probe only while the flag is undefined
   * and a native node exists, downgrade on a negative probe, then set the
   * node's `open` whenever the flag is true and the body is visible, even
   * if there is no node to set it on.
   */
  function MountAsWritten(latch: NativeSupport.Latch, state: State, dom: Option<bool>): (r: MountOutcome)
    ensures r.TypeError? <==>
      latch == NativeSupport.Known(true) && state.isVisible && (!state.isNativeImplementation || dom.None?)
    ensures r.Completed? ==> NativeSupport.MayBecome(latch, r.mounted.latch)
    ensures r.Completed? && latch.Known? ==> r.mounted.state == state
  {
    var node := NativeNode(state, dom);
    var latch' := NativeSupport.Learn(latch, node);
    var state' := if latch.Unknown? && node == Some(false) then state.(isNativeImplementation := false) else state;
    if latch' == NativeSupport.Known(true) && state.isVisible then
      if node.Some? then Completed(Mounted(latch', state', true)) else TypeError
    else Completed(Mounted(latch', state', false))
  }

  /**
   * A second widget configured for fallback mode and open from the start,
   * mounted after an earlier widget found native support, aborts its mount.
   */
  lemma FallbackMountAfterSupportCrashes(config: Config, base: Option<Derive.Base>, dom: Option<bool>)
    requires config.nativeImplementation == Bool(false) && config.isVisible == Bool(true)
    ensures var st := Derive.GetDerivedStateFromProps(config, None, base, NativeSupport.Known(true)).state;
      MountAsWritten(NativeSupport.Known(true), st, dom).TypeError?
  {
  }

  /**
   * Two widgets derived before either mounts both start in native mode. If
   * the first one's probe finds no support, the second one never probes
   * and stays in native mode although the flag now says "unsupported".
   */
  lemma StaleNativeModeAsWritten(config: Config, base: Option<Derive.Base>, dom: Option<bool>)
    requires config.nativeImplementation == Absent
    ensures var st := Derive.GetDerivedStateFromProps(config, None, base, NativeSupport.Unknown).state;
      var first := MountAsWritten(NativeSupport.Unknown, st, Some(false));
      && first.Completed? && first.mounted.latch == NativeSupport.Known(false)
      && var second := MountAsWritten(first.mounted.latch, st, dom);
         second.Completed? && !Consistent(second.mounted.latch, second.mounted.state)
  {
  }

  /**
   * `componentDidMount` with both defects repaired: `open` is only set on a
   * node that exists, and a widget whose mount finds the flag at
   * "unsupported" downgrades to fallback mode whether or not it probed.
   */
  function Mount(latch: NativeSupport.Latch, state: State, dom: Option<bool>): (r: Mounted)
    ensures NativeSupport.MayBecome(latch, r.latch)
    ensures Consistent(r.latch, r.state)
    ensures r.state == (if r.latch == NativeSupport.Known(false) then state.(isNativeImplementation := false) else state)
    ensures r.openSet <==> r.latch == NativeSupport.Known(true) && state.isNativeImplementation
                           && state.isVisible && dom.Some?
    ensures MountAsWritten(latch, state, dom).Completed? ==>
      var m := MountAsWritten(latch, state, dom).mounted;
      m.latch == r.latch && m.openSet == r.openSet && (Consistent(latch, state) ==> m.state == r.state)
  {
    var node := NativeNode(state, dom);
    var latch' := NativeSupport.Learn(latch, node);
    var state' := if latch' == NativeSupport.Known(false) then state.(isNativeImplementation := false) else state;
    Mounted(latch', state', latch' == NativeSupport.Known(true) && state.isVisible && node.Some?)
  }

  /** The first mount to resolve a native node records what it found; later mounts leave the flag alone. */
  lemma MountProbesOnce(latch: NativeSupport.Latch, state: State, dom: Option<bool>)
    ensures latch.Known? ==> Mount(latch, state, dom).latch == latch
    ensures latch.Unknown? && state.isNativeImplementation && dom.Some? ==>
      Mount(latch, state, dom).latch == NativeSupport.Known(dom.value)
    ensures latch.Unknown? && (!state.isNativeImplementation || dom.None?) ==>
      Mount(latch, state, dom).latch == NativeSupport.Unknown
  {
  }

  /** `onTapToggleDetails`: flip the body's visibility and nothing else. */
  function Toggle(state: State): (r: State)
    ensures r.isVisible != state.isVisible
    ensures r.(isVisible := state.isVisible) == state
  {
    state.(isVisible := !state.isVisible)
  }

  /** Two taps restore the state. */
  lemma ToggleTwice(state: State)
    ensures Toggle(Toggle(state)) == state
  {
  }

  /** A tap never breaks the agreement between the flag and the mode. */
  lemma ToggleKeepsConsistent(latch: NativeSupport.Latch, state: State)
    requires Consistent(latch, state)
    ensures Consistent(latch, Toggle(state))
  {
  }

  /** The HTML pushed into the body and summary renderers after an update; `None` means no push. */
  datatype Pushes = Pushes(content: Option<string>, summary: Option<string>)

  /** The change test of `componentDidUpdate`. */
  function ChangedHtml(prev: State, next: State): (r: Pushes)
    ensures r.content.Some? <==> prev.content != next.content
    ensures r.summary.Some? <==> prev.summary != next.summary
    ensures r.content.Some? ==> r.content.value == next.content
    ensures r.summary.Some? ==> r.summary.value == next.summary
  {
    if prev.content != next.content || prev.summary != next.summary then
      Pushes(if prev.content != next.content then Some(next.content) else None,
             if prev.summary != next.summary then Some(next.summary) else None)
    else Pushes(None, None)
  }

  /** What a child renderer shows after an optional push. */
  function Shown(before: string, push: Option<string>): string {
    push.GetOr(before)
  }

  /** Children that showed the previous state's HTML show the next state's once the pushes land. */
  lemma PushesResync(prev: State, next: State)
    ensures Shown(prev.content, ChangedHtml(prev, next).content) == next.content
    ensures Shown(prev.summary, ChangedHtml(prev, next).summary) == next.summary
  {
  }

  /** A tap only changes visibility, so no HTML is pushed. */
  lemma ToggleNeverPushes(state: State)
    ensures ChangedHtml(state, Toggle(state)) == Pushes(None, None)
  {
  }

  /** A mount-time downgrade only changes the mode, so no HTML is pushed. */
  lemma MountNeverPushes(latch: NativeSupport.Latch, state: State, dom: Option<bool>)
    ensures ChangedHtml(state, Mount(latch, state, dom).state) == Pushes(None, None)
  {
  }
}
