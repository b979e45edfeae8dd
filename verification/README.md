# djt-html-details in Dafny

A model of the `Details` widget of djt-html-details: a component that
polyfills the HTML5 `details`/`summary` disclosure element. The widget
derives its state from its configuration and from pre-existing markup. It
learns once per process whether the browser supports `details` natively.
It then renders either a decorated native `details` element or a
synthesized `div` container, and a tap on the summary toggles the body.

Modules, in the order the widget uses them:

- `OriginalElement` — the walk over already-parsed pre-existing markup
  (`parseOriginalElementData` and its two helpers). Next to the walk are
  independent reference definitions of what it extracts: `Contents` (the
  concatenated body HTML) and `LastSummary`. The parser's result type
  has only `summary` and `content` fields, so it can never set another key.
- `NativeSupport` — the process-wide "natively supported" flag as a
  three-valued latch (`Unknown | Known(b)`), and what a series of mounts
  does to it.
- `Props` — the configuration and state records. Loosely typed props are
  `Absent | Str(s) | Bool(b)` and string props are `Option<string>`.
- `Derive` — `getDerivedStateFromProps`. The base component's result is an
  optional record that may already carry a summary.
- `Lifecycle` — the mount-time probe (as written and corrected), the
  summary toggle, and the "push changed HTML to the child renderers" test
  of `componentDidUpdate`.
- `Render` — the render decision as an abstract record: mode, wrapper
  element and class, the opened/closed class, the summary class, and
  whether the body is hidden by style.
- `Truthiness` — JavaScript truthiness of strings, defined once and used
  by the parser and by the prop defaults.
- `Wrappers` — `Option`.

An absent `isVisible` keeps the body closed: `src/details.tsx:314` lists
`undefined` with `'0'` and `false`. `Derive.VisibilityIsNotTruthiness`
states the rule.

## Model

| member | source | states |
|---|---|---|
| OriginalElement.ParseItems | src/details.tsx:359-386 | The result is absent exactly when no child is a `summary` and every other child has empty HTML. Otherwise the summary is the last `summary` child's HTML and the content is the in-order concatenation of the other children's HTML, left out while that is empty. |
| OriginalElement.LastSummary | src/details.tsx:364-370 | The summary taken is that of a `summary` child with no later `summary` child; there is none exactly when no child is a `summary`. |
| OriginalElement.EmptySummaryStillCounts | src/details.tsx:364-370 | A last `summary` child with empty HTML still sets the summary (to ""): assignment, not a truthiness test. |
| OriginalElement.GrandchildrenIgnored | src/details.tsx:362-382 | Two child lists that agree on every child's name and HTML parse alike, whatever the grandchildren. |
| OriginalElement.FirstDetails | src/details.tsx:397-402 | Finds a `details` child exactly when there is one, and returns the children of the first such child. |
| OriginalElement.FirstDetailsSkips | src/details.tsx:397-402 | With no `details` child before `d`, the search returns `d`'s children whatever follows. |
| OriginalElement.LaterDetailsIgnored | src/details.tsx:394-405 | A `djt-details` root parses the children of its first `details` child; later `details` children are never looked at. |
| OriginalElement.WidgetWithoutDetails | src/details.tsx:404 | A `djt-details` root without a `details` child parses like a `details` root with the same children. |
| OriginalElement.Parse | src/details.tsx:341-351 | A root that is neither `details` nor `djt-details` yields nothing. A `details` root parses its own children. A `djt-details` root parses the children of its first `details` child, or its own children when it has none. |
| OriginalElement.ParseWidgetItems | src/details.tsx:394-405 | Without a `details` child the items themselves are parsed. With one, the children of the first such child are parsed, even when that child list is empty. |
| OriginalElement.DetailsExample | src/details.tsx:341-386 | A `details` fragment with summary "S" and paragraphs "B1", "B2" yields summary "S" and content "B1B2". |
| OriginalElement.WidgetExample | src/details.tsx:394-405 | A `djt-details` root wrapping a `details` node with summary "S" yields summary "S" and no content. |
| NativeSupport.Learn | src/details.tsx:135-136 | The flag is written only while undefined and only when a node was probed. Once written it holds the probe's outcome and never changes again. |
| NativeSupport.LearnAll | src/details.tsx:135-136 | Over a series of mounts the flag only moves forward, a known flag is left as it is, and an undefined flag stays undefined exactly when no mount probed. |
| NativeSupport.LearnAllKeepsFirstProbe | src/details.tsx:51 | Over any series of mounts a known flag stays as it is, and an undefined one ends up holding the first probe's outcome (undefined if no mount probed). |
| NativeSupport.LearnAllMonotone | src/details.tsx:135-141 | Along a series of mounts the flag never returns to undefined and never changes once known. |
| Derive.GetDerivedStateFromProps | src/details.tsx:287-331 | Derives a state only when there is no prior state; otherwise the base result is returned untouched. The four class names are never empty. Visibility is closed exactly for absent, `false` and "0". Native mode is on exactly when the flag is not "unsupported" and the prop is neither `false` nor "0". Parsed content and summary override the configured ones, and the base's summary overrides the configured summary. |
| Derive.DerivedClassNames | src/details.tsx:296-308 | Each of the four class names is its prop when that is a non-empty string and otherwise the fixed default (`djt-details-closed`, `djt-details-opened`, `djt-details-non-native-container`, `djt-details-non-native-summary`). Markup never overrides them. |
| Derive.Overlay | src/details.tsx:321-326 | Only `content` and `summary` change, and each takes the parsed value exactly when the parser set that key. |
| Derive.VisibilityRule | src/details.tsx:314 | The `includes` test of the visibility prop, case by case: absent closes, a boolean is itself, a string opens unless it is "0". |
| Derive.VisibilityIsNotTruthiness | src/details.tsx:314 | "" and "1" and `true` open the body, although "" is falsy; absent, "0" and `false` close it. |
| Derive.NativePropRule | src/details.tsx:316-319 | The native-mode prop, case by case: absent asks for native mode, a boolean is itself, a string asks for it unless it is "0". |
| Derive.SeededFromDetailsMarkup | src/details.tsx:321-326 | With a `details` fragment, the derived content is the concatenated non-summary HTML, or the configured content when that is empty. The derived summary is the last `summary` child's HTML, or the earlier default when there is none. |
| Derive.UnknownRootKeepsDefaults | src/details.tsx:321-327 | Markup under an unknown root derives the same state as no markup at all. |
| Derive.UnsupportedForcesFallback | src/details.tsx:316-319 | Once the flag says "unsupported", every newly derived state is in fallback mode, whatever the configuration asks. |
| Lifecycle.NativeNode | src/details.tsx:103-115 | A native node is resolved exactly when the state is in native mode and the DOM offers one. |
| Lifecycle.MountAsWritten | src/details.tsx:123-147 | The mount as written aborts exactly when the flag is already true, the body is visible, and the instance has no native node. When it completes, the flag only moves forward, and a mount that finds the flag known leaves the state alone. |
| Lifecycle.FallbackMountAfterSupportCrashes | src/details.tsx:143-145 | A widget configured with `nativeImplementation: false` and `isVisible: true`, mounted after native support was detected, aborts its mount. |
| Lifecycle.StaleNativeModeAsWritten | src/details.tsx:135-141 | Two widgets derived before either mounts: after the first finds no support, the second mounts and stays in native mode although the flag says "unsupported". |
| Lifecycle.Mount | src/details.tsx:123-147 | The corrected mount moves the flag only forward. It downgrades the mode exactly when the flag ends at "unsupported" and changes nothing else, so the flag and the mode agree afterwards. It sets `open` exactly when support is known, the state is native and visible, and a node exists. Wherever the as-written mount completes, it agrees with it on the flag and on `open`. |
| Lifecycle.MountProbesOnce | src/details.tsx:135-136 | Only a mount that finds the flag undefined, is in native mode and has a node records a probe; every other mount leaves the flag as it was. |
| Lifecycle.Toggle | src/details.tsx:191-193 | A tap flips visibility and changes no other field. |
| Lifecycle.ToggleTwice | src/details.tsx:191-193 | Two taps restore the original state. |
| Lifecycle.ToggleKeepsConsistent | src/details.tsx:191-193 | A tap keeps the flag and the mode in agreement. |
| Lifecycle.ChangedHtml | src/details.tsx:171-181 | Content (summary) is pushed exactly when it changed, and what is pushed is the new value. |
| Lifecycle.PushesResync | src/details.tsx:171-181 | Child renderers that showed the previous state's HTML show the new state's once the pushes land. |
| Lifecycle.ToggleNeverPushes | src/details.tsx:171-193 | A tap pushes no HTML into either child renderer. |
| Lifecycle.MountNeverPushes | src/details.tsx:139 | A mount-time downgrade pushes no HTML into either child renderer. |
| Render.StateClass | src/details.tsx:220 | The chosen class is the opened class when the body shows and the closed class when it does not. |
| Render.Render | src/details.tsx:201-250 | Fallback mode is chosen exactly when the state is not native. The summary and body always carry the state's HTML. The body is hidden by style exactly in fallback mode when not visible. A fresh `details` wrapper carries the chosen class. The fallback `div`'s class attribute is exactly the container class, one space, then the chosen class, so its class list is the container class's followed by the chosen class's. The summary class appears only in fallback mode. |
| Render.TokensJoin | src/details.tsx:236 | Joining two class attributes with a space gives both class lists, in order. |
| Render.FallbackContainerClasses | src/details.tsx:236 | With class names free of spaces, the fallback container has exactly two classes: the container class, then the opened or closed class as visibility dictates. |
| Render.DefaultFallbackContainer | src/details.tsx:298-308 | A fallback-mode widget configured without class props has exactly two classes on its container: `djt-details-non-native-container`, then `djt-details-opened` or `djt-details-closed` as visibility dictates. |
| Render.FallbackToggleKeepsBody | src/details.tsx:236-244 | In fallback mode a tap keeps the body and summary HTML in the tree and flips only whether the body is hidden. |
| Render.NativeNeverHidesByStyle | src/details.tsx:204-230 | In native mode the body is never hidden by style and the summary gets no class. |

## Left out

- DOM access: the `typeof open == 'boolean'` probe, `setAttribute('id', …)`, refs and `getDomElement` (src/details.tsx:103-115, 126-128). The probe's outcome is the `dom` parameter of the mount, and the write to `open` is the `openSet` flag.
- `isOriginalDetailsElement` (src/details.tsx:88-95): the getter reads `nativeDialogSupported`, which this class never sets (it declares and writes only `nativeDetailsSupported`, lines 51 and 136). The getter is probably always falsy, so attached mode is probably unreachable. The render takes `attachedToDetails` as an unconstrained input.
- Render: in attached mode it records only the class to prepend, not the resulting class list, because that string comes from `DomUtilities.getFilteredAndPrependedString`, which is not part of this model.
- The widget's `id` attribute: it comes from the base component's state, which is not part of this model beyond its summary.
- Derive.GetDerivedStateFromProps: keys of the base result other than `summary` are not modelled, because they belong to the base component.
- Host-framework plumbing: component lifecycle, JSX, `setState` scheduling, pointer-event wiring, and the imperative `setState` on the child renderers (modelled only as the `Pushes` record).
- src/dynamic-summary-html-content.tsx: it only returns two constant names and has no behaviour.
- The `String(...)` coercions in `componentDidUpdate` (src/details.tsx:161-169): state fields are strings here, so they are identities.
- `originalElementNodeNamesWithHtml` and the external parser that builds the markup tree: the tree is an input. A node whose `html` the parser left undefined is modelled with `html` "", so a `summary` child without HTML sets the summary to "" rather than to `undefined`.

## Findings

| source | as written | input that shows it | evidently intended | confidence | as-written member | corrected member |
|---|---|---|---|---|---|---|
| src/details.tsx:143-144 | `nativeDetailsNode.open = true` runs whenever the flag is true and the body is visible, but `nativeDetailsNode` is undefined for an instance in fallback mode | a second widget with `nativeImplementation: false`, `isVisible: true`, mounted after an earlier one detected support: the write to `undefined.open` throws | set `open` only on a native node that exists | high, not executed | Lifecycle.FallbackMountAfterSupportCrashes | Lifecycle.Mount |
| src/details.tsx:135-141 | the downgrade to fallback mode happens only inside the branch that probes, which runs only while the flag is undefined | two widgets derived in the same render pass (both native), the first mount probes and finds no support; the second mount skips the probe and stays native | once the flag is false every widget is in fallback mode | medium, not executed | Lifecycle.StaleNativeModeAsWritten | Lifecycle.Mount |
