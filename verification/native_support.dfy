/**
 * The process-wide "details is supported natively" flag. It starts out
 * undefined, is written once by the first mount that can probe a native
 * `details` DOM node, and is never written again.
 */
module NativeSupport {
  import opened Wrappers

  datatype Latch = Unknown | Known(supported: bool)

  /** `a` may evolve into `b`: an undefined flag may become anything, a known one stays put. */
  predicate MayBecome(a: Latch, b: Latch) {
    a.Unknown? || a == b
  }

  /**
   * One mount's effect on the flag. `probe` is `None` when the mount had no
   * native node to look at; otherwise it says whether that node's `open`
   * property is a boolean.
   */
  function Learn(latch: Latch, probe: Option<bool>): (r: Latch)
    ensures MayBecome(latch, r)
    ensures r.Unknown? <==> latch.Unknown? && probe.None?
    ensures latch.Unknown? && probe.Some? ==> r.supported == probe.value
  {
    if latch.Unknown? && probe.Some? then Known(probe.value) else latch
  }

  /** The flag after a series of mounts, in order. */
  function LearnAll(latch: Latch, probes: seq<Option<bool>>): (r: Latch)
    ensures MayBecome(latch, r)
    ensures r.Unknown? <==> latch.Unknown? && forall i :: 0 <= i < |probes| ==> probes[i].None?
    decreases |probes|
  {
    if |probes| == 0 then latch
    else
      assert forall j :: 0 < j < |probes| ==> probes[j] == probes[1..][j - 1];
      LearnAll(Learn(latch, probes[0]), probes[1..])
  }

  /** The first probe that actually happened, if any. */
  function FirstProbe(probes: seq<Option<bool>>): (r: Option<bool>)
    ensures r.None? <==> forall i :: 0 <= i < |probes| ==> probes[i].None?
    ensures r.Some? ==> exists i :: 0 <= i < |probes| && probes[i] == r && forall j :: 0 <= j < i ==> probes[j].None?
    decreases |probes|
  {
    if |probes| == 0 then None
    else if probes[0].Some? then probes[0]
    else
      assert forall j :: 0 < j < |probes| ==> probes[j] == probes[1..][j - 1];
      var r := FirstProbe(probes[1..]);
      if r.Some? then
        var i :| 0 <= i < |probes| - 1 && probes[1..][i] == r && forall j :: 0 <= j < i ==> probes[1..][j].None?;
        assert probes[i + 1] == probes[1..][i];
        r
      else r
  }

  /**
   * Detect once, never re-probe: over any series of mounts, the flag holds
   * the outcome of the first probe and a known flag never changes.
   */
  lemma {:induction false} LearnAllKeepsFirstProbe(latch: Latch, probes: seq<Option<bool>>)
    ensures latch.Known? ==> LearnAll(latch, probes) == latch
    ensures latch.Unknown? ==>
      LearnAll(latch, probes) == (match FirstProbe(probes) case Some(b) => Known(b) case None => Unknown)
    decreases |probes|
  {
    if |probes| > 0 {
      LearnAllKeepsFirstProbe(Learn(latch, probes[0]), probes[1..]);
    }
  }

  /** Along a series of mounts the flag only ever moves forward: never back to undefined, never from false to true. */
  lemma {:induction false} LearnAllMonotone(latch: Latch, probes: seq<Option<bool>>, i: nat, j: nat)
    requires i <= j <= |probes|
    ensures MayBecome(LearnAll(latch, probes[..i]), LearnAll(latch, probes[..j]))
    decreases |probes|
  {
    if i == 0 {
      assert probes[..0] == [];
      if latch.Known? {
        LearnAllKeepsFirstProbe(latch, probes[..j]);
      }
    } else {
      assert probes[..i][1..] == probes[1..][..i - 1];
      assert probes[..j][1..] == probes[1..][..j - 1];
      LearnAllMonotone(Learn(latch, probes[0]), probes[1..], i - 1, j - 1);
    }
  }
}
