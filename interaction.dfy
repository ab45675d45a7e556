/**
 * The one-shot interaction latch every widget carries: a `hasInteracted`
 * flag and an optional `onInteract` callback, invoked on the first
 * interaction only and only when supplied.
 */
module Interaction {

  /** `calls` counts the invocations of `onInteract` so far. */
  datatype Latch = Latch(hasCallback: bool, hasInteracted: bool, calls: nat) {

    predicate Valid()
    {
      calls == (if hasInteracted then 1 else 0) && (hasInteracted ==> hasCallback)
    }

    /** `handleInteraction`: if not yet interacted and a callback is present, set the flag and call it. */
    function Fire(): (l: Latch)
      ensures l.hasCallback == hasCallback
      ensures Valid() ==> l.Valid()
      ensures l.hasInteracted <==> hasInteracted || hasCallback
      ensures l.calls == calls + (if hasInteracted || !hasCallback then 0 else 1)
    {
      if !hasInteracted && hasCallback then Latch(hasCallback, true, calls + 1) else this
    }
  }

  /** A freshly mounted widget: not interacted, no call made. */
  function Fresh(hasCallback: bool): (l: Latch)
    ensures l.Valid() && l.calls == 0 && !l.hasInteracted && l.hasCallback == hasCallback
  {
    Latch(hasCallback, false, 0)
  }

  /** The latch after `n` interactions. */
  function FireTimes(l: Latch, n: nat): Latch
  {
    if n == 0 then l else FireTimes(l, n - 1).Fire()
  }

  /**
   * However many interactions happen, `onInteract` is called at most once,
   * exactly once if there was at least one interaction and a callback, and never without one.
   */
  lemma {:induction false} AtMostOnce(hasCallback: bool, n: nat)
    ensures FireTimes(Fresh(hasCallback), n).Valid()
    ensures FireTimes(Fresh(hasCallback), n).calls == if n > 0 && hasCallback then 1 else 0
  {
    if n > 0 {
      AtMostOnce(hasCallback, n - 1);
    }
  }
}
