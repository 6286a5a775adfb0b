/** `SafeDisposable` (Celesium/Utility/SafeDisposable.cs): a dispose-once base
    class. Its abstract `DisposeResources` belongs to the derived class; here
    `Dispose` reports whether the derived class must run it now. */
module Disposables {

  /** The result of one `Dispose(bool manual)`: the new `hasDisposed` and
      whether `DisposeResources` runs. */
  datatype DisposeOutcome = DisposeOutcome(hasDisposed: bool, runsResources: bool)

  /** `Dispose(bool manual)`: return if already disposed; otherwise set the flag,
      then run `DisposeResources`. */
  function DisposeStep(hasDisposed: bool, manual: bool): (r: DisposeOutcome)
    ensures r.hasDisposed
    ensures r.runsResources <==> !hasDisposed
  {
    if hasDisposed then DisposeOutcome(true, false) else DisposeOutcome(true, true)
  }

  /** How many times `DisposeResources` runs over a sequence of dispose calls
      (`true` for `Dispose()`, `false` for the finalizer), from a given flag. */
  function ResourceRuns(hasDisposed: bool, calls: seq<bool>): nat
    decreases |calls|
  {
    if calls == [] then 0
    else
      var step := DisposeStep(hasDisposed, calls[0]);
      (if step.runsResources then 1 else 0) + ResourceRuns(step.hasDisposed, calls[1..])
  }

  /** `DisposeResources` runs at most once over any mix of explicit and
      finalizer disposals: exactly once from a fresh object when there is at
      least one call, never from a disposed one. */
  lemma {:induction false} ResourcesRunAtMostOnce(hasDisposed: bool, calls: seq<bool>)
    ensures ResourceRuns(hasDisposed, calls) == (if !hasDisposed && calls != [] then 1 else 0)
    decreases |calls|
  {
    if calls != [] {
      ResourcesRunAtMostOnce(true, calls[1..]);
    }
  }

  /** The explicit path and the finalizer path behave alike. */
  lemma ManualIsIgnored(hasDisposed: bool)
    ensures DisposeStep(hasDisposed, true) == DisposeStep(hasDisposed, false)
  {
  }

  class SafeDisposable {
    var hasDisposed: bool
    /** How many times `DisposeResources` has been started on this object. */
    ghost var resourceRuns: nat

    ghost predicate Valid()
      reads this
    {
      resourceRuns == if hasDisposed then 1 else 0
    }

    /** `hasDisposed = false` at construction. */
    constructor ()
      ensures !hasDisposed && resourceRuns == 0 && Valid()
    {
      hasDisposed := false;
      resourceRuns := 0;
    }

    /** `Dispose()`: `Dispose(true)`. */
    method Dispose() returns (runResources: bool)
      requires Valid()
      modifies this
      ensures Valid() && resourceRuns <= 1
      ensures DisposeOutcome(hasDisposed, runResources) == DisposeStep(old(hasDisposed), true)
      ensures resourceRuns == old(resourceRuns) + (if runResources then 1 else 0)
    {
      runResources := DisposeCore(true);
    }

    /** The finalizer `~SafeDisposable()`: `Dispose(false)`. */
    method Finalize() returns (runResources: bool)
      requires Valid()
      modifies this
      ensures Valid() && resourceRuns <= 1
      ensures DisposeOutcome(hasDisposed, runResources) == DisposeStep(old(hasDisposed), false)
      ensures resourceRuns == old(resourceRuns) + (if runResources then 1 else 0)
    {
      runResources := DisposeCore(false);
    }

    /** `Dispose(bool manual)`. The flag is set before `DisposeResources`
        starts, so a dispose re-entered from it finds the flag set. */
    method DisposeCore(manual: bool) returns (runResources: bool)
      requires Valid()
      modifies this
      ensures Valid()
      ensures DisposeOutcome(hasDisposed, runResources) == DisposeStep(old(hasDisposed), manual)
      ensures resourceRuns == old(resourceRuns) + (if runResources then 1 else 0)
    {
      if hasDisposed {
        return false;
      }
      hasDisposed := true;
      resourceRuns := resourceRuns + 1;
      runResources := true;
    }
  }
}
