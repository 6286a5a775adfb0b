/** `Responder<T>` (Celesium/Observable/Responder.cs): a subscriber whose
    one-argument `Notified` is registered under `T` when it is created and
    passed to `Observer.Remove<T>` when it is disposed. The `SafeDisposable`
    base class is held as the part `disposable`. */
module Responders {
  import opened Wrappers
  import opened ObserverActions
  import opened Observer
  import opened Disposables

  class Responder {
    /** `T`. */
    const kind: EventKind
    /** The delegate `Notified` bound to this instance: new with the instance. */
    const notified: Delegate
    /** The `SafeDisposable` part of the object. */
    const disposable: SafeDisposable

    /** `new TResponder()`: `self` is the identity of the new instance, which
        makes its `Notified` delegate new as well. */
    constructor (kind: EventKind, self: nat)
      ensures this.kind == kind && notified == Delegate(self, OneArg)
      ensures fresh(disposable) && !disposable.hasDisposed && disposable.resourceRuns == 0
      ensures disposable.Valid()
    {
      this.kind := kind;
      notified := Delegate(self, OneArg);
      disposable := new SafeDisposable();
    }

    /** `Create<TResponder>(nullableValue)`: construct, then `Initialize`. */
    static method Create(registry: Registry, kind: EventKind, nullableValue: bool, self: nat) returns (r: Responder)
      requires registry.Valid()
      requires Delegate(self, OneArg) !in registry.actions
      modifies registry
      ensures fresh(r) && fresh(r.disposable)
      ensures r.kind == kind && r.notified == Delegate(self, OneArg)
      ensures !r.disposable.hasDisposed && r.disposable.resourceRuns == 0 && r.disposable.Valid()
      ensures registry.Valid()
      ensures Step(registry.State(), None) == AddSpec(old(registry.State()), kind, r.notified, nullableValue)
      ensures ListOf(registry.State(), kind) == ListOf(old(registry.State()), kind) + [NewObserverAction(kind, r.notified)]
      ensures registry.nullable[r.notified] == nullableValue
    {
      r := new Responder(kind, self);
      AddNewDelegateAppends(registry.State(), kind, r.notified, nullableValue);
      var error := r.Initialize(registry, nullableValue);
    }

    /** `Initialize(nullableValue)`: `Observer.Add<T>(Notified, nullableValue)`.
        It is private and only `Create` calls it. */
    method Initialize(registry: Registry, nullableValue: bool) returns (error: Option<Error>)
      requires registry.Valid()
      modifies registry
      ensures registry.Valid()
      ensures Step(registry.State(), error) == AddSpec(old(registry.State()), kind, notified, nullableValue)
    {
      error := registry.Add(kind, notified, nullableValue);
    }

    /** `DisposeResources()`: `Observer.Remove<T>(Notified)`. */
    method DisposeResources(registry: Registry) returns (error: Option<Error>)
      requires registry.Valid()
      modifies registry
      ensures registry.Valid()
      ensures Step(registry.State(), error) == RemoveSpec(old(registry.State()), kind, notified)
    {
      error := registry.Remove(kind, notified);
    }

    /** `Dispose()` inherited from `SafeDisposable`: the first disposal runs
        `DisposeResources`; every later one does nothing. */
    method Dispose(registry: Registry) returns (error: Option<Error>)
      requires registry.Valid() && disposable.Valid()
      modifies registry, disposable
      ensures registry.Valid() && disposable.Valid()
      ensures disposable.hasDisposed && disposable.resourceRuns == 1
      ensures old(disposable.hasDisposed) ==> registry.State() == old(registry.State()) && error == None
      ensures !old(disposable.hasDisposed) ==>
        Step(registry.State(), error) == RemoveSpec(old(registry.State()), kind, notified)
    {
      var run := disposable.Dispose();
      if run {
        error := DisposeResources(registry);
      } else {
        error := None;
      }
    }

    /** The finalizer inherited from `SafeDisposable`: the same as `Dispose`. */
    method Finalize(registry: Registry) returns (error: Option<Error>)
      requires registry.Valid() && disposable.Valid()
      modifies registry, disposable
      ensures registry.Valid() && disposable.Valid()
      ensures disposable.hasDisposed && disposable.resourceRuns == 1
      ensures old(disposable.hasDisposed) ==> registry.State() == old(registry.State()) && error == None
      ensures !old(disposable.hasDisposed) ==>
        Step(registry.State(), error) == RemoveSpec(old(registry.State()), kind, notified)
    {
      var run := disposable.Finalize();
      if run {
        error := DisposeResources(registry);
      } else {
        error := None;
      }
    }
  }

  /** A responder created on an empty registry, disposed, then notified: with
      `Remove` as written the disposal does not unsubscribe it, and the event
      reaches its `Notified` twice. A second disposal changes nothing more. */
  method DisposedResponderStillNotified(kind: EventKind, self: nat, nullableValue: bool, targetEvent: Payload)
    returns (result: Invocation)
    ensures result.failure == None
    ensures var p := EventOrDefault(kind, targetEvent);
      result.calls == [Call(Delegate(self, OneArg), Some(p)), Call(Delegate(self, OneArg), Some(p))]
  {
    var registry := new Registry();
    var r := Responder.Create(registry, kind, nullableValue, self);
    var e1 := r.Dispose(registry);
    var e2 := r.Dispose(registry);
    AddThenRemoveDeliversTwice(Initial, kind, r.notified, nullableValue, targetEvent);
    result := registry.Notify(kind, targetEvent);
    NotifyReachesEveryListener(RemoveSpec(AddSpec(Initial, kind, r.notified, nullableValue).state, kind, r.notified).state, kind, targetEvent);
  }

  /** Two `Create` calls give two instances with distinct delegates, listed
      separately and in creation order. */
  method TwoRespondersListedSeparately(kind: EventKind, self1: nat, self2: nat)
    returns (list: seq<ObserverAction>)
    requires self1 != self2
    ensures list == [NewObserverAction(kind, Delegate(self1, OneArg)), NewObserverAction(kind, Delegate(self2, OneArg))]
  {
    var registry := new Registry();
    var r1 := Responder.Create(registry, kind, false, self1);
    var r2 := Responder.Create(registry, kind, true, self2);
    assert r1 != r2 && r1.notified != r2.notified;
    list := ListOf(registry.State(), kind);
  }
}
