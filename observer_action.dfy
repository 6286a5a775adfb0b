/** The adapter `ObserverAction<TEvent>` (Celesium/Observable/ObserverAction.cs):
    it holds one callback and decides, on each `Invoke`, whether it runs. */
module ObserverActions {
  import opened Wrappers

  /** An event type `T : Event, new()`. `hasAnyValues` stands for what
      `typeof(T).HasAnyValues()` reports by reflection: whether the type
      declares any field or property. */
  datatype EventKind = EventKind(name: nat, hasAnyValues: bool)

  /** The two delegate types the registry accepts: `Action` and `Action<T>`. */
  datatype Form = ZeroArg | OneArg

  /** A delegate, by identity. The registry's dictionaries key on it. */
  datatype Delegate = Delegate(id: nat, form: Form)

  /** What `Invoke` receives as `data`: null, or an event object. `Created(k)`
      is the instance `new T()` makes for kind `k`; `Instance` is any other. */
  datatype Payload = Null | Created(kind: EventKind) | Instance(kind: EventKind, id: nat)

  /** One run of a callback: a zero-argument callback gets no argument, a
      one-argument callback gets the payload (possibly null). */
  datatype Call = Call(callback: Delegate, argument: Option<Payload>)

  /** The effect of invoking adapters: the callbacks that ran, in order, and the
      exception that stopped the run, if any. */
  datatype Invocation = Invocation(calls: seq<Call>, failure: Option<Error>)

  /** An `ObserverAction<TEvent>` object: `kind` is `TEvent`, and the two
      readonly fields hold the callback. */
  datatype ObserverAction = ObserverAction(kind: EventKind, baseAction: Option<Delegate>, valueAction: Option<Delegate>)
  {
    /** What the two constructors guarantee: exactly one field is set, with a
        delegate of the matching type. */
    predicate Valid()
    {
      && (baseAction.Some? <==> valueAction.None?)
      && (baseAction.Some? ==> baseAction.value.form == ZeroArg)
      && (valueAction.Some? ==> valueAction.value.form == OneArg)
    }

    /** `ActiveAction`: `baseAction` when it is set, `valueAction` otherwise. */
    function ActiveAction(): Delegate
      requires Valid()
    {
      if baseAction.Some? then baseAction.value else valueAction.value
    }
  }

  /** `new ObserverAction<TEvent>(baseAction)` for an `Action`,
      `new ObserverAction<TEvent>(valueAction)` for an `Action<TEvent>`. */
  function NewObserverAction(kind: EventKind, action: Delegate): (a: ObserverAction)
    ensures a.Valid() && a.kind == kind
    // the adapter holds exactly the delegate it was built from, so the flag
    // lookup in Invoke is keyed by the registered delegate
    ensures a.ActiveAction() == action
    ensures a.baseAction.Some? <==> action.form == ZeroArg
  {
    match action.form
    case ZeroArg => ObserverAction(kind, Some(action), None)
    case OneArg => ObserverAction(kind, None, Some(action))
  }

  /** The call a listed adapter makes when it fires with `data`. */
  function CallOf(action: ObserverAction, data: Payload): Call
    requires action.Valid()
  {
    match action.baseAction
    case Some(b) => Call(b, None)
    case None => Call(action.valueAction.value, Some(data))
  }

  /** The condition guarding `valueAction?.Invoke` (line 19): the delegate's
      nullable flag, a non-null payload, or an event type without values. */
  predicate ValueGuard(action: ObserverAction, flags: map<Delegate, bool>, data: Payload)
    requires action.Valid() && action.ActiveAction() in flags
  {
    flags[action.ActiveAction()] || data != Null || !action.kind.hasAnyValues
  }

  /** `Invoke(data)`: `baseAction?.Invoke()` first, then the flag lookup
      `Observer.ActionsNullableValues[ActiveAction]`, which throws
      KeyNotFoundException for a delegate without an entry, then the guarded
      `valueAction?.Invoke((TEvent)data!)`. */
  function Invoke(action: ObserverAction, flags: map<Delegate, bool>, data: Payload): (r: Invocation)
    requires action.Valid()
    // the zero-argument callback runs first and always, whatever the flag and data
    ensures action.baseAction.Some? ==> r.calls == [Call(action.baseAction.value, None)]
    // the lookup fails exactly when the held delegate has no flag entry
    ensures r.failure == (if action.ActiveAction() in flags then None else Some(KeyNotFound))
    // the one-argument callback runs iff the lookup succeeds and the guard holds,
    // and then it receives `data` unchanged, null included
    ensures action.valueAction.Some? ==>
      var v := action.valueAction.value;
      r.calls == (if v in flags && (flags[v] || data != Null || !action.kind.hasAnyValues)
                  then [Call(v, Some(data))] else [])
  {
    var baseCalls := if action.baseAction.Some? then [Call(action.baseAction.value, None)] else [];
    if action.ActiveAction() !in flags then
      Invocation(baseCalls, Some(KeyNotFound))
    else if action.valueAction.Some? && ValueGuard(action, flags, data) then
      Invocation(baseCalls + [Call(action.valueAction.value, Some(data))], None)
    else
      Invocation(baseCalls, None)
  }

  /** An adapter whose delegate has a flag entry fires with any non-null
      payload, whatever its flag and whatever the event type declares. */
  lemma NonNullPayloadAlwaysFires(action: ObserverAction, flags: map<Delegate, bool>, data: Payload)
    requires action.Valid() && action.ActiveAction() in flags && data != Null
    ensures Invoke(action, flags, data) == Invocation([CallOf(action, data)], None)
  {
  }

  /** The only case in which a one-argument callback is skipped: a null
      payload, a false flag and an event type that has values. */
  lemma NullPayloadSuppressed(action: ObserverAction, flags: map<Delegate, bool>)
    requires action.Valid() && action.valueAction.Some? && action.ActiveAction() in flags
    ensures Invoke(action, flags, Null).calls == [] <==>
            (!flags[action.ActiveAction()] && action.kind.hasAnyValues)
  {
  }
}
