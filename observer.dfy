/** The registry `Observer` (Celesium/Observable/Observer.cs): three static
    dictionaries, the public `Add`/`Remove` overloads, the private
    `Add`/`Remove` on adapters and the sequential `Notify`.

    The state is modelled twice: as the value `RegistryState`, on which pure
    functions say what each operation does and lemmas prove what follows, and
    as the class `Registry`, whose methods update three map fields in place as
    the source does and are proved to agree with those functions. */
module Observer {
  import opened Wrappers
  import opened ObserverActions

  /** `Events`, `Actions` and `ActionsNullableValues`. */
  datatype RegistryState = RegistryState(
    events: map<EventKind, seq<ObserverAction>>,
    actions: map<Delegate, ObserverAction>,
    nullable: map<Delegate, bool>)

  /** The state after an operation, and the exception it threw, if any. */
  datatype Step = Step(state: RegistryState, error: Option<Error>)

  /** The registry at process start: three empty dictionaries. */
  const Initial := RegistryState(map[], map[], map[])

  /** The list `Events[typeof(T)]`, reading an absent entry as empty. */
  function ListOf(s: RegistryState, kind: EventKind): seq<ObserverAction>
  {
    if kind in s.events then s.events[kind] else []
  }

  /** How often `a` occurs in a list. */
  function Count(list: seq<ObserverAction>, a: ObserverAction): nat
  {
    multiset(list)[a]
  }

  /** An adapter as it may stand in the list of `kind`: built for that kind,
      the one `Actions` holds for its delegate, and its delegate has a flag. */
  ghost predicate Listed(s: RegistryState, kind: EventKind, a: ObserverAction)
  {
    && a.Valid() && a.kind == kind
    && a.ActiveAction() in s.actions && s.actions[a.ActiveAction()] == a
    && a.ActiveAction() in s.nullable
  }

  /** What every reachable registry satisfies. Each delegate has one adapter,
      built from that delegate; everything listed is `Listed`. Duplicates in a
      list are NOT excluded: `Remove` creates them. */
  ghost predicate Consistent(s: RegistryState)
  {
    && (forall d :: d in s.actions ==> s.actions[d].Valid() && s.actions[d].ActiveAction() == d)
    && (forall k, i :: k in s.events && 0 <= i < |s.events[k]| ==> Listed(s, k, s.events[k][i]))
  }

  /** `if (!Actions.ContainsKey(action)) Actions.Add(action, new ObserverAction<T>(action))`. */
  function Track(s: RegistryState, kind: EventKind, d: Delegate): RegistryState
  {
    if d in s.actions then s else s.(actions := s.actions[d := NewObserverAction(kind, d)])
  }

  /** The private `Add(ObserverAction<T>)`: create the list if missing, then
      append the adapter unless the list already contains it. */
  function Append(s: RegistryState, kind: EventKind, a: ObserverAction): RegistryState
  {
    var list := ListOf(s, kind);
    s.(events := s.events[kind := if a in list then list else list + [a]])
  }

  /** The private `Remove(ObserverAction<T>)` as written: create the list if
      missing, then append the adapter AGAIN when the list already contains it. */
  function AppendAgain(s: RegistryState, kind: EventKind, a: ObserverAction): RegistryState
  {
    var list := ListOf(s, kind);
    s.(events := s.events[kind := if a in list then list + [a] else list])
  }

  /** `Add<T>(action, nullableValues)`, both overloads: track the delegate, set
      its flag, cast its adapter to `ObserverAction<T>` (InvalidCastException
      when the adapter was built for another kind), then the private `Add`. */
  function AddSpec(s: RegistryState, kind: EventKind, d: Delegate, nullableValues: bool): Step
  {
    var t := Track(s, kind, d);
    var u := t.(nullable := t.nullable[d := nullableValues]);
    var a := u.actions[d];
    if a.kind != kind then Step(u, Some(InvalidCast)) else Step(Append(u, kind, a), None)
  }

  /** `Remove<T>(action)`, both overloads: track the delegate, cast, then the
      private `Remove`. */
  function RemoveSpec(s: RegistryState, kind: EventKind, d: Delegate): Step
  {
    var t := Track(s, kind, d);
    var a := t.actions[d];
    if a.kind != kind then Step(t, Some(InvalidCast)) else Step(AppendAgain(t, kind, a), None)
  }

  /** `targetEvent ??= new T()`. */
  function EventOrDefault(kind: EventKind, targetEvent: Payload): (p: Payload)
    ensures p != Null
    ensures targetEvent != Null ==> p == targetEvent
  {
    if targetEvent == Null then Created(kind) else targetEvent
  }

  /** The state change of `Notify<T>`: only the missing list is created. */
  function NotifySpec(s: RegistryState, kind: EventKind): RegistryState
  {
    s.(events := s.events[kind := ListOf(s, kind)])
  }

  predicate AllValid(list: seq<ObserverAction>)
  {
    forall i :: 0 <= i < |list| ==> list[i].Valid()
  }

  /** `list.ForEach(action => action.Invoke(data))`: invoke each adapter in list
      order; the first exception ends the walk and reaches the caller. */
  function Broadcast(list: seq<ObserverAction>, flags: map<Delegate, bool>, data: Payload): Invocation
    requires AllValid(list)
  {
    if list == [] then Invocation([], None)
    else
      var head := Invoke(list[0], flags, data);
      if head.failure.Some? then head
      else
        var rest := Broadcast(list[1..], flags, data);
        Invocation(head.calls + rest.calls, rest.failure)
  }

  /** `AddSpec` field by field. */
  lemma AddSpecParts(s: RegistryState, kind: EventKind, d: Delegate, nullableValues: bool)
    ensures var t := Track(s, kind, d);
      var a := t.actions[d];
      var r := AddSpec(s, kind, d, nullableValues);
      && r.state.actions == t.actions
      && r.state.nullable == s.nullable[d := nullableValues]
      && r.error == (if a.kind != kind then Some(InvalidCast) else None)
      && r.state.events == (if a.kind != kind then s.events else Append(t, kind, a).events)
  {
  }

  // ---------------------------------------------------------------------------
  // The invariant is kept.

  lemma AddKeepsConsistency(s: RegistryState, kind: EventKind, d: Delegate, nullableValues: bool)
    requires Consistent(s)
    ensures Consistent(AddSpec(s, kind, d, nullableValues).state)
  {
    var t := Track(s, kind, d);
    TrackKeepsConsistency(s, kind, d);
    var u := t.(nullable := t.nullable[d := nullableValues]);
    FlagKeepsConsistency(t, d, nullableValues);
    var a := u.actions[d];
    AddSpecParts(s, kind, d, nullableValues);
    if a.kind == kind {
      assert Listed(u, kind, a);
      ExtendKeepsConsistency(u, kind, a, a !in ListOf(u, kind));
    }
  }

  lemma RemoveKeepsConsistency(s: RegistryState, kind: EventKind, d: Delegate)
    requires Consistent(s)
    ensures Consistent(RemoveSpec(s, kind, d).state)
  {
    var t := Track(s, kind, d);
    TrackKeepsConsistency(s, kind, d);
    var a := t.actions[d];
    if a.kind == kind {
      if a in ListOf(t, kind) {
        var i :| 0 <= i < |ListOf(t, kind)| && ListOf(t, kind)[i] == a;
        assert Listed(t, kind, t.events[kind][i]);
      }
      ExtendKeepsConsistency(t, kind, a, a in ListOf(t, kind));
    }
  }

  /** Creating the adapter of a new delegate keeps the invariant. */
  lemma TrackKeepsConsistency(s: RegistryState, kind: EventKind, d: Delegate)
    requires Consistent(s)
    ensures var t := Track(s, kind, d);
      Consistent(t) && t.events == s.events && t.nullable == s.nullable
  {
    var t := Track(s, kind, d);
    forall k, i | k in t.events && 0 <= i < |t.events[k]|
      ensures Listed(t, k, t.events[k][i])
    {
      assert Listed(s, k, s.events[k][i]);
    }
  }

  /** Setting a flag keeps the invariant. */
  lemma FlagKeepsConsistency(s: RegistryState, d: Delegate, flag: bool)
    requires Consistent(s)
    ensures Consistent(s.(nullable := s.nullable[d := flag]))
  {
    var u := s.(nullable := s.nullable[d := flag]);
    forall k, i | k in u.events && 0 <= i < |u.events[k]|
      ensures Listed(u, k, u.events[k][i])
    {
      assert Listed(s, k, s.events[k][i]);
    }
  }

  /** Storing a kind's list, extended by an adapter that may stand there,
      keeps the invariant. */
  lemma ExtendKeepsConsistency(s: RegistryState, kind: EventKind, a: ObserverAction, grow: bool)
    requires Consistent(s) && (grow ==> Listed(s, kind, a))
    ensures Consistent(s.(events := s.events[kind := if grow then ListOf(s, kind) + [a] else ListOf(s, kind)]))
  {
    var list := if grow then ListOf(s, kind) + [a] else ListOf(s, kind);
    var r := s.(events := s.events[kind := list]);
    forall k, i | k in r.events && 0 <= i < |r.events[k]|
      ensures Listed(r, k, r.events[k][i])
    {
      if k != kind || i < |ListOf(s, kind)| {
        assert Listed(s, k, ListOf(s, k)[i]);
      }
    }
  }

  lemma NotifyKeepsConsistency(s: RegistryState, kind: EventKind)
    requires Consistent(s)
    ensures Consistent(NotifySpec(s, kind))
  {
  }

  // ---------------------------------------------------------------------------
  // Add: de-duplication, order, flags, one adapter per delegate.

  /** Adding the same delegate under the same kind twice is the same as adding
      it once with the second flag: the list is not extended again and only the
      flag of the later call survives. */
  lemma AddTwiceIsAddOnce(s: RegistryState, kind: EventKind, d: Delegate, first: bool, second: bool)
    ensures AddSpec(AddSpec(s, kind, d, first).state, kind, d, second) == AddSpec(s, kind, d, second)
  {
    var twice, once := AddSpec(AddSpec(s, kind, d, first).state, kind, d, second), AddSpec(s, kind, d, second);
    AddTwiceSameParts(s, kind, d, first, second);
    assert twice.state == once.state;
  }

  /** The parts of `AddTwiceIsAddOnce`, one by one. */
  lemma AddTwiceSameParts(s: RegistryState, kind: EventKind, d: Delegate, first: bool, second: bool)
    ensures var twice, once := AddSpec(AddSpec(s, kind, d, first).state, kind, d, second), AddSpec(s, kind, d, second);
      && twice.state.events == once.state.events
      && twice.state.actions == once.state.actions
      && twice.state.nullable == once.state.nullable
      && twice.error == once.error
  {
    var s1 := AddSpec(s, kind, d, first).state;
    var a := Track(s, kind, d).actions[d];
    AddSpecParts(s, kind, d, first);
    AddSpecParts(s, kind, d, second);
    AddSpecParts(s1, kind, d, second);
    Overwrite(s.nullable, d, first, second);
    assert Track(s1, kind, d) == s1;
    if a.kind == kind {
      assert a in ListOf(s1, kind);
    }
  }

  /** A second update of the same key hides the first. */
  lemma Overwrite<K, V>(m: map<K, V>, k: K, v1: V, v2: V)
    ensures m[k := v1][k := v2] == m[k := v2]
  {
  }

  /** A delegate whose adapter is not yet listed under a kind occurs there
      exactly once after it is added twice. */
  lemma AddTwiceListsOnce(s: RegistryState, kind: EventKind, d: Delegate, first: bool, second: bool)
    requires Consistent(s)
    requires d !in s.actions || s.actions[d].kind == kind
    requires Count(ListOf(s, kind), Track(s, kind, d).actions[d]) == 0
    ensures var s2 := AddSpec(AddSpec(s, kind, d, first).state, kind, d, second);
      s2.error == None && Count(ListOf(s2.state, kind), Track(s, kind, d).actions[d]) == 1
  {
    AddTwiceIsAddOnce(s, kind, d, first, second);
    var a := Track(s, kind, d).actions[d];
    assert a !in ListOf(s, kind);
    assert multiset(ListOf(s, kind) + [a]) == multiset(ListOf(s, kind)) + multiset{a};
  }

  /** `Add` of a delegate the registry has never seen succeeds, appends its
      new adapter at the end of the kind's list, records its flag and leaves
      every other kind's list alone. */
  lemma AddNewDelegateAppends(s: RegistryState, kind: EventKind, d: Delegate, nullableValues: bool)
    requires Consistent(s) && d !in s.actions
    ensures var r := AddSpec(s, kind, d, nullableValues);
      && r.error == None
      && ListOf(r.state, kind) == ListOf(s, kind) + [NewObserverAction(kind, d)]
      && (forall k :: k != kind ==> ListOf(r.state, k) == ListOf(s, k))
      && r.state.actions == s.actions[d := NewObserverAction(kind, d)]
      && r.state.nullable == s.nullable[d := nullableValues]
  {
    var a := NewObserverAction(kind, d);
    forall i | 0 <= i < |ListOf(s, kind)| ensures ListOf(s, kind)[i] != a {
      assert Listed(s, kind, s.events[kind][i]);
    }
  }

  /** Lists keep first-registration order: two new delegates added one after
      the other under a kind land at the end of its list, in that order. */
  lemma AddKeepsRegistrationOrder(s: RegistryState, kind: EventKind, d1: Delegate, f1: bool, d2: Delegate, f2: bool)
    requires Consistent(s)
    requires d1 !in s.actions && d2 !in s.actions && d1 != d2
    ensures var s1 := AddSpec(s, kind, d1, f1);
      var s2 := AddSpec(s1.state, kind, d2, f2);
      && s1.error == None && s2.error == None
      && ListOf(s2.state, kind) == ListOf(s, kind) + [NewObserverAction(kind, d1), NewObserverAction(kind, d2)]
  {
    AddNewDelegateAppends(s, kind, d1, f1);
    AddKeepsConsistency(s, kind, d1, f1);
    AddNewDelegateAppends(AddSpec(s, kind, d1, f1).state, kind, d2, f2);
  }

  /** The nullable flag of a delegate is the one passed to its latest `Add`,
      under whatever kind and whether or not the cast failed; no other
      delegate's flag changes. */
  lemma FlagIsLastWrite(s: RegistryState, k1: EventKind, d: Delegate, f1: bool, k2: EventKind, f2: bool)
    ensures AddSpec(AddSpec(s, k1, d, f1).state, k2, d, f2).state.nullable == s.nullable[d := f2]
  {
    AddSpecParts(s, k1, d, f1);
    AddSpecParts(AddSpec(s, k1, d, f1).state, k2, d, f2);
    Overwrite(s.nullable, d, f1, f2);
  }

  /** One adapter per delegate, reused: `Add` keeps the adapter a delegate
      already has, and the cast fails exactly when that adapter was built for
      another kind; then no list changes, though the flag is already set. */
  lemma AddReusesAdapter(s: RegistryState, kind: EventKind, d: Delegate, nullableValues: bool)
    requires Consistent(s)
    ensures var r := AddSpec(s, kind, d, nullableValues);
      && (d in s.actions ==> r.state.actions == s.actions)
      && (d !in s.actions ==> r.state.actions == s.actions[d := NewObserverAction(kind, d)])
      && (r.error == Some(InvalidCast) <==> d in s.actions && s.actions[d].kind != kind)
      && (r.error != None ==> r.state.events == s.events && r.state.nullable[d] == nullableValues)
  {
  }

  // ---------------------------------------------------------------------------
  // Remove as written.

  /** `Remove` of a delegate whose adapter is listed appends that adapter once
      more: the list grows by one and the adapter's count goes up by one. */
  lemma RemoveAppendsAgain(s: RegistryState, kind: EventKind, d: Delegate)
    requires Consistent(s)
    requires d in s.actions && s.actions[d] in ListOf(s, kind)
    ensures var r := RemoveSpec(s, kind, d);
      && r.error == None
      && ListOf(r.state, kind) == ListOf(s, kind) + [s.actions[d]]
      && Count(ListOf(r.state, kind), s.actions[d]) == Count(ListOf(s, kind), s.actions[d]) + 1
  {
    var a := s.actions[d];
    var i :| 0 <= i < |ListOf(s, kind)| && ListOf(s, kind)[i] == a;
    assert Listed(s, kind, s.events[kind][i]);
    assert multiset(ListOf(s, kind) + [a]) == multiset(ListOf(s, kind)) + multiset{a};
  }

  /** `Remove` never deletes: every kind's old list is a prefix of its new list. */
  lemma RemoveNeverShrinks(s: RegistryState, kind: EventKind, d: Delegate, k: EventKind)
    ensures var r := RemoveSpec(s, kind, d).state;
      |ListOf(s, k)| <= |ListOf(r, k)| && ListOf(s, k) == ListOf(r, k)[..|ListOf(s, k)|]
  {
  }

  /** `Remove` of a delegate never seen before creates its adapter (and an
      empty list for the kind) but leaves every kind's listeners and every
      flag as they were. */
  lemma RemoveUnknownDelegate(s: RegistryState, kind: EventKind, d: Delegate)
    requires Consistent(s) && d !in s.actions
    ensures var r := RemoveSpec(s, kind, d);
      && r.error == None
      && (forall k :: ListOf(r.state, k) == ListOf(s, k))
      && kind in r.state.events
      && r.state.actions == s.actions[d := NewObserverAction(kind, d)]
      && r.state.nullable == s.nullable
  {
    var a := NewObserverAction(kind, d);
    forall i | 0 <= i < |ListOf(s, kind)| ensures ListOf(s, kind)[i] != a {
      assert Listed(s, kind, s.events[kind][i]);
    }
  }

  // ---------------------------------------------------------------------------
  // Notify.

  /** Every call `Broadcast` makes is the call of one of the listed adapters. */
  lemma {:induction false} BroadcastCallsComeFromList(list: seq<ObserverAction>, flags: map<Delegate, bool>, data: Payload)
    requires forall i :: 0 <= i < |list| ==> list[i].Valid()
    ensures forall c :: c in Broadcast(list, flags, data).calls ==>
      exists i :: 0 <= i < |list| && c == CallOf(list[i], data)
  {
    if list != [] {
      BroadcastCallsComeFromList(list[1..], flags, data);
      forall c | c in Broadcast(list, flags, data).calls
        ensures exists i :: 0 <= i < |list| && c == CallOf(list[i], data)
      {
        if c in Invoke(list[0], flags, data).calls {
          assert c == CallOf(list[0], data);
        } else {
          assert c in Broadcast(list[1..], flags, data).calls;
          var j :| 0 <= j < |list[1..]| && c == CallOf(list[1..][j], data);
          assert c == CallOf(list[j + 1], data);
        }
      }
    }
  }

  /** `Notify` never hands null to a callback: a missing event is replaced by
      `new T()` first, so the null-payload suppression of the adapter never
      applies through `Notify`. */
  lemma NotifyNeverPassesNull(s: RegistryState, kind: EventKind, targetEvent: Payload)
    requires Consistent(s)
    ensures forall c :: c in Broadcast(ListOf(s, kind), s.nullable, EventOrDefault(kind, targetEvent)).calls ==>
      c.argument != Some(Null)
  {
    var list := ListOf(s, kind);
    forall i | 0 <= i < |list| ensures list[i].Valid() { assert Listed(s, kind, s.events[kind][i]); }
    BroadcastCallsComeFromList(list, s.nullable, EventOrDefault(kind, targetEvent));
  }

  /** Every adapter in a kind's list of a consistent registry is well formed. */
  lemma ListedAreValid(s: RegistryState, kind: EventKind)
    requires Consistent(s)
    ensures AllValid(ListOf(s, kind))
  {
    forall i | 0 <= i < |ListOf(s, kind)| ensures ListOf(s, kind)[i].Valid() {
      assert Listed(s, kind, s.events[kind][i]);
    }
  }

  /** `Broadcast` from position `i` on: the adapter at `i`, then the rest
      unless it failed. */
  lemma BroadcastFrom(list: seq<ObserverAction>, i: nat, flags: map<Delegate, bool>, data: Payload)
    requires i < |list| && AllValid(list[i..])
    ensures AllValid(list[i + 1..])
    ensures var head := Invoke(list[i], flags, data);
      var rest := Broadcast(list[i + 1..], flags, data);
      Broadcast(list[i..], flags, data) == if head.failure.Some? then head else Invocation(head.calls + rest.calls, rest.failure)
  {
    assert list[i..][1..] == list[i + 1..];
    assert list[i..][0] == list[i];
  }

  /** With a non-null payload every listed adapter, whose delegate has a flag,
      fires exactly once, in list order, and nothing fails. */
  lemma {:induction false} BroadcastReachesAll(list: seq<ObserverAction>, flags: map<Delegate, bool>, data: Payload)
    requires forall i :: 0 <= i < |list| ==> list[i].Valid() && list[i].ActiveAction() in flags
    requires data != Null
    ensures var r := Broadcast(list, flags, data);
      && r.failure == None && |r.calls| == |list|
      && forall i :: 0 <= i < |list| ==> r.calls[i] == CallOf(list[i], data)
  {
    if list != [] {
      BroadcastReachesAll(list[1..], flags, data);
      NonNullPayloadAlwaysFires(list[0], flags, data);
    }
  }

  /** Sequential `Notify` on a consistent registry invokes each entry of the
      kind's list once, in list order, with the event or `new T()`. */
  lemma NotifyReachesEveryListener(s: RegistryState, kind: EventKind, targetEvent: Payload)
    requires Consistent(s)
    ensures var list := ListOf(s, kind);
      var r := Broadcast(list, s.nullable, EventOrDefault(kind, targetEvent));
      && r.failure == None && |r.calls| == |list|
      && forall i :: 0 <= i < |list| ==> r.calls[i] == CallOf(list[i], EventOrDefault(kind, targetEvent))
  {
    var list := ListOf(s, kind);
    forall i | 0 <= i < |list| ensures list[i].Valid() && list[i].ActiveAction() in s.nullable {
      assert Listed(s, kind, s.events[kind][i]);
    }
    BroadcastReachesAll(list, s.nullable, EventOrDefault(kind, targetEvent));
  }

  /** With no listeners `Notify` calls nothing; its only effect is to insert
      an empty list for the kind. */
  lemma NotifyWithoutListeners(s: RegistryState, kind: EventKind, targetEvent: Payload)
    requires ListOf(s, kind) == []
    ensures Broadcast(ListOf(s, kind), s.nullable, EventOrDefault(kind, targetEvent)) == Invocation([], None)
    ensures NotifySpec(s, kind) == s.(events := s.events[kind := []])
  {
  }

  // ---------------------------------------------------------------------------
  // The consequence of Remove as written, and the removal it evidently intends.

  /** Add then Remove of a one-argument listener on a kind without listeners:
      the next `Notify` delivers the event to that listener twice. */
  lemma AddThenRemoveDeliversTwice(s: RegistryState, kind: EventKind, d: Delegate, nullableValues: bool, targetEvent: Payload)
    requires Consistent(s) && d !in s.actions && d.form == OneArg && ListOf(s, kind) == []
    ensures var s1 := AddSpec(s, kind, d, nullableValues);
      var s2 := RemoveSpec(s1.state, kind, d);
      var p := EventOrDefault(kind, targetEvent);
      && s1.error == None && s2.error == None
      && Broadcast(ListOf(s2.state, kind), s2.state.nullable, p).calls == [Call(d, Some(p)), Call(d, Some(p))]
  {
    var s1 := AddSpec(s, kind, d, nullableValues).state;
    var a := NewObserverAction(kind, d);
    assert ListOf(s1, kind) == [a];
    AddKeepsConsistency(s, kind, d, nullableValues);
    RemoveKeepsConsistency(s1, kind, d);
    var s2 := RemoveSpec(s1, kind, d).state;
    assert ListOf(s2, kind) == [a, a];
    NotifyReachesEveryListener(s2, kind, targetEvent);
  }

  /** `list` with every occurrence of `a` deleted, the rest in order. */
  function Without(list: seq<ObserverAction>, a: ObserverAction): (r: seq<ObserverAction>)
    ensures a !in r
    ensures forall x :: x in r <==> x in list && x != a
    ensures forall x :: x != a ==> Count(r, x) == Count(list, x)
  {
    if list == [] then []
    else if list[0] == a then
      assert list == [list[0]] + list[1..];
      Without(list[1..], a)
    else
      assert list == [list[0]] + list[1..];
      [list[0]] + Without(list[1..], a)
  }

  /** The removal the registry's callers expect: delete the delegate's adapter
      from the kind's list; a delegate or kind never registered is a no-op. */
  function Unsubscribe(s: RegistryState, kind: EventKind, d: Delegate): (r: RegistryState)
    ensures d in s.actions && kind in s.events ==>
      r == s.(events := s.events[kind := Without(s.events[kind], s.actions[d])])
    ensures !(d in s.actions && kind in s.events) ==> r == s
  {
    if d in s.actions && kind in s.events then
      s.(events := s.events[kind := Without(s.events[kind], s.actions[d])])
    else s
  }

  lemma UnsubscribeKeepsConsistency(s: RegistryState, kind: EventKind, d: Delegate)
    requires Consistent(s)
    ensures Consistent(Unsubscribe(s, kind, d))
  {
    var r := Unsubscribe(s, kind, d);
    forall k, i | k in r.events && 0 <= i < |r.events[k]|
      ensures Listed(r, k, r.events[k][i])
    {
      var x := r.events[k][i];
      assert x in s.events[k];
      var j :| 0 <= j < |s.events[k]| && s.events[k][j] == x;
      assert Listed(s, k, s.events[k][j]);
    }
  }

  /** After `Unsubscribe`, `Notify` for that kind never reaches the delegate,
      and every other listener is still reached. */
  lemma UnsubscribeStopsDelivery(s: RegistryState, kind: EventKind, d: Delegate, targetEvent: Payload)
    requires Consistent(s)
    ensures AllValid(ListOf(Unsubscribe(s, kind, d), kind))
    ensures var r := Unsubscribe(s, kind, d);
      var inv := Broadcast(ListOf(r, kind), r.nullable, EventOrDefault(kind, targetEvent));
      && inv.failure == None
      && (forall c :: c in inv.calls ==> c.callback != d)
      && (forall a :: a in ListOf(s, kind) && a.ActiveAction() != d ==> CallOf(a, EventOrDefault(kind, targetEvent)) in inv.calls)
  {
    var r := Unsubscribe(s, kind, d);
    var p := EventOrDefault(kind, targetEvent);
    UnsubscribeKeepsConsistency(s, kind, d);
    NotifyReachesEveryListener(r, kind, targetEvent);
    var list := ListOf(r, kind);
    var inv := Broadcast(list, r.nullable, p);
    forall c | c in inv.calls ensures c.callback != d {
      var i :| 0 <= i < |inv.calls| && inv.calls[i] == c;
      assert Listed(r, kind, r.events[kind][i]);
    }
    forall a | a in ListOf(s, kind) && a.ActiveAction() != d
      ensures CallOf(a, p) in inv.calls
    {
      var j :| 0 <= j < |ListOf(s, kind)| && ListOf(s, kind)[j] == a;
      assert Listed(s, kind, s.events[kind][j]);
      assert d in s.actions ==> a != s.actions[d];
      assert a in list;
      var i :| 0 <= i < |list| && list[i] == a;
      assert inv.calls[i] == CallOf(a, p);
    }
  }

  /** `list.ForEach(action => action.Invoke(data))`, walking the list in
      order; the first exception leaves the walk. */
  method ForEach(list: seq<ObserverAction>, flags: map<Delegate, bool>, data: Payload) returns (result: Invocation)
    requires AllValid(list)
    ensures result == Broadcast(list, flags, data)
  {
    var calls: seq<Call> := [];
    var i := 0;
    while i < |list|
      invariant 0 <= i <= |list| && AllValid(list[i..])
      invariant Broadcast(list, flags, data) ==
        var rest := Broadcast(list[i..], flags, data); Invocation(calls + rest.calls, rest.failure)
    {
      BroadcastFrom(list, i, flags, data);
      var head := Invoke(list[i], flags, data);
      if head.failure.Some? {
        return Invocation(calls + head.calls, head.failure);
      }
      calls := calls + head.calls;
      i := i + 1;
    }
    assert list[i..] == [];
    result := Invocation(calls, None);
  }

  // ---------------------------------------------------------------------------
  // The registry as the source holds it: static dictionaries updated in place.

  class Registry {
    var events: map<EventKind, seq<ObserverAction>>
    var actions: map<Delegate, ObserverAction>
    var nullable: map<Delegate, bool>

    function State(): RegistryState
      reads this
    {
      RegistryState(events, actions, nullable)
    }

    ghost predicate Valid()
      reads this
    {
      Consistent(State())
    }

    /** The static initialisers: three empty dictionaries. */
    constructor ()
      ensures State() == Initial && Valid()
    {
      events, actions, nullable := map[], map[], map[];
    }

    /** `Add<T>(Action<T> action, bool nullableValues)` and
        `Add<T>(Action action, bool nullableValues)`. */
    method Add(kind: EventKind, action: Delegate, nullableValues: bool) returns (error: Option<Error>)
      requires Valid()
      modifies this
      ensures Valid()
      ensures Step(State(), error) == AddSpec(old(State()), kind, action, nullableValues)
    {
      AddKeepsConsistency(State(), kind, action, nullableValues);
      if action !in actions {
        actions := actions[action := NewObserverAction(kind, action)];
      }
      nullable := nullable[action := nullableValues];
      var adapter := actions[action];
      if adapter.kind != kind {
        return Some(InvalidCast);
      }
      AddAdapter(kind, adapter);
      error := None;
    }

    /** `Remove<T>(Action<T> action)` and `Remove<T>(Action action)`. */
    method Remove(kind: EventKind, action: Delegate) returns (error: Option<Error>)
      requires Valid()
      modifies this
      ensures Valid()
      ensures Step(State(), error) == RemoveSpec(old(State()), kind, action)
    {
      RemoveKeepsConsistency(State(), kind, action);
      if action !in actions {
        actions := actions[action := NewObserverAction(kind, action)];
      }
      var adapter := actions[action];
      if adapter.kind != kind {
        return Some(InvalidCast);
      }
      RemoveAdapter(kind, adapter);
      error := None;
    }

    /** The private `Add(ObserverAction<T> action)`. */
    method AddAdapter(kind: EventKind, adapter: ObserverAction)
      modifies this
      ensures State() == Append(old(State()), kind, adapter)
    {
      if kind !in events {
        events := events[kind := []];
      }
      if adapter !in events[kind] {
        events := events[kind := events[kind] + [adapter]];
      }
    }

    /** The private `Remove(ObserverAction<T> action)`, as written. */
    method RemoveAdapter(kind: EventKind, adapter: ObserverAction)
      modifies this
      ensures State() == AppendAgain(old(State()), kind, adapter)
    {
      if kind !in events {
        events := events[kind := []];
      }
      if adapter in events[kind] {
        events := events[kind := events[kind] + [adapter]];
      }
    }

    /** `Notify<T>(targetEvent, parallel: false)`; `Notify<T>(false)` is
        `Notify(kind, Null)`. */
    method Notify(kind: EventKind, targetEvent: Payload) returns (result: Invocation)
      requires Valid()
      modifies this
      ensures Valid()
      ensures State() == NotifySpec(old(State()), kind)
      ensures result == Broadcast(events[kind], nullable, EventOrDefault(kind, targetEvent))
    {
      NotifyKeepsConsistency(State(), kind);
      ListedAreValid(State(), kind);
      var data := if targetEvent == Null then Created(kind) else targetEvent;
      if kind !in events {
        events := events[kind := []];
      }
      result := ForEach(events[kind], nullable, data);
    }
  }
}
