# Celesium core, modelled in Dafny

This project models the core of Celesium, a small C# utility library.
The model covers the following parts:

- **Observer engine.** The process-wide `Observer` registry maps each event type to an ordered list of listener adapters (`Events`). It also maps each delegate to its one adapter (`Actions`) and to its "nullable values" flag (`ActionsNullableValues`).
- **`ObserverAction<TEvent>`.** This adapter turns a zero-argument or a one-argument callback into one `Invoke(data)` contract.
- **`Responder<T>`.** A subscriber that registers its `Notified` method when it is created and passes it to `Observer.Remove<T>` when it is disposed.
- **`SafeDisposable`.** A dispose-once base class.
- **Console logger.** The `Log` class, its `ListLogType` and `DuplicatesLogType` settings, and the `AnsiColors` escape codes it prints.
- **Value helpers.** `Vector2Int`, `Vector3Int` and `Vector4Int` with their `VectorExtensions`; `FuzzySearch` (Levenshtein distance and closest match); `SimpleStack`; `ArbitraryContents`; `BoolExtensions`; `CollectionsExtensions.AddFirstItem`.

How the source's forms are modelled:

- **Registry.** The static dictionaries become the three map fields of a `Registry` object. `State()` is a snapshot of them as a `RegistryState` value.
  - The pure functions `AddSpec`, `RemoveSpec` and `NotifySpec` say what each operation does to that state.
  - `Registry.Add`, `Registry.Remove` and `Registry.Notify` are proved to do exactly that.
  - The lemmas about the registry are stated over those functions.
- **Logger.** `Log`'s static fields become the fields of a `Logger` object, in the same way.
  - `WriteSpec`, `ListSpec`, `ExceptionSpec` and `LogMessageSpec` describe its steps.
  - The console is a trace of `ConsoleOp`s (cursor up, clear line, write text).
- **Loops.** The loops of the source stay loops, each in a method proved against a specification function:
  - the Levenshtein table (`GetLevenshteinDistance` with `FillRow`);
  - the list renderer (`GetResult`);
  - the notification fan-out (`ForEach`);
  - `AddFirstItem`.
- **`int`.** C# `int` is `Int32Math.Int32`. `+`, `-`, `*` and unary `-` wrap around modulo 2^32 as in an unchecked context. `/` truncates toward zero and fails on a zero divisor and on `int.MinValue / -1`.
- **Exceptions.** Thrown exceptions are `Result`/`Option` values:
  - a failed cast becomes `InvalidCast`;
  - a missing dictionary key becomes `KeyNotFound`;
  - a division by zero becomes `DivideByZero`;
  - a division overflow becomes `Overflow`;
  - an out-of-range enum becomes `ArgumentOutOfRange`.

Where the intent visible in the source and the code itself disagree, the model follows the code:

- `Observer.Remove<T>` is named for unsubscribing, and `Responder.DisposeResources` (Celesium/Observable/Responder.cs:9-12) calls it to end a responder's subscription. The private `Remove` (Celesium/Observable/Observer.cs:70-77) nevertheless appends the adapter again when it is already listed. `Registry.Remove` models that as written, and the corrected `Unsubscribe` sits beside it (see Findings).
- `Remove` of a delegate that was never added still creates an adapter for the delegate and an empty list for the event type (Celesium/Observable/Observer.cs:51-54, 72-73). `RemoveUnknownDelegate` states exactly that.

## Model

| member | source | states |
|---|---|---|
| Observer.Registry.constructor | Celesium/Observable/Observer.cs:6-12 | the three dictionaries start empty and the registry invariant holds |
| Observer.Registry.Add | Celesium/Observable/Observer.cs:17-35 | the new registry state and error are exactly `AddSpec` of the old state; the invariant is kept |
| Observer.Registry.Remove | Celesium/Observable/Observer.cs:41-55 | the new state and error are exactly `RemoveSpec` of the old state; the invariant is kept |
| Observer.Registry.AddAdapter | Celesium/Observable/Observer.cs:61-68 | the event type gets a list if it had none, and the adapter is appended only when not already in it |
| Observer.Registry.RemoveAdapter | Celesium/Observable/Observer.cs:70-77 | the event type gets a list if it had none, and the adapter is appended again when it is already in it |
| Observer.Registry.Notify | Celesium/Observable/Observer.cs:89-100 | the only state change is a list created for an unseen type; the listeners are invoked in list order with the event or a default instance |
| Observer.ForEach | Celesium/Observable/Observer.cs:99 | the sequential loop performs exactly the calls of `Broadcast`, and stops at the first failed flag lookup |
| Observer.EventOrDefault | Celesium/Observable/Observer.cs:91 | the payload handed to listeners is never null, and is the caller's event when one is given |
| Observer.AddKeepsConsistency | Celesium/Observable/Observer.cs:17-35 | `Add` keeps the registry invariant: every stored adapter holds its own delegate, and every listed adapter is built for its list's type, is the stored adapter of its delegate, and that delegate has a flag |
| Observer.RemoveKeepsConsistency | Celesium/Observable/Observer.cs:41-55 | `Remove` keeps the registry invariant, despite appending again |
| Observer.NotifyKeepsConsistency | Celesium/Observable/Observer.cs:93-94 | creating an empty list in `Notify` keeps the invariant |
| Observer.TrackKeepsConsistency | Celesium/Observable/Observer.cs:19-20 | storing an adapter for an unknown delegate keeps the invariant and leaves lists and flags alone |
| Observer.FlagKeepsConsistency | Celesium/Observable/Observer.cs:22 | writing a delegate's nullable flag keeps the invariant |
| Observer.ExtendKeepsConsistency | Celesium/Observable/Observer.cs:61-77 | appending an adapter keeps the invariant whenever the adapter is the stored one of its delegate |
| Observer.AddSpecParts | Celesium/Observable/Observer.cs:17-25 | `Add` field by field: adapter stored once, flag overwritten, `InvalidCast` when the stored adapter has another type, else the private `Add` |
| Observer.AddTwiceIsAddOnce | Celesium/Observable/Observer.cs:17-35 | adding the same delegate to the same type twice equals adding it once with the second flag |
| Observer.AddTwiceListsOnce | Celesium/Observable/Observer.cs:66-67 | after two `Add` calls the adapter is listed exactly once |
| Observer.AddNewDelegateAppends | Celesium/Observable/Observer.cs:17-25 | adding a new delegate appends a new adapter to its type's list only, stores it, and records the flag |
| Observer.AddKeepsRegistrationOrder | Celesium/Observable/Observer.cs:66-67 | two new delegates are listed in the order they were added |
| Observer.FlagIsLastWrite | Celesium/Observable/Observer.cs:22 | the nullable flag is the one given to the latest `Add`, whatever the event types and even when the cast fails |
| Observer.AddReusesAdapter | Celesium/Observable/Observer.cs:19-24 | an existing adapter is reused; `InvalidCast` happens iff the stored adapter has another type, and then no list changes but the flag is still written |
| Observer.RemoveAppendsAgain | Celesium/Observable/Observer.cs:75-76 | removing a listed adapter appends it once more, raising its count by one |
| Observer.RemoveNeverShrinks | Celesium/Observable/Observer.cs:70-77 | `Remove` never shortens any list, and each old list is a prefix of the new one |
| Observer.RemoveUnknownDelegate | Celesium/Observable/Observer.cs:51-54 | removing a never-added delegate changes no list but creates its adapter and the type's list |
| Observer.BroadcastCallsComeFromList | Celesium/Observable/Observer.cs:99 | every call made by a notification is the call of some listed adapter with that payload |
| Observer.NotifyNeverPassesNull | Celesium/Observable/Observer.cs:91 | no listener ever receives a null argument from `Notify` |
| Observer.BroadcastReachesAll | Celesium/Observable/Observer.cs:99 | with a non-null payload and flags for all adapters, the i-th call is the i-th adapter's call and nothing fails |
| Observer.NotifyReachesEveryListener | Celesium/Observable/Observer.cs:89-100 | in a consistent registry `Notify` calls every listed adapter once, in registration order, without failure |
| Observer.NotifyWithoutListeners | Celesium/Observable/Observer.cs:93-99 | a type with no listeners is notified with no call and no error, and only gains an empty list |
| Observer.AddThenRemoveDeliversTwice | Celesium/Observable/Observer.cs:75-76 | after `Add` then `Remove` of one delegate, a notification calls it twice |
| Observer.Without | Celesium/Observable/Observer.cs:70-77 | the corrected removal keeps every other adapter with its count and drops the given one |
| Observer.Unsubscribe | Celesium/Observable/Observer.cs:70-77 | the corrected `Remove` deletes the delegate's adapter from its type's list and changes nothing else |
| Observer.UnsubscribeKeepsConsistency | Celesium/Observable/Observer.cs:70-77 | the corrected removal keeps the registry invariant |
| Observer.UnsubscribeStopsDelivery | Celesium/Observable/Observer.cs:70-77 | after the corrected removal, a notification never calls the delegate and still calls every other listener |
| ObserverActions.NewObserverAction | Celesium/Observable/ObserverAction.cs:6-13 | the adapter holds exactly the delegate it was built from, in the zero-argument slot iff the delegate takes no argument |
| ObserverActions.Invoke | Celesium/Observable/ObserverAction.cs:15-21 | the zero-argument callback always runs first; the flag lookup fails iff the delegate has no flag; the one-argument callback runs iff the flag is set, the data is non-null or the event type has no values, and it receives the data unchanged |
| ObserverActions.NonNullPayloadAlwaysFires | Celesium/Observable/ObserverAction.cs:19-20 | a non-null payload always reaches the listener, whatever its flag |
| ObserverActions.NullPayloadSuppressed | Celesium/Observable/ObserverAction.cs:19-20 | a null payload is dropped iff the flag is off and the event type carries values |
| Responders.Responder.constructor | Celesium/Observable/Responder.cs:5-7 | a new responder has a new `Notified` delegate and a fresh, undisposed `SafeDisposable` part |
| Responders.Responder.Create | Celesium/Observable/Responder.cs:21-27 | `Create` returns a new responder whose adapter is appended to its type's list with the given flag |
| Responders.Responder.Initialize | Celesium/Observable/Responder.cs:16-19 | initialisation is `Observer.Add<T>(Notified, flag)` |
| Responders.Responder.DisposeResources | Celesium/Observable/Responder.cs:9-12 | releasing resources is `Observer.Remove<T>(Notified)` |
| Responders.Responder.Dispose | Celesium/Utility/SafeDisposable.cs:15-28 | the first disposal runs `Observer.Remove<T>`, later ones leave the registry unchanged, and resources run exactly once |
| Responders.Responder.Finalize | Celesium/Utility/SafeDisposable.cs:10-13 | the finalizer behaves as `Dispose` |
| Responders.DisposedResponderStillNotified | Celesium/Observable/Responder.cs:9-12 | a created and disposed responder still receives the next notification, twice |
| Responders.TwoRespondersListedSeparately | Celesium/Observable/Responder.cs:21-27 | two created responders are two listeners, in creation order |
| Disposables.DisposeStep | Celesium/Utility/SafeDisposable.cs:21-28 | after a disposal the flag is set, and resources run iff it was not set before |
| Disposables.ResourcesRunAtMostOnce | Celesium/Utility/SafeDisposable.cs:21-28 | over any mix of explicit and finalizer disposals, resources run once from a fresh object and never from a disposed one |
| Disposables.ManualIsIgnored | Celesium/Utility/SafeDisposable.cs:21 | the explicit and finalizer paths behave alike |
| Disposables.SafeDisposable.constructor | Celesium/Utility/SafeDisposable.cs:8 | a new object is not disposed and has run no resources |
| Disposables.SafeDisposable.Dispose | Celesium/Utility/SafeDisposable.cs:15-19 | `Dispose()` is one disposal step on the explicit path and runs resources at most once |
| Disposables.SafeDisposable.Finalize | Celesium/Utility/SafeDisposable.cs:10-13 | the finalizer is one disposal step on the finalizer path and runs resources at most once |
| Disposables.SafeDisposable.DisposeCore | Celesium/Utility/SafeDisposable.cs:21-28 | `Dispose(bool)` sets the flag before resources run and counts each run |
| FuzzySearch.Distance | src/Celesium/Utility/FuzzySearch.cs:25-37 | the recurrence of the table, taken as the reference definition of the edit distance of prefixes |
| FuzzySearch.GetLevenshteinDistance | src/Celesium/Utility/FuzzySearch.cs:17-42 | the method, with its shortcuts and table loops, returns the Levenshtein distance of the two strings |
| FuzzySearch.FillRow | src/Celesium/Utility/FuzzySearch.cs:30-38 | filling row i makes every cell of rows 0..i equal the distance of the prefixes and leaves later rows' first cell alone |
| FuzzySearch.NextCell | src/Celesium/Utility/FuzzySearch.cs:32-37 | the cell formula applied to the three neighbours' distances gives the distance of the cell |
| FuzzySearch.DistanceToSelf | src/Celesium/Utility/FuzzySearch.cs:19 | a string is at distance 0 from itself |
| FuzzySearch.LevenshteinBaseCases | src/Celesium/Utility/FuzzySearch.cs:19-21 | the three shortcuts agree with the table: equal strings give 0, an empty side gives the other's length |
| FuzzySearch.DistanceLowerBound | src/Celesium/Utility/FuzzySearch.cs:25-37 | the distance is at least the difference of the lengths |
| FuzzySearch.DistanceUpperBound | src/Celesium/Utility/FuzzySearch.cs:25-37 | the distance is at most the longer length |
| FuzzySearch.DistanceSymmetric | src/Celesium/Utility/FuzzySearch.cs:25-37 | swapping the two strings leaves the distance unchanged |
| FuzzySearch.ClosestIndex | src/Celesium/Utility/FuzzySearch.cs:12-14 | the chosen option has the least distance, and no earlier option has the same distance (stable ordering, first wins) |
| FuzzySearch.FindClosest | src/Celesium/Utility/FuzzySearch.cs:5-15 | null exactly for a null or blank input or no options; otherwise the first option at least distance |
| BoolExtensions.ToInt | src/Celesium/Extensions/BoolExtensions.cs:8-11 | the result is 1 for true and 0 for false |
| BoolExtensions.Inverted | src/Celesium/Extensions/BoolExtensions.cs:17-20 | the result differs from the input, and its `ToInt` is one minus the input's |
| BoolExtensions.Invert | src/Celesium/Extensions/BoolExtensions.cs:29-32 | the updated variable holds the inverted value |
| BoolExtensions.InvertedTwice | src/Celesium/Extensions/BoolExtensions.cs:17-20 | inverting twice gives the original value |
| BoolExtensions.InvertTwice | src/Celesium/Extensions/BoolExtensions.cs:29-32 | two in-place inversions restore the variable |
| CollectionsExtensions.Prepended | src/Celesium/Extensions/CollectionsExtensions.cs:7-29 | the result is one longer, starts with the item and continues with the list |
| CollectionsExtensions.AddFirstItem | src/Celesium/Extensions/CollectionsExtensions.cs:7-29 | the new array holds the item at index 0 and list element i at index i+1 |
| CollectionsExtensions.AddFirstItemToArray | src/Celesium/Extensions/CollectionsExtensions.cs:14-16 | on an array source the result is a new array holding the item and then the source |
| SimpleStack.SimpleStack.constructor | src/Celesium/Data/SimpleStack.cs:6 | a new stack stores nothing |
| SimpleStack.SimpleStack.Get | src/Celesium/Data/SimpleStack.cs:15 | an id's value if it is stored, `KeyNotFound` otherwise |
| SimpleStack.SimpleStack.Push | src/Celesium/Data/SimpleStack.cs:8-13 | the returned id is new, now maps to the item, and every other id reads as before |
| SimpleStack.SimpleStack.Pop | src/Celesium/Data/SimpleStack.cs:17-22 | returns what `Get` returned, removes only that id, and a later `Get` of it fails |
| SimpleStack.SimpleStack.Items | src/Celesium/Data/SimpleStack.cs:24 | one item per stored id, every stored value appears, and every item is a stored value |
| SimpleStack.ValuesBelowCount | src/Celesium/Data/SimpleStack.cs:24 | the value listing has as many entries as there are ids |
| SimpleStack.ValuesBelowAllStored | src/Celesium/Data/SimpleStack.cs:24 | every entry of the value listing is the value of some stored id |
| SimpleStack.PushGetPop | src/Celesium/Data/SimpleStack.cs:8-22 | a pushed item is read back and popped, and its id then fails |
| ArbitraryData.ArbitraryContents.Default | Celesium/Data/ArbitraryData.cs:6 | `Default` holds no entries |
| ArbitraryData.ArbitraryContents.With | Celesium/Data/ArbitraryData.cs:8-15 | `With(id, value)` is a new object holding exactly that one entry |
| ArbitraryData.ArbitraryContents.Get | Celesium/Data/ArbitraryData.cs:21 | the indexer's getter returns the stored value, or `KeyNotFound` |
| ArbitraryData.ArbitraryContents.Set | Celesium/Data/ArbitraryData.cs:22 | the setter adds or overwrites that id only |
| ArbitraryData.ReadFreshContents | Celesium/Data/ArbitraryData.cs:6-21 | `Default` has no ids, and `With` answers only for its own id |
| ArbitraryData.OverwriteKeepsLast | Celesium/Data/ArbitraryData.cs:19-23 | after two writes to an id, the last value is read |
| Int32Math.Wrap | Celesium/Data/Vector2Int.cs:62 | the wrapped value is congruent to the input modulo 2^32 and equal to it when it fits |
| Int32Math.WrapCongruent | Celesium/Data/Vector2Int.cs:62 | congruent values wrap to the same `int` |
| Int32Math.Add | Celesium/Data/Vector2Int.cs:62 | unchecked `+` is congruent to the exact sum and exact when it fits |
| Int32Math.AddOneToMax | src/Celesium/Logging/Log.cs:438 | incrementing `int.MaxValue` gives `int.MinValue` |
| Int32Math.Sub | Celesium/Data/Vector2Int.cs:92 | unchecked `-` is congruent to the exact difference and exact when it fits |
| Int32Math.Mul | Celesium/Data/Vector2Int.cs:77 | unchecked `*` is congruent to the exact product and exact when it fits |
| Int32Math.Neg | Celesium/Utility/VectorExtensions.cs:59 | unary minus is exact except on `int.MinValue`, which it maps to itself |
| Int32Math.TruncDiv | Celesium/Data/Vector2Int.cs:67 | the quotient rounds toward zero: remainder smaller than the divisor and of the dividend's sign |
| Int32Math.SameSignQuotient | Celesium/Data/Vector2Int.cs:67 | for operands of equal sign the truncated quotient is the quotient of the magnitudes |
| Int32Math.OppositeSignQuotient | Celesium/Data/Vector2Int.cs:67 | for operands of opposite sign it is minus the quotient of the magnitudes |
| Int32Math.Div | Celesium/Data/Vector2Int.cs:67 | `/` fails iff the divisor is 0 (`DivideByZero`) or it is `int.MinValue / -1` (`Overflow`); otherwise it truncates |
| Int32Math.NegNeg | Celesium/Utility/VectorExtensions.cs:59-60 | negating twice gives the original value, `int.MinValue` included |
| Int32Math.SubUndoesAdd | Celesium/Data/Vector2Int.cs:60-93 | subtracting what was added restores the value, even across wrap-around |
| Int32Math.MulCommutes | Celesium/Data/Vector2Int.cs:85-88 | unchecked `*` is commutative, so `k * v` and `v * k` agree |
| Text.IntToString | Celesium/Data/Vector2Int.cs:42 | an `int`'s text is non-empty, starts with '-' iff it is negative, and is otherwise digits |
| Text.NatToStringInjective | src/Celesium/Logging/Log.cs:452 | different counts have different decimal texts |
| Text.IntToStringInjective | Celesium/Data/Vector2Int.cs:42 | different `int`s have different texts |
| Text.TrimStart | src/Celesium/Logging/Log.cs:408 | the trimmed text is no longer and does not start with white space |
| Text.TrimStartDropsWhiteSpace | src/Celesium/Logging/Log.cs:408 | the trimmed text is a suffix of the input, and what was dropped is all white space |
| Text.TrimStartBlank | src/Celesium/Logging/Log.cs:410 | a trimmed item is blank iff it is empty |
| Text.TrimStartKeeps | src/Celesium/Logging/Log.cs:408 | a text not starting with white space is unchanged |
| Text.TrimStartDrops | src/Celesium/Logging/Log.cs:408 | a leading white-space character is dropped |
| Text.Spaces | src/Celesium/Logging/Log.cs:373 | `PadLeft(n)` of the empty string is n spaces |
| Text.SplitRemoveEmpty | src/Celesium/Logging/Log.cs:339-343 | the stack-trace lines are non-empty and hold no line break |
| Text.JoinAppend | src/Celesium/Logging/Log.cs:411 | joining one more item adds the separator and the item at the end |
| Text.SplitAfterNumber | Celesium/Data/Vector2Int.cs:42 | a rendering that starts with a number followed by a non-digit separates the number from the rest |
| AnsiColors.Ordinal | Celesium/Logging/AnsiColors.cs:189-223 | each colour name has its declaration position in the enum |
| AnsiColors.FromOrdinal | Celesium/Logging/AnsiColors.cs:189-223 | an integer names a colour iff it is in range, and then names the colour declared there |
| AnsiColors.GetColor | Celesium/Logging/AnsiColors.cs:109-147 | a foreground code for every in-range name, the code of that name; `ArgumentOutOfRange` otherwise |
| AnsiColors.GetBackgroundColor | Celesium/Logging/AnsiColors.cs:149-187 | a background code for every in-range name, the code of that name; `ArgumentOutOfRange` otherwise |
| AnsiColors.EveryNameHasOneCode | Celesium/Logging/AnsiColors.cs:15-107 | every name is either a basic SGR colour or a 256-colour palette entry, never both |
| AnsiColors.SgrTwoDigits | Celesium/Logging/AnsiColors.cs:15-56 | a two-digit SGR code is ESC, '[', the two digits and 'm' |
| AnsiColors.SgrThreeDigits | Celesium/Logging/AnsiColors.cs:19-59 | a three-digit SGR code is ESC, '[', the three digits and 'm' |
| AnsiColors.SgrInjective | Celesium/Logging/AnsiColors.cs:12-59 | different SGR parameters give different escape codes |
| AnsiColors.BasicForegroundIsSgr | Celesium/Logging/AnsiColors.cs:15-59 | a basic colour's foreground is the SGR code of its number |
| AnsiColors.BasicBackgroundIsSgr | Celesium/Logging/AnsiColors.cs:15-59 | a basic colour's background is the SGR code of its number plus 10 |
| AnsiColors.BlackSgr | Celesium/Logging/AnsiColors.cs:15-16 | black is SGR 30 on the foreground, 40 on the background |
| AnsiColors.RedSgr | Celesium/Logging/AnsiColors.cs:21-22 | red is SGR 31 and 41 |
| AnsiColors.GreenSgr | Celesium/Logging/AnsiColors.cs:27-28 | green is SGR 32 and 42 |
| AnsiColors.YellowSgr | Celesium/Logging/AnsiColors.cs:33-34 | yellow is SGR 33 and 43 |
| AnsiColors.BlueSgr | Celesium/Logging/AnsiColors.cs:38-39 | blue is SGR 34 and 44 |
| AnsiColors.PurpleSgr | Celesium/Logging/AnsiColors.cs:44-45 | purple is SGR 35 and 45 |
| AnsiColors.CyanSgr | Celesium/Logging/AnsiColors.cs:49-50 | cyan is SGR 36 and 46 |
| AnsiColors.WhiteSgr | Celesium/Logging/AnsiColors.cs:55-56 | white is SGR 37 and 47 |
| AnsiColors.BrightBlackSgr | Celesium/Logging/AnsiColors.cs:18-19 | bright black is SGR 90 and 100 |
| AnsiColors.BrightRedSgr | Celesium/Logging/AnsiColors.cs:24-25 | bright red is SGR 91 and 101 |
| AnsiColors.BrightGreenSgr | Celesium/Logging/AnsiColors.cs:30-31 | bright green is SGR 92 and 102 |
| AnsiColors.BrightYellowSgr | Celesium/Logging/AnsiColors.cs:35-36 | bright yellow is SGR 93 and 103 |
| AnsiColors.BrightBlueSgr | Celesium/Logging/AnsiColors.cs:41-42 | bright blue is SGR 94 and 104 |
| AnsiColors.BrightPurpleSgr | Celesium/Logging/AnsiColors.cs:47-48 | bright purple is SGR 95 and 105 |
| AnsiColors.BrightCyanSgr | Celesium/Logging/AnsiColors.cs:52-53 | bright cyan is SGR 96 and 106 |
| AnsiColors.BrightWhiteSgr | Celesium/Logging/AnsiColors.cs:58-59 | bright white is SGR 97 and 107 |
| AnsiColors.PaletteColorsShareIndex | Celesium/Logging/AnsiColors.cs:61-107 | an extended colour's foreground and background use the same palette index |
| AnsiColors.BasicForegroundDiffersFromBackground | Celesium/Logging/AnsiColors.cs:15-59 | no basic colour has the same foreground and background code |
| AnsiColors.PaletteForegroundDiffersFromBackground | Celesium/Logging/AnsiColors.cs:9-10 | a palette foreground code never equals a palette background code |
| AnsiColors.ForegroundDiffersFromBackground | Celesium/Logging/AnsiColors.cs:109-187 | for every name, `GetColor` and `GetBackgroundColor` give different codes |
| AnsiColors.ResetAndBoldAreSgr | Celesium/Logging/AnsiColors.cs:12-13 | reset is SGR 0 and bold is SGR 1 |
| Vector2Ints.Splat | Celesium/Data/Vector2Int.cs:20-22 | the single-value constructor sets both components |
| Vector2Ints.Equals | Celesium/Data/Vector2Int.cs:24-27 | `Equals` holds iff the vectors are equal |
| Vector2Ints.Eq | Celesium/Data/Vector2Int.cs:50-53 | `==` holds iff the vectors are equal |
| Vector2Ints.Ne | Celesium/Data/Vector2Int.cs:55-58 | `!=` holds iff the vectors differ |
| Vector2Ints.Add | Celesium/Data/Vector2Int.cs:60-63 | each component is congruent to the exact sum modulo 2^32 and exact when it fits |
| Vector2Ints.Sub | Celesium/Data/Vector2Int.cs:90-93 | each component is congruent to the exact difference and exact when it fits |
| Vector2Ints.Mul | Celesium/Data/Vector2Int.cs:75-78 | each component is congruent to the exact product and exact when it fits |
| Vector2Ints.Scale | Celesium/Data/Vector2Int.cs:80-83 | `v * k` multiplies each component by k with wrap-around |
| Vector2Ints.ScaleLeft | Celesium/Data/Vector2Int.cs:85-88 | `k * v`, written as `v * k`, equals the product with the splatted scalar on the left |
| Vector2Ints.Div | Celesium/Data/Vector2Int.cs:65-68 | it succeeds iff both component divisions do; X's error is the one raised first; quotients truncate |
| Vector2Ints.DivScalar | Celesium/Data/Vector2Int.cs:70-73 | it succeeds iff the scalar is nonzero and not `-1` with an `int.MinValue` component; scalar 0 is `DivideByZero`, the other failure `Overflow`; quotients truncate |
| Vector2Ints.ToString | Celesium/Data/Vector2Int.cs:39-43 | the text is `<`, X, the separator, a space, Y and `>` |
| Vector2Ints.SubUndoesAdd | Celesium/Data/Vector2Int.cs:60-93 | `(v + w) - w == v` for every pair, overflow included |
| Vector2Ints.ToStringDeterminesVector | Celesium/Data/Vector2Int.cs:39-43 | with a non-digit separator, equal texts mean equal vectors |
| Vector3Ints.Splat | src/Celesium/Data/Vector3Int.cs:22-24 | the single-value constructor sets all three components |
| Vector3Ints.Equals | src/Celesium/Data/Vector3Int.cs:26-29 | `Equals` holds iff the vectors are equal |
| Vector3Ints.Eq | src/Celesium/Data/Vector3Int.cs:52-55 | `==` holds iff the vectors are equal |
| Vector3Ints.Ne | src/Celesium/Data/Vector3Int.cs:57-60 | `!=` holds iff the vectors differ |
| Vector3Ints.Add | src/Celesium/Data/Vector3Int.cs:62-65 | each component is congruent to the exact sum and exact when it fits |
| Vector3Ints.Sub | src/Celesium/Data/Vector3Int.cs:92-95 | each component is congruent to the exact difference and exact when it fits |
| Vector3Ints.Mul | src/Celesium/Data/Vector3Int.cs:77-80 | each component is congruent to the exact product and exact when it fits |
| Vector3Ints.Scale | src/Celesium/Data/Vector3Int.cs:82-85 | `v * k` multiplies each component by k with wrap-around |
| Vector3Ints.ScaleLeft | src/Celesium/Data/Vector3Int.cs:87-90 | `k * v` equals the product with the splatted scalar on the left |
| Vector3Ints.Div | src/Celesium/Data/Vector3Int.cs:67-70 | it succeeds iff all component divisions do; the first failing component's error is raised; quotients truncate |
| Vector3Ints.DivScalar | src/Celesium/Data/Vector3Int.cs:72-75 | it succeeds iff the scalar is nonzero and not `-1` with an `int.MinValue` component; scalar 0 is `DivideByZero`, the other failure `Overflow`; quotients truncate |
| Vector3Ints.ToString | src/Celesium/Data/Vector3Int.cs:41-45 | the text is the two-component rendering of X and Y |
| Vector3Ints.SubUndoesAdd | src/Celesium/Data/Vector3Int.cs:62-95 | `(v + w) - w == v` for every pair |
| Vector3Ints.ToStringOmitsZ | src/Celesium/Data/Vector3Int.cs:41-45 | two different vectors get the same text |
| Vector3Ints.FullToString | src/Celesium/Data/Vector3Int.cs:41-45 | the corrected rendering is bracketed by `<` and `>` |
| Vector3Ints.FullToStringDeterminesVector | src/Celesium/Data/Vector3Int.cs:41-45 | with a non-digit separator, the corrected rendering tells vectors apart |
| Vector4Ints.Splat | Celesium/Data/Vector4Int.cs:21-23 | the single-value constructor sets all four components |
| Vector4Ints.Equals | Celesium/Data/Vector4Int.cs:25-28 | `Equals` holds iff the vectors are equal |
| Vector4Ints.Eq | Celesium/Data/Vector4Int.cs:51-54 | `==` holds iff the vectors are equal |
| Vector4Ints.Ne | Celesium/Data/Vector4Int.cs:56-59 | `!=` holds iff the vectors differ |
| Vector4Ints.Add | Celesium/Data/Vector4Int.cs:61-64 | each component is congruent to the exact sum and exact when it fits |
| Vector4Ints.Sub | Celesium/Data/Vector4Int.cs:91-94 | each component is congruent to the exact difference and exact when it fits |
| Vector4Ints.Mul | Celesium/Data/Vector4Int.cs:76-79 | each component is congruent to the exact product and exact when it fits |
| Vector4Ints.Scale | Celesium/Data/Vector4Int.cs:81-84 | `v * k` multiplies each component by k with wrap-around |
| Vector4Ints.ScaleLeft | Celesium/Data/Vector4Int.cs:86-89 | `k * v` equals the product with the splatted scalar on the left |
| Vector4Ints.Div | Celesium/Data/Vector4Int.cs:66-69 | it succeeds iff all component divisions do; the first failing component's error is raised; quotients truncate |
| Vector4Ints.DivScalar | Celesium/Data/Vector4Int.cs:71-74 | it succeeds iff the scalar is nonzero and not `-1` with an `int.MinValue` component; scalar 0 is `DivideByZero`, the other failure `Overflow`; quotients truncate |
| Vector4Ints.ToString | Celesium/Data/Vector4Int.cs:40-44 | the text is the two-component rendering of X and Y |
| Vector4Ints.SubUndoesAdd | Celesium/Data/Vector4Int.cs:61-94 | `(v + w) - w == v` for every pair |
| Vector4Ints.ToStringOmitsZ | Celesium/Data/Vector4Int.cs:40-44 | two different vectors get the same text |
| Vector4Ints.FullToString | Celesium/Data/Vector4Int.cs:40-44 | the corrected rendering is bracketed by `<` and `>` |
| Vector4Ints.FullToStringDeterminesVector | Celesium/Data/Vector4Int.cs:40-44 | with a non-digit separator, the corrected rendering tells vectors apart |
| VectorExtensions.WithX2 | Celesium/Utility/VectorExtensions.cs:56 | only X changes, to the given value |
| VectorExtensions.WithY2 | Celesium/Utility/VectorExtensions.cs:57 | only Y changes, to the given value |
| VectorExtensions.InvertX2 | Celesium/Utility/VectorExtensions.cs:59 | only X changes, to its wrapped negation |
| VectorExtensions.InvertY2 | Celesium/Utility/VectorExtensions.cs:60 | only Y changes, to its wrapped negation |
| VectorExtensions.Vector2ToVector3 | Celesium/Utility/VectorExtensions.cs:62 | X and Y are kept and Z is the argument, 0 by default |
| VectorExtensions.Vector2ToVector4 | Celesium/Utility/VectorExtensions.cs:63 | X and Y are kept, Z and W are the arguments, 0 by default |
| VectorExtensions.WithX3 | Celesium/Utility/VectorExtensions.cs:68 | only X changes |
| VectorExtensions.WithY3 | Celesium/Utility/VectorExtensions.cs:69 | only Y changes |
| VectorExtensions.WithZ3 | Celesium/Utility/VectorExtensions.cs:70 | only Z changes |
| VectorExtensions.WithoutX3 | Celesium/Utility/VectorExtensions.cs:72 | the result is (Y, Z) |
| VectorExtensions.WithoutY3 | Celesium/Utility/VectorExtensions.cs:73 | the result is (X, Z) |
| VectorExtensions.WithoutZ3 | Celesium/Utility/VectorExtensions.cs:74 | the result is (X, Y) |
| VectorExtensions.InvertX3 | Celesium/Utility/VectorExtensions.cs:76 | only X changes, to its wrapped negation |
| VectorExtensions.InvertY3 | Celesium/Utility/VectorExtensions.cs:77 | only Y changes, to its wrapped negation |
| VectorExtensions.InvertZ3 | Celesium/Utility/VectorExtensions.cs:78 | only Z changes, to its wrapped negation |
| VectorExtensions.Vector3ToVector4 | Celesium/Utility/VectorExtensions.cs:80 | X, Y and Z are kept and W is the argument, 0 by default |
| VectorExtensions.WithX4 | Celesium/Utility/VectorExtensions.cs:85 | only X changes |
| VectorExtensions.WithY4 | Celesium/Utility/VectorExtensions.cs:86 | only Y changes |
| VectorExtensions.WithZ4 | Celesium/Utility/VectorExtensions.cs:87 | only Z changes |
| VectorExtensions.WithW4 | Celesium/Utility/VectorExtensions.cs:88 | only W changes |
| VectorExtensions.WithoutX4 | Celesium/Utility/VectorExtensions.cs:90 | the result is (Y, Z, W) |
| VectorExtensions.WithoutY4 | Celesium/Utility/VectorExtensions.cs:91 | the result is (X, Z, W) |
| VectorExtensions.WithoutZ4 | Celesium/Utility/VectorExtensions.cs:92 | the result is (X, Y, W) |
| VectorExtensions.WithoutW4 | Celesium/Utility/VectorExtensions.cs:93 | the result is (X, Y, Z) |
| VectorExtensions.InvertX4 | Celesium/Utility/VectorExtensions.cs:95 | only X changes, to its wrapped negation |
| VectorExtensions.InvertY4 | Celesium/Utility/VectorExtensions.cs:96 | only Y changes, to its wrapped negation |
| VectorExtensions.InvertZ4 | Celesium/Utility/VectorExtensions.cs:97 | only Z changes, to its wrapped negation |
| VectorExtensions.InvertW4 | Celesium/Utility/VectorExtensions.cs:98 | only W changes, to its wrapped negation |
| VectorExtensions.InvertTwice2 | Celesium/Utility/VectorExtensions.cs:59-60 | inverting a component twice restores the vector, `int.MinValue` included |
| VectorExtensions.InvertTwice3 | Celesium/Utility/VectorExtensions.cs:76-78 | inverting a component twice restores the vector |
| VectorExtensions.InvertTwice4 | Celesium/Utility/VectorExtensions.cs:95-98 | inverting a component twice restores the vector |
| VectorExtensions.WithLastWins2 | Celesium/Utility/VectorExtensions.cs:56-57 | setting a component to its own value changes nothing, and of two settings the last wins |
| VectorExtensions.WithLastWins3 | Celesium/Utility/VectorExtensions.cs:68-70 | the same for three components |
| VectorExtensions.WithLastWins4 | Celesium/Utility/VectorExtensions.cs:85-88 | the same for four components |
| VectorExtensions.WidenThenDrop | Celesium/Utility/VectorExtensions.cs:62-93 | dropping the component that widening added gives the original vector back |
| VectorExtensions.DropThenWiden | Celesium/Utility/VectorExtensions.cs:74-93 | dropping the last component and widening with it gives the original back |
| VectorExtensions.WideningComposes | Celesium/Utility/VectorExtensions.cs:62-80 | widening 2 to 4 equals widening 2 to 3 to 4, and the defaults are zeros |
| Logging.Logger.constructor | src/Celesium/Logging/Log.cs:18-39 | the fields start at their initialisers: timestamps on, full exceptions, `Multiple`, `Nothing`, no previous message, count 1 |
| Logging.Logger.Write | src/Celesium/Logging/Log.cs:421-459 | the new state is exactly `WriteSpec` of the old state |
| Logging.WriteSpec | src/Celesium/Logging/Log.cs:421-459 | `Write` only appends to the console and never changes the settings |
| Logging.CountSuffix | src/Celesium/Logging/Log.cs:452 | the ` xN` suffix is empty iff the count is at most 1 |
| Logging.WriteWithoutDuplicates | src/Celesium/Logging/Log.cs:425-458 | with duplicates off, the line is written with a reset code and nothing else changes |
| Logging.RepeatedLineIsCounted | src/Celesium/Logging/Log.cs:434-455 | a repeated line moves up, clears the line and is rewritten with the incremented count |
| Logging.NewLineRestartsCount | src/Celesium/Logging/Log.cs:444-455 | a new line resets the count to 1, is remembered, and is written after a clear without suffix |
| Logging.CountWrapsAround | src/Celesium/Logging/Log.cs:438 | a line repeated past `int.MaxValue` wraps the count to `int.MinValue`, and the suffix disappears |
| Logging.RepeatedWritesCount | src/Celesium/Logging/Log.cs:434-449 | n equal writes leave the count at n |
| Logging.IgnoreTimeDiffersFromNumbered | src/Celesium/Logging/Log.cs:427-434 | two lines differing only in their time text count as repeats under `IgnoreTime` but not under `Numbered` |
| Logging.TrimmedItemAt | src/Celesium/Logging/Log.cs:408 | each rendered item is the item, or "null", with leading white space removed |
| Logging.NullItemPrintedAsNull | src/Celesium/Logging/Log.cs:408 | a null item is rendered as "null" |
| Logging.Kept | src/Celesium/Logging/Log.cs:410 | the items kept for printing are the non-blank ones |
| Logging.AppendItem | src/Celesium/Logging/Log.cs:404-411 | one loop step extends the rendering of the first i items to the first i+1 |
| Logging.GetResult | src/Celesium/Logging/Log.cs:398-415 | the loop returns the rendering of all trimmed items |
| Logging.RenderBeforeLast | src/Celesium/Logging/Log.cs:402-412 | when the first item is printed, the rendering so far is the opener, the kept items joined, and a trailing separator |
| Logging.RenderWhenEndsPrinted | src/Celesium/Logging/Log.cs:402-412 | when the first and last items are printed, the rendering is the kept items joined between the outer markers |
| Logging.KeptEmptyIffAllBlank | src/Celesium/Logging/Log.cs:408-411 | nothing is printed exactly when every trimmed item is null-free white space |
| Logging.RenderPrefix | src/Celesium/Logging/Log.cs:402-412 | before the last item the accumulated text is empty until an item is printed, then the first printed item's opener, the printed items joined, and a closer |
| Logging.RenderClosedForm | src/Celesium/Logging/Log.cs:402-412 | for every list: empty when all items are blank, else the printed items joined, opened by `firstPos` only if item 0 is printed and closed by `lastPos` only if the last item is printed |
| Logging.AllBlankRendersEmpty | src/Celesium/Logging/Log.cs:402-412 | a list whose trimmed items are all blank renders as nothing |
| Logging.SingleListBody | src/Celesium/Logging/Log.cs:377-383 | in `Single` mode every list prints its printed items separated by commas, with `[` only if item 0 is printed (else `,`) and `]` only if the last item is printed; `[a,b,c]` when both ends are |
| Logging.MultipleListBody | src/Celesium/Logging/Log.cs:370-376 | in `Multiple` mode every list prints its items on separate lines indented by the raw prefix width; a blank item 0 indents the first line too and a blank last item leaves a trailing line break |
| Logging.RenderBlankThenPrinted | src/Celesium/Logging/Log.cs:402-412 | two items, the first blank: only the in-between opener, the second item and the last closer are written |
| Logging.BlankLastItemLosesBracket | src/Celesium/Logging/Log.cs:402-411 | `["a", " "]` in `Single` mode prints `[a` |
| Logging.ExceptionWithoutTraceEndsInLineBreak | src/Celesium/Logging/Log.cs:331-344 | an exception logged in full without a stack trace is the list [message, ""], whose body is the trimmed message followed by a line break |
| Logging.BlankFirstItemLosesBracket | src/Celesium/Logging/Log.cs:377-411 | `[" ", "a"]` in `Single` mode prints `,a]` |
| Logging.Bracketed | src/Celesium/Logging/Log.cs:377-383 | the corrected `Single` rendering always starts with `[` and ends with `]` |
| Logging.BracketedAgreesWhenEndsPrinted | src/Celesium/Logging/Log.cs:377-383 | the corrected rendering agrees with the code whenever the first and last items are printed |
| Logging.Line | src/Celesium/Logging/Log.cs:285-291 | a log line starts with the time text that `Write` may strip |
| Logging.PlainSpec | src/Celesium/Logging/Log.cs:282-291 | logging a text appends to the console and keeps the list and duplicate settings |
| Logging.ListSpec | src/Celesium/Logging/Log.cs:353-396 | logging a list appends to the console and keeps the list mode |
| Logging.ListSpecReadsTrimmedItems | src/Celesium/Logging/Log.cs:408 | two lists with the same trimmed items log the same |
| Logging.MultipleListDisablesDuplicates | src/Celesium/Logging/Log.cs:387-394 | after a `Multiple` list, duplicates stay off: two equal later lines are both written in full |
| Logging.CorrectedListSpec | src/Celesium/Logging/Log.cs:387-394 | the corrected list logging restores the duplicate setting |
| Logging.CorrectedListKeepsDuplicates | src/Celesium/Logging/Log.cs:387-394 | the corrected version writes the list with duplicates off and leaves setting, previous line and count unchanged |
| Logging.ExceptionLines | src/Celesium/Logging/Log.cs:331-345 | message, then location when simple, else an empty line and the non-empty stack-trace lines |
| Logging.ExceptionSpec | src/Celesium/Logging/Log.cs:329-351 | logging an exception appends to the console and restores the list mode |
| Logging.ExceptionDisablesDuplicates | src/Celesium/Logging/Log.cs:347-350 | logging an exception turns duplicate handling off for good |
| Logging.Stringified | src/Celesium/Logging/Log.cs:320-323 | a non-string list becomes the list of its items' texts, "null" for null items |
| Logging.StringifiedPrintsTheSame | src/Celesium/Logging/Log.cs:320-323 | turning items into strings first does not change what is printed |
| Logging.LogMessageSpec | src/Celesium/Logging/Log.cs:263-292 | logging any message appends to the console and keeps the list mode |
| Logging.NullLoggedAsText | src/Celesium/Logging/Log.cs:270 | a null message is logged as the text "null" |
| Logging.DirectListLoggedByName | src/Celesium/Logging/Log.cs:310-315 | in `Direct` mode a list is logged as its type name |
| Logging.OtherListLoggedAsStrings | src/Celesium/Logging/Log.cs:318-325 | otherwise a non-string list logs as the string list of its items |
| Logging.ListMessageLoggedAsList | src/Celesium/Logging/Log.cs:277-278 | outside `Direct` mode, list messages go to `LogList` |
| Logging.GatedSpec | src/Celesium/Logging/Log.cs:257-261 | a false condition changes nothing; a true one appends to the console |
| Logging.Logger.LogPlain | src/Celesium/Logging/Log.cs:282-291 | the new state is `PlainSpec` of the old |
| Logging.Logger.LogList | src/Celesium/Logging/Log.cs:353-396 | the new state is `ListSpec` of the old |
| Logging.Logger.LogException | src/Celesium/Logging/Log.cs:329-351 | the new state is `ExceptionSpec` of the old |
| Logging.Logger.HandleList | src/Celesium/Logging/Log.cs:294-327 | `Direct` logs the type name, otherwise the items are logged as a list |
| Logging.Logger.LogMessageWith | src/Celesium/Logging/Log.cs:263-292 | the new state is `LogMessageSpec` of the old |
| Logging.Logger.LogMessage | src/Celesium/Logging/Log.cs:257-261 | the new state is `GatedSpec` of the old |
| Logging.Logger.LogAt | src/Celesium/Logging/Log.cs:45-255 | each level method logs with its colour and prefix when its condition holds |

## Left out

- `Notify<T>(parallel: true)` fans out with `Parallel.ForEach`. Concurrency is not modelled: only the sequential path, where listeners run in list order, is modelled.
- The thread safety of the registry is not modelled. The source takes no lock.
- The generic type argument `T` and the reflective "has any values" check on `T` are not modelled as such. An event kind carries its "has any values" bit, and the engine only reads that bit.
- The cast `(ObserverAction<T>)Actions[action]` is modelled as a comparison of the stored adapter's event kind. A mismatch is `InvalidCast`.
- Null delegates and null lists are not modelled. In C# these throw `ArgumentNullException` before any state changes.
- Exceptions thrown by listener bodies are not modelled. A call is recorded as a `Call` value, and the listener's own effect is not modelled.
- Garbage collection, the timing of finalizers and `GC.SuppressFinalize` are not modelled. `Finalize` is a method the caller may invoke at any time.
- `Guid.NewGuid()` in `SimpleStack.Push` is replaced by a counter that yields ids never used before. `Items()` lists the values in id order. The source's `Dictionary.Values` order is unspecified.
- `SimpleStack.Items`: only the count and the membership of the values are stated.
- `DateTime.Now` in the logger is replaced by a `now` parameter that holds the `HH:mm:ss` text.
- `Console.CursorTop` and `Console.BufferWidth` are not modelled. The console is a trace of `MoveUp`, `ClearLine` and `Emit` operations. `MoveUp` stands for "move up if not on the top line".
- `Environment.NewLine` is fixed to "\n".
- The culture's number-group separator used by `ToString` is a `separator` parameter.
- `Text.IntToString` always writes the minus sign as '-'. The current culture's `NegativeSign`, which may be another character such as U+2212, is not modelled.
- Culture-specific number formats passed to `ToString(format, provider)` are left out. Only the default format is modelled.
- An object's `ToString()` in the logger is the text carried by the `Message` value. A list's own `ToString()` is its `typeName`.
- `exception.TargetSite` and `Source` are combined into one `location` text.
- `CollectionsExtensions.AddFirstItem`: the three branches of its switch (array copy, `CopyTo`, index loop) produce the same array. `AddFirstItem` models them as one loop, and `AddFirstItemToArray` covers the array case.
- The float vector types (`Vector2`, `Vector3`, `Vector4`), the implicit conversions to and from them, and `GetHashCode` are left out. Floating point is not modelled.
- `Equals(object)` is left out, because its type test has no counterpart for values of one type.
- Every other file of the repository is not part of this model: `Matrix2x2`, `MathUtil`, `MathExtensions`, `Random`, `ResourceLoading`, `StreamExtensions`, `TaskExtensions`, `StringExtensions` and `TypeExtensions`.
- Strings are sequences of Unicode scalar values (Dafny `char`), not UTF-16 code units. A character outside the Basic Multilingual Plane is one character here and two in C#. This affects `FuzzySearch.Levenshtein`, `FuzzySearch.GetLevenshteinDistance` and `FuzzySearch.FindClosest`, whose lengths and distances count scalar values. It also affects `Logging.RawPrefixText`, `Logging.ListBody` and `Logging.MultipleListBody`, whose `PadLeft(rawPrefixText.Length)` indent counts scalar values.
- `FuzzySearch.FindClosest` takes its options as non-null strings. A null option, which the source gives the distance `input.Length` and may return, is not modelled.
- `Logging.WriteSpec` requires the time text to be no longer than the line. `Write` is only called with a line that starts with that time text, and `string.Remove` would otherwise throw.
- `Logging.Logger.LogList` requires a list mode other than `Direct`. `HandleList` intercepts `Direct` first, and `LogList` throws `ArgumentOutOfRangeException` for it.

## Findings

| source | as written | input that shows it | evidently intended | confidence | as-written member | corrected member |
|---|---|---|---|---|---|---|
| Celesium/Observable/Observer.cs:70-77 | the private `Remove` appends the adapter again when it is already listed | `Add<E>(g)`, `Remove<E>(g)`, `Notify<E>()`: `g` is called twice | delete the adapter from the list | not executed | Observer.AddThenRemoveDeliversTwice | Observer.UnsubscribeStopsDelivery |
| src/Celesium/Data/Vector3Int.cs:41-45 | `ToString` prints only X and Y, so Z is lost (the same holds for Vector4Int.cs:40-44, which loses Z and W) | `(0, 0, 0)` and `(0, 0, 1)` both print `<0, 0>` | print every component | not executed | Vector3Ints.ToStringOmitsZ | Vector3Ints.FullToStringDeterminesVector |
| src/Celesium/Logging/Log.cs:387-394 | in `Multiple` mode `LogList` writes with the old duplicate setting and then stores `Nothing` in it | log a list, then the same line twice with `Numbered` set: both lines are written in full and the setting stays off | switch duplicates off only while the list is written, then restore the setting | not executed | Logging.MultipleListDisablesDuplicates | Logging.CorrectedListKeepsDuplicates |
| src/Celesium/Logging/Log.cs:377-411 | in `Single` mode the opening `[` is attached to item 0 only, so a blank first item drops it | `[" ", "a"]` prints `,a]` | always open with `[` and close with `]` | not executed | Logging.BlankFirstItemLosesBracket | Logging.Bracketed |
| src/Celesium/Logging/Log.cs:402-411 | in `Single` mode the closing `]` is attached to the last item only, so a blank last item drops it (in `Multiple` mode it leaves a trailing line break, as for an exception logged without a stack trace) | `["a", " "]` prints `[a` | always close with `]` | not executed | Logging.BlankLastItemLosesBracket | Logging.Bracketed |
