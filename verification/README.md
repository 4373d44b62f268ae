# solid-kotlin: signals, handlers and navigation in Dafny

This project models the event and navigation core of solid-kotlin, a Kotlin/Native UI binding, and proves properties of the model.

The core has three parts:

- **Subscription machinery.** `Event<T>` and `Signal<T>` each hold a set of handlers. `emit` runs every handler of the set with a context. An event computes the context from an optional `Bundle`; a signal always hands over its owner. Each handler (`EventHandler<T>`, `SignalHandler<T>`) keeps a weak back-reference to the emitter it last connected to, and uses it in `connect`, `disconnect` and `reconnect`. The disposable variants count their runs and disconnect themselves at a threshold. The non-generic `SignalHandler` has a nullable `connectedTo` instead.
- **Widget signal table.** A `Widget` maps native event ids to signals. Entries are filled lazily by the delegates `registerSignal` returns. `handleEvent` emits the signal under an id.
- **Navigation.** A `NavigationHost` keeps a back stack of `Fragment`s and a `currentLocation` index. Navigating runs the fragments' lifecycle hooks (`onAttached`, view creation, `onDisplay`, `onLeave`, `onDestroy`, arena clearing).
- **`Bundle`.** A string-keyed map of dynamically typed values.

Modelling choices:

- **One emitter for both classes.** Events and signals share `Emitters`, parameterised by the context function `translate: C -> T`.
  - An event is `Hub<Option<Bundle>, T>`, whose `translate` is the `create` provider.
  - A signal is `Hub<(), T>`, whose `translate` always returns the owner.
- **Identity.** Object identity becomes an id into the maps of a `Hub`.
- **Weak references.** A weak reference becomes the emitter's `alive` flag. `Free` clears it where the garbage collector would reclaim the emitter.
- **Handler sets.** Kotlin's insertion-ordered `mutableSetOf()` becomes a sequence without duplicates.
- **Callback runs.** Every run of a callback is appended to `calls`, so an emission can be stated as a trace.
- **Lifecycle hooks.** The hooks are appended to the host's `trace`.
- **Exceptions.** An out-of-range read of `activeFragment` throws in the source. Here the operation returns `Threw` together with the state the host is left in.
- **Disposable counters.** They are Kotlin `Int`s and wrap around on `count++` (`Base.Inc32`).

Modules:

- `Base`: options, 32-bit counters and the disposable counter step.
- `Registry`: the handler set.
- `Bundles`: the `Bundle` map.
- `Emitters`: emitters, handlers, emission and clearing.
- `EmitterLaws`: repeated emission, disconnect and reconnect, and coherence.
- `Events` and `Signals`: the two emitter classes.
- `BareHandlers`: the non-generic handler.
- `Widgets`: the widget signal table.
- `Fragments`: fragments and their lifecycle.
- `Navigation`: the navigation host.
- `NavigationLaws`: invariants and hook order across navigation steps.

## Model

| member | source | states |
|---|---|---|
| Base.Inc32 | src/nativeMain/kotlin/solid/events/DisposableHandlers.kt:14 | `count++` on a Kotlin `Int` adds one, and wraps from the largest value to the smallest |
| Base.Reset | src/nativeMain/kotlin/solid/events/DisposableHandlers.kt:20-30 | `connect` and `reconnect` set a disposable handler's counter to 0 and keep its threshold; a plain handler has no counter |
| Base.Bump | src/nativeMain/kotlin/solid/events/DisposableHandlers.kt:12-18 | after the callback a disposable handler increments its counter and asks to disconnect iff the new count is at least `disconnectAfter`; a plain handler does neither |
| Base.BumpTimesCounts | src/nativeMain/kotlin/solid/events/DisposableHandlers.kt:6-17 | starting from 0, after k runs the counter is k; the k-th run asks to disconnect iff k >= `disconnectAfter`, so a threshold <= 1 stops at the first run |
| Registry.Insert | src/nativeMain/kotlin/solid/events/EventHandler.kt:33 | `handlers.add` reports true iff the handler was absent; afterwards it is present, nothing else is added, no duplicate appears and the earlier order is kept |
| Registry.Remove | src/nativeMain/kotlin/solid/events/EventHandler.kt:22 | `handlers.remove` reports true iff the handler was present; afterwards it is absent, every other member stays, and an absent handler leaves the set as it was |
| Registry.InsertThenRemove | src/nativeMain/kotlin/solid/events/EventHandler.kt:22-34 | adding an absent handler and removing it again restores the set exactly |
| Registry.RemoveThenInsert | src/nativeMain/kotlin/solid/events/EventHandler.kt:22-34 | removing a present handler and adding it again restores membership, and the add reports true |
| Registry.NoDupCount | src/nativeMain/kotlin/solid/events/Event.kt:21 | a handler occurs in the set at most once |
| Bundles.Get | src/nativeMain/kotlin/solid/Bundle.kt:6-8 | `get<T>(key)` succeeds iff the stored value (null for a missing key) conforms to `T`, and then returns that value; a missing key succeeds exactly for nullable `T` |
| Bundles.Set | src/nativeMain/kotlin/solid/Bundle.kt:10-12 | `set(key, value)` makes `key` read `value`, leaves every other key as it was, and overwrites any earlier value |
| Bundles.Empty | src/nativeMain/kotlin/solid/Bundle.kt:4 | a new bundle reads null at every key |
| Bundles.GetAfterSet | src/nativeMain/kotlin/solid/Bundle.kt:6-11 | `get(k)` after `set(k, v)` returns `v` whenever the requested type admits it |
| Bundles.Create | src/nativeMain/kotlin/solid/Bundle.kt:15 | `create(setup)` applies the setup's writes to a new bundle: every key reads the last value written to it, or null if it was never written |
| Bundles.CreateHoldsLastWrites | src/nativeMain/kotlin/solid/Bundle.kt:15 | `create(setup)` is the empty bundle after the setup's writes: each key holds the last value written to it, and a key never written reads null |
| Bundles.ApplyLastWrite | src/nativeMain/kotlin/solid/Bundle.kt:10-15 | applying writes in order leaves each key with the last value written to it |
| Emitters.NewEmitter | src/nativeMain/kotlin/solid/events/Signal.kt:16-18 | a new emitter is fresh, alive and has an empty set; no other emitter and no handler changes |
| Emitters.Free | src/nativeMain/kotlin/solid/events/EventHandler.kt:12 | the collector reclaiming an emitter only makes weak references to it yield nothing; no membership changes |
| Emitters.NewHandler | src/nativeMain/kotlin/solid/events/EventHandler.kt:12-13 | constructing a handler records the emitter as its target but puts it in no set |
| Emitters.Connect | src/nativeMain/kotlin/solid/events/EventHandler.kt:31-34 | `connect(to)` retargets the back-reference to `to`, adds the handler to `to`'s set, and reports true iff it was not there. Every other set, including the previous target's, is left untouched. The generic `SignalHandler.connect` (SignalHandler.kt:30-33) and `connect(handler)` on events and signals are the same operation |
| Emitters.Disconnect | src/nativeMain/kotlin/solid/events/EventHandler.kt:22 | with a live target, `disconnect` removes the handler from that set only and reports whether it was there; with a freed target it reports true and changes nothing; the back-reference is kept. `SignalHandler.disconnect` (SignalHandler.kt:21) is the same |
| Emitters.Reconnect | src/nativeMain/kotlin/solid/events/EventHandler.kt:36-45 | `reconnect` is `connect(target)` when the target is alive; otherwise it reports false and changes no set. The disposable variant's counter is reset in both cases, as in DisposableHandlers.kt:26-30 |
| Emitters.Invoke | src/nativeMain/kotlin/solid/events/DisposableHandlers.kt:12-18 | invoking a handler records one run with the context, then takes its counter step; no emitter is created, freed or retargeted |
| Emitters.InvokeSubscriptions | src/nativeMain/kotlin/solid/events/DisposableHandlers.kt:16-17 | an invocation changes no set, except that a disposable handler reaching its threshold leaves its live target's set |
| Emitters.Visit | src/nativeMain/kotlin/solid/events/Event.kt:27-29 | visiting a snapshot appends exactly one run per handler, in set order, all with the same context |
| Emitters.VisitSteps | src/nativeMain/kotlin/solid/events/Event.kt:27-29 | over a visit, every handler of the snapshot takes exactly one counter step and every other handler keeps its state |
| Emitters.VisitSubscriptions | src/nativeMain/kotlin/solid/events/Event.kt:27-29 | over a visit, the only set changes are the self-disconnections of snapshot handlers that reach their threshold |
| Emitters.Emit | src/nativeMain/kotlin/solid/events/Event.kt:26-30 | `emit(context)` appends one run per handler of the set, each with `translateContext(context)`; with an empty set it changes nothing |
| Emitters.EmitInvokesEachSubscriberOnce | src/nativeMain/kotlin/solid/events/Event.kt:26-30 | each handler runs exactly once in an emission if it is in the set and not at all otherwise, and every run receives `translateContext(context)` |
| Emitters.EmitSubscriptions | src/nativeMain/kotlin/solid/events/DisposableHandlers.kt:16-17 | an emission changes no set except for the self-disconnections of the set's disposable handlers |
| Emitters.CallsToCallsFor | src/nativeMain/kotlin/solid/events/Event.kt:27-28 | a visit over a set without duplicates runs each handler exactly once if it is in the set and not at all otherwise |
| Emitters.CallsToAppend | src/nativeMain/kotlin/solid/events/Event.kt:27-28 | the runs of a handler over two stretches of trace add up |
| Emitters.ConnectNew | src/nativeMain/kotlin/solid/events/Event.kt:37-41 | `connect { }`, `invoke { }` (Event.kt:52, Signal.kt:35-39 and 50) and the disposable overloads make a fresh handler whose target is the emitter and which is in its set; no other membership changes |
| Emitters.DisconnectAll | src/nativeMain/kotlin/solid/events/Event.kt:44-48 | disconnecting a snapshot changes no handler state, no trace and no emitter's liveness |
| Emitters.DisconnectAllSubscriptions | src/nativeMain/kotlin/solid/events/Event.kt:44-48 | after disconnecting a snapshot, exactly the memberships that a snapshot handler holds in its own live target's set are gone |
| Emitters.ClearHandlers | src/nativeMain/kotlin/solid/events/Event.kt:43-48 | `clearHandlers` only removes memberships and leaves handler states and the trace alone (Signal.kt:41-46 is the same) |
| Emitters.ClearHandlersEmpties | src/nativeMain/kotlin/solid/events/Event.kt:43-48 | when every handler in the set names the emitter as its target, `clearHandlers` leaves the set empty |
| Emitters.DisconnectAllAbsent | src/nativeMain/kotlin/solid/events/EventHandler.kt:22 | disconnecting handlers that are in no live target's set changes nothing |
| Emitters.ClearHandlersIdempotent | src/nativeMain/kotlin/solid/events/Event.kt:43-48 | a second `clearHandlers` changes nothing |
| Emitters.ConnectExclusive | src/nativeMain/kotlin/solid/events/EventHandler.kt:31-34 | corrected `connect(to)`: it reports what the source reports, retargets the back-reference and puts the handler in `to`'s set. It first leaves the set of the emitter the back-reference named before, and it joins no other set |
| Emitters.ConnectExclusiveAgrees | src/nativeMain/kotlin/solid/events/EventHandler.kt:43-45 | when the back-reference already names the emitter, as for new handlers and `reconnect`, the corrected connect equals the source's |
| EmitterLaws.EmitChainFacts | src/nativeMain/kotlin/solid/events/Event.kt:26-30 | along repeated emissions of a live emitter, each with its own input, the hub stays valid, the emitter stays alive, no handler appears or goes, and the trace only grows |
| EmitterLaws.DisposableEmitStep | src/nativeMain/kotlin/solid/events/DisposableHandlers.kt:12-18 | one emission runs a counting handler once iff it is below its threshold, counts the run, and drops it from the set exactly when the count reaches the threshold |
| EmitterLaws.DisposableChainStep | src/nativeMain/kotlin/solid/events/DisposableHandlers.kt:12-18 | the k-th emission moves a counting handler from its state after k-1 emissions to its state after k, with one more run iff it was below the threshold |
| EmitterLaws.DisposableStateAfter | src/nativeMain/kotlin/solid/events/DisposableHandlers.kt:12-18 | after k emissions with any inputs a handler with count c and threshold n has count c + min(k, n - c), and it is in the set iff c + k < n |
| EmitterLaws.DisposableRunsUpToThreshold | src/nativeMain/kotlin/solid/events/DisposableHandlers.kt:12-18 | over k emissions with any inputs such a handler runs min(k, n - c) times |
| EmitterLaws.DisposableRunsOneMore | src/nativeMain/kotlin/solid/events/DisposableHandlers.kt:12-18 | one more emission adds one run of a counting handler iff it was still below its threshold, so its run count goes from min(k - 1, n - c) to min(k, n - c) |
| EmitterLaws.ConnectDisposableRunsExactly | src/nativeMain/kotlin/solid/events/DisposableHandlers.kt:5-32 | `connectDisposable(n)` with n >= 1 returns a connected handler that runs min(k, n) times over k emissions with any inputs, and is out of the set iff k >= n (DisposableSignalHandler.kt:5-32 is the same for `Signal<T>`) |
| EmitterLaws.ConnectNewCounting | src/nativeMain/kotlin/solid/events/DisposableHandlers.kt:5-32 | `connectDisposable(n)` with n >= 1 makes a handler with counter 0 and threshold n that is in the emitter's set and names it as its target |
| EmitterLaws.DisposableAtMostOnce | src/nativeMain/kotlin/solid/events/DisposableHandlers.kt:6-17 | with `disconnectAfter` <= 1 the handler runs once on the next emission and leaves the set |
| EmitterLaws.DisconnectSilences | src/nativeMain/kotlin/solid/events/EventHandler.kt:19-22 | in a coherent hub a disconnected handler is in no live set, and no later emission runs it |
| EmitterLaws.DisconnectThenReconnect | src/nativeMain/kotlin/solid/events/EventHandler.kt:22-45 | `disconnect` then `reconnect` both succeed, restore exactly the memberships there were, and the next emission of the target runs the handler once |
| EmitterLaws.EmitKeepsCoherent | src/nativeMain/kotlin/solid/events/Event.kt:26-30 | emission keeps every handler in a live set pointing back at that emitter |
| EmitterLaws.ReconnectKeepsCoherent | src/nativeMain/kotlin/solid/events/EventHandler.kt:43-45 | `reconnect` keeps every handler in a live set pointing back at that emitter |
| EmitterLaws.ConnectNewKeepsCoherent | src/nativeMain/kotlin/solid/events/Event.kt:37-41 | the lambda overloads keep every handler in a live set pointing back at that emitter |
| EmitterLaws.NewEmitterKeepsCoherent | src/nativeMain/kotlin/solid/events/Signal.kt:16-18 | creating an emitter keeps every handler in a live set pointing back at that emitter |
| EmitterLaws.NewHandlerKeepsCoherent | src/nativeMain/kotlin/solid/events/EventHandler.kt:12-13 | constructing a handler keeps every handler in a live set pointing back at that emitter |
| EmitterLaws.FreeKeepsCoherent | src/nativeMain/kotlin/solid/events/EventHandler.kt:12 | reclaiming an emitter keeps every handler in a live set pointing back at that emitter |
| EmitterLaws.DisconnectKeepsCoherent | src/nativeMain/kotlin/solid/events/EventHandler.kt:22 | `disconnect` keeps every handler in a live set pointing back at that emitter |
| EmitterLaws.ClearHandlersKeepsCoherent | src/nativeMain/kotlin/solid/events/Event.kt:43-48 | `clearHandlers` keeps every handler in a live set pointing back at that emitter |
| EmitterLaws.SwitchLeavesStaleSubscription | src/nativeMain/kotlin/solid/events/EventHandler.kt:31-34 | as written, `connect(b)` on a handler in live `a`'s set breaks coherence. After it, `disconnect` leaves the handler in `a`, `a.emit` still runs it once, and `a.clearHandlers` does not remove it |
| EmitterLaws.ConnectExclusiveKeepsCoherent | src/nativeMain/kotlin/solid/events/EventHandler.kt:31-34 | the corrected connect keeps every handler in a live set pointing back at that emitter |
| EmitterLaws.ExclusiveSwitchThenDisconnect | src/nativeMain/kotlin/solid/events/EventHandler.kt:19-34 | with the corrected connect, switching emitters and then disconnecting leaves the handler in no live set, and no emission runs it |
| EmitterLaws.ExclusiveSwitchThenClear | src/nativeMain/kotlin/solid/events/Event.kt:43-48 | with the corrected connect, `clearHandlers` on any live emitter afterwards empties its set |
| EmitterLaws.CoherentClearEmpties | src/nativeMain/kotlin/solid/events/Event.kt:43-48 | in a coherent hub `clearHandlers` empties the set |
| Events.Create | src/nativeMain/kotlin/solid/events/Event.kt:54-57 | `Event.create(provider)` makes a fresh live event with no handlers, whose context function is `provider`; nothing that existed before is lost |
| Events.EmitDeliversProvided | src/nativeMain/kotlin/solid/events/Event.kt:26-30 | for an event built by `create(p)`, every later emission runs each handler of its set once with `p(context)`, whatever handlers and emitters were created and whatever connects, disconnects, emissions and clears happened in between, as long as the event has not been reclaimed |
| Signals.New | src/nativeMain/kotlin/solid/events/Signal.kt:16-18 | `Signal(owner)` makes a fresh live signal with no handlers whose owner is `owner` |
| Signals.EmitSignal | src/nativeMain/kotlin/solid/events/Signal.kt:24-28 | `emit()` creates, frees and retargets nothing, keeps the earlier trace as a prefix, and every run it appends receives the owner |
| Signals.EmitSignalOnce | src/nativeMain/kotlin/solid/events/Signal.kt:24-28 | each handler runs once per emission iff it is in the set |
| Signals.OwnerNeverChanges | src/nativeMain/kotlin/solid/events/Signal.kt:16 | the owner is fixed at construction: after any later operations (new signals and handlers, connects, disconnects, emissions, clears), as long as the signal has not been reclaimed, each emission still hands every handler the original owner |
| BareHandlers.New | src/nativeMain/kotlin/solid/events/SignalHandler.kt:5-6 | a new handler is not connected |
| BareHandlers.Connected | src/nativeMain/kotlin/solid/events/SignalHandler.kt:8 | `connected` holds exactly when `connectedTo` is not null |
| BareHandlers.Disconnect | src/nativeMain/kotlin/solid/events/SignalHandler.kt:11 | unconnected, `disconnect` reports true, asks no signal and leaves the handler alone; connected, it asks that signal to drop the handler and reports its reply, and the handler stays connected iff the signal does not clear it |
| BareHandlers.Invoke | src/nativeMain/kotlin/solid/events/DisposableHandlers.kt:39-44 | `invoke` runs the callback once, then a disposable handler counts the run and asks its own signal to drop it iff it is connected and at its threshold; only that request can clear `connectedTo` |
| BareHandlers.ConnectDisposable | src/nativeMain/kotlin/solid/events/DisposableHandlers.kt:35-46 | the non-generic `connectDisposable` returns a counting handler with count 0 that is not connected |
| BareHandlers.InvokeTimes | src/nativeMain/kotlin/solid/events/DisposableHandlers.kt:39-44 | over repeated invocations a handler keeps its signal or ends with none, and keeps it whenever the signal never clears; a plain handler never changes and only runs its callback |
| BareHandlers.DisposableCountdown | src/nativeMain/kotlin/solid/events/DisposableHandlers.kt:39-44 | a disposable handler starting at count c with threshold n counts c + k after k runs. A connected one asks its signal to drop it on each run that brings the count to n or beyond, only on the first such run when the signal clears it, and is disconnected afterwards exactly then |
| BareHandlers.DisposableNeverReachesASignal | src/nativeMain/kotlin/solid/events/DisposableHandlers.kt:35-46 | a handler from the non-generic `connectDisposable` counts k runs, but each run only executes the callback, and it never asks any signal to drop it |
| BareHandlers.InvokeTimesCounts | src/nativeMain/kotlin/solid/events/DisposableHandlers.kt:39-42 | k invocations take k counter steps |
| BareHandlers.InvokeTimesNoRequest | src/nativeMain/kotlin/solid/events/DisposableHandlers.kt:39-44 | an unconnected handler stays unconnected, and its invocations each run the callback once and send no request |
| BareHandlers.ConnectedDisposableRequestsAtThreshold | src/nativeMain/kotlin/solid/events/DisposableHandlers.kt:39-44 | a connected handler with threshold <= 1 runs the callback and then asks its signal to drop it |
| Widgets.NewWidget | src/nativeMain/kotlin/solid/widgets/Widget.kt:18 | a new widget has no signal registered |
| Widgets.RegisterSignal | src/nativeMain/kotlin/solid/widgets/Widget.kt:32-34 | `registerSignal(id)` returns a delegate for `id` with nothing cached, and does not touch the map |
| Widgets.GetValue | src/nativeMain/kotlin/solid/widgets/Widget.kt:36-41 | the first read creates a fresh signal with no handlers, caches it and stores it under the id, replacing any entry; later reads return the cached signal and change nothing |
| Widgets.HandleEvent | src/nativeMain/kotlin/solid/widgets/Widget.kt:20-22 | `handleEvent(id)` reports true iff a signal is stored under `id`; with none it changes nothing; with one, it appends exactly one run for each handler of that signal |
| Widgets.HandleEventRunsThatSignal | src/nativeMain/kotlin/solid/widgets/Widget.kt:21 | a handler runs once iff it is in the set of the signal under the id, and no other handler runs |
| Widgets.HandleEventTouchesOnlyThatSignal | src/nativeMain/kotlin/solid/widgets/Widget.kt:21 | in a coherent hub no other signal's set changes |
| Widgets.TryWrap | src/nativeMain/kotlin/solid/widgets/Widget.kt:72-74 | the shipped `tryWrap` resolves no pointer |
| Widgets.NativeEventHandler | src/nativeMain/kotlin/solid/widgets/Widget.kt:45-47 | when widget resolution fails the native callback reports false and dispatches nothing; otherwise it is `handleEvent` |
| Widgets.ShippedCallbackDispatchesNothing | src/nativeMain/kotlin/solid/widgets/Widget.kt:45-47 | with the shipped `tryWrap`, which resolves nothing, the native callback reports false and changes no signal, handler or trace |
| Widgets.LazyRegistration | src/nativeMain/kotlin/solid/widgets/Widget.kt:27-40 | registering adds no entry. The first read adds exactly the entry for the id, pointing at a new signal without handlers, and keeps the other entries. A second read returns that signal and changes nothing |
| Widgets.SecondDelegateReplacesEntry | src/nativeMain/kotlin/solid/widgets/Widget.kt:18-38 | a second delegate for the same id replaces the entry with its own signal, while the first delegate keeps returning the old one |
| Fragments.NewFragment | src/nativeMain/kotlin/solid/navigation/Fragment.kt:14-18 | a new fragment has no host, no root, and an unused arena |
| Fragments.Init | src/nativeMain/kotlin/solid/navigation/Fragment.kt:28-33 | `init` records `onAttached` before the view is built, stores the built view as the root and returns it |
| Fragments.Destroy | src/nativeMain/kotlin/solid/navigation/Fragment.kt:35-43 | `destroy` records `onDestroy` first, and then clears the arena iff it was used |
| Fragments.Alloc | src/nativeMain/kotlin/solid/navigation/Fragment.kt:19-22 | an allocation marks the arena used and changes nothing else |
| Fragments.ArenaFlagMonotone | src/nativeMain/kotlin/solid/navigation/Fragment.kt:18-22 | the arena flag is unset on a new fragment, set from the first allocation on, and `init` leaves it as it was |
| Fragments.AllocTimesUsed | src/nativeMain/kotlin/solid/navigation/Fragment.kt:19-22 | after k allocations the flag is set iff it was set before or k >= 1, and nothing else changed |
| Navigation.ActiveFragment | src/nativeMain/kotlin/solid/navigation/NavigationHost.kt:15-16 | `activeFragment` is defined iff the location is within the stack, and on an indexed host it is the top |
| Navigation.AddFragment | src/nativeMain/kotlin/solid/navigation/NavigationHost.kt:43-45 | a factory adds one fresh fragment and leaves the stack, the location and the hooks alone |
| Navigation.AllocIn | src/nativeMain/kotlin/solid/navigation/Fragment.kt:21-22 | allocating in a fragment marks its arena used and touches no navigation state |
| Navigation.NavigateTo | src/nativeMain/kotlin/solid/navigation/NavigationHost.kt:51-64 | `navigateTo(f)` throws exactly when `activeFragment` does, leaving the host as it was; when `f` is active it changes nothing |
| Navigation.NavigateUp | src/nativeMain/kotlin/solid/navigation/NavigationHost.kt:27-37 | `navigateUp` at location <= 0 or on an empty stack changes nothing; it never changes the fragments themselves |
| Navigation.PopStack | src/nativeMain/kotlin/solid/navigation/NavigationHost.kt:22-25 | `popStack` returns none at the root and throws only on an empty stack above the root. Otherwise it removes and returns the top, runs no hook, and leaves the location where it was |
| Navigation.PopStackIndexed | src/nativeMain/kotlin/solid/navigation/NavigationHost.kt:22-25 | corrected `popStack`: same as the source, except that the location moves down with the top, so an indexed host stays indexed |
| Navigation.Find | src/nativeMain/kotlin/solid/navigation/NavigationHost.kt:39-41 | `find<T>()` returns none iff no fragment of the class is on the stack, and otherwise the lowest one of that class |
| Navigation.FindFrom | src/nativeMain/kotlin/solid/navigation/NavigationHost.kt:40 | the stack search from a position returns the first fragment of the class at or after it |
| Navigation.FindOrCreate | src/nativeMain/kotlin/solid/navigation/NavigationHost.kt:43-45 | `findOrCreate` returns what `find` returns and changes nothing; failing that, it returns a new fragment of the class that is not on the stack |
| Navigation.NavigateToDestination | src/nativeMain/kotlin/solid/navigation/NavigationHost.kt:47-49 | `navigateTo(where, arguments)` navigates to the fragment the destination resolves with those arguments, and throws exactly when the resolved host has no active fragment |
| Navigation.FragmentNavigateTo | src/nativeMain/kotlin/solid/navigation/Fragment.kt:45-47 | a fragment's `navigateTo(where, arguments)` is its host's `navigateTo(where, arguments)`; without a host it throws before resolving anything, and it returns normally only with a host |
| Navigation.FragmentNavigateUp | src/nativeMain/kotlin/solid/navigation/Fragment.kt:49-51 | a fragment's `navigateUp` is its host's; without a host it throws |
| Navigation.NewHostAsWritten | src/nativeMain/kotlin/solid/navigation/NavigationHost.kt:7-20 | the constructor as written throws, and leaves the stack empty with no hook run |
| Navigation.NewHost | src/nativeMain/kotlin/solid/navigation/NavigationHost.kt:7-20 | corrected constructor: the root is initialised, becomes the only stack entry at location 0, and is displayed |
| NavigationLaws.NavigateToPushes | src/nativeMain/kotlin/solid/navigation/NavigationHost.kt:51-64 | from an indexed host, `navigateTo(f)` with `f` not active appends `f` (even if it is lower down) and keeps the invariant. It sets the host, `init`s `f` only if it was not on the stack, then records `onLeave` of the old top before `onDisplay` of `f`. No other fragment changes |
| NavigationLaws.NavigateUpPops | src/nativeMain/kotlin/solid/navigation/NavigationHost.kt:27-37 | from an indexed host, `navigateUp` keeps the invariant and never throws. At the root it is a no-op. Otherwise it pops the top and records `onDisplay` of the new top before the popped fragment's `onDestroy` and arena clear |
| NavigationLaws.NavigateToThenUp | src/nativeMain/kotlin/solid/navigation/NavigationHost.kt:27-64 | going to a fragment and back up restores the stack and location, destroying the fragment that was pushed |
| NavigationLaws.RevisitDestroysStackedFragment | src/nativeMain/kotlin/solid/navigation/NavigationHost.kt:56-59 | a fragment already lower on the stack is pushed again without a second `init`, and navigating up from it destroys it while it is still on the stack |
| NavigationLaws.PopStackBreaksIndex | src/nativeMain/kotlin/solid/navigation/NavigationHost.kt:22-25 | as written, `popStack` above the root leaves the host unindexed. After it, `activeFragment`, the next `navigateUp` and the next `navigateTo` all throw |
| NavigationLaws.PopStackThenNavigateUpThrows | src/nativeMain/kotlin/solid/navigation/NavigationHost.kt:22-36 | concretely: with stack [0, 1, 2] at location 2, `popStack` leaves [0, 1] at location 2, and `navigateUp` then throws |
| NavigationLaws.PopStackIndexedKeepsIndex | src/nativeMain/kotlin/solid/navigation/NavigationHost.kt:22-25 | the corrected `popStack` keeps the invariant, so the next `navigateUp` succeeds |
| NavigationLaws.NewHostAsWrittenThrows | src/nativeMain/kotlin/solid/navigation/NavigationHost.kt:15-20 | the constructor as written always throws: its `navigateTo(root)` reads `activeFragment` of the empty stack |
| NavigationLaws.NewHostNavigates | src/nativeMain/kotlin/solid/navigation/NavigationHost.kt:7-20 | from the corrected constructor, navigating to another fragment succeeds and navigating up stays at the root |
| NavigationLaws.FindOrCreateDoesNotRemember | src/nativeMain/kotlin/solid/navigation/NavigationHost.kt:43-45 | `findOrCreate` does not push what it creates, so a second call for a class absent from the stack creates yet another fragment |

## Left out

- **Live-set iteration.** `emit` and `clearHandlers` iterate the live `MutableSet` while handlers remove themselves from it (Event.kt:27 and 45). The model visits a snapshot of the set taken at the start. What Kotlin's iterator does on such a removal is not modelled.
- **Callbacks.** Callback bodies are opaque: a run is recorded in the trace and has no other effect. A callback that connects, disconnects or emits re-entrantly is not modelled.
- **Garbage collection.** When an emitter becomes unreachable is not modelled; `Emitters.Free` marks the moment explicitly.
- **The non-generic `Signal` class.** The class used by `Widget` and the non-generic `SignalHandler` is not part of this model.
  - What its `disconnect(handler)` replies, and whether it resets the handler's `connectedTo` to null, are the `SignalSide` parameter of `BareHandlers.Disconnect`, `BareHandlers.Invoke` and `BareHandlers.InvokeTimes`.
  - Widget signals are modelled as `Signal<Unit>`.
  - The Boolean its `emit()` returns inside `handleEvent` is taken as true.
- **Native interop.** `wrap` (always throws), `maybeWrap` (`TODO()`), `staticCFunction`, `StableRef` and pointers are left out. Widget resolution is an optional value, and `tryWrap` is the stub that resolves nothing.
- **View construction.** `provideFragmentRoot` is `TODO()` in the source, so as written `navigateTo` throws for every fragment not yet on the stack. The model instead takes the view that `createView` builds as a parameter and treats it as opaque. Destroying the root widget is a TODO in the source and is not modelled.
- **Arena memory.** Arena allocations and clearing are recorded only through the used flag and the `ArenaCleared` hook.
- **Destinations.** `Destination.navigate` is a resolver function passed to `Navigation.NavigateToDestination`. The reified class tests of `find`/`findOrCreate` and the casts of `Bundle.get` are comparisons of class tags. Subclassing is not modelled.
- **Fragment ownership.** A fragment's `host` is a flag. All fragments belong to the one host being modelled, so a fragment moved between hosts is not modelled.
- **Index width.** `currentLocation` is an unbounded integer. A Kotlin `Int` index cannot overflow here, because the stack would need 2^31 entries first.
- Emitters.Emit: the context function is applied once per emission, and every run receives that value. Event.kt:28 calls `translateContext` once per handler. The two agree because a provider is a pure function here; a provider with side effects, or one that builds a new object on every call, is not modelled.
- BareHandlers.Disconnect: the non-generic `Signal.disconnect(handler)` is not part of this model, so the contract promises only what follows from `SignalHandler.kt:11` for each `SignalSide`, not what that signal actually replies or whether it clears `connectedTo`.
- BareHandlers.DisposableCountdown: stated for fewer than 2^31 - 1 runs past the starting count, where the counter has not wrapped.
- Navigation.NewHostAsWritten: takes the fragment `root.navigate(this, null)` resolves to as an argument. A destination whose resolution pushes onto the still-empty stack before `navigateTo` reads it is not modelled.
- Navigation.FindOrCreate: the factory is modelled as a constructor, so its fragment is always new (`r.1 !in h.fragments`), and `NavigationLaws.FindOrCreateDoesNotRemember` relies on that. A factory that returns a fragment that already exists, such as one `popStack` removed earlier, is not covered.
- Emitters.Reconnect: the disposable handler's counter is reset before the target's liveness is checked, so a failed `reconnect` still resets it. This follows DisposableHandlers.kt:26-30 and is stated as such.
- Base.BumpTimesCounts: stated for fewer than 2^31 - 1 runs, where the counter has not wrapped; `Base.Inc32` states the wrap itself.
- BareHandlers.DisposableNeverReachesASignal: the counter value is stated for fewer than 2^31 - 1 runs for the same reason; `BareHandlers.InvokeTimesNoRequest` states the absence of disconnect requests for any number of runs.
- EmitterLaws.DisposableStateAfter: like `Base.BumpTimesCounts`, it assumes the counter starts in [0, `disconnectAfter`] (the `CountingOn` predicate). A counter pushed past `Int` range by more than 2^31 runs of a handler whose threshold is never reached is not covered.

## Findings

| source | as written | input that shows it | evidently intended | confidence | as-written member | corrected member |
|---|---|---|---|---|---|---|
| src/nativeMain/kotlin/solid/events/EventHandler.kt:31-34 | `connect(to)` overwrites the back-reference but never removes the handler from the set of the emitter it was connected to | handler `h` in live event `a`'s set; `h.connect(b)`; then `h.disconnect()`: `h` stays in `a`'s set, `a.emit()` still runs it, and `a.clearHandlers()` cannot remove it | a handler is only in the set its back-reference names, so that `disconnect` stops all events as documented | medium, not executed | EmitterLaws.SwitchLeavesStaleSubscription | Emitters.ConnectExclusive |
| src/nativeMain/kotlin/solid/navigation/NavigationHost.kt:22-25 | `popStack` removes the top fragment but leaves `currentLocation` pointing past the end | stack [0, 1, 2] at location 2; `popStack()` leaves [0, 1] at location 2; `activeFragment`, `navigateUp()` and `navigateTo(x)` all throw an index exception | the location follows the removed top (`currentLocation -= 1`), as in `navigateUp` | high, not executed | NavigationLaws.PopStackThenNavigateUpThrows | Navigation.PopStackIndexed |
| src/nativeMain/kotlin/solid/navigation/NavigationHost.kt:15-20 | the constructor calls `navigateTo(root)`, which first reads `activeFragment`, i.e. `stack[0]` of the still-empty stack | any root destination: `NavigationHost(root)` throws before anything is pushed | the root becomes the only stack entry at location 0 and is displayed | high, not executed | NavigationLaws.NewHostAsWrittenThrows | Navigation.NewHost |
