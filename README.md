# Bindable binding graphs, modelled and proved in Dafny

This project models the core of the Kotlin `bindable` library, a port of osu!framework's
`Bindable`. A Bindable holds a value and a disabled flag. Bindables that are bound
together propagate every change of either one to each other, in both directions. Each
holds its peers through a list of weak references. Observers subscribe to two events,
`valueChanged` and `disabledChanged`. A bindable can be leased: a `LeasedBindable` bound
to it is then the only way to change the group until the lease is returned.

The repository holds two versions of the library, and both are modelled:

- **The current library** (`bindable/src/commonMain/...`):
  - `BindableImpl` and `LeasedBindableImpl`;
  - the weak-reference list;
  - `getBoundCopyImplementation`;
  - the `bindTo(vararg)` extension and the `Bindable(...)` factories;
  - `Event`.
- **The legacy JVM library** (`src/main/...`):
  - the older `Bindable`, which has no leases, checks for self-binding and allows `null` values;
  - its `WeakReferenceList`;
  - its `Event`.

## How the model is built

- **The arena** (`Arena`). Every Bindable object is a `Cell` in a map from `CellId` to
  cell. A cell holds:
  - its value, disabled flag and list of weak handles (`links`);
  - an `alive` flag (a handle to a dead cell reads as `null`);
  - its two observer lists;
  - the lease it has handed out;
  - for a lease holder, the holder's own fields.

  A `World` adds `log`, the observer calls made so far in order, and `next`, the next
  fresh id.
- **Waves** (`Waves`). One propagation is a walk that, from each cell, visits its handles
  and skips only the cell it came from. `Forest` says that every such walk is a simple
  path. That is enough for propagation to terminate, but it is not necessary: a cell
  bound to itself breaks `Forest`, yet its waves end. `Wave`/`FullWave` are the trace of
  one propagation: the cells entered, and the cells that completed and fired their
  observers, in order.
- **Specification functions** (`BindableSpec`, `LegacySpec`). Each public operation has
  a ghost function on `World`: `AssignValue`, `BindTo`, `BeginLease`, `ReturnLease`,
  `UnbindAll`, … The error outcomes the code throws are values of `Outcome`/`Result`
  (`DisabledMutation`, `AlreadyBound`, `LeaseActive`, `NullUnbind`, …).
- **Imperative classes** (`BindableGraph.Graph`, `LegacyGraphs.LegacyGraph`). These hold
  the same state in fields that their methods update. They implement the operations the
  way the Kotlin code does, with recursion and loops:
  - the internal setter enters a cell;
  - it purges dead handles;
  - it calls itself on each peer except the sender;
  - it fires when the value is unchanged after propagation.

  Each method is proved to produce exactly the state and outcome of its specification
  function.
- **Property lemmas** (`BindableProps`, `LeaseProps`, `ReturnProps`, `UnbindProps`,
  `LegacyProps`). These prove what the library promises about the specification
  functions: a change reaches exactly the bound component; binds are refused twice; a
  lease round trip frees the source, keeps every value and gives the source's component
  the source's pre-lease flag; unbinding undoes binding; and so on.
- **Smaller pieces**:
  - `LinkList` and its class `WeakRefList` model the weak-reference list (purge, remove-first);
  - `Observers` and its class `Event` model the observer set.

Kotlin's `Unset`/`null` start value is the parameter `unset` of the current library's
graph. Legacy values are `Option<T>`, with `None` for `null`.

Where the code and the library's own description disagree, the model follows the code:

- The description says bound cycles are safe. The code excludes only the immediate
  sender, so a cycle of three or more bindables recurses forever. The model therefore
  requires the bound topology to be a forest.
- The description says the list's `size` counts only live references. The code returns
  the size of the underlying list, dead entries included.
- The description says propagation cannot fail. In the code, a disabled-flag wave that
  meets a leased peer throws part-way through, after some peers were already written.
  The model reports `LeaseActive` and keeps the partial writes.

## Model

| member | source | states |
|---|---|---|
| Waves.WaveLength | bindable/src/commonMain/kotlin/moe/ganen/bindable/BindableImpl.kt:93-98 | in a forest, every propagation walk is no longer than the number of cells, so the recursion terminates |
| Waves.WaveIsSimplePath | bindable/src/commonMain/kotlin/moe/ganen/bindable/BindableImpl.kt:94-96 | in a forest, a walk that skips only its sender is a simple path of distinct cells |
| Waves.CycleIsNotForest | bindable/src/commonMain/kotlin/moe/ganen/bindable/BindableImpl.kt:94-96 | a bound cycle of three or more cells is not a forest: skipping only the sender does not stop a walk round the cycle |
| Waves.LinkFreshForest | bindable/src/commonMain/kotlin/moe/ganen/bindable/internal/LeasedBindableImpl.kt:16-17 | binding a fresh cell to one existing cell keeps the topology a forest |
| Waves.SubForest | bindable/src/commonMain/kotlin/moe/ganen/bindable/BindableImpl.kt:234-235 | removing handles keeps a forest a forest |
| Waves.CutSeparates | bindable/src/commonMain/kotlin/moe/ganen/bindable/BindableImpl.kt:234-235 | once the one handle pair between two cells of a forest is removed, neither reaches the other |
| Waves.WaveReachesComponent | bindable/src/commonMain/kotlin/moe/ganen/bindable/BindableImpl.kt:93-98 | the cells an unblocked wave from n enters are exactly the cells reachable from n, apart from n itself |
| Waves.BelowIffReaches | bindable/src/commonMain/kotlin/moe/ganen/bindable/BindableImpl.kt:188-200 | a cell lies below the root of the lease scan iff it is another cell reachable from the root |
| Waves.CompletedIsEntered | bindable/src/commonMain/kotlin/moe/ganen/bindable/BindableImpl.kt:100-102 | every cell a wave enters completes and fires exactly once in the trace, as a multiset |
| Waves.EnteredNotBlocked | bindable/src/commonMain/kotlin/moe/ganen/bindable/BindableImpl.kt:135 | a guarded wave never enters a leased cell |
| Waves.OkWaveIsUnguarded | bindable/src/commonMain/kotlin/moe/ganen/bindable/BindableImpl.kt:135 | a guarded wave that does not stop has the same trace as the unguarded wave |
| Waves.StoppedAtBlocked | bindable/src/commonMain/kotlin/moe/ganen/bindable/BindableImpl.kt:135 | a guarded wave that stops does so because some cell below it is leased |
| Waves.GuardedWaveOk | bindable/src/commonMain/kotlin/moe/ganen/bindable/BindableImpl.kt:130-157 | a guarded wave from n completes iff no leased cell other than n is reachable from n, and it then equals the unguarded wave |
| Waves.LinkedApart | bindable/src/commonMain/kotlin/moe/ganen/bindable/BindableImpl.kt:32-42 | if adding the link a-b keeps a forest, then a and b were distinct and not yet connected |
| LinkList.LiveKeepsLiveEntries | bindable/src/commonMain/kotlin/moe/ganen/bindable/internal/WeakReferenceList.kt:41-45 | the purge keeps exactly the handles to live cells, each as often as before, and drops the dead ones |
| LinkList.LiveIdempotent | bindable/src/commonMain/kotlin/moe/ganen/bindable/internal/WeakReferenceList.kt:41-45 | purging an already purged list changes nothing |
| LinkList.LiveAppend | bindable/src/commonMain/kotlin/moe/ganen/bindable/internal/WeakReferenceList.kt:41-45 | the purge distributes over appending handles |
| LinkList.RemoveFirstCount | bindable/src/commonMain/kotlin/moe/ganen/bindable/internal/WeakReferenceList.kt:26-29 | remove takes out exactly one occurrence of a listed handle |
| LinkList.RemoveAppended | bindable/src/commonMain/kotlin/moe/ganen/bindable/internal/WeakReferenceList.kt:26-29 | removing a handle just added to a list that did not hold it gives back the old list |
| LinkList.LiveRemoveFirst | bindable/src/commonMain/kotlin/moe/ganen/bindable/internal/WeakReferenceList.kt:26-45 | removing a live handle commutes with purging the dead ones |
| LinkList.WeakRefList.constructor | bindable/src/commonMain/kotlin/moe/ganen/bindable/internal/WeakReferenceList.kt:48 | a new list is empty |
| LinkList.WeakRefList.Add | bindable/src/commonMain/kotlin/moe/ganen/bindable/BindableImpl.kt:238-240 | add appends the handle at the end |
| LinkList.WeakRefList.Remove | bindable/src/commonMain/kotlin/moe/ganen/bindable/internal/WeakReferenceList.kt:26-29 | remove deletes the first equal handle and reports whether there was one; otherwise the list is unchanged |
| LinkList.WeakRefList.Clear | bindable/src/commonMain/kotlin/moe/ganen/bindable/internal/WeakReferenceList.kt:16-19 | clear empties the list |
| LinkList.WeakRefList.Size | bindable/src/commonMain/kotlin/moe/ganen/bindable/internal/WeakReferenceList.kt:31-32 | size is the number of entries, dead ones included; it is zero iff the list is empty |
| LinkList.WeakRefList.ForAliveRefs | bindable/src/commonMain/kotlin/moe/ganen/bindable/internal/WeakReferenceList.kt:34-45 | dead handles are purged, and the visits are the live handles in list order, each as often as listed |
| Observers.SubscribeAdds | bindable/src/commonMain/kotlin/moe/ganen/bindable/Event.kt:9-11 | += keeps the earlier observers in order and adds the new one |
| Observers.SubscribeIdempotent | bindable/src/commonMain/kotlin/moe/ganen/bindable/Event.kt:7-11 | adding an observer twice is the same as adding it once, so the set stays duplicate-free |
| Observers.UnsubscribeRemoves | bindable/src/commonMain/kotlin/moe/ganen/bindable/Event.kt:13-15 | -= removes exactly that observer, and an absent one changes nothing |
| Observers.UnsubscribeDistinct | bindable/src/commonMain/kotlin/moe/ganen/bindable/Event.kt:13-15 | -= keeps the observer set duplicate-free |
| Observers.SubscribeThenUnsubscribe | bindable/src/commonMain/kotlin/moe/ganen/bindable/Event.kt:9-15 | adding and then removing a new observer restores the set |
| Observers.InvocationCalls | bindable/src/commonMain/kotlin/moe/ganen/bindable/Event.kt:17-20 | invoking calls each observer as many times as it is registered; in a channel without duplicates each member is called exactly once and no one else is called |
| Observers.Event.constructor | bindable/src/commonMain/kotlin/moe/ganen/bindable/Event.kt:6-7 | a new event has no observers |
| Observers.Event.PlusAssign | bindable/src/commonMain/kotlin/moe/ganen/bindable/Event.kt:9-11 | the observers become the subscription of the new one, with the set kept duplicate-free |
| Observers.Event.MinusAssign | bindable/src/commonMain/kotlin/moe/ganen/bindable/Event.kt:13-15 | the observers become the set without the removed one, with the set kept duplicate-free |
| Observers.Event.Invoke | bindable/src/commonMain/kotlin/moe/ganen/bindable/Event.kt:17-20 | the calls made are one per observer, in order, each with the payload |
| Observers.Event.Clear | bindable/src/commonMain/kotlin/moe/ganen/bindable/Event.kt:22-24 | clear removes every observer |
| BindableSpec.Spread | bindable/src/commonMain/kotlin/moe/ganen/bindable/BindableImpl.kt:75-157 | a propagation wave never adds, removes or re-points a handle or a cell, keeps the topology and the arena sound, and only purges dead handles |
| BindableSpec.AssignValue | bindable/src/commonMain/kotlin/moe/ganen/bindable/BindableImpl.kt:53-62 | the value setter keeps the arena ready (sound, and the topology a forest) and the topology unchanged |
| BindableSpec.AssignDisabled | bindable/src/commonMain/kotlin/moe/ganen/bindable/BindableImpl.kt:111-118 | the disabled setter keeps the arena ready and the topology unchanged |
| BindableSpec.BindSetters | bindable/src/commonMain/kotlin/moe/ganen/bindable/BindableImpl.kt:32-38 | the already-bound check and the two setters keep the arena ready and the topology unchanged; they complete only when b is not yet a live peer of a |
| BindableSpec.BindTo | bindable/src/commonMain/kotlin/moe/ganen/bindable/BindableImpl.kt:32-42 | bindTo keeps the arena ready; the topology gains the link a-b exactly when the bind completes |
| BindableSpec.BindToAll | bindable/src/commonMain/kotlin/moe/ganen/bindable/BindableExt.kt:8-10 | the vararg bindTo keeps the arena ready and creates no cell |
| BindableSpec.Create | bindable/src/commonMain/kotlin/moe/ganen/bindable/BindableExt.kt:16-26 | a factory call uses the next fresh id and keeps the arena ready |
| BindableSpec.GetBoundCopy | bindable/src/commonMain/kotlin/moe/ganen/bindable/Bindable.kt:106-118 | getBoundCopy keeps the arena ready |
| BindableSpec.NewHolder | bindable/src/commonMain/kotlin/moe/ganen/bindable/internal/LeasedBindableImpl.kt:16-27 | the LeasedBindableImpl constructor yields a live lease-holder cell and keeps the arena ready |
| BindableSpec.StartHolder | bindable/src/commonMain/kotlin/moe/ganen/bindable/internal/LeasedBindableImpl.kt:18-26 | the rest of the constructor after bindTo keeps the holder a live holder and the arena ready |
| BindableSpec.BeginLease | bindable/src/commonMain/kotlin/moe/ganen/bindable/BindableImpl.kt:166-175 | beginLease keeps the arena ready and the leased cell alive |
| BindableSpec.EndLease | bindable/src/commonMain/kotlin/moe/ganen/bindable/BindableImpl.kt:177-186 | endLease changes no cell's kind, handle or liveness, and keeps the arena ready |
| BindableSpec.UnbindFrom | bindable/src/commonMain/kotlin/moe/ganen/bindable/BindableImpl.kt:223-236 | unbindFrom keeps the arena ready and every cell's liveness; UnbindProps.UnbindFromSome and UnbindProps.UnbindFromAbsent give its effect |
| BindableSpec.UnbindEach | bindable/src/commonMain/kotlin/moe/ganen/bindable/BindableImpl.kt:218-220 | unbinding a snapshot of handles one by one keeps the arena ready |
| BindableSpec.UnbindBindings | bindable/src/commonMain/kotlin/moe/ganen/bindable/BindableImpl.kt:215-221 | unbindBindings keeps the arena ready and every cell's liveness; what it does to x and to x's peers is UnbindProps.UnbindBindingsEffect |
| BindableSpec.ClearAndUnbind | bindable/src/commonMain/kotlin/moe/ganen/bindable/BindableImpl.kt:206-207 | clearing the events and unbinding keeps the arena ready and only marks holders returned |
| BindableSpec.ReturnLease | bindable/src/commonMain/kotlin/moe/ganen/bindable/internal/LeasedBindableImpl.kt:31-42 | returnLease keeps the arena ready, and a successful return leaves the holder marked returned |
| BindableSpec.HolderUnbindAll | bindable/src/commonMain/kotlin/moe/ganen/bindable/internal/LeasedBindableImpl.kt:62-73 | the holder's unbindAll keeps the arena ready, and for a started holder leaves it returned |
| BindableSpec.Restore | bindable/src/commonMain/kotlin/moe/ganen/bindable/internal/LeasedBindableImpl.kt:63-66 | restoring the value and flag before the lease keeps the arena ready and the topology unchanged |
| BindableSpec.Retire | bindable/src/commonMain/kotlin/moe/ganen/bindable/internal/LeasedBindableImpl.kt:69-72 | marking the holder returned and running the base unbindAll leaves it returned and the arena ready |
| BindableSpec.BaseUnbindAll | bindable/src/commonMain/kotlin/moe/ganen/bindable/BindableImpl.kt:203-208 | unbindAll returns the lease first, then clears events and bindings; the arena stays ready; the effect is ReturnProps.BaseUnbindAllEffect |
| BindableSpec.UnbindAll | bindable/src/commonMain/kotlin/moe/ganen/bindable/BindableImpl.kt:203-208 | unbindAll, dispatched on the object's class, keeps the arena ready; on a plain cell it is the base unbindAll of ReturnProps.BaseUnbindAllEffect |
| BindableSpec.BindValueChanged | bindable/src/commonMain/kotlin/moe/ganen/bindable/BindableImpl.kt:64-73 | subscribing to valueChanged keeps the arena ready and the topology unchanged; the subscription and the runOnce call are BindableProps.BindValueChangedEffect |
| BindableSpec.BindDisabledChanged | bindable/src/commonMain/kotlin/moe/ganen/bindable/BindableImpl.kt:120-128 | subscribing to disabledChanged keeps the arena ready and the topology unchanged; the subscription and the runOnce call are BindableProps.BindDisabledChangedEffect |
| BindableSpec.SelfLinkNotForest | bindable/src/commonMain/kotlin/moe/ganen/bindable/BindableImpl.kt:94-96 | a cell bound to itself is not a forest: its wave would re-enter it |
| BindableSpec.LinkTopo | bindable/src/commonMain/kotlin/moe/ganen/bindable/BindableImpl.kt:40-41 | the two addWeakReference calls add exactly the link a-b to the topology |
| BindableSpec.UnlinkReady | bindable/src/commonMain/kotlin/moe/ganen/bindable/BindableImpl.kt:234-235 | the two removeWeakReference calls keep the arena ready and only shrink the topology |
| BindableSpec.ReleaseReady | bindable/src/commonMain/kotlin/moe/ganen/bindable/internal/WeakReferenceList.kt:41-45 | the collector taking an unreferenced cell keeps the arena ready and removes only that cell from the topology |
| BindableProps.WaveCoversComponent | bindable/src/commonMain/kotlin/moe/ganen/bindable/BindableImpl.kt:93-98 | the cells a value wave from x enters are exactly x's bound component apart from x, and each of them fires |
| BindableProps.SpreadUnguarded | bindable/src/commonMain/kotlin/moe/ganen/bindable/BindableImpl.kt:75-103 | an unguarded wave writes exactly x's component and fires its cells, x last |
| BindableProps.SpreadGuarded | bindable/src/commonMain/kotlin/moe/ganen/bindable/BindableImpl.kt:130-157 | a guarded wave completes iff no cell of the component is leased; if it stops, it has written only part of the component |
| BindableProps.GuardOkIff | bindable/src/commonMain/kotlin/moe/ganen/bindable/BindableImpl.kt:135 | the bypass-less disabled wave's guard passes iff the whole component is lease-free |
| BindableProps.StoppedWaveInside | bindable/src/commonMain/kotlin/moe/ganen/bindable/BindableImpl.kt:93-98 | a wave, guarded or not, never leaves x's component |
| BindableProps.SpreadFields | bindable/src/commonMain/kotlin/moe/ganen/bindable/BindableImpl.kt:81-83 | after a wave, each component cell holds the written value or flag, and every other cell is untouched |
| BindableProps.AssignValueEffect | bindable/src/commonMain/kotlin/moe/ganen/bindable/BindableImpl.kt:53-62 | setting a value fails on a disabled cell or a returned lease; an equal value does nothing; otherwise the whole component takes the value and fires, the initiator last |
| BindableProps.AssignValueRuns | bindable/src/commonMain/kotlin/moe/ganen/bindable/internal/LeasedBindableImpl.kt:44-51 | a completed value change is the unguarded wave (the holder's bypass) |
| BindableProps.AssignDisabledPlainEffect | bindable/src/commonMain/kotlin/moe/ganen/bindable/BindableImpl.kt:111-118 | setting the flag fails on a leased cell, does nothing when equal, and otherwise completes iff the component is lease-free, writing only the new flag |
| BindableProps.AssignDisabledHolderEffect | bindable/src/commonMain/kotlin/moe/ganen/bindable/internal/LeasedBindableImpl.kt:53-60 | on a live holder, the flag setter bypasses the lease guard and writes the whole component; on a returned holder it fails |
| BindableProps.BindToEffect | bindable/src/commonMain/kotlin/moe/ganen/bindable/BindableImpl.kt:32-42 | a repeated bind is refused with nothing changed; a completed bind gives a b's value and flag, leaves b's unchanged, and links a and b both ways |
| BindableProps.BindTwiceRefused | bindable/src/commonMain/kotlin/moe/ganen/bindable/BindableImpl.kt:33-35 | binding the same pair again after a completed bind is refused as already bound |
| BindableProps.BindToAllEffect | bindable/src/commonMain/kotlin/moe/ganen/bindable/BindableExt.kt:8-10 | the vararg bindTo leaves the receiver unchanged; when it completes, every argument holds the receiver's value and flag and the links are added |
| BindableProps.BindToAllProgress | bindable/src/commonMain/kotlin/moe/ganen/bindable/BindableExt.kt:8-10 | the vararg bindTo binds a prefix of its arguments, each linked to the receiver both ways with its value and flag, losing no live link; a completed call binds them all, and an AlreadyBound throw stops at an argument already linked to the receiver |
| BindableProps.BindToAllStopsAtBound | bindable/src/commonMain/kotlin/moe/ganen/bindable/BindableExt.kt:8-10 | when the binds before xs[i] complete and xs[i] is then already linked to the receiver, the call throws AlreadyBound at xs[i], leaving the state those binds left, in which every earlier argument stays bound to the receiver with its value and flag |
| BindableProps.BindToAllFirstThrows | bindable/src/commonMain/kotlin/moe/ganen/bindable/BindableExt.kt:8-10 | when the first bind throws before its link, the call is allowed whatever links the later arguments would add, and it rethrows that exception with the state the throwing setter left |
| BindableProps.BindToAllDisabledFirst | bindable/src/commonMain/kotlin/moe/ganen/bindable/BindableImpl.kt:56 | a disabled plain first argument not linked to the receiver makes the vararg bindTo throw DisabledMutation with nothing changed, whatever the later arguments would link |
| BindableProps.BindToAlreadyBound | bindable/src/commonMain/kotlin/moe/ganen/bindable/BindableImpl.kt:32-42 | bindTo throws AlreadyBound iff b already is a live peer of a |
| BindableProps.FreshComponent | bindable/src/commonMain/kotlin/moe/ganen/bindable/internal/LeasedBindableImpl.kt:17 | a fresh cell bound to a joins exactly a's component |
| BindableProps.CreateEffect | bindable/src/commonMain/kotlin/moe/ganen/bindable/BindableExt.kt:16-26 | Bindable(v[, d]) returns the fresh id of a plain, unbound cell with value v and flag d (default false); nothing else changes and nothing fires |
| BindableProps.LoneSpread | bindable/src/commonMain/kotlin/moe/ganen/bindable/BindableImpl.kt:93-102 | a wave from an unbound cell writes only that cell and fires only its own observers |
| BindableProps.GetBoundCopyEffect | bindable/src/commonMain/kotlin/moe/ganen/bindable/Bindable.kt:106-118 | a copy of another class is refused; otherwise the fresh copy is of the source's class, holds its value and flag, is bound both ways, and the source is unchanged |
| BindableProps.BindValueChangedEffect | bindable/src/commonMain/kotlin/moe/ganen/bindable/BindableImpl.kt:64-73 | only x's value channel changes: o is added behind the earlier observers, once, and nothing if already there; with runOnce, o alone is called with the current value as old and new (the legacy graph runs the same function) |
| BindableProps.BindDisabledChangedEffect | bindable/src/commonMain/kotlin/moe/ganen/bindable/BindableImpl.kt:120-128 | only x's disabled channel changes: o is added behind the earlier observers, once; with runOnce, o alone is called with the current flag |
| BindableProps.CopyBindKeeps | bindable/src/commonMain/kotlin/moe/ganen/bindable/Bindable.kt:116 | binding a fresh copy to its source changes no cell's value or flag except the copy's |
| LeaseProps.ScanMeans | bindable/src/commonMain/kotlin/moe/ganen/bindable/BindableImpl.kt:188-200 | when the lease scan succeeds, it answers true iff a lease is held at or below the scanned cell |
| LeaseProps.ScanFindsLease | bindable/src/commonMain/kotlin/moe/ganen/bindable/BindableImpl.kt:188-200 | checkForLease(x) fails only on a dead handle (the cast of null); otherwise it is true iff some cell of x's component holds a lease |
| LeaseProps.StartHolderEffect | bindable/src/commonMain/kotlin/moe/ganen/bindable/internal/LeasedBindableImpl.kt:18-26 | the holder records its source, the revert flag and the snapshots; the whole component becomes disabled; values, leases and other kinds are unchanged |
| LeaseProps.NewHolderEffect | bindable/src/commonMain/kotlin/moe/ganen/bindable/internal/LeasedBindableImpl.kt:16-27 | the constructor returns a fresh holder bound only to x, holding x's value, with the component disabled and everything else unchanged |
| LeaseProps.BeginLeaseRefused | bindable/src/commonMain/kotlin/moe/ganen/bindable/BindableImpl.kt:166-175 | beginLease is refused with nothing changed iff the component already holds a lease (or the scan meets a dead handle) |
| LeaseProps.BeginLeaseGranted | bindable/src/commonMain/kotlin/moe/ganen/bindable/BindableImpl.kt:166-175 | a granted lease records the fresh holder on x, binds it to x, disables the component, and changes no value, kind or other lease |
| LeaseProps.ReturnLeaseTwice | bindable/src/commonMain/kotlin/moe/ganen/bindable/internal/LeasedBindableImpl.kt:31-34 | a second returnLease answers false and changes nothing |
| ReturnProps.RetireEffect | bindable/src/commonMain/kotlin/moe/ganen/bindable/internal/LeasedBindableImpl.kt:69-72 | marking the holder returned and running the base unbindAll clears its observers and unbinds it from its peers (each peer, the source among them, loses one handle to it per handle it held to that peer, and no other handle; cells it held no handle to keep their lists), keeping every value, flag and lease |
| ReturnProps.RestoreEffect | bindable/src/commonMain/kotlin/moe/ganen/bindable/internal/LeasedBindableImpl.kt:63-66 | the component gets back the flag from before the lease, and the value too when revert was asked and it differs |
| ReturnProps.ReturnLeaseEffect | bindable/src/commonMain/kotlin/moe/ganen/bindable/internal/LeasedBindableImpl.kt:31-42 | returnLease first reverts the holder's value (when asked) and sets its flag back, over the holder's component; it then fails if the source holds no lease or another one, and otherwise frees the source's lease, marks the holder returned, clears its observers and unbinds it from its peers, the source among them, measured from the restored state and, when no list holds a dead handle, from the state before the call |
| ReturnProps.ReturnLeaseRefused | bindable/src/commonMain/kotlin/moe/ganen/bindable/internal/LeasedBindableImpl.kt:31-38 | returnLease on a holder returned already answers false, and on one that never got a source throws ReturnWithoutSource; neither changes anything |
| ReturnProps.RetireUnbinds | bindable/src/commonMain/kotlin/moe/ganen/bindable/internal/LeasedBindableImpl.kt:69-72 | the returned mark and the base unbindAll unbind the holder from its peers as HandlesUnbound says |
| ReturnProps.ReturnUnbinds | bindable/src/commonMain/kotlin/moe/ganen/bindable/internal/LeasedBindableImpl.kt:62-72 | a first return that ends the lease unbinds the holder from its peers, measured from the state after the value and flag are put back |
| ReturnProps.ReturnUnbindsClean | bindable/src/commonMain/kotlin/moe/ganen/bindable/internal/LeasedBindableImpl.kt:62-72 | with no dead handle anywhere, the same unbinding holds measured from the state before the call |
| ReturnProps.RestoreKeepsLinks | bindable/src/commonMain/kotlin/moe/ganen/bindable/internal/LeasedBindableImpl.kt:63-66 | with no dead handle anywhere, putting the value and flag back changes no handle list |
| ReturnProps.EndLeaseEffect | bindable/src/commonMain/kotlin/moe/ganen/bindable/BindableImpl.kt:177-186 | endLease fails without a lease or with a different holder; otherwise it clears exactly the source's lease slot |
| ReturnProps.LeaseRoundTrip | bindable/src/commonMain/kotlin/moe/ganen/bindable/internal/LeasedBindableImpl.kt:31-73 | beginLease then returnLease succeeds and leaves every lease and value as before; every cell of x's component ends with x's pre-lease flag, not its own, and nothing is said about handle lists |
| ReturnProps.BaseUnbindAllEffect | bindable/src/commonMain/kotlin/moe/ganen/bindable/BindableImpl.kt:203-208 | without a lease, unbindAll completes and unbinds x as ClearAndUnbindEffect says; when x is leased to its own holder, the lease is returned first with the holder's revert rules, x is no longer leased, and x is then unbound from the state the return left |
| ReturnProps.ReturnLeaseFewer | bindable/src/commonMain/kotlin/moe/ganen/bindable/internal/LeasedBindableImpl.kt:62-73 | a successful first return only removes handles, from any cell |
| UnbindProps.UnbindFromSome | bindable/src/commonMain/kotlin/moe/ganen/bindable/BindableImpl.kt:223-236 | unbindFrom of a live cell removes one handle each way and completes |
| UnbindProps.UnbindFromAbsent | bindable/src/commonMain/kotlin/moe/ganen/bindable/BindableImpl.kt:223-236 | unbindFrom a live cell that neither holds x nor is held by x completes and changes nothing |
| UnbindProps.UnbindUndoesBind | bindable/src/commonMain/kotlin/moe/ganen/bindable/BindableImpl.kt:223-236 | on an arena without dead handles, unbindFrom after a completed bindTo gives back every handle list and the topology, keeping the values and flags the bind set |
| UnbindProps.UnbindEachOutcome | bindable/src/commonMain/kotlin/moe/ganen/bindable/BindableImpl.kt:218-225 | unbinding a handle snapshot fails with the null-unbind error iff one of its handles is dead |
| UnbindProps.UnbindEachDrains | bindable/src/commonMain/kotlin/moe/ganen/bindable/BindableImpl.kt:215-221 | unbinding every live handle of x leaves x with no handles |
| UnbindProps.UnbindBindingsEffect | bindable/src/commonMain/kotlin/moe/ganen/bindable/BindableImpl.kt:215-221 | unbindBindings completes iff all of x's handles are live, then leaves x with no handles; each live peer loses as many handles to x as x held to it and no handle to any other cell; a dead cell or one x held no handle to keeps its list; no value, flag or observer changes |
| UnbindProps.UnbindEachPeers | bindable/src/commonMain/kotlin/moe/ganen/bindable/BindableImpl.kt:218-220 | unbinding each handle of a snapshot of live peers takes from each peer one handle to x per listing, leaves other lists alone and changes no value or flag |
| UnbindProps.ClearAndUnbindEffect | bindable/src/commonMain/kotlin/moe/ganen/bindable/BindableImpl.kt:206-207 | unbindEvents then unbindBindings on a cell with live handles completes; x ends with no handles and no observers; handle lists change as in UnbindBindingsEffect, so each peer held no more often than it holds x is no longer linked to x; no value, flag or other observer list changes |
| BindableGraph.Graph.constructor | bindable/src/commonMain/kotlin/moe/ganen/bindable/BindableImpl.kt:11-13 | a new graph holds no cells and no calls and is ready |
| BindableGraph.Graph.ForAliveRefs | bindable/src/commonMain/kotlin/moe/ganen/bindable/internal/WeakReferenceList.kt:34-45 | the cell's list is purged in place, the visits are the purged list, and nothing else changes |
| BindableGraph.Graph.Enter | bindable/src/commonMain/kotlin/moe/ganen/bindable/BindableImpl.kt:75-157 | the internal setter writes the cell, recurses into every peer except the sender, and fires if the cell still holds the written state; result and new state are the wave's trace |
| BindableGraph.Graph.VisitPeers | bindable/src/commonMain/kotlin/moe/ganen/bindable/BindableImpl.kt:93-98 | the loop over the purged handles enters each peer but the sender, in list order, as the wave trace prescribes |
| BindableGraph.Graph.VisitPeer | bindable/src/commonMain/kotlin/moe/ganen/bindable/BindableImpl.kt:94-97 | one iteration of the loop advances the wave by one peer, or stops it |
| BindableGraph.Graph.Spread | bindable/src/commonMain/kotlin/moe/ganen/bindable/BindableImpl.kt:75-157 | a wave started at x produces the outcome and state of BindableSpec.Spread |
| BindableGraph.Graph.AssignValue | bindable/src/commonMain/kotlin/moe/ganen/bindable/BindableImpl.kt:53-62 | the value setter, on plain and holder cells, matches BindableSpec.AssignValue |
| BindableGraph.Graph.AssignDisabled | bindable/src/commonMain/kotlin/moe/ganen/bindable/BindableImpl.kt:111-118 | the disabled setter, on plain and holder cells, matches BindableSpec.AssignDisabled |
| BindableGraph.Graph.AddHandle | bindable/src/commonMain/kotlin/moe/ganen/bindable/BindableImpl.kt:238-240 | addWeakReference appends one handle to the cell's list and changes nothing else |
| BindableGraph.Graph.BindTo | bindable/src/commonMain/kotlin/moe/ganen/bindable/BindableImpl.kt:32-42 | bindTo matches BindableSpec.BindTo |
| BindableGraph.Graph.BindToAll | bindable/src/commonMain/kotlin/moe/ganen/bindable/BindableExt.kt:8-10 | the vararg loop matches BindableSpec.BindToAll |
| BindableGraph.Graph.Create | bindable/src/commonMain/kotlin/moe/ganen/bindable/BindableExt.kt:16-26 | the factories match BindableSpec.Create |
| BindableGraph.Graph.GetBoundCopy | bindable/src/commonMain/kotlin/moe/ganen/bindable/Bindable.kt:106-118 | getBoundCopyImplementation matches BindableSpec.GetBoundCopy |
| BindableGraph.Graph.CheckForLease | bindable/src/commonMain/kotlin/moe/ganen/bindable/BindableImpl.kt:188-200 | the recursive scan returns LeaseScan and changes nothing |
| BindableGraph.Graph.AskHandle | bindable/src/commonMain/kotlin/moe/ganen/bindable/BindableImpl.kt:193-197 | one iteration of the scan loop folds in one handle's answer with a non-short-circuit or |
| BindableGraph.Graph.NewHolder | bindable/src/commonMain/kotlin/moe/ganen/bindable/internal/LeasedBindableImpl.kt:16-27 | the holder's constructor matches BindableSpec.NewHolder |
| BindableGraph.Graph.StartHolder | bindable/src/commonMain/kotlin/moe/ganen/bindable/internal/LeasedBindableImpl.kt:18-26 | the constructor's body after bindTo matches BindableSpec.StartHolder |
| BindableGraph.Graph.BeginLease | bindable/src/commonMain/kotlin/moe/ganen/bindable/BindableImpl.kt:166-175 | beginLease matches BindableSpec.BeginLease |
| BindableGraph.Graph.EndLease | bindable/src/commonMain/kotlin/moe/ganen/bindable/BindableImpl.kt:177-186 | endLease matches BindableSpec.EndLease |
| BindableGraph.Graph.RemoveHandles | bindable/src/commonMain/kotlin/moe/ganen/bindable/BindableImpl.kt:234-244 | the two removeWeakReference calls remove one handle each way |
| BindableGraph.Graph.UnbindFrom | bindable/src/commonMain/kotlin/moe/ganen/bindable/BindableImpl.kt:223-236 | unbindFrom matches BindableSpec.UnbindFrom, including the null error |
| BindableGraph.Graph.UnbindBindings | bindable/src/commonMain/kotlin/moe/ganen/bindable/BindableImpl.kt:215-221 | unbindBindings over a snapshot of the list matches BindableSpec.UnbindBindings |
| BindableGraph.Graph.UnbindNext | bindable/src/commonMain/kotlin/moe/ganen/bindable/BindableImpl.kt:218-220 | one iteration unbinds the snapshot's first handle and leaves the rest of BindableSpec.UnbindEach to do |
| BindableGraph.Graph.UnbindEvents | bindable/src/commonMain/kotlin/moe/ganen/bindable/BindableImpl.kt:210-213 | unbindEvents clears both observer lists of the cell only |
| BindableGraph.Graph.ReturnLease | bindable/src/commonMain/kotlin/moe/ganen/bindable/internal/LeasedBindableImpl.kt:31-42 | returnLease matches BindableSpec.ReturnLease |
| BindableGraph.Graph.HolderUnbindAll | bindable/src/commonMain/kotlin/moe/ganen/bindable/internal/LeasedBindableImpl.kt:62-73 | the holder's unbindAll matches BindableSpec.HolderUnbindAll |
| BindableGraph.Graph.Restore | bindable/src/commonMain/kotlin/moe/ganen/bindable/internal/LeasedBindableImpl.kt:63-66 | the two restoring setters match BindableSpec.Restore |
| BindableGraph.Graph.Retire | bindable/src/commonMain/kotlin/moe/ganen/bindable/internal/LeasedBindableImpl.kt:69-72 | the returned mark and the base unbindAll match BindableSpec.Retire |
| BindableGraph.Graph.BaseUnbindAll | bindable/src/commonMain/kotlin/moe/ganen/bindable/BindableImpl.kt:203-208 | BindableImpl.unbindAll matches BindableSpec.BaseUnbindAll |
| BindableGraph.Graph.ClearAndUnbind | bindable/src/commonMain/kotlin/moe/ganen/bindable/BindableImpl.kt:206-207 | unbindEvents then unbindBindings match BindableSpec.ClearAndUnbind |
| BindableGraph.Graph.UnbindAll | bindable/src/commonMain/kotlin/moe/ganen/bindable/BindableImpl.kt:203-208 | unbindAll, dispatched on the object's class, matches BindableSpec.UnbindAll |
| BindableGraph.Graph.BindValueChanged | bindable/src/commonMain/kotlin/moe/ganen/bindable/BindableImpl.kt:64-73 | bindValueChanged matches BindableSpec.BindValueChanged |
| BindableGraph.Graph.BindDisabledChanged | bindable/src/commonMain/kotlin/moe/ganen/bindable/BindableImpl.kt:120-128 | bindDisabledChanged matches BindableSpec.BindDisabledChanged |
| LegacySpec.LegacySpread | src/main/kotlin/moe/ganen/bindable/Bindable.kt:50-67 | a legacy wave writes the same cells as the current library's unguarded wave, keeps the arena ready, and fires nothing when the written value is null |
| LegacySpec.LegacyAssignValue | src/main/kotlin/moe/ganen/bindable/Bindable.kt:28-35 | the legacy value setter keeps the arena ready and the topology unchanged |
| LegacySpec.LegacyAssignDisabled | src/main/kotlin/moe/ganen/bindable/Bindable.kt:72-78 | the legacy disabled setter keeps the arena ready and the topology unchanged |
| LegacySpec.LegacyBindTo | src/main/kotlin/moe/ganen/bindable/Bindable.kt:137-149 | legacy bindTo keeps the arena ready; the topology gains the link a-b exactly when the bind completes |
| LegacySpec.LegacyBindToAll | src/main/kotlin/moe/ganen/bindable/Bindable.kt:127-129 | the legacy vararg bindTo keeps the arena ready and creates no cell |
| LegacySpec.UnbindPeers | src/main/kotlin/moe/ganen/bindable/Bindable.kt:175 | each peer's unbindFrom(this) keeps the arena ready |
| LegacySpec.LegacyUnbindBindings | src/main/kotlin/moe/ganen/bindable/Bindable.kt:173-178 | legacy unbindBindings keeps the arena ready and every cell's liveness |
| LegacySpec.LegacyUnbindAll | src/main/kotlin/moe/ganen/bindable/Bindable.kt:183-186 | legacy unbindAll keeps the arena ready |
| LegacyProps.LegacyValueEffect | src/main/kotlin/moe/ganen/bindable/Bindable.kt:28-67 | the setter fails iff the cell is disabled; an equal non-null value does nothing; otherwise the whole component takes the value, and fires (initiator last) unless the value is null |
| LegacyProps.LegacyFlagEffect | src/main/kotlin/moe/ganen/bindable/Bindable.kt:72-110 | an equal flag does nothing; otherwise the whole component takes the flag and fires, the initiator last |
| LegacyProps.LegacyBindToEffect | src/main/kotlin/moe/ganen/bindable/Bindable.kt:137-149 | binding to itself, binding twice or binding from a disabled cell is refused with nothing changed; otherwise a takes b's state, they are linked both ways, and a repeat in either direction is refused |
| LegacyProps.LegacyBindJoins | src/main/kotlin/moe/ganen/bindable/Bindable.kt:137-149 | a completed bind adds b to the cells joined to a (linked to a, same value and flag) and keeps the earlier ones joined |
| LegacyProps.LegacyBindAllJoins | src/main/kotlin/moe/ganen/bindable/Bindable.kt:127-129 | when the vararg bind completes, every argument is joined to the receiver together with the cells joined before |
| LegacyProps.LegacyBindToAllEffect | src/main/kotlin/moe/ganen/bindable/Bindable.kt:127-129 | when the vararg bind completes, every argument is linked to the receiver, and the receiver and every argument hold the value and flag the last argument held before the call |
| LegacyProps.LegacyBindToAllFirstThrows | src/main/kotlin/moe/ganen/bindable/Bindable.kt:127-129 | when the first bind throws (self-bind, already bound, or a disabled receiver), the legacy vararg bindTo is allowed whatever links the later arguments would add, and it rethrows that exception with nothing changed |
| LegacyProps.LegacyBindAllLast | src/main/kotlin/moe/ganen/bindable/Bindable.kt:127-129 | after a completed vararg bind the receiver holds the value and flag the last argument held before the call, which lay outside the receiver's component |
| LegacyProps.LegacyBindLinks | src/main/kotlin/moe/ganen/bindable/Bindable.kt:144-148 | on an arena without dead handles, a completed bind appends b to a's list and a to b's list and leaves every other list alone |
| LegacyProps.LegacyUnbindUndoesBind | src/main/kotlin/moe/ganen/bindable/Bindable.kt:157-160 | unbinding after a completed bind gives back every handle list and the topology, with a and b in different components again |
| LegacyProps.UnbindPeersEffect | src/main/kotlin/moe/ganen/bindable/Bindable.kt:175 | each listed peer loses one handle to x per listing; other lists, values and flags are unchanged |
| LegacyProps.LegacyUnbindBindingsEffect | src/main/kotlin/moe/ganen/bindable/Bindable.kt:173-178 | x ends with no handles; each live peer loses as many handles to x as x held to it and no handle to any other cell; a dead cell or one x held no handle to keeps its list; no value, flag or observer changes |
| LegacyProps.LegacyUnbindAllEffect | src/main/kotlin/moe/ganen/bindable/Bindable.kt:183-186 | x ends with no handles and no observers; handle lists change as in LegacyUnbindBindingsEffect; no value, flag or other observer list changes; a peer with no more handles to x than x had to it is unbound from x |
| LegacyProps.TriggerChangeEffect | src/main/kotlin/moe/ganen/bindable/Bindable.kt:116-119 | triggerChange changes no cell and fires, on x only, each value observer with an (old = new) event unless the value is null, then each disabled observer with the flag |
| LegacyGraphs.LegacyGraph.constructor | src/main/kotlin/moe/ganen/bindable/Bindable.kt:15-23 | a new legacy graph holds no cells and no calls and is ready |
| LegacyGraphs.LegacyGraph.ForAliveRefs | src/main/kotlin/moe/ganen/bindable/WeakReferenceList.kt:24-31 | the cell's list is purged in place, the visits are the purged list, and nothing else changes |
| LegacyGraphs.LegacyGraph.Enter | src/main/kotlin/moe/ganen/bindable/Bindable.kt:50-110 | the legacy internal setter follows the current library's wave, but fires no observer when the written value is null |
| LegacyGraphs.LegacyGraph.VisitPeers | src/main/kotlin/moe/ganen/bindable/Bindable.kt:57-62 | the loop over the purged handles advances the wave through every peer but the sender |
| LegacyGraphs.LegacyGraph.VisitPeer | src/main/kotlin/moe/ganen/bindable/Bindable.kt:58-61 | one iteration advances the wave by one peer |
| LegacyGraphs.LegacyGraph.Spread | src/main/kotlin/moe/ganen/bindable/Bindable.kt:50-110 | a legacy wave started at x produces LegacySpec.LegacySpread |
| LegacyGraphs.LegacyGraph.AssignValue | src/main/kotlin/moe/ganen/bindable/Bindable.kt:28-35 | the value setter matches LegacySpec.LegacyAssignValue |
| LegacyGraphs.LegacyGraph.AssignDisabled | src/main/kotlin/moe/ganen/bindable/Bindable.kt:72-78 | the disabled setter matches LegacySpec.LegacyAssignDisabled |
| LegacyGraphs.LegacyGraph.AddHandle | src/main/kotlin/moe/ganen/bindable/Bindable.kt:188-190 | addBinding appends one handle to the cell's list and changes nothing else |
| LegacyGraphs.LegacyGraph.BindTo | src/main/kotlin/moe/ganen/bindable/Bindable.kt:137-149 | bindTo matches LegacySpec.LegacyBindTo |
| LegacyGraphs.LegacyGraph.BindToAll | src/main/kotlin/moe/ganen/bindable/Bindable.kt:127-129 | the vararg loop matches LegacySpec.LegacyBindToAll |
| LegacyGraphs.LegacyGraph.Create | src/main/kotlin/moe/ganen/bindable/Bindable.kt:15-23 | the constructor matches LegacySpec.LegacyCreate: a fresh, unbound cell with the given value and flag |
| LegacyGraphs.LegacyGraph.TriggerChange | src/main/kotlin/moe/ganen/bindable/Bindable.kt:116-119 | triggerChange matches LegacySpec.TriggerChange |
| LegacyGraphs.LegacyGraph.UnbindFrom | src/main/kotlin/moe/ganen/bindable/Bindable.kt:157-160 | unbindFrom removes one handle each way |
| LegacyGraphs.LegacyGraph.UnbindBindings | src/main/kotlin/moe/ganen/bindable/Bindable.kt:173-178 | unbindBindings matches LegacySpec.LegacyUnbindBindings |
| LegacyGraphs.LegacyGraph.VisitBindings | src/main/kotlin/moe/ganen/bindable/Bindable.kt:175 | the loop over the purged handles matches LegacySpec.UnbindPeers |
| LegacyGraphs.LegacyGraph.UnbindPeer | src/main/kotlin/moe/ganen/bindable/Bindable.kt:175 | one iteration unbinds the first peer and leaves the rest of LegacySpec.UnbindPeers to do |
| LegacyGraphs.LegacyGraph.ClearHandles | src/main/kotlin/moe/ganen/bindable/WeakReferenceList.kt:12-14 | bindings.clear() empties the cell's list only |
| LegacyGraphs.LegacyGraph.UnbindEvents | src/main/kotlin/moe/ganen/bindable/Bindable.kt:165-168 | unbindEvents clears both observer lists of the cell only |
| LegacyGraphs.LegacyGraph.UnbindAll | src/main/kotlin/moe/ganen/bindable/Bindable.kt:183-186 | unbindAll matches LegacySpec.LegacyUnbindAll |
| LegacyGraphs.LegacyGraph.BindValueChanged | src/main/kotlin/moe/ganen/bindable/Bindable.kt:43-48 | bindValueChanged subscribes and, when asked, fires the observer once with the current value |
| LegacyGraphs.LegacyGraph.BindDisabledChanged | src/main/kotlin/moe/ganen/bindable/Bindable.kt:86-91 | bindDisabledChanged subscribes and, when asked, fires the observer once with the current flag |

## Left out

- Concurrency: the `synchronized` locks of both weak-reference lists are not modelled; the model is single-threaded.
- Garbage collection: when the collector runs is not modelled. A dead object is a cell with `alive` false, and `BindableSpec.Release` takes an unreferenced cell.
- Observer code: observers are opaque `ObserverId`s. The model records each call, in order, in the log, but does not run the callback, which could re-enter a Bindable or throw.
- `WeakReferenceList.contains` (both libraries): not modelled. It compares a referent with a `WeakReference`, so it can never answer true, and no core operation calls it.
- `getAliveRefs(cleanUpDestroyedRef = false)`: not modelled, because every caller keeps the default `true`.
- Kotlin reflection in `getBoundCopyImplementation`: the class check `copy::class != source::class` compares a `Variant` (plain or leased).
- `createInstance`: its result is the parameter `made` of `GetBoundCopy`, because a subclass could return any object.
- Casts to `BindableImpl` and the `them !is BindableImpl` error of `unbindFrom` (new library): every object in the arena is a `BindableImpl`, so these branches cannot arise.
- `Unset`: a never-set value is modelled as the graph's constant `unset`. `Unset.unbox` is not modelled as a cast that may fail.
- Thrown exceptions are `Outcome`/`Result` failures. When a wave throws part-way through, the writes it has made stay, as in the code. No exception type is modelled beyond its reason.
- BindableSpec.BindTo: requires that the link keep the topology a forest when the bind gets to it, that is, when the already-bound check and both setters complete (BindableSpec.BindSetters). This excludes a completing `a.bindTo(a)` and any completing bind that closes a cycle, both of which the code accepts. A bind that throws before its link is modelled whatever it would have linked. A self-bind (the new library has no self check) puts `a`'s own handle in its list twice. Its waves still end, because a wave skips every handle equal to its sender. But a wave entering `a` from a peer re-enters `a` and writes that peer again, so cells are written and observers called more than once. The model leaves these duplicate writes out by choice. A cycle of three or more cells makes the next propagation recurse forever.
- LegacySpec.LegacyBindTo: for the same reason, requires that the link keep a forest when the bind gets to it: distinct cells, not yet linked, and `a` not disabled.
- BindableSpec.BindToAll and LegacySpec.LegacyBindToAll: require, through BindableSpec.CanBindAll and LegacySpec.LegacyCanBindAll, the condition of BindTo for each bind the loop reaches, in the state the earlier binds left. Arguments after the first bind that throws are not constrained. A call whose reached binds would close a cycle is excluded, as for BindTo.
- BindableSpec.AssignDisabled: the holder's disabled setter compares the holder's CURRENT flag with the holder's value (`disabled == this.value`, a `Boolean` against a `T`), not the new flag. The model treats that comparison as always false, so the setter always propagates. When `T` is `Boolean` and the current flag equals the value, the code returns early whatever the new flag is; that case is not modelled.
- BindableProps.WaveCoversComponent: proves that the entered cells are exactly the component and that the cells that fire are a permutation of the cells entered. It does not prove that no cell is entered twice in one wave, which would need an invariant that handle lists stay symmetric.
- LegacyProps.LegacyUnbindAllEffect: guarantees that a peer is no longer linked to `x` only when the peer held no more handles to `x` than `x` held to it. The model does not prove that handle lists stay symmetric, so the general "no longer a peer" is not stated.
- UnbindProps.ClearAndUnbindEffect: like the legacy lemma, guarantees that a peer is no longer linked to `x` only when the peer held no more handles to `x` than `x` held to it, because handle lists are not proved symmetric.
- UnbindProps.UnbindBindingsEffect: each live peer loses one handle to `x` for each handle `x` held to it. A peer that held `x` more often than `x` held it keeps the surplus. Handle lists are not proved symmetric, so the lemma never states that a peer is no longer linked to `x` at all.
- LegacyProps.LegacyUnbindBindingsEffect: the same symmetry gap as UnbindProps.UnbindBindingsEffect. A peer is never proved to be no longer linked to `x`; only its count of handles to `x` is stated.
- ReturnProps.ReturnLeaseEffect: requires a holder that holds no lease of its own. While the holder is still bound to its leased source, its `beginLease` scan (`checkForLease`) finds the source's lease and throws, so the holder can hold a lease only after it was unbound from its source; that case, whose base unbindAll would first return the holder's own lease, is not covered. The unbinding is stated from the state after the value and flag are put back. When some list holds a dead handle, the waves of that restore purge it, and for that step the model states only that no live handle changes and that lists only shrink (ReturnProps.RestoreFewer). The holder without a source and the holder returned already are ReturnProps.ReturnLeaseRefused.
- ReturnProps.RetireEffect: requires, like ReturnLeaseEffect, a holder that holds no lease of its own and whose handles are all live.
- ReturnProps.BaseUnbindAllEffect: states the unbinding under the same symmetry gap. It covers a leased `x` only when the lease belongs to a live holder made from `x` that holds no lease itself. A call whose return fails part-way, or whose lease points elsewhere, is given only by BindableSpec.BaseUnbindAll's frame.
- LegacyProps.LegacyUnbindUndoesBind and UnbindProps.UnbindUndoesBind: require an arena without dead handles, because purging dead handles during the bind's setters would otherwise change the lists.
- Integer widths: ids and counts are unbounded; no Kotlin `Int` overflow is reachable in the modelled operations.
