# A verified model of the vue-next core

This project models, in Dafny, the core of the zzxingqiba/vue-next fork of
Vue 3. It covers the following parts:

- **The reactivity system.**
  - The subscription graph between effects and the deps of observable slots. This includes the `w`/`n` generation markers and their 32-bit encoding.
  - `ReactiveEffect.run`/`stop`, `effect()`, `track` and `trigger`.
  - `reactive`/`toRaw` and the proxy registry.
  - The base proxy handlers' `get`/`set`, and the collection handlers, which are empty in this fork.
  - `computed`.
- **The runtime core.**
  - The `watch` job and `traverse`.
  - The longest-increasing-subsequence helper `getSequence`.
  - Props normalisation and resolution.
  - VNode creation and normalisation.
  - Emit-listener detection and `emit`.
  - The component proxy's `get`/`set`.
- **The DOM event patcher** of runtime-dom.
- **The shared `normalizeClass`/`normalizeStyle`** helpers.
- **The compiler-core parser helpers**: position tracking, entity decoding, parser context, end-tag detection.

Every operation is a pure function over immutable state. The JavaScript
heap, the module-level variables of effect.ts and the dep maps become
explicit stores. Calls into user code are represented by the events they
produce (a call of an effect's function, a scheduler, a callback) and by
parameters that stand for what the user code does: the tracked reads of
an effect run, whether the function stops its own effect, and the value a
getter returns.

The central theorems are:

- **`DepGraph.RunRetracks` and `Effect.RunResubscribes`.** After any run, the effect is subscribed to exactly the slots it read, and every other effect keeps its subscriptions. This holds for both tracking schemes, the generation markers up to `maxMarkerBits` and full cleanup beyond it.
- **`Trigger.TriggerNotifies`.** A write notifies each subscribed effect once, computed-backed ones first.
- **`Sequence.GetSequence`.** It returns strictly increasing indices into increasing values, skipping zeros. Its length is that of a longest such subsequence.
- **`PublicInstance.CacheTransparent`.** The access cache never changes what a read returns.
- **`Reactive.ReactiveIdempotent` and `Reactive.ToRawOfReactive`.**

## Model

| member | source | states |
|---|---|---|
| Dep.CreateDep | packages/reactivity/src/dep.ts:16-21 | a fresh dep holds each given effect exactly once and has both markers empty |
| Dep.Dedup | packages/reactivity/src/dep.ts:17 | `new Set(xs)` keeps exactly the elements of `xs`, each once, and is no longer than `xs` |
| Dep.DedupOfDistinct | packages/reactivity/src/dep.ts:17 | building a set from a list without repeats keeps the list as it is |
| Dep.Add | packages/reactivity/src/effect.ts:249 | adding to a dep gives the old subscribers plus the new one, never a repeat, and changes nothing when already present; markers untouched |
| Dep.Delete | packages/reactivity/src/effect.ts:165 | deleting from a dep removes exactly that effect and keeps the markers |
| Dep.Remove | packages/reactivity/src/effect.ts:165 | removal keeps every other element and no repeats, and is the identity on a list without the element |
| Dep.SetBitAddsLevel | packages/reactivity/src/effect.ts:237 | `marker \|= trackOpBit` on the 32-bit marker adds the current level to the set it encodes, for levels 1..30 |
| Dep.ClearBitRemovesLevel | packages/reactivity/src/effect.ts:130-132 | the clearing `finalizeDepMarkers` does when a run ends (`marker &= ~trackOpBit`) removes the level from the encoded set |
| Dep.ZeroEncodesEmpty | packages/reactivity/src/dep.ts:18-19 | the markers a dep starts with (`0`) encode no level |
| Dep.SetOther | packages/reactivity/src/dep.ts:23-25 | setting one level's bit leaves the `wasTracked`/`newTracked` test of every other level unchanged |
| Dep.ClearOther | packages/reactivity/src/dep.ts:23-25 | clearing one level's bit leaves every other level's test unchanged |
| Dep.SetSame | packages/reactivity/src/dep.ts:23-25 | after setting a level's bit the marker test at that level succeeds (the bit is below the sign bit) |
| Dep.ClearSame | packages/reactivity/src/dep.ts:23-25 | after clearing a level's bit the marker test at that level fails |
| Dep.BitsDisjoint | packages/reactivity/src/effect.ts:100 | `trackOpBit` of two different depths in 1..30 share no bit |
| Dep.BitShape | packages/reactivity/src/effect.ts:100 | `1 << depth` for a depth in 1..30 is a single bit below the sign bit |
| DepGraph.EnsureDep | packages/reactivity/src/effect.ts:217-228 | after the lookup the slot has a dep, a new one being empty with clear markers; no other dep and no effect's list changes |
| DepGraph.TrackDep | packages/reactivity/src/effect.ts:213-252 | a read touches only the dep of the slot read and the reading effect's own list, and keeps the creation order valid |
| DepGraph.TrackAll | packages/reactivity/src/effect.ts:213-231 | after a run's reads the dep map holds exactly the old slots plus the slots read |
| DepGraph.InitMarkers | packages/reactivity/src/effect.ts:121 | the `w` bit of the level is set on exactly the deps the effect lists; subscribers and `n` bits are untouched |
| DepGraph.Cleanup | packages/reactivity/src/effect.ts:161-169 | the effect is deleted from exactly the deps it lists and its list is emptied; markers and other deps untouched |
| DepGraph.CleanupPreserves | packages/reactivity/src/effect.ts:161-169 | after cleanup the graph is still two-way consistent and no dep holds the effect |
| DepGraph.Settle | packages/reactivity/src/effect.ts:130-133 | at finalisation a dep drops the effect exactly when it was tracked by the previous run but not this one, and loses both bits of the level |
| DepGraph.FinalizeSpec | packages/reactivity/src/effect.ts:130-133 | finalisation settles each listed dep once and keeps, in order and without repeats, exactly the listed deps that are not stale |
| DepGraph.FinishConsistent | packages/reactivity/src/effect.ts:130-133 | finalisation keeps the graph two-way consistent |
| DepGraph.MarkedStart | packages/reactivity/src/effect.ts:121 | right after `initDepMarkers` the run invariant holds with no reads yet |
| DepGraph.MarkedRepeat | packages/reactivity/src/effect.ts:235-240 | within the marker cap, a slot read a second time in the same run changes nothing |
| DepGraph.MarkedKeep | packages/reactivity/src/effect.ts:236-240 | the first read of a slot the previous run read only sets its `n` bit, without binding again |
| DepGraph.MarkedAdd | packages/reactivity/src/effect.ts:236-251 | the first read of a slot the previous run did not read binds effect and dep in both directions |
| DepGraph.MarkedReads | packages/reactivity/src/effect.ts:233-252 | the run invariant holds after every prefix of the reads |
| DepGraph.FinishKeys | packages/reactivity/src/effect.ts:130-133 | at the end of the reads a dep is stale exactly when the previous run read it and this one did not, and the other levels' bits are as before |
| DepGraph.MarkedFinish | packages/reactivity/src/effect.ts:129-133 | a marked run followed by `finalizeDepMarkers` leaves the effect subscribed to exactly the slots read |
| DepGraph.FullStart | packages/reactivity/src/effect.ts:122-125 | beyond the cap the run starts from a cleaned-up effect |
| DepGraph.FullStepSeen | packages/reactivity/src/effect.ts:241-245 | beyond the cap a slot the effect already holds binds nothing |
| DepGraph.FullStepNew | packages/reactivity/src/effect.ts:241-251 | beyond the cap the first read of a slot binds it and keeps the graph consistent |
| DepGraph.FullReads | packages/reactivity/src/effect.ts:122-128 | beyond the cap the effect holds exactly the slots read so far |
| DepGraph.RunGraph | packages/reactivity/src/effect.ts:102-133 | the graph part of a run changes no effect's presence in the graph and keeps the creation order valid |
| DepGraph.RunRetracks | packages/reactivity/src/effect.ts:100-135 | under either scheme, after a run the effect is subscribed to exactly the slots read, every other effect keeps its list, the markers are as before and the graph is consistent |
| DepGraph.RetrackedKeepsClear | packages/reactivity/src/effect.ts:130-135 | a level with no marker bits before a run has none after it, so the next run at that level starts clean |
| Effect.InitialValid | packages/reactivity/src/effect.ts:47 | the initial module state satisfies the store invariant |
| Effect.Track | packages/reactivity/src/effect.ts:213-231 | `track` does nothing unless tracking is on with an active effect, in which case the slot has a dep afterwards; the module variables are untouched |
| Effect.TrackAllForActive | packages/reactivity/src/effect.ts:213-231 | with an active effect the reads of a body are tracked on the graph for that effect at the current depth |
| Effect.ActiveOnChain | packages/reactivity/src/effect.ts:87-94 | the active effect is on its own parent chain, so the guard of `run` refuses re-entering it |
| Effect.Enter | packages/reactivity/src/effect.ts:96-100 | on entering, the effect becomes active with tracking on one level deeper, and remembers the caller as its parent |
| Effect.Leave | packages/reactivity/src/effect.ts:135-139 | on leaving, the depth goes back up, the parent becomes active, the caller's tracking flag returns and the parent link is dropped |
| Effect.Stop | packages/reactivity/src/effect.ts:147-158 | `stop()` on the running effect only sets `deferStop`; it never changes the module variables |
| Effect.Run | packages/reactivity/src/effect.ts:83-145 | a stopped effect just calls its function in the caller's context; an effect on the parent chain does nothing; otherwise the function is called first and the caller's context is restored |
| Effect.RunBody | packages/reactivity/src/effect.ts:95-140 | the body of a guarded run does the graph work at one level deeper and restores the active effect, tracking flag and depth |
| Effect.RunResubscribes | packages/reactivity/src/effect.ts:83-145 | a run of an active effect not already running calls its function once, leaves it subscribed to exactly the slots it read, others untouched, and keeps the store valid |
| Effect.StopDetaches | packages/reactivity/src/effect.ts:147-169 | stopping an effect that is not running removes it from every dep, empties its list, deactivates it and calls `onStop` if set; nothing else changes |
| Effect.StopIdempotent | packages/reactivity/src/effect.ts:151-157 | a second `stop()` changes nothing and calls nothing |
| Effect.SelfStopDetaches | packages/reactivity/src/effect.ts:141-143 | a function that stops its own effect gets it detached at the end of the run, as by a plain stop |
| Effect.StoppedRunUntracked | packages/reactivity/src/effect.ts:84-86 | outside any run, a stopped effect's function changes no dep |
| Effect.NewEffect | packages/reactivity/src/effect.ts:194-201 | the new effect is active, reuses the function of a runner argument, and copies `scheduler`, `allowRecurse` and `onStop` from the options |
| Effect.Allocate | packages/reactivity/src/effect.ts:197 | the new effect gets a fresh id with an empty `deps` list, and no existing state changes |
| Effect.Start | packages/reactivity/src/effect.ts:202-204 | a lazy effect is not run; any other effect is run at once |
| Effect.CreateEffect | packages/reactivity/src/effect.ts:189-208 | `effect()` registers a fresh effect and, unless lazy, its first event is a call of its function |
| Effect.LazyCreateWaits | packages/reactivity/src/effect.ts:202-204 | a lazy `effect()` only registers the effect: no call, no subscription |
| Effect.CreateSubscribes | packages/reactivity/src/effect.ts:189-208 | a non-lazy `effect()` calls the function once and subscribes the new effect to exactly the slots read; existing effects keep their lists |
| Effect.AllocateValid | packages/reactivity/src/effect.ts:197 | registering a new effect keeps the store invariant |
| Trigger.HasDepsMapIff | packages/reactivity/src/effect.ts:262-266 | a target has a dep map exactly when one of its slots has a dep |
| Trigger.TargetKeys | packages/reactivity/src/effect.ts:271 | the keys of a target's dep map are exactly its tracked slots, without repeats |
| Trigger.AtOrAbove | packages/reactivity/src/effect.ts:274 | `key >= newValue` holds exactly for index keys at or above the number, and throws exactly for symbols |
| Trigger.LengthKeysAsWritten | packages/reactivity/src/effect.ts:272-277 | the length branch as written aborts exactly when the dep map has a symbol key |
| Trigger.LengthKeys | packages/reactivity/src/effect.ts:272-277 | the deps a length write reaches are exactly `length` and the indices at or above the new length |
| Trigger.LengthKeysAgree | packages/reactivity/src/effect.ts:272-277 | without symbol keys the branch as written selects the intended keys |
| Trigger.SymbolKeyAbortsLengthWrite | packages/reactivity/src/effect.ts:274 | a concrete dep map with a symbol key where the written branch throws and the intended one selects `length` |
| Trigger.IterationKeys | packages/reactivity/src/effect.ts:285-328 | ADD and DELETE on non-arrays add the iterate key, maps also the map-key iterate key, SET on maps the iterate key, ADD of an index on an array `length` |
| Trigger.SelectKeys | packages/reactivity/src/effect.ts:267-329 | CLEAR reaches every dep; an array length write reaches `length` and the cut-off indices; otherwise the key first, then the operation's iteration keys |
| Trigger.SelectKeysAsWritten | packages/reactivity/src/effect.ts:267-329 | the selection as written throws exactly for an array length write over a dep map with a symbol key |
| Trigger.SelectKeysAgree | packages/reactivity/src/effect.ts:267-329 | without symbol keys the two selections agree |
| Trigger.Collect | packages/reactivity/src/effect.ts:337-342 | the concatenation holds exactly the subscribers of the chosen deps |
| Trigger.EffectsToNotify | packages/reactivity/src/effect.ts:331-344 | the list handed to `triggerEffects` holds exactly the subscribers of the chosen deps |
| Trigger.ShortcutAgrees | packages/reactivity/src/effect.ts:331-344 | the single-dep shortcut gives the same list as `createDep` of the concatenation, so no effect appears twice |
| Trigger.TriggerEffect | packages/reactivity/src/effect.ts:365-382 | an effect is acted on exactly when it is not the running one or allows recursion, by its scheduler when it has one, else by a run |
| Trigger.Pass | packages/reactivity/src/effect.ts:353-362 | one loop acts on exactly the listed effects with the wanted `computed` tag that fire, in order and each once |
| Trigger.PassCons | packages/reactivity/src/effect.ts:353-362 | the loop's property is kept when one more effect is put in front |
| Trigger.TriggerEffects | packages/reactivity/src/effect.ts:347-363 | exactly the listed effects that fire are notified, each once, computed-backed ones first, through the scheduler exactly when one is set |
| Trigger.TriggerPlan | packages/reactivity/src/effect.ts:254-345 | a target never tracked notifies nobody, and every action names a known effect |
| Trigger.TriggerNotifies | packages/reactivity/src/effect.ts:254-382 | a trigger notifies exactly the firing effects subscribed to a chosen dep, each once, computed-backed first, by scheduler exactly when one is set |
| Trigger.Perform | packages/reactivity/src/effect.ts:373-381 | carrying out the plan makes exactly one scheduler call per scheduler action and keeps the store well formed |
| Trigger.RunEvents | packages/reactivity/src/effect.ts:83-145 | a run of an effect calls no scheduler itself |
| Reactive.ReadFlag | packages/reactivity/src/baseHandlers.ts:75-93 | a proxy with the base handlers answers `__v_isReactive`, `__v_isReadonly` and `__v_isShallow` from its configuration, `__v_raw` with its target and any other flag from its target; a proxy with the (empty) collection handlers passes every flag on to its target; a plain object answers from its own properties |
| Reactive.HolderPlain | packages/reactivity/src/reactive.ts:108-119 | on a well-formed heap every chain of proxies ends at a plain object: the target itself for the base handlers, a plain collection behind collection proxies |
| Reactive.CollectionReadsHolder | packages/reactivity/src/collectionHandlers.ts:6-12 | with no `get` trap, every read through a collection proxy, flags included, is the own property of the plain collection at the end of the chain |
| Reactive.RawLink | packages/reactivity/src/reactive.ts:127 | the next step of `toRaw` exists exactly when the value and its `__v_raw` are both truthy |
| Reactive.ToRawFuel | packages/reactivity/src/reactive.ts:126-129 | `toRaw` ends at a value without a raw link, and a value without one is its own raw value |
| Reactive.ToRaw | packages/reactivity/src/reactive.ts:126-129 | the raw value has no raw link, and a value without one is returned as it is |
| Reactive.ToRawIdempotent | packages/reactivity/src/reactive.ts:126-129 | `toRaw(toRaw(v)) == toRaw(v)` |
| Reactive.ToRawOfProxy | packages/reactivity/src/reactive.ts:126-129 | the raw value of a registered proxy with the base handlers is its target |
| Reactive.ToRawOfCollectionProxy | packages/reactivity/src/reactive.ts:126-129 | a collection proxy has no `__v_raw` of its own, so unless the collection carries one, `toRaw` returns the proxy itself |
| Reactive.TargetTypeMap | packages/reactivity/src/reactive.ts:33-46 | `Object` and `Array` are common targets, the four collection types are collections, all else invalid |
| Reactive.GetTargetType | packages/reactivity/src/reactive.ts:48-52 | a skipped or non-extensible object is invalid; otherwise its raw type decides; a proxy answers all three questions for its target |
| Reactive.CollectionProxyType | packages/reactivity/src/reactive.ts:48-52 | a collection proxy reports its collection's class name, so it is never a common target |
| Reactive.CreateReactiveObject | packages/reactivity/src/reactive.ts:70-121 | a primitive is returned as it is, as is a value with a truthy `__v_raw` unless it is a reactive proxy to be made read-only; a registered target gets its proxy back; anything new is one proxy over the target, registered under it, with the collection handlers exactly for a collection target; the registry stays well formed |
| Reactive.Register | packages/reactivity/src/reactive.ts:119 | registering changes only the map of the proxy's configuration, at the target |
| Reactive.RegisterWf | packages/reactivity/src/reactive.ts:113-120 | a new proxy registered for an unregistered object keeps heap and registry well formed, given a plain target for the base handlers and a collection or collection proxy for the collection handlers |
| Reactive.MakeReactive | packages/reactivity/src/reactive.ts:57-68 | a read-only value is returned unchanged; anything else goes through `createReactiveObject` with the mutable configuration |
| Reactive.ReactiveOfPlain | packages/reactivity/src/reactive.ts:91-120 | a plain object gets its registered proxy if it has one; otherwise a fresh registered proxy, with collection handlers for collection types; or itself when skipped, frozen or of another type |
| Reactive.ReactiveOfCollectionProxy | packages/reactivity/src/reactive.ts:57-120 | `reactive` of a collection proxy wraps it again: a second collection proxy, registered under the first, unless it is already registered or skipped |
| Reactive.ReactiveIdempotent | packages/reactivity/src/reactive.ts:91-105 | wrapping the same target again returns the same proxy, and wrapping a proxy with the base handlers returns it |
| Reactive.ToRawOfReactive | packages/reactivity/src/reactive.ts:57-129 | `toRaw(reactive(t)) == t` for a plain object without `__v_raw`, except that a collection proxy is its own raw value |
| BaseHandlers.RegisteredProxy | packages/reactivity/src/baseHandlers.ts:84-91 | the lookup yields an object exactly when the target is registered in the map of the configuration |
| BaseHandlers.ProxyGet | packages/reactivity/src/baseHandlers.ts:73-110 | the three status flags come from the proxy's configuration, untracked; `__v_raw` yields the target exactly for the registered proxy as receiver; any other key reads the target's own property and is tracked unless read-only or non-trackable |
| BaseHandlers.GetTracksRead | packages/reactivity/src/baseHandlers.ts:99-107 | a read through a mutable proxy inside an effect leaves a dep for the (target, key) slot |
| BaseHandlers.ReflectSet | packages/reactivity/src/baseHandlers.ts:143 | a successful write stores the value; writing past an array's end extends `length`; writing `length` drops the indices at or past it; a `length` that is not a non-negative number throws; a new key on a frozen object is refused with nothing written |
| BaseHandlers.WritePlan | packages/reactivity/src/baseHandlers.ts:146-150 | an absent key triggers `ADD` and a present key whose value changed triggers `SET` (with the target's kind and the new length); an existing key whose value is unchanged, or a target never tracked, triggers nothing |
| BaseHandlers.WriteNotifies | packages/reactivity/src/baseHandlers.ts:146-150 | a write of an absent key or a changed value notifies exactly the firing effects that subscribe to the written key, to the iteration key (new key on an object) or to `length` (new index on an array); a `length` write on an array notifies `length` and the indices at or above the new length instead |
| BaseHandlers.ProxySet | packages/reactivity/src/baseHandlers.ts:115-153 | a read-only ref is not replaced by a non-ref; a deep proxy unwraps the new and the previous value and throws when that fails; a write through a ref changes nothing else and triggers nothing; only the target's properties change; a receiver other than the target's proxy triggers nothing, and through the target's proxy the plan is the `ADD`/`SET` write plan of the (unwrapped) value against the (unwrapped) previous value and `hadKey` |
| BaseHandlers.StoreValue | packages/reactivity/src/baseHandlers.ts:139-152 | the value lands on the target when the receiver is its proxy, and the trigger is the write plan for `hadKey` exactly then |
| BaseHandlers.SetStores | packages/reactivity/src/baseHandlers.ts:126-152 | through its registered proxy, a plain write over a non-ref stores the raw value and returns `true` |
| BaseHandlers.SetThenGet | packages/reactivity/src/baseHandlers.ts:99-152 | a write followed by a read through the same reactive proxy reads back the stored raw value |
| BaseHandlers.RefWriteThrough | packages/reactivity/src/baseHandlers.ts:131-134 | a deep write of a non-ref over a ref on a non-array goes into the ref, returns `true`, stores and triggers nothing |
| CollectionHandlers.CollectionGet | packages/reactivity/src/collectionHandlers.ts:6-8 | a read through a collection proxy is the own property of the plain collection at the end of the chain, and nothing is tracked |
| CollectionHandlers.CollectionSet | packages/reactivity/src/collectionHandlers.ts:6-8 | a write through a collection proxy never throws and triggers nothing; it stores the value as given on the plain collection at the end of the chain, changes no other object, and is refused exactly for a new key on a non-extensible collection |
| CollectionHandlers.CollectionSetThenGet | packages/reactivity/src/collectionHandlers.ts:6-12 | a value written through a collection proxy is read back through it unchanged, not unwrapped, and the effect store is untouched |
| Computed.NewComputed | packages/reactivity/src/computed.ts:36-99 | a new ref is dirty and uncomputed over a fresh effect that is not run, inactive exactly under server rendering, tagged with the ref as `computed` and scheduler, read-only exactly when there is no user setter, whose `_setter` is the user `set`, `NOOP` for a bare getter, or undefined when `set` is left out |
| Computed.GetValue | packages/reactivity/src/computed.ts:59-68 | a clean cacheable ref answers from its cache without calling the getter; otherwise the getter is called (unless its effect is already running) and the cache is clean afterwards |
| Computed.SecondReadCached | packages/reactivity/src/computed.ts:59-68 | two reads in a row call the getter at most once and give the same value |
| Computed.UncachedReadRecomputes | packages/reactivity/src/computed.ts:56-66 | under server rendering every read calls the getter and returns its latest result |
| Computed.TriggerRef | packages/reactivity/src/computed.ts:52 | the readers of the ref notified are exactly the firing subscribers of its dep, each once |
| Computed.Invalidate | packages/reactivity/src/computed.ts:49-54 | the scheduler marks the ref dirty; a clean ref notifies its readers, a dirty one nobody |
| Computed.InvalidateThenRecompute | packages/reactivity/src/computed.ts:49-66 | after the scheduler the next read calls the getter and caches its new result |
| Computed.InvalidateIdempotent | packages/reactivity/src/computed.ts:50-53 | a second scheduler call before a read notifies nobody |
| Computed.SetValue | packages/reactivity/src/computed.ts:70-72 | assigning `.value` calls the user setter with the value, does nothing for the `NOOP` of a bare getter, or throws when `_setter` is undefined; the ref, its cache and its effect stay as they were, and a read-only ref never reaches user code |
| Computed.AssignAfterCreate | packages/reactivity/src/computed.ts:70-99 | on a fresh ref, assignment follows the argument of `computed()`: a bare getter ignores it, `{ get }` without `set` throws, `{ get, set }` calls `set`; the ref stays dirty |
| Watch.Elements | packages/runtime-core/src/apiWatch.ts:80-81 | the elements a multi-source getter maps are the array's index properties, as many as its `length` |
| Watch.Classify | packages/runtime-core/src/apiWatch.ts:68-116 | a ref reads `.value` and is forced exactly when shallow; a reactive object is returned and forces `deep`; an array is mapped by the getter and is forced exactly when one of its elements at setup is reactive or shallow; a function is called when there is a callback; anything else is `NOOP`; the getter is traversed exactly with a callback and `deep` |
| Watch.Evaluate | packages/runtime-core/src/apiWatch.ts:72-116 | a multi-source getter returns a fresh array with one value per element of the array as it is when the getter runs; a reactive source returns itself; `NOOP` returns `undefined` |
| Watch.ArrayGetterRereads | packages/runtime-core/src/apiWatch.ts:77-93 | a watch over an array maps the array's current elements on every run, so an element added or replaced after `watch()` is seen |
| Watch.NewValue | packages/runtime-core/src/apiWatch.ts:138 | `effect.run()` yields the getter's value, or `undefined` when the effect is already running |
| Watch.OldAt | packages/runtime-core/src/apiWatch.ts:144 | indexing an old array gives its element or `undefined` past its end; indexing anything else throws |
| Watch.ScanAgrees | packages/runtime-core/src/apiWatch.ts:143-145 | against an old array the element scan never throws and says whether some element changed |
| Watch.ShouldFire | packages/runtime-core/src/apiWatch.ts:139-147 | the callback fires on `deep` or `forceTrigger`; otherwise a single source fires exactly when its value changed, a multi-source watch exactly when some element changed, and a multi-source value that is not an array throws |
| Watch.OldArg | packages/runtime-core/src/apiWatch.ts:180 | the callback sees `undefined` instead of the sentinel, and the old value otherwise |
| Watch.RegisterCleanup | packages/runtime-core/src/apiWatch.ts:119-123 | a registered cleanup becomes both the watcher's `cleanup` and its effect's `onStop`; nothing else changes |
| Watch.Fire | packages/runtime-core/src/apiWatch.ts:173-184 | firing calls the previous cleanup first, then the callback with the new and old values, and keeps the new value as the old one |
| Watch.Decide | packages/runtime-core/src/apiWatch.ts:139-185 | after the run the job throws exactly when the comparison throws, fires with cleanup then callback exactly when the condition holds, and otherwise leaves the watcher and store untouched |
| Watch.Job | packages/runtime-core/src/apiWatch.ts:130-190 | a stopped watcher's job does nothing; without a callback it only runs the effect |
| Watch.JobFires | packages/runtime-core/src/apiWatch.ts:135-185 | with a callback the job runs the getter first; the callback then fires exactly when the condition holds, after the previous cleanup, with the new and old values |
| Watch.JobIsDecide | packages/runtime-core/src/apiWatch.ts:135-147 | an active watcher's job with a callback is one run of its effect followed by the decision on the value that run returned |
| Watch.DecideSingle | packages/runtime-core/src/apiWatch.ts:139-147 | for a single source that is neither deep nor forced, the callback is called exactly when the new value differs from the old one |
| Watch.WatchEffect | packages/runtime-core/src/apiWatch.ts:213 | the watch's effect is active, non-recursive, with the getter as function and the scheduler closure |
| Watch.NewWatcher | packages/runtime-core/src/apiWatch.ts:125 | `oldValue` starts as `[]` for a multi-source watch and as the sentinel otherwise, with no cleanup |
| Watch.InitialRun | packages/runtime-core/src/apiWatch.ts:216-234 | without `immediate` the getter runs once to seed the old value and no callback is called; with `immediate` a single source calls back at once with `undefined` as old value; without a callback the effect runs once unless the flush is `post` |
| Watch.Seed | packages/runtime-core/src/apiWatch.ts:225 | the seeding run calls the getter once and stores its value as the old one |
| Watch.ImmediateFires | packages/runtime-core/src/apiWatch.ts:217-218 | the immediate job of a fresh single-source watcher runs the getter and calls back with `undefined` as the old value |
| Watch.FirstValueFires | packages/runtime-core/src/apiWatch.ts:125-146 | any value differs from the sentinel, so the first comparison of a single-source watch fires |
| Watch.DoWatch | packages/runtime-core/src/apiWatch.ts:63-240 | `doWatch` registers one new effect and performs the initial run as `immediate`, the callback and the flush mode decide |
| Watch.OnSchedule | packages/runtime-core/src/apiWatch.ts:196-210 | `sync` runs the job at once, `pre` queues it, and `post` does nothing |
| Watch.StopHandle | packages/runtime-core/src/apiWatch.ts:236-239 | the stop handle deactivates the watch's effect and calls a registered cleanup once |
| Watch.StoppedWatchIsSilent | packages/runtime-core/src/apiWatch.ts:132-134 | after the stop handle, the job calls nothing and changes nothing |
| Watch.CallbackIffChanged | packages/runtime-core/src/apiWatch.ts:135-185 | for a plain single source, the job calls the callback exactly when the getter's value changed, and then last |
| Watch.DecideCallbackIff | packages/runtime-core/src/apiWatch.ts:139-185 | the decision calls a callback exactly when the condition holds |
| Watch.SeededWatchIsQuiet | packages/runtime-core/src/apiWatch.ts:219-226 | a watch seeded by its initial run calls no callback while the getter returns the seeded value |
| Watch.OldValueIsPreviousValue | packages/runtime-core/src/apiWatch.ts:177-184 | each callback receives as its old value the new value of the callback before it |
| Watch.FiredKeepsValue | packages/runtime-core/src/apiWatch.ts:184 | after a callback the new value becomes the old one |
| Watch.FiredCallsLast | packages/runtime-core/src/apiWatch.ts:177-182 | a job that fires calls the callback last, with the new and old values |
| Watch.CleanupRunsOnStop | packages/runtime-core/src/apiWatch.ts:119-123 | a cleanup registered during a callback is called when the watch is stopped |
| Watch.ImmediateMultiSkipsUndefined | packages/runtime-core/src/apiWatch.ts:125-146 | an immediate multi-source watch whose sources all read `undefined` compares against `[]` and does not call back |
| Watch.Children | packages/runtime-core/src/apiWatch.ts:250-264 | `traverse` recurses only into objects of the heap |
| Watch.Visit | packages/runtime-core/src/apiWatch.ts:241-266 | a value that is not walkable or already seen adds nothing; otherwise it is added to `seen`, and `seen` grows only by walkable objects whose walkable children are in it too |
| Watch.VisitAll | packages/runtime-core/src/apiWatch.ts:250-264 | every walkable child ends up in `seen` |
| Watch.Traverse | packages/runtime-core/src/apiWatch.ts:241-266 | `traverse` returns its argument, and the objects it visits are walkable and closed under walkable children |
| Watch.TraverseLeast | packages/runtime-core/src/apiWatch.ts:241-266 | the objects `traverse` visits lie inside every set that holds the value and is closed under walkable children, so they are exactly those reachable from the value through walkable objects |
| Sequence.RunFits | packages/runtime-core/src/getSequence.ts:29-85 | an increasing run of indices is never longer than the array |
| Sequence.TailsStep | packages/runtime-core/src/getSequence.ts:36-67 | one loop turn keeps the patience-sorting invariant: no tail grows, and a counted value extends every run whose tail is below it |
| Sequence.Search | packages/runtime-core/src/getSequence.ts:48-59 | the binary search returns the least position whose tail is not below the current value |
| Sequence.Backtrack | packages/runtime-core/src/getSequence.ts:77-83 | following the predecessor links back from the last tail yields, one per position, indices that increase in both index and value |
| Sequence.SkipKeeps | packages/runtime-core/src/getSequence.ts:39 | a zero entry (a new node) leaves the loop state as it is |
| Sequence.PushKeeps | packages/runtime-core/src/getSequence.ts:41-46 | a value above the last tail is appended and linked to that tail, keeping the loop invariant |
| Sequence.PushTails | packages/runtime-core/src/getSequence.ts:41-46 | appending keeps every increasing run's length bound and tail bound |
| Sequence.PushLinks | packages/runtime-core/src/getSequence.ts:44 | the appended index records the previous last tail as its predecessor |
| Sequence.PushSorted | packages/runtime-core/src/getSequence.ts:41-42 | appending a larger value keeps the tails strictly increasing |
| Sequence.ReplaceSorted | packages/runtime-core/src/getSequence.ts:62-63 | replacing the least tail above the value keeps the tails strictly increasing |
| Sequence.ReplaceLinks | packages/runtime-core/src/getSequence.ts:65 | the replacing index records the tail before its position (`undefined` at position 0) |
| Sequence.ReplaceKeeps | packages/runtime-core/src/getSequence.ts:62-66 | the replacement keeps the loop invariant |
| Sequence.Step | packages/runtime-core/src/getSequence.ts:36-67 | each loop turn keeps the invariant and grows `result` by at most one |
| Sequence.GetSequence | packages/runtime-core/src/getSequence.ts:29-85 | the result indices increase in index and value, skip new nodes (zeros) except the seed 0, and are as many as the longest increasing run of non-zero entries; with no zeros the result is itself such a run |
| ComponentProps.FindSameType | packages/runtime-core/src/componentProps.ts:175 | `findIndex` returns the first position at or after the start whose type has the same name, or -1 when none has |
| ComponentProps.GetTypeIndex | packages/runtime-core/src/componentProps.ts:173-180 | an array gives the first index of a like type or -1; a single function gives 0 exactly when it is like the type; anything else gives -1 |
| ComponentProps.NormalizeOpt | packages/runtime-core/src/componentProps.ts:217-230 | an array or function declaration becomes `{ type }` with no default, an options object keeps its type and default, a falsy one stays as it is |
| ComponentProps.BooleanIndexType | packages/runtime-core/src/componentProps.ts:221-223 | the Boolean index is found exactly when Boolean is among the declared types |
| ComponentProps.StringFirstType | packages/runtime-core/src/componentProps.ts:222-225 | `stringIndex < 0 \|\| booleanIndex < stringIndex` holds exactly when no String type comes before the first Boolean |
| ComponentProps.CastFlags | packages/runtime-core/src/componentProps.ts:221-225 | `shouldCast` is set exactly when Boolean is among the types; `shouldCastTrue` exactly when no String type comes before the first Boolean |
| ComponentProps.NormalizeLoop | packages/runtime-core/src/componentProps.ts:213-232 | the declaration loop always produces normalised options |
| ComponentProps.NormalizeLoopKeys | packages/runtime-core/src/componentProps.ts:213-219 | the loop's normalised keys are the earlier ones plus the camelised names of the declarations visited that do not start with `$` |
| ComponentProps.NormalizeLoopNeed | packages/runtime-core/src/componentProps.ts:227-229 | a key needs casting exactly when it did before or a visited declaration of it has a Boolean type or a default |
| ComponentProps.NormalizePropsOptions | packages/runtime-core/src/componentProps.ts:187-236 | a cached component gets its cached result with the cache unchanged; otherwise the result is cached, and is the empty array exactly when there is no `props` declaration |
| ComponentProps.NormalizePropsOptionsKeys | packages/runtime-core/src/componentProps.ts:203-232 | the normalised keys are exactly the camelised declared names not starting with `$`, and exactly those with a Boolean type or a default need casting |
| ComponentProps.DefaultValue | packages/runtime-core/src/componentProps.ts:124-137 | a factory default of a non-`Function` prop is called once per key and its result kept in `propsDefaults`; any other default is used as it is |
| ComponentProps.ResolvePropValueAsWritten | packages/runtime-core/src/componentProps.ts:111-153 | as written, a supplied value is never changed, not even cast, and an undeclared key keeps its value |
| ComponentProps.AsWrittenNeverCastsFalse | packages/runtime-core/src/componentProps.ts:139-149 | as written, the result is the value given, a default, or `true`: the cast to `false` cannot happen |
| ComponentProps.NestedCastingSkipped | packages/runtime-core/src/componentProps.ts:124-150 | a Boolean prop without a default stays `undefined` when absent and `""` when passed empty as written, but becomes `false` and `true` with the casting applied |
| ComponentProps.ResolvePropValue | packages/runtime-core/src/componentProps.ts:111-153 | an undeclared key keeps its value; a supplied value is kept unless cast; an absent Boolean prop without default is `false`; `""` or the hyphenated key is `true` unless a String type comes first; an undefined value takes a plain default; only a factory adds to the cache |
| ComponentProps.ResolveStable | packages/runtime-core/src/componentProps.ts:127-133 | resolving against any later state of the defaults cache gives the same value, since a factory's result is reused |
| ComponentProps.SplitPropsThrows | packages/runtime-core/src/componentProps.ts:66-92 | the split fails exactly when some incoming key makes `isEmitListener` throw |
| ComponentProps.StepSlot | packages/runtime-core/src/componentProps.ts:70-90 | one incoming key is written to the object its route names, under its target name, and nothing else changes |
| ComponentProps.SplitPropsLookup | packages/runtime-core/src/componentProps.ts:66-92 | after the split, `props`, `attrs` and the values to cast hold, under each name, the value of the last incoming key routed there |
| ComponentProps.CastLoop | packages/runtime-core/src/componentProps.ts:93-108 | the cast loop only ever adds to the defaults cache |
| ComponentProps.CastLoopLookup | packages/runtime-core/src/componentProps.ts:97-107 | after the cast loop each listed key holds its resolved value, with absence taken from the values set aside; other keys are untouched |
| ComponentProps.SetFullProps | packages/runtime-core/src/componentProps.ts:53-109 | with no incoming props there are no attributes, and the defaults cache only grows |
| ComponentProps.SetFullPropsThrows | packages/runtime-core/src/componentProps.ts:66-91 | `setFullProps` throws exactly when an undeclared incoming key makes `isEmitListener` throw |
| ComponentProps.SetFullPropsLookup | packages/runtime-core/src/componentProps.ts:53-109 | `attrs` holds the undeclared non-listener keys as passed; `props` holds each declared key, camelised, with its value, or resolved when it needs casting |
| ComponentProps.FillDeclared | packages/runtime-core/src/componentProps.ts:30-34 | afterwards the keys are the old ones plus every declared key |
| ComponentProps.FillDeclaredLookup | packages/runtime-core/src/componentProps.ts:30-34 | a present key keeps its value, and a missing declared key holds `undefined` |
| ComponentProps.InitProps | packages/runtime-core/src/componentProps.ts:16-51 | a functional component without declared props gets its attributes as props; otherwise every declared key is present; it throws exactly when the split does |
| ComponentProps.InitPropsDeclared | packages/runtime-core/src/componentProps.ts:16-51 | a declared key that needs no casting holds the value passed for it, or `undefined` |
| ComponentEmits.StripOnce | packages/runtime-core/src/componentEmits.ts:21 | a name ending in `Once` loses exactly that suffix; any other name is kept |
| ComponentEmits.IsEmitListener | packages/runtime-core/src/componentEmits.ts:16-27 | no declared events or a key not starting with `on` gives `false`; `true` only for an `on` key with declared events |
| ComponentEmits.IsEmitListenerThrows | packages/runtime-core/src/componentEmits.ts:21-23 | `isEmitListener` throws exactly for the key `onOnce` when events are declared, as nothing is left to take the first letter of |
| ComponentEmits.OnOnceKey | packages/runtime-core/src/componentEmits.ts:21 | among `on` keys, only `onOnce` leaves nothing once `on` and a trailing `Once` are dropped |
| ComponentEmits.HandlerKeyIsListener | packages/runtime-core/src/componentEmits.ts:16-27 | the handler key of a declared event, with or without the `Once` modifier, is recognised as its listener |
| ComponentEmits.Emit | packages/runtime-core/src/componentEmits.ts:29-44 | an unmounted instance calls nothing; a call goes to a truthy handler found under the event's handler key or its camelised handler key, with the arguments unchanged |
| ComponentEmits.EmitLookup | packages/runtime-core/src/componentEmits.ts:36-43 | a mounted instance calls the handler under the handler key, or else under the camelised handler key, and calls nothing only when neither is set |
| PublicInstance.Source | packages/runtime-core/src/componentPublicInstance.ts:50-67 | an uncached read finds a name in setup state first, and finds nothing exactly when no store (setup state, data, declared props, context) owns it |
| PublicInstance.PublicRead | packages/runtime-core/src/componentPublicInstance.ts:70-77 | a public getter answers exactly the names of `publicPropertiesMap`, and only `$attrs` is tracked |
| PublicInstance.GetProp | packages/runtime-core/src/componentPublicInstance.ts:31-79 | the access cache gains at most the name read, with the store it came from; `$` names skip the stores; a cached store is read directly; a name found nowhere goes to the public getters uncached |
| PublicInstance.CacheTransparent | packages/runtime-core/src/componentPublicInstance.ts:36-67 | while the cache agrees with the stores, a read returns what an uncached lookup returns, and the cache still agrees afterwards |
| PublicInstance.ReadTwice | packages/runtime-core/src/componentPublicInstance.ts:36-67 | reading a name twice gives the same value and the second read leaves the cache unchanged |
| PublicInstance.SetProp | packages/runtime-core/src/componentPublicInstance.ts:80-90 | a data name is written and the write succeeds; a prop name is refused and nothing changes; any other name is accepted and ignored |
| PublicInstance.SetKeepsCache | packages/runtime-core/src/componentPublicInstance.ts:80-90 | a write through the proxy keeps the access cache in agreement with the stores |
| PublicInstance.SetThenGet | packages/runtime-core/src/componentPublicInstance.ts:42-55 | a data name written through the proxy reads back the written value unless setup state shadows it |
| VNode.TypeShape | packages/runtime-core/src/vnode.ts:84-94 | a tag name is an element; otherwise suspense wins over teleport, which wins over stateful and functional components; built-in symbols and other primitives get no flag |
| VNode.NormalizeKey | packages/runtime-core/src/vnode.ts:179-180 | a `null` or `undefined` key becomes `null`, any other key is kept, so a key is never `undefined` |
| VNode.NormalizeClassStyle | packages/runtime-core/src/vnode.ts:65-82 | a truthy non-string class is replaced by its normalised string, a string or falsy class is kept; an array style becomes one style record, another style is kept; no other property changes |
| VNode.NormalizeChildren | packages/runtime-core/src/vnode.ts:155-177 | type, props, key and patch flag are untouched and the shape flags only gain bits |
| VNode.NormalizeChildrenNull | packages/runtime-core/src/vnode.ts:158-159 | `null` or `undefined` children are recorded as none and add no flag |
| VNode.NormalizeChildrenArray | packages/runtime-core/src/vnode.ts:160-161 | array children are kept as they are and add ARRAY_CHILDREN |
| VNode.NormalizeChildrenText | packages/runtime-core/src/vnode.ts:162-172 | any other child becomes its string with TEXT_CHILDREN, or under a teleport one text vnode with ARRAY_CHILDREN |
| VNode.TextVNode | packages/runtime-core/src/vnode.ts:44-46 | a text vnode has the `Text` type, the text as children, only TEXT_CHILDREN and no props or key |
| VNode.CreateVNode | packages/runtime-core/src/vnode.ts:52-152 | the vnode keeps its type and patch flag, carries its type's shape flag, and has normalised props and key when props are given, none otherwise |
| VNode.KeySurvives | packages/runtime-core/src/vnode.ts:65-82 | normalising class and style does not change the key |
| VNode.CreateTextVNode | packages/runtime-core/src/vnode.ts:44-46 | `createTextVNode` builds exactly the text vnode |
| VNode.SameTypeByKey | packages/runtime-core/src/vnode.ts:196-198 | two vnodes created for one type are the same vnode type exactly when their keys agree once `null` and `undefined` are identified |
| VNode.DifferentTypes | packages/runtime-core/src/vnode.ts:196-198 | vnodes of different types are never the same vnode type |
| VNode.NormalizeVNode | packages/runtime-core/src/vnode.ts:200-220 | nullish and boolean children become comments, arrays fragments, vnodes themselves, strings and numbers text vnodes of their string |
| Events.StripModifiers | packages/runtime-dom/src/modules/events.ts:55-58 | the loop stops at a name no modifier ends and never lengthens it |
| Events.ParseName | packages/runtime-dom/src/modules/events.ts:50-61 | options are present exactly when a modifier ends the name, and the event name holds no upper-case letter |
| Events.FlagsLast | packages/runtime-dom/src/modules/events.ts:55-58 | setting the flags of a list of modifiers does not depend on their order |
| Events.WithModifiersLast | packages/runtime-dom/src/modules/events.ts:48 | appending one more modifier to a name appends its suffix |
| Events.SuffixMatches | packages/runtime-dom/src/modules/events.ts:48 | the modifier pattern, tested at the end of a name, matches exactly the modifier that was appended |
| Events.StripOne | packages/runtime-dom/src/modules/events.ts:55-58 | one pass of the loop removes the last modifier and sets its flag |
| Events.StripWithModifiers | packages/runtime-dom/src/modules/events.ts:55-58 | the loop undoes appending modifiers: the bare name comes back, with every modifier's flag set |
| Events.ParseNameModifiers | packages/runtime-dom/src/modules/events.ts:50-61 | a prop name with modifiers parses into the hyphenated name after `on` and exactly the options its modifiers set, and into no options without modifiers |
| Events.RemoveListener | packages/runtime-dom/src/modules/events.ts:7-14 | removal drops exactly the listeners with that event, function and capture flag |
| Events.PatchEvent | packages/runtime-dom/src/modules/events.ts:16-46 | a new value on an existing invoker is swapped in with no listener change; a new handler gets a fresh invoker registered once; a falsy value removes the invoker's listener and clears the cache entry; otherwise nothing changes |
| Events.PatchEventFresh | packages/runtime-dom/src/modules/events.ts:37 | every invoker in use stays older than the next one created |
| Events.RemoveFreshListener | packages/runtime-dom/src/modules/events.ts:42 | removing the listener just added leaves the earlier listeners in order |
| Events.AddThenRemove | packages/runtime-dom/src/modules/events.ts:27-44 | binding a handler to a name and then unbinding it leaves the element's listeners as they were, with the cache entry `undefined` |
| NormalizeProp.NormalizeClass | packages/shared/src/normalizeProp.ts:43-62 | the class string is always trimmed; a string class is the trimmed string; anything but a string, array or object gives the empty class |
| NormalizeProp.ClassAccumulateJoin | packages/shared/src/normalizeProp.ts:48-53 | the array loop builds the non-empty element classes joined by spaces, with one trailing space when there are any |
| NormalizeProp.NormalizedTrimmed | packages/shared/src/normalizeProp.ts:47-53 | every element class is itself trimmed |
| NormalizeProp.NormalizeClassArray | packages/shared/src/normalizeProp.ts:47-61 | an array class is its non-empty element classes joined by single spaces |
| NormalizeProp.KeyAccumulateJoin | packages/shared/src/normalizeProp.ts:55-59 | the object loop builds the keys with truthy values joined by spaces, with one trailing space when there are any |
| NormalizeProp.NormalizeClassObject | packages/shared/src/normalizeProp.ts:54-61 | an object class lists the keys with truthy values in enumeration order, separated by spaces |
| NormalizeProp.TrimAppendSpace | packages/shared/src/normalizeProp.ts:61 | the space after the last class does not survive the final trim |
| NormalizeProp.SplitStyle | packages/shared/src/normalizeProp.ts:29-34 | the text is cut exactly at the `;` that are outside parentheses: joining the items with `;` gives the text back, every joint is such a delimiter of the text, and no item holds one |
| NormalizeProp.FirstColon | packages/shared/src/normalizeProp.ts:30 | the property delimiter matches at the first `:` followed by a character other than a line terminator |
| NormalizeProp.Declaration | packages/shared/src/normalizeProp.ts:30-37 | an item declares a property exactly when it holds a `:` followed by a character other than a line terminator; the name is then the trimmed text before the first such `:` and the value the trimmed rest of that line |
| NormalizeProp.ParseItemsLookup | packages/shared/src/normalizeProp.ts:34-39 | each property of the parsed record is the value of the last item declaring it, and nothing else is set |
| NormalizeProp.ParseStringStyleLookup | packages/shared/src/normalizeProp.ts:32-41 | a property of a parsed style text is the trimmed value of the last item declaring it |
| NormalizeProp.MergeIntoLookup | packages/shared/src/normalizeProp.ts:16-18 | copying a record key by key sets exactly its keys to its values and leaves the others |
| NormalizeProp.NormalizeStyle | packages/shared/src/normalizeProp.ts:5-27 | a string or object style is returned as it is, an array becomes a record, anything else is `undefined` |
| NormalizeProp.MergeRecordsLookup | packages/shared/src/normalizeProp.ts:8-21 | after the loop each property holds the value the last record setting it gives |
| NormalizeProp.NormalizeStyleArray | packages/shared/src/normalizeProp.ts:8-21 | every property of an array style comes from the last item whose record sets it |
| Parse.EntityAt | packages/compiler-core/src/parse.ts:21-28 | an entity match starts with `&`, ends with `;` and is at least four characters long; nothing matches unless the text starts with `&` |
| Parse.DecodeEntities | packages/compiler-core/src/parse.ts:37-38 | decoding never lengthens the text and leaves text without `&` unchanged |
| Parse.DecodeEscapeChar | packages/compiler-core/src/parse.ts:21-28 | the entity of each character `decodeMap` produces decodes back to that character, and the rest of the text is decoded on its own |
| Parse.DecodeEscape | packages/compiler-core/src/parse.ts:37-38 | decoding undoes escaping the five reserved characters, for every text |
| Parse.ResolveOptionsLookup | packages/compiler-core/src/parse.ts:63-70 | the options loop sets exactly the given keys, to the given value or the default where it is `undefined`, and leaves the others |
| Parse.CreateParserContext | packages/compiler-core/src/parse.ts:57-82 | a new context starts at line 1, column 1, offset 0, with the whole content as source and outside `pre` and `v-pre` |
| Parse.CreateParserContextOptions | packages/compiler-core/src/parse.ts:61-70 | every option of a new context is the given value, the default where it is `undefined` or missing |
| Parse.CreateParserContextOnWarn | packages/compiler-core/src/parse.ts:80 | the context's `onWarn` is the given one, or the default when none is given |
| Parse.GetSelection | packages/compiler-core/src/parse.ts:140-151 | a selection keeps its start, ends at the given end or else at the cursor, and holds the original source between the two offsets (empty when the end is before the start) |
| Parse.SelectionOfAdvance | packages/compiler-core/src/parse.ts:140-151 | the selection from a position to where advancing over `n` characters leads is exactly those characters |
| Parse.Last | packages/compiler-core/src/parse.ts:153-155 | the last element, and `undefined` exactly for an empty array |
| Parse.LastPush | packages/compiler-core/src/parse.ts:153-155 | the last element after pushing `x` is `x` |
| Parse.StartsWithEndTagOpen | packages/compiler-core/src/parse.ts:183-189 | the source opens with `</`, then the tag name in any letter case, then ends or continues with a character that ends a tag name |
| Parse.OpensEndTag | packages/compiler-core/src/parse.ts:157-159 | a source starts with `</` exactly when its first two characters are `<` and `/` |
| Parse.EndTagName | packages/compiler-core/src/parse.ts:186 | the lower-cased slice after `</` equals the lower-cased tag exactly when the source is long enough and they agree letter by letter |
| Parse.IsEnd | packages/compiler-core/src/parse.ts:161-181 | the children end exactly when the source is empty or, in DATA mode, it opens the end tag of some open ancestor |
| Position.LastNewline | packages/compiler-core/src/utils.ts:21-27 | the index found is a newline, no later one among the first `n` characters is, and `-1` means none |
| Position.AdvancePositionWithMutation | packages/compiler-core/src/utils.ts:15-37 | the offset moves by the count and the line by the newlines crossed; with no newline crossed the column moves with the offset, otherwise it counts from the last newline and lies between 1 and the count |
| Position.AdvancePositionWithClone | packages/compiler-core/src/utils.ts:3-13 | the copy moves exactly as the mutating version moves the position, and the line never goes back |
| Position.NewlineCountSplit | packages/compiler-core/src/utils.ts:22-27 | the newlines of `a + b` characters are those of the first `a` plus those of the next `b` |
| Position.LastNewlineSplit | packages/compiler-core/src/utils.ts:22-27 | the last newline of `a + b` characters is in the last `b` when there is one there, else in the first `a` |
| Position.AdvanceCompose | packages/compiler-core/src/utils.ts:15-37 | advancing over `a` characters and then over the next `b` lands where advancing over `a + b` at once does |
| JsStrings.Trim | packages/shared/src/normalizeProp.ts:61 | `trim` keeps the text between the leading and trailing runs of white space, and the result neither starts nor ends with white space |
| JsStrings.TrimIdempotent | packages/shared/src/normalizeProp.ts:37 | trimming twice is trimming once |
| JsStrings.Camelize | packages/runtime-core/src/componentEmits.ts:39 | camelising never lengthens a name and leaves a name without `-` unchanged |
| JsStrings.Hyphenate | packages/runtime-dom/src/modules/events.ts:60 | hyphenating never shortens a name and leaves no upper-case letter |
| JsStrings.CamelizeHyphenate | packages/runtime-core/src/componentProps.ts:145 | camelising undoes hyphenating for names of word characters that do not start upper-case, so `fooBar` and `foo-bar` name the same prop |
| JsStrings.Capitalize | packages/runtime-core/src/componentEmits.ts:37 | only the first character changes, to its upper case |
| JsStrings.ToHandlerKey | packages/runtime-core/src/componentEmits.ts:37-39 | the handler key of a non-empty name is a listener key, `on` followed by the name with its first letter upper-cased; only `""` maps to `""` |
| JsStrings.Slice | packages/compiler-core/src/parse.ts:149 | `slice` between bounds inside the string is the substring, and never longer than the string |
| JsValue.Lookup | packages/runtime-core/src/componentEmits.ts:22-26 | a property is found exactly when the object owns the key, and then it is that entry's value |
| JsValue.Assign | packages/shared/src/normalizeProp.ts:17 | a write adds the key if missing, at the end, and keeps an existing key in place |
| JsValue.LookupAssign | packages/shared/src/normalizeProp.ts:17 | reading back after a write sees the written value under that key and the old value under any other |

## Left out

- The methods of `Map`, `Set`, `WeakMap` and `WeakSet` and their entries are left out. The collection handlers are empty in this fork, and their proxies are modelled as forwarding every property read and write to the target. In JavaScript a collection method or the `size` getter called through such a proxy throws, because the receiver is not a collection; that is not modelled.
- `EffectScope` and `recordEffectScope` are left out. The source has them commented out.
- The debugger hooks `onTrack` and `onTrigger` are left out. They only report events and do not change any state.
- The scheduler queues (`queuePreFlushCb`, `queuePostRenderEffect`) are left out. A `sync` watcher's scheduler runs its job at once. A `pre` watcher's job is only marked as queued, and a `post` watcher's scheduler does nothing.
- `callWithErrorHandling` and `callWithAsyncErrorHandling` are modelled as plain calls. User code that throws, and the error handler, are not modelled.
- User functions are represented by their effects on the model, not by their code:
  - an effect body is its sequence of tracked reads;
  - whether it stops its own effect is a flag;
  - a getter is the value it returns.
  A body that itself runs effects, or writes reactive state while running, is not modelled.
- `initDepMarkers` and `finalizeDepMarkers` are called from effect.ts but not defined in dep.ts. The model follows the behaviour effect.ts relies on:
  - the markers are set on the effect's deps when a run starts;
  - a dep that was tracked but not re-read is dropped when the run finishes.
- `trackRefValue` and `triggerRefValue` are used by computed.ts, and ref.ts is not part of this model. They are modelled as track and trigger on the computed ref's own dep.
- The array instrumentations of baseHandlers.ts (`includes`, `indexOf`, `lastIndexOf`) are left out. The source builds them but never consults them in `get`.
- Upstream Vue wraps nested objects in proxies on access and unwraps refs in `get`. This fork's `get` does neither, and the model follows the fork.
- Accessor properties, prototype chains and `Reflect.set` with a foreign receiver are simplified:
  - a read is an own-property lookup on the target;
  - a set whose receiver is not the target's proxy returns `true` and neither stores nor triggers.
- `Reactive.CreateReactiveObject` returns a proxy with the base handlers as it is when asked for a read-only proxy of it; the source would wrap it in a second proxy. Only `reactive` calls `createReactiveObject` in this package, never with `isReadonly` set.
- `Reactive.ToRaw`: the walk through `__v_raw` links is bounded by a fuel of one step per heap object. A well-formed heap has no cycle of proxies, so the bound is never reached.
- `Effect.ParentChain`: the parent walk is bounded by the number of effects, which a chain without repetition never exceeds.
- JavaScript numbers are integers. `NaN`, floating point and `-0` are not modelled, and `Object.is` on numbers is integer equality.
- `Trigger.AtOrAbove`: a string key that is not a canonical array index is never at or above a new length. JavaScript converts the key with `ToNumber` first, so keys such as `""`, `"01"`, `" 5"`, `"1.5"`, `"1e3"` or `"Infinity"` compare as numbers in the source and can select their deps.
- `BaseHandlers.ReflectSet`: only a non-negative number is accepted as a new array `length`; any other value throws. JavaScript converts booleans, `null` and numeric strings to a length, and `trigger` then compares the dep keys with the original value (lexicographically, for a string).
- Strings are sequences of Unicode scalar values, while JavaScript strings are sequences of UTF-16 code units. For text outside the Basic Multilingual Plane, the offsets, columns and slices of `Position`, `Parse` and the string helpers count one unit where the source counts two.
- `JsValue.Assign` appends a new key after the existing ones. JavaScript enumerates integer-like keys first, in ascending order, so an object with such keys iterates in a different order in the source.
- Case mapping (`toLowerCase`, `toUpperCase`, `capitalize`, `hyphenate`) covers ASCII letters only.
- The string helpers of `@vue/shared` (`camelize`, `hyphenate`, `capitalize`, `toHandlerKey`, `isOn`, `isReservedProp`) are not part of this model's source files. They follow the upstream Vue 3.2 definitions.
- `normalizeRef`, `__v_isVNode`, `cloneIfMounted` and the unused vnode fields (`el`, `component`, `dynamicProps` and the rest) are left out. Apart from `normalizeRef`, which needs the rendering instance, none of them changes a modelled field.
- Factory defaults in `resolvePropValue` are modelled as a value per prop (`propsDefaults`). The factory's reading of `props` is not modelled.
- A prop declaration is modelled as a falsy value, a constructor, an array of constructors or an options object. A truthy primitive declaration (`props: { foo: 1 }`, or the array form `props: ['foo']`, whose entries are strings) is not represented.
- `normalizePropsOptions` keeps a `hasExtends` flag that is always false. Mixins and `extends` are therefore not merged, and the model merges none.
- `PublicInstance.PublicRead`: the value a public getter (`$el`, `$data`, …) computes from the instance is kept abstract as the getter's name. Only the tracking of `$attrs` is modelled, as a flag.
- `PublicInstance.GetProp`: the stores are plain records here. In the source, `data` is `reactive(data)` (componentOptions.ts:52), so a data read through the public proxy is tracked by the base `get` trap; the read returns the same value, but the dep it leaves is not modelled.
- `PublicInstance.SetProp`: a data write is a plain record update here. In the source it goes through the reactive `data` proxy (componentPublicInstance.ts:83), so it also stores the raw value and triggers `ADD`/`SET` as `BaseHandlers.ProxySet` states for that proxy; the write is not connected to that model. The `console.warn` issued when a prop is written (componentPublicInstance.ts:86) is console output and is not modelled.
- `Events.RemoveListener`: `addEventListener` and `removeEventListener` are modelled as a list of registered listeners. DOM dispatch, and the invoker calling its current `value`, are not modelled.
- `Watch.Traverse` visits the objects it reaches in heap order rather than property order. The set of objects visited is the same. `Set` and `Map` entries are not part of the heap model, so they are not traversed; through a collection proxy the source's `forEach` would throw.
- `Watch.ImmediateMultiSkipsUndefined`: an immediate watcher of several sources starts from an old value of `[]`, not the initial marker. So when all sources read `undefined`, the first callback is skipped. The model follows the code.
- `Sequence.GetSequence` takes its input as a sequence; the source does not write to its input either. When a value replaces the first entry of the result, the source stores `result[-1]` (`undefined`) in `copyArr`. That store is modelled, and the back-tracking never reads it.
- `ComponentProps.CastLoop` resolves values with the corrected `ComponentProps.ResolvePropValue` of the first finding. An absent `Boolean` prop without a default therefore becomes `false`, where the source leaves it `undefined`; `ComponentProps.ResolvePropValueAsWritten` states the source's behaviour.
- `ComponentProps.CastLoopLookup` resolves values with the corrected `ComponentProps.ResolvePropValue` of the first finding. An absent `Boolean` prop without a default therefore becomes `false`, where the source leaves it `undefined`; `ComponentProps.ResolvePropValueAsWritten` states the source's behaviour.
- `ComponentProps.SetFullProps` resolves values with the corrected `ComponentProps.ResolvePropValue` of the first finding. An absent `Boolean` prop without a default therefore becomes `false`, where the source leaves it `undefined`; `ComponentProps.ResolvePropValueAsWritten` states the source's behaviour.
- `ComponentProps.SetFullPropsLookup` resolves values with the corrected `ComponentProps.ResolvePropValue` of the first finding. An absent `Boolean` prop without a default therefore becomes `false`, where the source leaves it `undefined`; `ComponentProps.ResolvePropValueAsWritten` states the source's behaviour.
- `ComponentProps.InitProps` resolves values with the corrected `ComponentProps.ResolvePropValue` of the first finding. An absent `Boolean` prop without a default therefore becomes `false`, where the source leaves it `undefined`; `ComponentProps.ResolvePropValueAsWritten` states the source's behaviour.
- `Trigger.TriggerPlan` selects the deps of a `length` write with the corrected `Trigger.LengthKeys` of the second finding. When the target's dep map holds a symbol key, the source throws a `TypeError` after storing the value and triggers nothing; `Trigger.LengthKeysAsWritten` states that behaviour.
- `Trigger.TriggerNotifies` selects the deps of a `length` write with the corrected `Trigger.LengthKeys` of the second finding. When the target's dep map holds a symbol key, the source throws a `TypeError` after storing the value and triggers nothing; `Trigger.LengthKeysAsWritten` states that behaviour.
- `Trigger.Perform` selects the deps of a `length` write with the corrected `Trigger.LengthKeys` of the second finding. When the target's dep map holds a symbol key, the source throws a `TypeError` after storing the value and triggers nothing; `Trigger.LengthKeysAsWritten` states that behaviour.
- `BaseHandlers.WritePlan` selects the deps of a `length` write with the corrected `Trigger.LengthKeys` of the second finding. When the target's dep map holds a symbol key, the source throws a `TypeError` after storing the value and triggers nothing; `Trigger.LengthKeysAsWritten` states that behaviour.
- `BaseHandlers.WriteNotifies` selects the deps of a `length` write with the corrected `Trigger.LengthKeys` of the second finding. When the target's dep map holds a symbol key, the source throws a `TypeError` after storing the value and triggers nothing; `Trigger.LengthKeysAsWritten` states that behaviour.
- `BaseHandlers.ProxySet` selects the deps of a `length` write with the corrected `Trigger.LengthKeys` of the second finding. When the target's dep map holds a symbol key, the source throws a `TypeError` after storing the value and triggers nothing; `Trigger.LengthKeysAsWritten` states that behaviour.
- `BaseHandlers.StoreValue` selects the deps of a `length` write with the corrected `Trigger.LengthKeys` of the second finding. When the target's dep map holds a symbol key, the source throws a `TypeError` after storing the value and triggers nothing; `Trigger.LengthKeysAsWritten` states that behaviour.
- The template parser's `parseChildren`, `parseElement` and `parseTag` are unfinished in the source, as are `baseParse` and the compile pipeline. Only the helpers they call are modelled.

## Findings

| source | as written | input that shows it | evidently intended | confidence | as-written member | corrected member |
|---|---|---|---|---|---|---|
| packages/runtime-core/src/componentProps.ts:124-150 | the boolean casting is nested inside the `hasDefault && value === undefined` branch | a `Boolean` prop with no default, absent from the vnode props (or passed as `""`): it stays `undefined` (or `""`) | an absent `Boolean` prop without a default becomes `false`, and `""` or the hyphenated name becomes `true`, whether or not a default exists | not executed | ComponentProps.ResolvePropValueAsWritten | ComponentProps.ResolvePropValue |
| packages/reactivity/src/effect.ts:272-277 | every key of the target's dep map is compared with `>=` against the new length | setting `length` on a reactive array after an effect read a symbol-keyed property of it: the comparison throws a `TypeError` and no effect is triggered | only numeric keys at or above the new length select their deps; other keys are skipped | not executed | Trigger.LengthKeysAsWritten | Trigger.LengthKeys |
