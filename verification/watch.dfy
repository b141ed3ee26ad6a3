/**
 * `watch(source, cb, options)` (apiWatch.ts): the getter built from the
 * source, the scheduler job that decides whether the callback fires, the
 * initial run, the stop handle, and `traverse`.
 *
 * The watch's `ReactiveEffect` lives in the effect store; its tracked reads
 * are the `trace` of a run. The heap the getter reads is an `Rx`; what user
 * functions return is the map `results` (function id to value). The callback
 * itself is user code: the model records the call and the cleanup function
 * it registers through `onCleanup` (`registered`).
 */
module Watch {
  import opened Wrappers
  import opened Keys
  import opened DepGraph
  import opened Effect
  import opened Reactive
  import opened Dep
  import BaseHandlers
  import opened Sets

  // ---------------------------------------------------------------------
  // the getter
  // ---------------------------------------------------------------------

  /** `isReactive(value)`: the reactive flag the value answers (reactive.ts
      exports the name but the shown file does not define it). */
  predicate IsReactive(x: Rx, v: Value) {
    Truthy(ReadFlag(x, v, IsReactiveFlag))
  }

  /** The elements of an array value, in index order. */
  function Elements(x: Rx, v: Value): (r: seq<Value>)
    requires v.Obj?
    ensures |r| == BaseHandlers.ArrayLength(x, Holder(x, v.id))
    ensures forall i | 0 <= i < |r| :: r[i] == OwnProp(x, Holder(x, v.id), Index(i))
  {
    var b := Holder(x, v.id);
    seq(BaseHandlers.ArrayLength(x, b), i requires 0 <= i => OwnProp(x, b, Index(i)))
  }

  /** `ref.value` (refs are objects with a `value` property). */
  function RefValue(x: Rx, v: Value): Value {
    if v.Obj? then OwnProp(x, Holder(x, v.id), Name("value")) else Undefined
  }

  /** What the getter does with the source. */
  datatype Getter =
    | ReadRef(ref: Value)          // () => source.value
    | ReturnSource(source: Value)  // () => source
    | MapSources(sources: Value)   // () => source.map(...)
    | CallSource(fn: nat)          // () => source()
    | Noop

  /** The decisions `doWatch` takes before creating the effect. */
  datatype Setup = Setup(getter: Getter, traversed: bool, forceTrigger: bool, multi: bool, deep: bool)

  /** Some source of a multi-source watch is reactive or shallow. */
  predicate AnyForcing(x: Rx, items: seq<Value>) {
    exists i | 0 <= i < |items| :: IsReactive(x, items[i]) || IsShallow(x, items[i])
  }

  /** The source classification of `doWatch`: a ref reads `.value` and is
      forced when shallow; a reactive object is returned as is and forces
      `deep`; an array maps its elements; a function is called when there
      is a callback (the callback-less path is commented out in the source,
      which leaves `NOOP`); anything else is `NOOP`. With a callback and
      `deep`, the getter's result is traversed. */
  function Classify(x: Rx, source: Value, hasCb: bool, deep: bool): (r: Setup)
    ensures IsRef(x, source) ==>
      r.getter == ReadRef(source) && (r.forceTrigger <==> IsShallow(x, source)) && !r.multi && r.deep == deep
    ensures !IsRef(x, source) && IsReactive(x, source) ==>
      r.getter == ReturnSource(source) && r.deep && !r.forceTrigger && !r.multi
    ensures !IsRef(x, source) && !IsReactive(x, source) && IsArray(x, source) ==>
      && r.multi && r.getter == MapSources(source) && r.deep == deep
      && (r.forceTrigger <==> AnyForcing(x, Elements(x, source)))
    ensures !IsRef(x, source) && !IsReactive(x, source) && !IsArray(x, source) ==>
      && !r.multi && !r.forceTrigger && r.deep == deep
      && r.getter == (if source.Func? && hasCb then CallSource(source.fid) else Noop)
    // the getter is wrapped in traverse exactly when there is a callback and deep is on
    ensures r.traversed <==> hasCb && r.deep
  {
    var s :=
      if IsRef(x, source) then Setup(ReadRef(source), false, IsShallow(x, source), false, deep)
      else if IsReactive(x, source) then Setup(ReturnSource(source), false, false, false, true)
      else if IsArray(x, source) then
        Setup(MapSources(source), false, AnyForcing(x, Elements(x, source)), true, deep)
      else if source.Func? && hasCb then Setup(CallSource(source.fid), false, false, false, deep)
      else Setup(Noop, false, false, false, deep);
    s.(traversed := hasCb && s.deep)
  }

  /** The value a watch compares: the `INITIAL_WATCHER_VALUE` sentinel, one
      value, or the fresh array a multi-source getter builds. */
  datatype Watched = InitialValue | One(v: Value) | Many(vs: seq<Value>)

  /** One element of a multi-source getter's array. */
  function ItemValue(x: Rx, item: Value, results: map<nat, Value>): Value {
    if IsRef(x, item) then RefValue(x, item)
    else if IsReactive(x, item) then item
    else if item.Func? then (if item.fid in results then results[item.fid] else Undefined)
    else Undefined
  }

  /** What the getter returns. `traverse` returns its argument, so a
      traversed getter returns what the base getter does. */
  function Evaluate(x: Rx, g: Getter, results: map<nat, Value>): (r: Watched)
    ensures r.Many? <==> g.MapSources?
    // the array is read when the getter runs, not when the watch is set up
    ensures g.MapSources? && g.sources.Obj? ==>
      var items := Elements(x, g.sources);
      |r.vs| == |items| && forall i | 0 <= i < |items| :: r.vs[i] == ItemValue(x, items[i], results)
    ensures g.ReturnSource? ==> r == One(g.source)
    ensures g.Noop? ==> r == One(Undefined)
  {
    match g
    case ReadRef(v) => One(RefValue(x, v))
    case ReturnSource(v) => One(v)
    case MapSources(arr) =>
      var items := if arr.Obj? then Elements(x, arr) else [];
      Many(seq(|items|, i requires 0 <= i < |items| => ItemValue(x, items[i], results)))
    case CallSource(f) => One(if f in results then results[f] else Undefined)
    case Noop => One(Undefined)
  }

  /** A watch over an array maps the array as it is when the getter runs,
      so an element added or replaced after `watch()` is seen. */
  lemma ArrayGetterRereads(x0: Rx, x1: Rx, source: Value, hasCb: bool, deep: bool, results: map<nat, Value>)
    requires !IsRef(x0, source) && !IsReactive(x0, source) && IsArray(x0, source)
    ensures var r := Evaluate(x1, Classify(x0, source, hasCb, deep).getter, results);
      var items := Elements(x1, source);
      && r.Many? && |r.vs| == |items|
      && forall i | 0 <= i < |items| :: r.vs[i] == ItemValue(x1, items[i], results)
  {
  }

  // ---------------------------------------------------------------------
  // the job
  // ---------------------------------------------------------------------

  datatype Flush = Pre | Post | Sync

  /** A watcher: its effect, callback, setup and flush mode, and the state
      its closures share: `oldValue` and the registered `cleanup`. */
  datatype Watcher = Watcher(
    effect: EffectId,
    cb: Option<nat>,
    setup: Setup,
    flush: Flush,
    oldValue: Watched,
    cleanup: Option<nat>)

  /** The shapes `oldValue` takes: an array (or `undefined`, when the getter
      could not run) for a multi-source watch, never an array otherwise. */
  predicate WatcherWf(s: Store, w: Watcher) {
    && w.effect in s.effects
    && (w.setup.multi ==> w.oldValue.Many? || w.oldValue == One(Undefined))
    && (!w.setup.multi ==> !w.oldValue.Many?)
    && (w.setup.getter.MapSources? <==> w.setup.multi)
  }

  /** A call the job makes. */
  datatype Call =
    | EffectCall(event: Event)
    | CleanupCall(fn: nat)
    | CallbackCall(cb: nat, value: Watched, oldValue: Watched)

  function EffectCalls(evs: seq<Event>): (r: seq<Call>)
    ensures |r| == |evs| && forall i | 0 <= i < |evs| :: r[i] == EffectCall(evs[i])
  {
    seq(|evs|, i requires 0 <= i < |evs| => EffectCall(evs[i]))
  }

  /** What `effect.run()` returns: the getter's value, or `undefined` when
      the run is refused because the effect is already running. */
  function NewValue(s: Store, x: Rx, w: Watcher, results: map<nat, Value>): (r: Watched)
    requires w.effect in s.effects
    ensures !r.InitialValue?
    ensures OnParentChain(s, w.effect) ==> r == One(Undefined)
    ensures !OnParentChain(s, w.effect) ==> r == Evaluate(x, w.setup.getter, results)
  {
    if OnParentChain(s, w.effect) then One(Undefined) else Evaluate(x, w.setup.getter, results)
  }

  /** `oldValue[i]` inside the multi-source comparison; `None` is the
      `TypeError` of indexing `undefined`. */
  function OldAt(prev: Watched, i: nat): (r: Option<Value>)
    ensures prev.Many? ==> r == Some(if i < |prev.vs| then prev.vs[i] else Undefined)
    ensures !prev.Many? ==> r.None?
  {
    if prev.Many? then Some(if i < |prev.vs| then prev.vs[i] else Undefined) else None
  }

  /** `newValue.some((v, i) => hasChanged(v, oldValue[i]))` from index `i`
      on: stops at the first change; `None` when it throws first. */
  function ScanChanged(vs: seq<Value>, prev: Watched, i: nat): (r: Option<bool>)
    requires i <= |vs|
    decreases |vs| - i
  {
    if i == |vs| then Some(false)
    else match OldAt(prev, i)
      case None => None
      case Some(u) => if HasChanged(vs[i], u) then Some(true) else ScanChanged(vs, prev, i + 1)
  }

  /** Some element differs from the old one at its index. */
  predicate ElementChanged(vs: seq<Value>, us: seq<Value>) {
    exists i | 0 <= i < |vs| :: HasChanged(vs[i], if i < |us| then us[i] else Undefined)
  }

  /** Against an old array the scan never throws, and it answers whether
      some element changed. */
  lemma {:induction false} ScanAgrees(vs: seq<Value>, us: seq<Value>, i: nat)
    requires i <= |vs|
    ensures ScanChanged(vs, Many(us), i) ==
      Some(exists j | i <= j < |vs| :: HasChanged(vs[j], if j < |us| then us[j] else Undefined))
    decreases |vs| - i
  {
    if i < |vs| {
      ScanAgrees(vs, us, i + 1);
      var u := if i < |us| then us[i] else Undefined;
      if !HasChanged(vs[i], u) {
        assert (exists j | i <= j < |vs| :: HasChanged(vs[j], if j < |us| then us[j] else Undefined)) <==>
               (exists j | i + 1 <= j < |vs| :: HasChanged(vs[j], if j < |us| then us[j] else Undefined));
      }
    }
  }

  /** Two single values are the same by `Object.is`; a fresh array or the
      sentinel is never the same as anything. */
  predicate Same(a: Watched, b: Watched) {
    a.One? && b.One? && a.v == b.v
  }

  /** The callback condition: `deep`, `forceTrigger`, or a change (element
      by element for a multi-source watch). `None` is the `TypeError` of
      calling `some` on a non-array or indexing `undefined`. */
  function ShouldFire(w: Watcher, nv: Watched): (r: Option<bool>)
    ensures w.setup.deep || w.setup.forceTrigger ==> r == Some(true)
    ensures !w.setup.deep && !w.setup.forceTrigger && !w.setup.multi ==> r == Some(!Same(nv, w.oldValue))
    ensures !w.setup.deep && !w.setup.forceTrigger && w.setup.multi && nv.Many? && w.oldValue.Many? ==>
      r == Some(ElementChanged(nv.vs, w.oldValue.vs))
    ensures w.setup.multi && !nv.Many? && !w.setup.deep && !w.setup.forceTrigger ==> r.None?
  {
    if w.setup.deep || w.setup.forceTrigger then Some(true)
    else if !w.setup.multi then Some(!Same(nv, w.oldValue))
    else if !nv.Many? then None
    else if w.oldValue.Many? then
      ScanAgrees(nv.vs, w.oldValue.vs, 0);
      ScanChanged(nv.vs, w.oldValue, 0)
    else ScanChanged(nv.vs, w.oldValue, 0)
  }

  /** The old value the callback receives: `undefined` for the sentinel. */
  function OldArg(prev: Watched): (r: Watched)
    ensures prev.InitialValue? ==> r == One(Undefined)
    ensures !prev.InitialValue? ==> r == prev
  {
    if prev.InitialValue? then One(Undefined) else prev
  }

  /** The result of the job: the store, the watcher, the calls in order, and
      whether it ended in a `TypeError`. */
  datatype JobResult = JobResult(store: Store, watcher: Watcher, calls: seq<Call>, threw: bool)

  /** `onCleanup(fn)`: the wrapper becomes both `cleanup` and the effect's
      `onStop`. */
  function RegisterCleanup(s: Store, w: Watcher, registered: Option<nat>): (r: (Store, Watcher))
    requires Wf(s) && w.effect in s.effects
    ensures Wf(r.0) && r.0.effects.Keys == s.effects.Keys && r.0.graph == s.graph && r.0.nextId == s.nextId
    ensures r.0.active == s.active && r.0.parent == s.parent && r.0.depth == s.depth && r.0.shouldTrack == s.shouldTrack
    ensures registered.None? ==> r == (s, w)
    ensures registered.Some? ==>
      && r.1 == w.(cleanup := registered)
      && r.0.effects[w.effect] == s.effects[w.effect].(onStop := registered)
    ensures forall e | e in s.effects && e != w.effect :: r.0.effects[e] == s.effects[e]
  {
    if registered.None? then (s, w)
    else
      var s1 := s.(effects := s.effects[w.effect := s.effects[w.effect].(onStop := registered)]);
      assert s1.effects.Keys == s.effects.Keys;
      (s1, w.(cleanup := registered))
  }

  /** The callback branch, after the run: call the cleanup (if any), then
      the callback with the new and the prev value; the new value becomes
      `oldValue`. */
  function Fire(s: Store, w: Watcher, nv: Watched, registered: Option<nat>): (r: (Store, Watcher, seq<Call>))
    requires Wf(s) && w.effect in s.effects && w.cb.Some?
    ensures Wf(r.0) && r.0.effects.Keys == s.effects.Keys && r.0.graph == s.graph && r.0.nextId == s.nextId
    ensures r.0.active == s.active && r.0.depth == s.depth && r.0.shouldTrack == s.shouldTrack
    ensures r.1.oldValue == nv && r.1.effect == w.effect && r.1.cb == w.cb && r.1.setup == w.setup && r.1.flush == w.flush
    ensures r.1.cleanup == if registered.Some? then registered else w.cleanup
    ensures r.2 == (if w.cleanup.Some? then [CleanupCall(w.cleanup.value)] else []) +
                   [CallbackCall(w.cb.value, nv, OldArg(w.oldValue))]
    ensures r.0.effects[w.effect] == if registered.Some? then s.effects[w.effect].(onStop := registered) else s.effects[w.effect]
  {
    var calls := (if w.cleanup.Some? then [CleanupCall(w.cleanup.value)] else []) +
                 [CallbackCall(w.cb.value, nv, OldArg(w.oldValue))];
    var reg := RegisterCleanup(s, w.(oldValue := nv), registered);
    (reg.0, reg.1, calls)
  }

  /** The new value has the shape the watcher's getter gives it. */
  predicate Shaped(w: Watcher, nv: Watched) {
    && (w.setup.multi ==> nv.Many? || nv == One(Undefined))
    && (!w.setup.multi ==> !nv.Many?)
  }

  /** The job's callback branch after `effect.run()`, with the calls made so
      far: fire when the condition holds, stop at a `TypeError`, or keep the
      watcher as it is. */
  function Decide(s: Store, pre: seq<Call>, w: Watcher, nv: Watched, registered: Option<nat>): (r: JobResult)
    requires Wf(s) && WatcherWf(s, w) && w.cb.Some? && Shaped(w, nv)
    ensures Wf(r.store) && r.store.effects.Keys == s.effects.Keys && r.store.nextId == s.nextId
    ensures WatcherWf(r.store, r.watcher)
    ensures r.watcher.effect == w.effect && r.watcher.setup == w.setup && r.watcher.cb == w.cb && r.watcher.flush == w.flush
    ensures |pre| <= |r.calls| && r.calls[..|pre|] == pre
    ensures r.threw <==> ShouldFire(w, nv).None?
    ensures ShouldFire(w, nv) == Some(true) ==>
      && r.watcher.oldValue == nv
      && r.watcher.cleanup == (if registered.Some? then registered else w.cleanup)
      && r.calls[|pre|..] == (if w.cleanup.Some? then [CleanupCall(w.cleanup.value)] else []) +
                             [CallbackCall(w.cb.value, nv, OldArg(w.oldValue))]
      && r.calls[|r.calls| - 1] == CallbackCall(w.cb.value, nv, OldArg(w.oldValue))
    ensures ShouldFire(w, nv) != Some(true) ==> r.watcher == w && r.calls == pre && r.store == s
    ensures r.store.active == s.active
    ensures r.store.effects[w.effect] ==
      if ShouldFire(w, nv) == Some(true) && registered.Some? then s.effects[w.effect].(onStop := registered)
      else s.effects[w.effect]
  {
    match ShouldFire(w, nv)
    case None => JobResult(s, w, pre, true)
    case Some(fire) =>
      if !fire then JobResult(s, w, pre, false)
      else
        var f := Fire(s, w, nv, registered);
        assert (pre + f.2)[..|pre|] == pre && (pre + f.2)[|pre|..] == f.2;
        JobResult(f.0, f.1, pre + f.2, false)
  }

  /** The scheduler job. An inactive effect ends it; without a callback it
      only runs the effect; with one it runs the effect for the new value
      and fires the callback when `ShouldFire` says so. */
  function Job(s: Store, x: Rx, w: Watcher, trace: seq<DepKey>, results: map<nat, Value>, registered: Option<nat>): (r: JobResult)
    requires Wf(s) && WatcherWf(s, w)
    ensures Wf(r.store) && r.store.effects.Keys == s.effects.Keys && r.store.nextId == s.nextId
    ensures WatcherWf(r.store, r.watcher)
    ensures r.watcher.effect == w.effect && r.watcher.setup == w.setup && r.watcher.cb == w.cb && r.watcher.flush == w.flush
    // a stopped watcher does nothing
    ensures !s.effects[w.effect].active ==> r == JobResult(s, w, [], false)
    // without a callback the job only runs the effect
    ensures w.cb.None? ==> !r.threw && r.watcher == w
    ensures w.cb.None? && s.effects[w.effect].active ==> r.calls == EffectCalls(Run(s, w.effect, trace, false).events)
  {
    var e := w.effect;
    if !s.effects[e].active then JobResult(s, w, [], false)
    else
      var o := Run(s, e, trace, false);
      if w.cb.None? then JobResult(o.store, w, EffectCalls(o.events), false)
      else
        assert WatcherWf(o.store, w);
        Decide(o.store, EffectCalls(o.events), w, NewValue(s, x, w, results), registered)
  }

  /** With a callback, an active watcher's job runs the getter first; then
      the callback fires exactly when the condition holds, with the new value
      and the old one, right after the previous cleanup, and the new value
      becomes the old one. */
  lemma JobFires(s: Store, x: Rx, w: Watcher, trace: seq<DepKey>, results: map<nat, Value>, registered: Option<nat>,
                 r: JobResult)
    requires Wf(s) && WatcherWf(s, w) && w.cb.Some? && s.effects[w.effect].active
    requires r == Job(s, x, w, trace, results, registered)
    ensures var o := Run(s, w.effect, trace, false);
      var nv := NewValue(s, x, w, results);
      var n := |o.events|;
      && n <= |r.calls| && r.calls[..n] == EffectCalls(o.events)
      && (r.threw <==> ShouldFire(w, nv).None?)
      && (ShouldFire(w, nv) == Some(true) ==>
            && r.watcher.oldValue == nv
            && r.watcher.cleanup == (if registered.Some? then registered else w.cleanup)
            && r.calls[n..] == (if w.cleanup.Some? then [CleanupCall(w.cleanup.value)] else []) +
                               [CallbackCall(w.cb.value, nv, OldArg(w.oldValue))])
      && (ShouldFire(w, nv) != Some(true) ==> r.watcher == w && r.calls == EffectCalls(o.events))
  {
    var o := JobIsDecide(s, x, w, trace, results, registered);
  }

  // ---------------------------------------------------------------------
  // creating, scheduling and stopping a watch
  // ---------------------------------------------------------------------

  /** `{ immediate, deep, flush }`; a missing option is `false` / `Pre`. */
  datatype WatchOptions = WatchOptions(immediate: bool, deep: bool, flush: Flush)

  /** `new ReactiveEffect(getter, scheduler)`: `getterFn` and `schedulerFn`
      name the two closures `doWatch` builds. */
  function WatchEffect(getterFn: nat, schedulerFn: nat): (e: EffectRec)
    ensures e.active && !e.deferStop && e.computed.None? && !e.allowRecurse && e.onStop.None?
    ensures e.fn == getterFn && e.scheduler == Some(schedulerFn)
  {
    EffectRec(getterFn, true, None, false, Some(schedulerFn), false, None)
  }

  /** The watcher before its initial run: `oldValue` starts as `[]` for a
      multi-source watch and as the sentinel otherwise. */
  function NewWatcher(x: Rx, e: EffectId, source: Value, cb: Option<nat>, opts: WatchOptions): (w: Watcher)
    ensures w.effect == e && w.cb == cb && w.flush == opts.flush && w.cleanup.None?
    ensures w.setup == Classify(x, source, cb.Some?, opts.deep)
    ensures w.oldValue == if w.setup.multi then Many([]) else InitialValue
  {
    var setup := Classify(x, source, cb.Some?, opts.deep);
    Watcher(e, cb, setup, opts.flush, if setup.multi then Many([]) else InitialValue, None)
  }

  /** The initial run of `doWatch` on a fresh watcher. */
  function InitialRun(s: Store, x: Rx, w: Watcher, immediate: bool, trace: seq<DepKey>, results: map<nat, Value>,
                      registered: Option<nat>): (r: JobResult)
    requires Wf(s) && WatcherWf(s, w) && w.cleanup.None?
    requires s.effects[w.effect].active && !s.effects[w.effect].deferStop && !OnParentChain(s, w.effect)
    requires w.oldValue == if w.setup.multi then Many([]) else InitialValue
    ensures Wf(r.store) && r.store.effects.Keys == s.effects.Keys && r.store.nextId == s.nextId
    ensures WatcherWf(r.store, r.watcher)
    ensures r.watcher.effect == w.effect && r.watcher.cb == w.cb && r.watcher.setup == w.setup && r.watcher.flush == w.flush
    ensures w.cb.Some? && !immediate ==>
      && r.calls == [EffectCall(CalledFn(w.effect))] && !r.threw
      && r.watcher.oldValue == Evaluate(x, w.setup.getter, results) && r.watcher.cleanup.None?
    ensures w.cb.Some? && immediate && !w.setup.multi ==>
      var nv := Evaluate(x, w.setup.getter, results);
      && r.watcher.oldValue == nv && !r.threw
      && r.calls == [EffectCall(CalledFn(w.effect)), CallbackCall(w.cb.value, nv, One(Undefined))]
    ensures w.cb.None? ==> !r.threw && r.watcher.oldValue == w.oldValue
    ensures w.cb.None? && w.flush == Post ==> r.calls == []
    ensures w.cb.None? && w.flush != Post ==> r.calls == [EffectCall(CalledFn(w.effect))]
  {
    if w.cb.Some? then
      if immediate then Immediate(s, x, w, trace, results, registered)
      else Seed(s, x, w, trace, results)
    else if w.flush == Post then JobResult(s, w, [], false)
    else RunOnce(s, w, trace)
  }

  /** `job()` as the initial run of a fresh watcher. */
  function Immediate(s: Store, x: Rx, w: Watcher, trace: seq<DepKey>, results: map<nat, Value>,
                     registered: Option<nat>): (r: JobResult)
    requires Wf(s) && WatcherWf(s, w) && w.cb.Some? && w.cleanup.None?
    requires w.oldValue == if w.setup.multi then Many([]) else InitialValue
    requires s.effects[w.effect].active && !s.effects[w.effect].deferStop && !OnParentChain(s, w.effect)
    ensures Wf(r.store) && r.store.effects.Keys == s.effects.Keys && r.store.nextId == s.nextId
    ensures WatcherWf(r.store, r.watcher)
    ensures r.watcher.effect == w.effect && r.watcher.cb == w.cb && r.watcher.setup == w.setup && r.watcher.flush == w.flush
    ensures !w.setup.multi ==>
      var nv := Evaluate(x, w.setup.getter, results);
      && r.watcher.oldValue == nv && !r.threw
      && r.calls == [EffectCall(CalledFn(w.effect)), CallbackCall(w.cb.value, nv, One(Undefined))]
  {
    var r := Job(s, x, w, trace, results, registered);
    ImmediateFires(s, x, w, trace, results, registered, r);
    r
  }

  /** `effect.run()` of a fresh watcher without a callback. */
  function RunOnce(s: Store, w: Watcher, trace: seq<DepKey>): (r: JobResult)
    requires Wf(s) && WatcherWf(s, w)
    requires s.effects[w.effect].active && !s.effects[w.effect].deferStop && !OnParentChain(s, w.effect)
    ensures Wf(r.store) && r.store.effects.Keys == s.effects.Keys && r.store.nextId == s.nextId
    ensures r.watcher == w && !r.threw && r.calls == [EffectCall(CalledFn(w.effect))]
  {
    RunNewEffect(s, w.effect, trace);
    var o := Run(s, w.effect, trace, false);
    JobResult(o.store, w, EffectCalls(o.events), false)
  }

  /** `oldValue = effect.run()`: the getter runs once and its value is kept,
      without calling the callback. */
  function Seed(s: Store, x: Rx, w: Watcher, trace: seq<DepKey>, results: map<nat, Value>): (r: JobResult)
    requires Wf(s) && WatcherWf(s, w)
    requires s.effects[w.effect].active && !s.effects[w.effect].deferStop && !OnParentChain(s, w.effect)
    ensures Wf(r.store) && r.store.effects.Keys == s.effects.Keys && r.store.nextId == s.nextId
    ensures r.watcher == w.(oldValue := Evaluate(x, w.setup.getter, results))
    ensures r.calls == [EffectCall(CalledFn(w.effect))] && !r.threw
  {
    RunNewEffect(s, w.effect, trace);
    var o := Run(s, w.effect, trace, false);
    JobResult(o.store, w.(oldValue := NewValue(s, x, w, results)), EffectCalls(o.events), false)
  }

  /** The immediate job of a fresh single-source watcher calls back with
      `undefined` as the old value. */
  lemma ImmediateFires(s: Store, x: Rx, w: Watcher, trace: seq<DepKey>, results: map<nat, Value>,
                       registered: Option<nat>, r: JobResult)
    requires Wf(s) && WatcherWf(s, w) && w.cb.Some? && w.cleanup.None?
    requires w.oldValue == if w.setup.multi then Many([]) else InitialValue
    requires s.effects[w.effect].active && !s.effects[w.effect].deferStop && !OnParentChain(s, w.effect)
    requires r == Job(s, x, w, trace, results, registered)
    ensures !w.setup.multi ==> var nv := Evaluate(x, w.setup.getter, results);
      && r.watcher.oldValue == nv && !r.threw
      && r.calls == [EffectCall(CalledFn(w.effect)), CallbackCall(w.cb.value, nv, One(Undefined))]
  {
    if !w.setup.multi {
      var nv := NewValue(s, x, w, results);
      var o := JobIsDecide(s, x, w, trace, results, registered);
      assert nv == Evaluate(x, w.setup.getter, results) && Shaped(w, nv);
      FirstValueFires(w, nv);
      var first := FreshEffectCalls(s, w.effect, trace);
      var calls := [EffectCall(CalledFn(w.effect)), CallbackCall(w.cb.value, nv, One(Undefined))];
      FiresAloneCalls(o.store, first, w, nv, registered, calls);
      assert r == Decide(o.store, first, w, nv, registered);
    }
  }

  /** A firing decision without a pending cleanup appends the callback
      call alone. */
  lemma DecideFiresAlone(s: Store, pre: seq<Call>, w: Watcher, nv: Watched, registered: Option<nat>)
    requires Wf(s) && WatcherWf(s, w) && w.cb.Some? && Shaped(w, nv) && w.cleanup.None?
    requires ShouldFire(w, nv) == Some(true)
    ensures var r := Decide(s, pre, w, nv, registered);
      && r.watcher.oldValue == nv && !r.threw
      && r.calls == pre + [CallbackCall(w.cb.value, nv, OldArg(w.oldValue))]
  {
  }

  lemma FiresAloneCalls(s: Store, pre: seq<Call>, w: Watcher, nv: Watched, registered: Option<nat>, calls: seq<Call>)
    requires Wf(s) && WatcherWf(s, w) && w.cb.Some? && Shaped(w, nv) && w.cleanup.None?
    requires w.oldValue == InitialValue && ShouldFire(w, nv) == Some(true)
    requires pre == [EffectCall(CalledFn(w.effect))]
    requires calls == [EffectCall(CalledFn(w.effect)), CallbackCall(w.cb.value, nv, One(Undefined))]
    ensures var r := Decide(s, pre, w, nv, registered);
      r.watcher.oldValue == nv && !r.threw && r.calls == calls
  {
    DecideFiresAlone(s, pre, w, nv, registered);
  }

  /** Any value differs from the sentinel a single-source watcher starts
      with. */
  lemma FirstValueFires(w: Watcher, nv: Watched)
    requires !w.setup.multi && w.oldValue == InitialValue && !nv.InitialValue?
    ensures ShouldFire(w, nv) == Some(true)
  {
  }

  /** The calls of the first run of an effect: its function, once. */
  lemma FreshEffectCalls(s: Store, e: EffectId, trace: seq<DepKey>) returns (first: seq<Call>)
    requires Wf(s) && e in s.effects && s.effects[e].active && !s.effects[e].deferStop && !OnParentChain(s, e)
    ensures first == EffectCalls(Run(s, e, trace, false).events) == [EffectCall(CalledFn(e))]
  {
    RunNewEffect(s, e, trace);
    first := EffectCalls(Run(s, e, trace, false).events);
  }

  /** `doWatch`: create the effect, then the initial run. With a callback,
      `immediate` runs the job and otherwise the getter runs once to seed
      `oldValue`; without one the effect runs, except with `flush: 'post'`
      whose scheduling is commented out in the source. */
  function DoWatch(s: Store, x: Rx, source: Value, cb: Option<nat>, opts: WatchOptions, getterFn: nat, schedulerFn: nat,
                   trace: seq<DepKey>, results: map<nat, Value>, registered: Option<nat>): (r: JobResult)
    requires Wf(s) && IdsBelow(s)
    ensures Wf(r.store) && IdsBelow(r.store) && r.store.effects.Keys == s.effects.Keys + {s.nextId}
    ensures WatcherWf(r.store, r.watcher) && s.nextId !in s.effects
    ensures var w0 := NewWatcher(x, s.nextId, source, cb, opts);
      && r.watcher.effect == w0.effect && r.watcher.cb == cb && r.watcher.setup == w0.setup && r.watcher.flush == opts.flush
    // the initial run without `immediate` seeds oldValue and calls no callback
    ensures cb.Some? && !opts.immediate ==>
      && r.calls == [EffectCall(CalledFn(s.nextId))] && !r.threw
      && r.watcher.oldValue == Evaluate(x, r.watcher.setup.getter, results) && r.watcher.cleanup.None?
    // with `immediate` a single-source watch calls back at once, with
    // `undefined` as the old value
    ensures cb.Some? && opts.immediate && !r.watcher.setup.multi ==>
      var nv := Evaluate(x, r.watcher.setup.getter, results);
      && r.watcher.oldValue == nv && !r.threw
      && r.calls == [EffectCall(CalledFn(s.nextId)), CallbackCall(cb.value, nv, One(Undefined))]
    // without a callback the effect runs once, unless the flush is 'post'
    ensures cb.None? ==> !r.threw && r.watcher.oldValue == NewWatcher(x, s.nextId, source, cb, opts).oldValue
    ensures cb.None? && opts.flush == Post ==> r.calls == []
    ensures cb.None? && opts.flush != Post ==> r.calls == [EffectCall(CalledFn(s.nextId))]
  {
    var a := Allocate(s, WatchEffect(getterFn, schedulerFn));
    InitialRun(a.0, x, NewWatcher(x, a.1, source, cb, opts), opts.immediate, trace, results, registered)
  }

  /** A fresh active effect with no pending stop runs once and calls its
      function once. */
  lemma RunNewEffect(s: Store, e: EffectId, trace: seq<DepKey>)
    requires Wf(s) && e in s.effects && s.effects[e].active && !s.effects[e].deferStop && !OnParentChain(s, e)
    ensures var o := Run(s, e, trace, false);
      && o.events == [CalledFn(e)] && o.store.effects == s.effects && o.store.active == s.active
  {
    var o := Run(s, e, trace, false);
    RunUnfolds(s, e, trace, false, o);
  }

  /** Running an effect without a pending stop leaves its record and the
      active effect as they were. */
  lemma RunKeepsRecord(s: Store, e: EffectId, trace: seq<DepKey>)
    requires Wf(s) && e in s.effects && !s.effects[e].deferStop
    ensures var o := Run(s, e, trace, false);
      o.store.effects[e] == s.effects[e] && o.store.active == s.active
  {
    var o := Run(s, e, trace, false);
    if s.effects[e].active && !OnParentChain(s, e) {
      RunUnfolds(s, e, trace, false, o);
    }
  }

  /** What the scheduler does on a trigger: `flush: 'sync'` runs the job at
      once, the default `'pre'` queues it for the pre-flush queue (not part of
      this model), and `'post'` keeps the empty scheduler. */
  datatype Scheduled = Scheduled(result: JobResult, queued: bool)

  function OnSchedule(s: Store, x: Rx, w: Watcher, trace: seq<DepKey>, results: map<nat, Value>,
                      registered: Option<nat>): (r: Scheduled)
    requires Wf(s) && WatcherWf(s, w)
    ensures w.flush == Sync ==> !r.queued && r.result == Job(s, x, w, trace, results, registered)
    ensures w.flush == Pre ==> r.queued && r.result == JobResult(s, w, [], false)
    ensures w.flush == Post ==> !r.queued && r.result == JobResult(s, w, [], false)
  {
    match w.flush
    case Sync => Scheduled(Job(s, x, w, trace, results, registered), false)
    case Pre => Scheduled(JobResult(s, w, [], false), true)
    case Post => Scheduled(JobResult(s, w, [], false), false)
  }

  /** The stop handle `() => effect.stop()`. */
  function StopHandle(s: Store, w: Watcher): (r: Outcome)
    requires Wf(s) && WatcherWf(s, w)
    ensures Wf(r.store) && WatcherWf(r.store, w)
    ensures s.active != Some(w.effect) ==> !r.store.effects[w.effect].active
    ensures s.active != Some(w.effect) && s.effects[w.effect].active ==>
      r.events == if s.effects[w.effect].onStop.Some? then [CalledOnStop(w.effect, s.effects[w.effect].onStop.value)] else []
  {
    Stop(s, w.effect)
  }

  // ---------------------------------------------------------------------
  // properties of the job
  // ---------------------------------------------------------------------

  /** A stopped watch never calls anything again. */
  lemma StoppedWatchIsSilent(s: Store, x: Rx, w: Watcher, trace: seq<DepKey>, results: map<nat, Value>,
                             registered: Option<nat>)
    requires Wf(s) && WatcherWf(s, w) && s.active != Some(w.effect)
    ensures var st := StopHandle(s, w).store;
      Job(st, x, w, trace, results, registered) == JobResult(st, w, [], false)
  {
  }

  /** For a single source that is neither deep nor forced, the callback is
      called exactly when the getter's value is not the old one. */
  lemma {:induction false} CallbackIffChanged(s: Store, x: Rx, w: Watcher, trace: seq<DepKey>, results: map<nat, Value>,
                                              registered: Option<nat>)
    requires Wf(s) && WatcherWf(s, w) && w.cb.Some?
    requires !w.setup.deep && !w.setup.forceTrigger && !w.setup.multi
    requires s.effects[w.effect].active && !OnParentChain(s, w.effect)
    ensures var r := Job(s, x, w, trace, results, registered);
      var nv := Evaluate(x, w.setup.getter, results);
      && !r.threw
      && ((exists c | c in r.calls :: c.CallbackCall?) <==> !Same(nv, w.oldValue))
      && (!Same(nv, w.oldValue) ==> r.calls[|r.calls| - 1] == CallbackCall(w.cb.value, nv, OldArg(w.oldValue)))
  {
    var st, pre := JobDecides(s, x, w, trace, results, registered);
    DecideSingle(st, pre, w, Evaluate(x, w.setup.getter, results), registered);
  }

  /** The decision for a single source that is neither deep nor forced. */
  lemma DecideSingle(s: Store, pre: seq<Call>, w: Watcher, nv: Watched, registered: Option<nat>)
    requires Wf(s) && WatcherWf(s, w) && w.cb.Some? && Shaped(w, nv)
    requires !w.setup.deep && !w.setup.forceTrigger && !w.setup.multi
    requires forall c | c in pre :: !c.CallbackCall?
    ensures var r := Decide(s, pre, w, nv, registered);
      && !r.threw
      && ((exists c | c in r.calls :: c.CallbackCall?) <==> !Same(nv, w.oldValue))
      && (!Same(nv, w.oldValue) ==> r.calls[|r.calls| - 1] == CallbackCall(w.cb.value, nv, OldArg(w.oldValue)))
  {
    DecideCallbackIff(s, pre, w, nv, registered, Decide(s, pre, w, nv, registered));
  }

  /** An active watcher's job with a callback is the run followed by the
      decision on the value the run returned. */
  lemma JobIsDecide(s: Store, x: Rx, w: Watcher, trace: seq<DepKey>, results: map<nat, Value>,
                    registered: Option<nat>) returns (o: Outcome)
    requires Wf(s) && WatcherWf(s, w) && w.cb.Some? && s.effects[w.effect].active
    ensures o == Run(s, w.effect, trace, false) && Wf(o.store) && WatcherWf(o.store, w)
    ensures Job(s, x, w, trace, results, registered) ==
      Decide(o.store, EffectCalls(o.events), w, NewValue(s, x, w, results), registered)
  {
    o := Run(s, w.effect, trace, false);
  }

  /** The same, with the run's calls seen only as calls that are not
      callbacks. */
  lemma JobDecides(s: Store, x: Rx, w: Watcher, trace: seq<DepKey>, results: map<nat, Value>,
                   registered: Option<nat>) returns (st: Store, pre: seq<Call>)
    requires Wf(s) && WatcherWf(s, w) && w.cb.Some? && s.effects[w.effect].active
    ensures Wf(st) && WatcherWf(st, w) && forall c | c in pre :: !c.CallbackCall?
    ensures Job(s, x, w, trace, results, registered) == Decide(st, pre, w, NewValue(s, x, w, results), registered)
    ensures !OnParentChain(s, w.effect) ==>
      Job(s, x, w, trace, results, registered) == Decide(st, pre, w, Evaluate(x, w.setup.getter, results), registered)
  {
    var o := JobIsDecide(s, x, w, trace, results, registered);
    NoCallbackAmong(o.events);
    st, pre := o.store, EffectCalls(o.events);
  }

  /** When nothing called so far is a callback, the decision calls the
      callback exactly when it fires, and last. */
  lemma DecideCallbackIff(s: Store, pre: seq<Call>, w: Watcher, nv: Watched, registered: Option<nat>, r: JobResult)
    requires Wf(s) && WatcherWf(s, w) && w.cb.Some? && Shaped(w, nv)
    requires forall c | c in pre :: !c.CallbackCall?
    requires r == Decide(s, pre, w, nv, registered)
    ensures (exists c | c in r.calls :: c.CallbackCall?) <==> ShouldFire(w, nv) == Some(true)
  {
    if ShouldFire(w, nv) == Some(true) {
      assert r.calls[|r.calls| - 1] in r.calls;
    }
  }

  /** The effect's own calls are never callback calls. */
  lemma NoCallbackAmong(evs: seq<Event>)
    ensures forall c | c in EffectCalls(evs) :: !c.CallbackCall?
  {
  }

  /** A watch seeded by its initial run stays quiet while the getter keeps
      returning the seeded value. */
  lemma SeededWatchIsQuiet(s: Store, x: Rx, source: Value, cb: nat, opts: WatchOptions, getterFn: nat, schedulerFn: nat,
                           trace: seq<DepKey>, results: map<nat, Value>, registered: Option<nat>,
                           s2: Store, trace2: seq<DepKey>, registered2: Option<nat>)
    requires Wf(s) && IdsBelow(s) && !opts.immediate
    requires var w := DoWatch(s, x, source, Some(cb), opts, getterFn, schedulerFn, trace, results, registered).watcher;
      && !w.setup.deep && !w.setup.forceTrigger && !w.setup.multi
      && Wf(s2) && WatcherWf(s2, w) && s2.effects[w.effect].active && !OnParentChain(s2, w.effect)
    ensures var w := DoWatch(s, x, source, Some(cb), opts, getterFn, schedulerFn, trace, results, registered).watcher;
      var r := Job(s2, x, w, trace2, results, registered2);
      r.watcher == w && forall c | c in r.calls :: !c.CallbackCall?
  {
    var w := DoWatch(s, x, source, Some(cb), opts, getterFn, schedulerFn, trace, results, registered).watcher;
    CallbackIffChanged(s2, x, w, trace2, results, registered2);
  }

  /** Each callback receives as its old value the new value of the callback
      before it. */
  lemma OldValueIsPreviousValue(s: Store, x: Rx, w: Watcher, trace: seq<DepKey>, results: map<nat, Value>,
                                registered: Option<nat>, r1: JobResult,
                                s2: Store, x2: Rx, trace2: seq<DepKey>, results2: map<nat, Value>,
                                registered2: Option<nat>, r2: JobResult)
    requires Wf(s) && WatcherWf(s, w) && w.cb.Some? && s.effects[w.effect].active
    requires r1 == Job(s, x, w, trace, results, registered)
    requires ShouldFire(w, NewValue(s, x, w, results)) == Some(true)
    requires Wf(s2) && WatcherWf(s2, r1.watcher) && s2.effects[w.effect].active
    requires r2 == Job(s2, x2, r1.watcher, trace2, results2, registered2)
    requires ShouldFire(r1.watcher, NewValue(s2, x2, r1.watcher, results2)) == Some(true)
    ensures r2.calls[|r2.calls| - 1] ==
      CallbackCall(w.cb.value, NewValue(s2, x2, r1.watcher, results2), NewValue(s, x, w, results))
  {
    FiredKeepsValue(s, x, w, trace, results, registered, r1);
    FiredCallsLast(s2, x2, r1.watcher, trace2, results2, registered2, r2);
  }

  /** After a callback the new value is the old one. */
  lemma FiredKeepsValue(s: Store, x: Rx, w: Watcher, trace: seq<DepKey>, results: map<nat, Value>,
                        registered: Option<nat>, r: JobResult)
    requires Wf(s) && WatcherWf(s, w) && w.cb.Some? && s.effects[w.effect].active
    requires r == Job(s, x, w, trace, results, registered)
    requires ShouldFire(w, NewValue(s, x, w, results)) == Some(true)
    ensures r.watcher.oldValue == NewValue(s, x, w, results) && r.watcher.cb == w.cb
  {
    JobFires(s, x, w, trace, results, registered, r);
  }

  /** A job that fires calls the callback last. */
  lemma FiredCallsLast(s: Store, x: Rx, w: Watcher, trace: seq<DepKey>, results: map<nat, Value>,
                       registered: Option<nat>, r: JobResult)
    requires Wf(s) && WatcherWf(s, w) && w.cb.Some? && s.effects[w.effect].active
    requires r == Job(s, x, w, trace, results, registered)
    requires ShouldFire(w, NewValue(s, x, w, results)) == Some(true)
    ensures r.calls[|r.calls| - 1] == CallbackCall(w.cb.value, NewValue(s, x, w, results), OldArg(w.oldValue))
  {
    var o := JobIsDecide(s, x, w, trace, results, registered);
  }

  /** The cleanup a callback registers runs when the watch is stopped. */
  lemma CleanupRunsOnStop(s: Store, x: Rx, w: Watcher, trace: seq<DepKey>, results: map<nat, Value>, f: nat)
    requires Wf(s) && WatcherWf(s, w) && w.cb.Some?
    requires s.effects[w.effect].active && !s.effects[w.effect].deferStop && s.active != Some(w.effect)
    requires ShouldFire(w, NewValue(s, x, w, results)) == Some(true)
    ensures var r := Job(s, x, w, trace, results, Some(f));
      StopHandle(r.store, r.watcher).events == [CalledOnStop(w.effect, f)]
  {
    RunKeepsRecord(s, w.effect, trace);
  }

  /** As written, an immediate multi-source watch compares against `[]`, so
      when every source reads `undefined` its callback is not called. */
  lemma ImmediateMultiSkipsUndefined(w: Watcher, n: nat)
    requires w.setup.multi && !w.setup.deep && !w.setup.forceTrigger && w.oldValue == Many([])
    ensures ShouldFire(w, Many(seq(n, i => Undefined))) == Some(false)
  {
  }

  // ---------------------------------------------------------------------
  // traverse
  // ---------------------------------------------------------------------

  /** `traverse` walks into an object that is not flagged `__v_skip`. */
  predicate Walkable(x: Rx, v: Value) {
    IsObject(x, v) && !Truthy(ReadFlag(x, v, SkipFlag))
  }

  /** The objects `traverse` recurses into from object `id`: a ref's value;
      an array's elements; the values of a plain object's string-keyed
      properties. The entries of a `Set` or `Map` are not part of the heap
      model, and other objects have none. */
  function Children(x: Rx, id: nat): (r: set<nat>)
    ensures r <= x.heap.objs.Keys
  {
    var v := Obj(id);
    var b := Holder(x, id);
    if IsRef(x, v) then
      var c := RefValue(x, v);
      if c.Obj? && c.id in x.heap.objs then {c.id} else {}
    else if IsArray(x, v) then
      set i | 0 <= i < BaseHandlers.ArrayLength(x, b) && OwnProp(x, b, Index(i)).Obj? && OwnProp(x, b, Index(i)).id in x.heap.objs
        :: OwnProp(x, b, Index(i)).id
    else if RawTypeOf(x, v) == "Object" && b in x.heap.objs && x.heap.objs[b].Plain? then
      var props := x.heap.objs[b].props;
      set k | k in props && !k.Sym? && props[k].Obj? && props[k].id in x.heap.objs :: props[k].id
    else {}
  }

  /** Every object added to `seen` beyond `seen0` was walked into, and the
      walkable objects it leads to are in `seen` too. */
  predicate Closed(x: Rx, seen0: set<nat>, seen: set<nat>) {
    forall o | o in seen && o !in seen0 ::
      Walkable(x, Obj(o)) && forall c | c in Children(x, o) && Walkable(x, Obj(c)) :: c in seen
  }

  lemma UnseenDrops(k: set<nat>, a: set<nat>, id: nat)
    requires id in k && id !in a
    ensures |k - (a + {id})| < |k - a|
  {
    assert k - (a + {id}) == (k - a) - {id};
  }

  /** `traverse(value, seen)`, as the set `seen` it leaves behind: a value
      that is not walkable, or already seen, returns at once; otherwise the
      object is added to `seen` before its children are walked. */
  function Visit(x: Rx, v: Value, seen: set<nat>): (r: set<nat>)
    ensures seen <= r <= seen + x.heap.objs.Keys
    ensures !Walkable(x, v) || v.id in seen ==> r == seen
    ensures Walkable(x, v) ==> v.id in r
    ensures Closed(x, seen, r)
    decreases |x.heap.objs.Keys - seen|, 0
  {
    if !Walkable(x, v) || v.id in seen then seen
    else
      UnseenDrops(x.heap.objs.Keys, seen, v.id);
      VisitAll(x, Children(x, v.id), seen + {v.id})
  }

  /** The children loop of `traverse`, one child at a time. */
  function VisitAll(x: Rx, ids: set<nat>, seen: set<nat>): (r: set<nat>)
    ensures seen <= r <= seen + x.heap.objs.Keys
    ensures forall i | i in ids && Walkable(x, Obj(i)) :: i in r
    ensures Closed(x, seen, r)
    decreases |x.heap.objs.Keys - seen|, |ids| + 1
  {
    if ids == {} then seen
    else
      var m := Least(ids);
      var s1 := Visit(x, Obj(m), seen);
      UnseenShrinks(x.heap.objs.Keys, seen, s1);
      VisitAll(x, ids - {m}, s1)
  }

  /** `traverse(value)`: it returns its argument; the objects it walked
      into are those reachable from it through walkable objects. */
  function Traverse(x: Rx, v: Value): (r: (Value, set<nat>))
    ensures r.0 == v
    ensures !Walkable(x, v) ==> r.1 == {}
    ensures Walkable(x, v) ==> v.id in r.1
    // closed under children, and nothing but walkable objects
    ensures forall o | o in r.1 :: Walkable(x, Obj(o)) && forall c | c in Children(x, o) && Walkable(x, Obj(c)) :: c in r.1
  {
    (v, Visit(x, v, {}))
  }

  /** A set of object ids that holds the walkable children of each of its
      walkable members. */
  predicate ClosedUnder(x: Rx, S: set<nat>) {
    forall o | o in S && Walkable(x, Obj(o)) :: forall c | c in Children(x, o) && Walkable(x, Obj(c)) :: c in S
  }

  lemma {:induction false} VisitLeast(x: Rx, v: Value, seen: set<nat>, S: set<nat>)
    requires seen <= S && ClosedUnder(x, S) && (Walkable(x, v) ==> v.id in S)
    ensures Visit(x, v, seen) <= S
    decreases |x.heap.objs.Keys - seen|, 0
  {
    if Walkable(x, v) && v.id !in seen {
      UnseenDrops(x.heap.objs.Keys, seen, v.id);
      VisitAllLeast(x, Children(x, v.id), seen + {v.id}, S);
    }
  }

  lemma {:induction false} VisitAllLeast(x: Rx, ids: set<nat>, seen: set<nat>, S: set<nat>)
    requires seen <= S && ClosedUnder(x, S) && forall i | i in ids && Walkable(x, Obj(i)) :: i in S
    ensures VisitAll(x, ids, seen) <= S
    decreases |x.heap.objs.Keys - seen|, |ids| + 1
  {
    if ids != {} {
      var m := Least(ids);
      VisitLeast(x, Obj(m), seen, S);
      var s1 := Visit(x, Obj(m), seen);
      UnseenShrinks(x.heap.objs.Keys, seen, s1);
      VisitAllLeast(x, ids - {m}, s1, S);
    }
  }

  /** `traverse` walks into no more than it must: its set lies inside every
      set that holds the value (when walkable) and is closed under walkable
      children. With the closure `Traverse` states, it is the least such
      set, i.e. exactly the objects reachable from the value through
      walkable objects. */
  lemma TraverseLeast(x: Rx, v: Value, S: set<nat>)
    requires ClosedUnder(x, S) && (Walkable(x, v) ==> v.id in S)
    ensures Traverse(x, v).1 <= S
    ensures ClosedUnder(x, Traverse(x, v).1)
  {
    VisitLeast(x, v, {}, S);
  }
}
