/**
 * Effects (effect.ts): the arena of `ReactiveEffect` objects, the module
 * state `activeEffect`, `shouldTrack` and `effectTrackDepth`, and the
 * subscription graph they drive. `trackOpBit` is not stored: the source
 * always keeps it equal to `1 << effectTrackDepth`, so the marker level of
 * the current run is the depth itself.
 *
 * The user function of an effect is represented, per run, by the sequence
 * of tracked reads it performs (the `track` calls its property reads reach)
 * and by whether it calls `stop()` on its own effect. A function that throws
 * is represented by the reads it performed before throwing: the `finally`
 * epilogue is the same in both cases. Runs of other effects nested inside a
 * function are modelled by calling `Run` on a store whose active effect and
 * depth are those of the enclosing run.
 */
module Effect {
  import opened Wrappers
  import opened Dep
  import opened DepGraph

  /** A `ReactiveEffect` apart from its `deps` array, which lives in the
      graph, and its `parent` field, which lives in the store's `parent` map.
      `fn`, `scheduler` and `onStop` name user functions, `computed` the
      computed value that owns the effect. */
  datatype EffectRec = EffectRec(
    fn: nat,
    active: bool,
    computed: Option<nat>,
    allowRecurse: bool,
    scheduler: Option<nat>,
    deferStop: bool,
    onStop: Option<nat>)

  /** The module-level state of effect.ts. `parent[e]` is the `parent` field
      of effect `e`; an effect without an entry has `parent === undefined`. */
  datatype Store = Store(
    graph: Graph,
    effects: map<EffectId, EffectRec>,
    parent: map<EffectId, EffectId>,
    active: Option<EffectId>,
    shouldTrack: bool,
    depth: nat,
    nextId: nat)

  /** Calls out of the engine into user code. */
  datatype Event =
    | CalledFn(effect: EffectId)
    | CalledOnStop(effect: EffectId, callback: nat)
    | CalledScheduler(effect: EffectId, scheduler: nat)

  datatype Outcome = Outcome(store: Store, events: seq<Event>)

  /** The store as the module initialises it. */
  const Initial: Store := Store(Empty, map[], map[], None, true, 0, 0)

  /** The shape every operation relies on: the graph knows exactly the
      allocated effects, and the active effect and all parent links point
      to allocated effects. */
  predicate Wf(s: Store) {
    && s.graph.depsOf.Keys == s.effects.Keys
    && (s.active.Some? ==> s.active.value in s.effects)
    && (forall x | x in s.parent :: x in s.effects && s.parent[x] in s.effects)
  }

  /** Ids are allocated from `nextId` upwards. */
  predicate IdsBelow(s: Store) {
    forall x | x in s.effects :: x < s.nextId
  }

  /** No marker bit of a level deeper than the current depth is set: those
      levels belong to no run in progress. */
  ghost predicate DeepLevelsClear(s: Store) {
    forall level: nat | level > s.depth :: LevelClear(s.graph, level)
  }

  /** The invariant of the store between operations. */
  ghost predicate Valid(s: Store) {
    && Wf(s) && IdsBelow(s)
    && Consistent(s.graph) && OrderValid(s.graph)
    && DeepLevelsClear(s)
  }

  lemma InitialValid()
    ensures Valid(Initial)
  {
  }

  // ---------------------------------------------------------------------
  // track
  // ---------------------------------------------------------------------

  /** `track(target, type, key)`: record a read of slot `k` by the active
      effect, if tracking is on and an effect is running. */
  function Track(s: Store, k: DepKey): (r: Store)
    requires Wf(s)
    ensures Wf(r) && r.effects == s.effects && r.parent == s.parent && r.active == s.active
    ensures r.shouldTrack == s.shouldTrack && r.depth == s.depth && r.nextId == s.nextId
    ensures !(s.shouldTrack && s.active.Some?) ==> r == s
    ensures s.shouldTrack && s.active.Some? ==> k in r.graph.deps
  {
    if s.shouldTrack && s.active.Some? then s.(graph := TrackDep(s.graph, s.active.value, k, s.depth)) else s
  }

  /** The tracked reads of one function body, in order. */
  function TrackAll(s: Store, trace: seq<DepKey>): (r: Store)
    requires Wf(s)
    ensures Wf(r) && r.effects == s.effects && r.parent == s.parent && r.active == s.active
    ensures r.shouldTrack == s.shouldTrack && r.depth == s.depth && r.nextId == s.nextId
    ensures !(s.shouldTrack && s.active.Some?) ==> r == s
    decreases |trace|
  {
    if |trace| == 0 then s else Track(TrackAll(s, trace[..|trace| - 1]), trace[|trace| - 1])
  }

  /** With an active effect, the reads of a body are tracked for that effect. */
  lemma {:induction false} TrackAllForActive(s: Store, trace: seq<DepKey>)
    requires Wf(s) && s.shouldTrack && s.active.Some?
    ensures TrackAll(s, trace) == s.(graph := DepGraph.TrackAll(s.graph, s.active.value, s.depth, trace))
    decreases |trace|
  {
    if |trace| > 0 {
      TrackAllForActive(s, trace[..|trace| - 1]);
    }
  }

  // ---------------------------------------------------------------------
  // run
  // ---------------------------------------------------------------------

  /** The parent chain from `p`: `p`, its parent, and so on. The walk is bounded
      by the number of effects, which a chain without repetition never exceeds. */
  function ParentChain(s: Store, p: Option<EffectId>, fuel: nat): (r: seq<EffectId>)
    ensures p.Some? && p.value in s.effects && fuel > 0 ==> |r| > 0 && r[0] == p.value
    decreases fuel
  {
    if fuel == 0 || p.None? || p.value !in s.effects then []
    else [p.value] + ParentChain(s, if p.value in s.parent then Some(s.parent[p.value]) else None, fuel - 1)
  }

  /** The re-entrancy guard of `run`: `id` is the active effect or one of its ancestors. */
  predicate OnParentChain(s: Store, id: EffectId) {
    id in ParentChain(s, s.active, |s.effects|)
  }

  /** Every effect on a chain is allocated. */
  lemma {:induction false} ChainAllocated(s: Store, p: Option<EffectId>, fuel: nat)
    ensures forall x | x in ParentChain(s, p, fuel) :: x in s.effects
    decreases fuel
  {
    if !(fuel == 0 || p.None? || p.value !in s.effects) {
      ChainAllocated(s, if p.value in s.parent then Some(s.parent[p.value]) else None, fuel - 1);
    }
  }

  /** The active effect heads its own parent chain: the guard of `run` keeps
      an effect from re-entering itself. */
  lemma ActiveOnChain(s: Store)
    requires Wf(s) && s.active.Some?
    ensures OnParentChain(s, s.active.value)
  {
    assert |s.effects| >= 1 by {
      assert s.active.value in s.effects.Keys;
      assert |s.effects.Keys| >= |{s.active.value}|;
    }
  }

  /** An effect off the parent chain is not the active one. */
  lemma ActiveNotOffChain(s: Store, id: EffectId)
    requires Wf(s) && !OnParentChain(s, id)
    ensures s.active != Some(id)
  {
    if s.active.Some? {
      ActiveOnChain(s);
    }
  }

  /** The prologue of `run`: remember the caller as the parent, become active,
      track, go one level deeper. */
  function Enter(s: Store, id: EffectId): (r: Store)
    requires Wf(s) && id in s.effects
    ensures Wf(r) && r.graph == s.graph && r.effects == s.effects && r.nextId == s.nextId
    ensures r.active == Some(id) && r.shouldTrack && r.depth == s.depth + 1
    ensures s.active.Some? ==> id in r.parent && r.parent[id] == s.active.value
    ensures s.active.None? ==> id !in r.parent
  {
    s.(parent := if s.active.Some? then s.parent[id := s.active.value] else s.parent - {id},
       active := Some(id), shouldTrack := true, depth := s.depth + 1)
  }

  /** The `finally` block of `run` up to the deferred stop: go one level up,
      restore the parent as the active effect and the caller's tracking
      flag, forget the parent. */
  function Leave(s: Store, id: EffectId, lastShouldTrack: bool): (r: Store)
    requires Wf(s) && id in s.effects && s.depth >= 1
    ensures Wf(r) && r.graph == s.graph && r.effects == s.effects && r.nextId == s.nextId
    ensures r.active == (if id in s.parent then Some(s.parent[id]) else None)
    ensures r.shouldTrack == lastShouldTrack && r.depth == s.depth - 1 && id !in r.parent
  {
    s.(parent := s.parent - {id},
       active := if id in s.parent then Some(s.parent[id]) else None,
       shouldTrack := lastShouldTrack, depth := s.depth - 1)
  }

  /** `stop()`: deferred while the effect is the active one; otherwise an
      active effect leaves every dep, calls `onStop` and is deactivated. */
  function Stop(s: Store, id: EffectId): (r: Outcome)
    requires Wf(s) && id in s.effects
    ensures Wf(r.store) && r.store.effects.Keys == s.effects.Keys && r.store.nextId == s.nextId
    ensures r.store.parent == s.parent && r.store.active == s.active
    ensures r.store.shouldTrack == s.shouldTrack && r.store.depth == s.depth
    // deferred while running
    ensures s.active == Some(id) ==>
      r.events == [] && r.store.graph == s.graph && r.store.effects == s.effects[id := s.effects[id].(deferStop := true)]
  {
    var e := s.effects[id];
    if s.active == Some(id) then
      Outcome(s.(effects := s.effects[id := e.(deferStop := true)]), [])
    else if e.active then
      Outcome(s.(graph := Cleanup(s.graph, id), effects := s.effects[id := e.(active := false)]),
              if e.onStop.Some? then [CalledOnStop(id, e.onStop.value)] else [])
    else
      Outcome(s, [])
  }

  /** `run()` of an active effect that is not on the parent chain, up to the
      deferred stop: prologue, the graph work of `RunGraph` at the new depth,
      the function's own `stop()` call if any, and the epilogue. */
  function RunBody(s: Store, id: EffectId, trace: seq<DepKey>, selfStop: bool): (r: Store)
    requires Wf(s) && id in s.effects && s.active != Some(id)
    ensures Wf(r) && r.effects.Keys == s.effects.Keys && r.nextId == s.nextId
    ensures r.active == s.active && r.shouldTrack == s.shouldTrack && r.depth == s.depth
    ensures r.graph == RunGraph(s.graph, id, s.depth + 1, trace)
    ensures r.effects == if selfStop then s.effects[id := s.effects[id].(deferStop := true)] else s.effects
    ensures id !in r.parent && forall x | x in r.parent :: x in s.parent && r.parent[x] == s.parent[x]
  {
    var s2 := Enter(s, id).(graph := RunGraph(s.graph, id, s.depth + 1, trace));
    var s3 := if selfStop then Stop(s2, id).store else s2;
    Leave(s3, id, s.shouldTrack)
  }

  /** The whole of `run()` for an active effect off the parent chain: the
      body, then the deferred stop. */
  function RunActive(s: Store, id: EffectId, trace: seq<DepKey>, selfStop: bool): (r: Outcome)
    requires Wf(s) && id in s.effects && s.active != Some(id)
    ensures Wf(r.store) && r.store.effects.Keys == s.effects.Keys && r.store.nextId == s.nextId
    ensures r.store.active == s.active && r.store.shouldTrack == s.shouldTrack && r.store.depth == s.depth
    ensures |r.events| >= 1 && r.events[0] == CalledFn(id)
  {
    var s4 := RunBody(s, id, trace, selfStop);
    if s4.effects[id].deferStop then
      var st := Stop(s4, id);
      Outcome(st.store, [CalledFn(id)] + st.events)
    else
      Outcome(s4, [CalledFn(id)])
  }

  /** `ReactiveEffect.run()`. `trace` is the tracked reads of this invocation
      of the function and `selfStop` whether it calls `stop()` on its own
      effect. */
  function Run(s: Store, id: EffectId, trace: seq<DepKey>, selfStop: bool): (r: Outcome)
    requires Wf(s) && id in s.effects
    ensures Wf(r.store) && r.store.effects.Keys == s.effects.Keys && r.store.nextId == s.nextId
    // a stopped effect only calls its function, in the caller's tracking context
    ensures !s.effects[id].active ==> r == Outcome(TrackAll(s, trace), [CalledFn(id)])
    // re-entrancy guard
    ensures s.effects[id].active && OnParentChain(s, id) ==> r == Outcome(s, [])
    // the epilogue restores the caller's context
    ensures s.effects[id].active && !OnParentChain(s, id) ==>
      && r.store.active == s.active && r.store.shouldTrack == s.shouldTrack && r.store.depth == s.depth
      && |r.events| >= 1 && r.events[0] == CalledFn(id)
  {
    if !s.effects[id].active then Outcome(TrackAll(s, trace), [CalledFn(id)])
    else if OnParentChain(s, id) then Outcome(s, [])
    else
      ActiveNotOffChain(s, id);
      RunActive(s, id, trace, selfStop)
  }

  // ---------------------------------------------------------------------
  // properties of run and stop
  // ---------------------------------------------------------------------

  /** A store that differs from a valid one only by a graph of the same shape,
      the flags of effects and dropped parent links is valid. */
  lemma ReplaceValid(s: Store, r: Store)
    requires Valid(s)
    requires Consistent(r.graph) && OrderValid(r.graph) && r.graph.depsOf.Keys == s.graph.depsOf.Keys
    requires forall level: nat | level > s.depth :: LevelClear(r.graph, level)
    requires r.effects.Keys == s.effects.Keys && r.active == s.active && r.depth == s.depth && r.nextId == s.nextId
    requires forall x | x in r.parent :: x in s.parent && r.parent[x] == s.parent[x]
    ensures Valid(r)
  {
  }

  /** A run that passes the guard is the full `RunActive`. */
  lemma RunUnfolds(s: Store, id: EffectId, trace: seq<DepKey>, selfStop: bool, r: Outcome)
    requires Wf(s) && id in s.effects && s.effects[id].active && !OnParentChain(s, id)
    requires r == Run(s, id, trace, selfStop)
    ensures s.active != Some(id) && r == RunActive(s, id, trace, selfStop)
  {
    ActiveNotOffChain(s, id);
  }

  /** The graph after the body of a run re-tracks the effect. */
  lemma BodyRetracks(s: Store, id: EffectId, trace: seq<DepKey>, selfStop: bool, r: Store)
    requires Valid(s) && id in s.effects && s.active != Some(id)
    requires r == RunBody(s, id, trace, selfStop)
    ensures Retracked(s.graph, id, trace, r.graph)
  {
    assert LevelClear(s.graph, s.depth + 1);
    DepGraph.RunRetracks(s.graph, id, s.depth + 1, trace);
  }

  /** The store after the body of a run is valid. */
  lemma BodyValid(s: Store, id: EffectId, trace: seq<DepKey>, selfStop: bool, r: Store)
    requires Valid(s) && id in s.effects && s.active != Some(id)
    requires r == RunBody(s, id, trace, selfStop) && Retracked(s.graph, id, trace, r.graph)
    ensures Valid(r)
  {
    forall level: nat | level > s.depth ensures LevelClear(r.graph, level) {
      RetrackedKeepsClear(s.graph, id, trace, r.graph, level);
    }
    ReplaceValid(s, r);
  }

  /** A run of an active effect that is not already running, and that does not
      stop itself, calls the function once and leaves the effect subscribed
      to exactly the slots the function read; every other effect keeps its
      subscriptions, the caller's context is restored and the store stays
      valid. */
  lemma RunResubscribes(s: Store, id: EffectId, trace: seq<DepKey>)
    requires Valid(s) && id in s.effects && s.effects[id].active && !s.effects[id].deferStop
    requires !OnParentChain(s, id)
    ensures var r := Run(s, id, trace, false);
      && Valid(r.store) && r.events == [CalledFn(id)]
      && Retracked(s.graph, id, trace, r.store.graph)
      && r.store.effects == s.effects && id !in r.store.parent
      && r.store.active == s.active && r.store.shouldTrack == s.shouldTrack && r.store.depth == s.depth
  {
    var r := Run(s, id, trace, false);
    RunUnfolds(s, id, trace, false, r);
    var b := RunBody(s, id, trace, false);
    BodyRetracks(s, id, trace, false, b);
    BodyValid(s, id, trace, false, b);
  }

  /** Stopping an effect that is active and not running detaches it: it
      leaves every dep, its list is emptied, it is deactivated, `onStop` is
      called, and nothing else changes. */
  lemma StopDetaches(s: Store, id: EffectId)
    requires Valid(s) && id in s.effects && s.effects[id].active && s.active != Some(id)
    ensures var r := Stop(s, id);
      && Valid(r.store) && !r.store.effects[id].active
      && r.store.graph.depsOf[id] == []
      && (forall k | k in r.store.graph.deps :: id !in r.store.graph.deps[k].subs)
      && (forall e | e in s.effects && e != id :: r.store.effects[e] == s.effects[e] && r.store.graph.depsOf[e] == s.graph.depsOf[e])
      && r.events == (if s.effects[id].onStop.Some? then [CalledOnStop(id, s.effects[id].onStop.value)] else [])
  {
    CleanupPreserves(s.graph, id);
    var r := Stop(s, id).store;
    forall level: nat | level > r.depth ensures LevelClear(r.graph, level) {
      assert LevelClear(s.graph, level);
    }
  }

  /** `stop()` is idempotent outside the effect's own run: a second call
      changes nothing and calls nothing. */
  lemma StopIdempotent(s: Store, id: EffectId)
    requires Wf(s) && id in s.effects && s.active != Some(id)
    ensures Stop(Stop(s, id).store, id) == Outcome(Stop(s, id).store, [])
  {
  }

  /** A function that stops its own effect: the stop is deferred to the end of
      the run, after which the effect is detached as by `StopDetaches`. */
  lemma SelfStopDetaches(s: Store, id: EffectId, trace: seq<DepKey>)
    requires Valid(s) && id in s.effects && s.effects[id].active
    requires !OnParentChain(s, id)
    ensures var r := Run(s, id, trace, true);
      && Valid(r.store) && !r.store.effects[id].active
      && r.store.graph.depsOf[id] == []
      && (forall k | k in r.store.graph.deps :: id !in r.store.graph.deps[k].subs)
      && (forall e | e in s.effects && e != id :: r.store.graph.depsOf[e] == s.graph.depsOf[e])
      && r.events[0] == CalledFn(id)
  {
    var r := Run(s, id, trace, true);
    RunUnfolds(s, id, trace, true, r);
    var b := RunBody(s, id, trace, true);
    BodyRetracks(s, id, trace, true, b);
    BodyValid(s, id, trace, true, b);
    DeferredStop(s, id, trace, b, r);
  }

  /** The deferred stop at the end of a self-stopping run. */
  lemma DeferredStop(s: Store, id: EffectId, trace: seq<DepKey>, b: Store, r: Outcome)
    requires Valid(s) && id in s.effects && s.effects[id].active && s.active != Some(id)
    requires b == RunBody(s, id, trace, true) && Valid(b) && Retracked(s.graph, id, trace, b.graph)
    requires r == RunActive(s, id, trace, true)
    ensures && Valid(r.store) && !r.store.effects[id].active
      && r.store.graph.depsOf[id] == []
      && (forall k | k in r.store.graph.deps :: id !in r.store.graph.deps[k].subs)
      && (forall e | e in s.effects && e != id :: r.store.graph.depsOf[e] == s.graph.depsOf[e])
  {
    assert r == Outcome(Stop(b, id).store, [CalledFn(id)] + Stop(b, id).events);
    StopDetaches(b, id);
  }

  /** Outside any run, a stopped effect's function reads nothing into the graph. */
  lemma StoppedRunUntracked(s: Store, id: EffectId, trace: seq<DepKey>)
    requires Wf(s) && id in s.effects && !s.effects[id].active && s.active.None?
    ensures Run(s, id, trace, false) == Outcome(s, [CalledFn(id)])
  {
  }

  // ---------------------------------------------------------------------
  // effect()
  // ---------------------------------------------------------------------

  /** Options of `effect(fn, options)` that the engine reads. */
  datatype EffectOptions = EffectOptions(
    lazy: bool, scheduler: Option<nat>, allowRecurse: bool, onStop: Option<nat>)

  /** The function argument of `effect`: a plain function, or a runner of an
      existing effect (whose function is reused). */
  datatype FnArg = PlainFn(f: nat) | Runner(effect: EffectId)

  /** The effect record `effect(fn, options)` allocates: the function of
      `fn` (unwrapped from a runner), the options copied over, active. */
  function NewEffect(s: Store, fn: FnArg, options: Option<EffectOptions>): (e: EffectRec)
    requires fn.Runner? ==> fn.effect in s.effects
    ensures e.active && !e.deferStop && e.computed.None?
    ensures e.fn == (if fn.Runner? then s.effects[fn.effect].fn else fn.f)
    ensures options.Some? ==> e.scheduler == options.value.scheduler && e.allowRecurse == options.value.allowRecurse
                              && e.onStop == options.value.onStop
    ensures options.None? ==> e.scheduler.None? && !e.allowRecurse && e.onStop.None?
  {
    var f := if fn.Runner? then s.effects[fn.effect].fn else fn.f;
    var base := EffectRec(f, true, None, false, None, false, None);
    if options.Some?
    then base.(scheduler := options.value.scheduler, allowRecurse := options.value.allowRecurse,
               onStop := options.value.onStop)
    else base
  }

  /** Register `e` under the next free id, with an empty `deps` array. */
  function Allocate(s: Store, e: EffectRec): (r: (Store, EffectId))
    requires Wf(s) && IdsBelow(s)
    ensures r.1 == s.nextId && r.1 !in s.effects
    ensures r.0.effects == s.effects[r.1 := e] && r.0.graph.depsOf == s.graph.depsOf[r.1 := []]
    ensures r.0.effects.Keys == s.effects.Keys + {r.1}
    ensures r.0.graph.deps == s.graph.deps && r.0.graph.order == s.graph.order && r.0.parent == s.parent
    ensures r.0.active == s.active && r.0.shouldTrack == s.shouldTrack && r.0.depth == s.depth
    ensures r.0.nextId == s.nextId + 1
    ensures Wf(r.0) && IdsBelow(r.0) && !OnParentChain(r.0, r.1)
  {
    var id := s.nextId;
    var s1 := s.(graph := s.graph.(depsOf := s.graph.depsOf[id := []]),
                 effects := s.effects[id := e], nextId := s.nextId + 1);
    AllocatedWf(s, e, s1);
    (s1, id)
  }

  /** The store with `e` under the next free id is well formed, and the new
      id is on no parent chain, since every chain runs through old effects. */
  lemma AllocatedWf(s: Store, e: EffectRec, s1: Store)
    requires Wf(s) && IdsBelow(s)
    requires s1 == s.(graph := s.graph.(depsOf := s.graph.depsOf[s.nextId := []]),
                      effects := s.effects[s.nextId := e], nextId := s.nextId + 1)
    ensures s1.effects.Keys == s.effects.Keys + {s.nextId} && s.nextId !in s.effects
    ensures Wf(s1) && IdsBelow(s1) && !OnParentChain(s1, s.nextId)
  {
    var id := s.nextId;
    assert id !in s.effects;
    assert s1.effects.Keys == s.effects.Keys + {id};
    assert s1.graph.depsOf.Keys == s.graph.depsOf.Keys + {id};
    ChainOld(s, s1, s1.active, |s1.effects|);
  }

  /** A chain in a store that only gained effects runs through old effects. */
  lemma {:induction false} ChainOld(s: Store, s1: Store, p: Option<EffectId>, fuel: nat)
    requires Wf(s) && s1.parent == s.parent && s.effects.Keys <= s1.effects.Keys
    requires p.Some? ==> p.value in s.effects
    ensures forall x | x in ParentChain(s1, p, fuel) :: x in s.effects
    decreases fuel
  {
    if !(fuel == 0 || p.None? || p.value !in s1.effects) {
      ChainOld(s, s1, if p.value in s1.parent then Some(s1.parent[p.value]) else None, fuel - 1);
    }
  }

  /** The first run of a freshly allocated effect. */
  function Launch(s: Store, id: EffectId, trace: seq<DepKey>, selfStop: bool): (r: Outcome)
    requires Wf(s) && id in s.effects && s.effects[id].active && !OnParentChain(s, id)
    ensures Wf(r.store) && r.store.effects.Keys == s.effects.Keys
    ensures |r.events| >= 1 && r.events[0] == CalledFn(id)
  {
    Run(s, id, trace, selfStop)
  }

  /** The tail of `effect()`: run the new effect unless it is lazy. */
  function Start(s: Store, id: EffectId, options: Option<EffectOptions>, trace: seq<DepKey>, selfStop: bool): (r: Outcome)
    requires Wf(s) && id in s.effects && s.effects[id].active && !OnParentChain(s, id)
    ensures Wf(r.store) && r.store.effects.Keys == s.effects.Keys
    ensures options.Some? && options.value.lazy ==> r == Outcome(s, [])
    ensures (options.None? || !options.value.lazy) ==> r == Launch(s, id, trace, selfStop)
    ensures (options.None? || !options.value.lazy) ==> |r.events| >= 1 && r.events[0] == CalledFn(id)
  {
    if options.None? || !options.value.lazy then Launch(s, id, trace, selfStop) else Outcome(s, [])
  }

  /** `effect(fn, options)`: allocate an effect, copy the options, and run it
      unless lazy; the result names the new effect (its runner). */
  function CreateEffect(s: Store, fn: FnArg, options: Option<EffectOptions>, trace: seq<DepKey>, selfStop: bool): (r: (Outcome, EffectId))
    requires Wf(s) && IdsBelow(s)
    requires fn.Runner? ==> fn.effect in s.effects
    ensures r.1 == s.nextId && r.1 !in s.effects
    ensures Wf(r.0.store) && r.0.store.effects.Keys == s.effects.Keys + {r.1}
    ensures (options.None? || !options.value.lazy) ==> |r.0.events| >= 1 && r.0.events[0] == CalledFn(r.1)
  {
    var a := Allocate(s, NewEffect(s, fn, options));
    (Start(a.0, a.1, options, trace, selfStop), a.1)
  }

  /** A lazy `effect()` only registers the effect: nothing runs and it is
      subscribed to nothing. */
  lemma LazyCreateWaits(s: Store, fn: FnArg, options: Option<EffectOptions>, trace: seq<DepKey>, selfStop: bool)
    requires Wf(s) && IdsBelow(s) && (fn.Runner? ==> fn.effect in s.effects)
    requires options.Some? && options.value.lazy
    ensures var r := CreateEffect(s, fn, options, trace, selfStop);
      && r.0.events == [] && r.0.store.effects == s.effects[r.1 := NewEffect(s, fn, options)]
      && r.0.store.graph.depsOf == s.graph.depsOf[r.1 := []] && r.0.store.graph.deps == s.graph.deps
      && r.0.store.active == s.active
  {
  }

  /** A non-lazy `effect(fn)` on a valid store leaves it valid, with the new
      effect subscribed to exactly the slots its first run read (when the
      function does not stop its own effect). */
  lemma CreateSubscribes(s: Store, fn: FnArg, options: Option<EffectOptions>, trace: seq<DepKey>)
    requires Valid(s) && (fn.Runner? ==> fn.effect in s.effects)
    requires options.None? || !options.value.lazy
    ensures var r := CreateEffect(s, fn, options, trace, false);
      && Valid(r.0.store) && r.0.events == [CalledFn(r.1)]
      && (forall k :: k in r.0.store.graph.depsOf[r.1] <==> k in trace)
      && (forall e | e in s.effects :: r.0.store.graph.depsOf[e] == s.graph.depsOf[e])
  {
    var a := Allocate(s, NewEffect(s, fn, options));
    AllocateValid(s, NewEffect(s, fn, options));
    RunResubscribes(a.0, a.1, trace);
    var r := CreateEffect(s, fn, options, trace, false).0;
    assert r == Run(a.0, a.1, trace, false);
    LaunchResubscribes(s, a.0, a.1, trace, r);
  }

  /** The first run after allocation, seen from the store before allocation. */
  lemma LaunchResubscribes(s: Store, a: Store, id: EffectId, trace: seq<DepKey>, r: Outcome)
    requires Wf(s) && id !in s.effects && id in a.effects
    requires a.graph.depsOf == s.graph.depsOf[id := []]
    requires Valid(r.store) && r.events == [CalledFn(id)] && Retracked(a.graph, id, trace, r.store.graph)
    ensures Valid(r.store) && r.events == [CalledFn(id)]
    ensures forall k :: k in r.store.graph.depsOf[id] <==> k in trace
    ensures forall e | e in s.effects :: r.store.graph.depsOf[e] == s.graph.depsOf[e]
  {
  }

  /** Allocation keeps the store valid. */
  lemma AllocateValid(s: Store, e: EffectRec)
    requires Valid(s)
    ensures Valid(Allocate(s, e).0)
  {
    var r := Allocate(s, e).0;
    assert Consistent(r.graph);
    forall level: nat | level > r.depth ensures LevelClear(r.graph, level) {
      assert LevelClear(s.graph, level);
    }
  }
}
