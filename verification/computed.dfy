/**
 * `computed()` (computed.ts): a ref whose value is the cached result of a
 * getter run as a lazy effect. The effect's scheduler does not re-run the
 * getter; it marks the cache dirty and notifies the readers of the ref, and
 * the next read recomputes.
 *
 * The dep of a computed ref is the graph slot `RefDep(c)`; reading the value
 * tracks it like `trackRefValue`, and the scheduler notifies its subscribers
 * like `triggerRefValue` (ref.ts is not part of this model; those two follow
 * the upstream definitions). The getter's reads are the `trace` of its run and
 * its return value the parameter `result`.
 */
module Computed {
  import opened Wrappers
  import opened Dep
  import opened DepGraph
  import opened Effect
  import opened Trigger

  /** A `ComputedRefImpl`: its effect, `_dirty`, `_cacheable` (false when
      rendering on the server), the cached `_value` (`None` while undefined),
      the readonly flag and `_setter`. */
  datatype ComputedRef = ComputedRef(
    effect: EffectId,
    dirty: bool,
    cacheable: bool,
    value: Option<nat>,
    readonly: bool,
    setter: Setter)

  /** `_setter`: the user's `set`, the `NOOP` that a bare getter gets, or
      `undefined` when `{ get }` options leave `set` out. */
  datatype Setter = UserSetter(fn: nat) | NoopSetter | NoSetter

  /** The effect store together with the computed refs, by id. */
  datatype World = World(store: Store, refs: map<nat, ComputedRef>, nextRef: nat)

  predicate WorldWf(w: World) {
    && Wf(w.store) && IdsBelow(w.store)
    && forall c | c in w.refs ::
         && c < w.nextRef && w.refs[c].effect in w.store.effects
         // `onlyGetter || !setter`
         && (w.refs[c].readonly <==> !w.refs[c].setter.UserSetter?)
  }

  /** The argument of `computed()`: a getter, or `{ get, set }` with `set`
      possibly missing. */
  datatype GetterOrOptions = Getter(fn: nat) | Options(get: nat, setFn: Option<nat>)

  /** `computed(getterOrOptions, debugOptions, isSSR)`: a dirty ref over a new
      effect that is not run; the effect is inactive when rendering on the
      server, and its scheduler is the ref's own. */
  function NewComputed(w: World, arg: GetterOrOptions, isSSR: bool): (r: (World, nat))
    requires WorldWf(w)
    ensures WorldWf(r.0) && r.1 !in w.refs && forall d :: d in r.0.refs <==> d in w.refs || d == r.1
    ensures forall c | c in w.refs :: r.0.refs[c] == w.refs[c]
    ensures var ref := r.0.refs[r.1];
      && ref.dirty && ref.value.None? && ref.cacheable == !isSSR
      && ref.effect !in w.store.effects
      && r.0.store.effects[ref.effect].active == !isSSR
      && r.0.store.effects[ref.effect].computed == Some(r.1)
      && r.0.store.effects[ref.effect].scheduler == Some(r.1)
      && r.0.store.effects[ref.effect].fn == (if arg.Getter? then arg.fn else arg.get)
      // readonly exactly when there is no user setter
      && (ref.readonly <==> arg.Getter? || arg.setFn.None?)
      && (ref.readonly <==> !ref.setter.UserSetter?)
      && (arg.Getter? ==> ref.setter == NoopSetter)
      && (arg.Options? ==> ref.setter == if arg.setFn.Some? then UserSetter(arg.setFn.value) else NoSetter)
    // the getter does not run
    ensures r.0.store.graph.deps == w.store.graph.deps && r.0.store.graph.depsOf[r.0.refs[r.1].effect] == []
  {
    var c := w.nextRef;
    var getter := if arg.Getter? then arg.fn else arg.get;
    var setter := if arg.Getter? then NoopSetter else if arg.setFn.Some? then UserSetter(arg.setFn.value) else NoSetter;
    var a := Allocate(w.store, EffectRec(getter, !isSSR, Some(c), false, Some(c), false, None));
    var ref := ComputedRef(a.1, true, !isSSR, None, arg.Getter? || arg.setFn.None?, setter);
    (World(a.0, w.refs[c := ref], c + 1), c)
  }

  /** The result of reading `.value`: the new world, the value read and the
      calls into user code. */
  datatype Read = Read(world: World, value: Option<nat>, events: seq<Event>)

  /** `effect.run()` reaches the getter: the effect is stopped, or it is not
      already running further up the stack. */
  predicate GetterRuns(s: Store, e: EffectId)
    requires e in s.effects
  {
    !s.effects[e].active || !OnParentChain(s, e)
  }

  /** `get value()`: track the ref for the reader, then recompute when dirty
      or not cacheable. */
  function GetValue(w: World, c: nat, trace: seq<DepKey>, result: nat): (r: Read)
    requires WorldWf(w) && c in w.refs
    ensures WorldWf(r.world) && r.world.nextRef == w.nextRef && forall d :: d in r.world.refs <==> d in w.refs
    ensures forall d | d in w.refs && d != c :: r.world.refs[d] == w.refs[d]
    ensures r.value == r.world.refs[c].value
    ensures r.world.refs[c].effect == w.refs[c].effect && r.world.refs[c].cacheable == w.refs[c].cacheable
    // a clean cache answers without calling the getter
    ensures !w.refs[c].dirty && w.refs[c].cacheable ==>
      r.events == [] && r.value == w.refs[c].value && r.world.refs[c] == w.refs[c]
    // otherwise the getter is called (unless its effect is already running)
    // and the cache is clean afterwards
    ensures w.refs[c].dirty || !w.refs[c].cacheable ==>
      && !r.world.refs[c].dirty
      && var e := w.refs[c].effect;
         var s1 := Track(w.store, RefDep(c));
         if GetterRuns(s1, e)
         then r.value == Some(result) && |r.events| >= 1 && r.events[0] == CalledFn(e)
         else r.value.None? && r.events == []
  {
    var ref := w.refs[c];
    var s1 := Track(w.store, RefDep(c));
    if ref.dirty || !ref.cacheable then
      var o := Run(s1, ref.effect, trace, false);
      var v := if GetterRuns(s1, ref.effect) then Some(result) else None;
      Read(World(o.store, w.refs[c := ref.(dirty := false, value := v)], w.nextRef), v, o.events)
    else
      Read(w.(store := s1), ref.value, [])
  }

  /** Reading a cacheable ref twice in a row calls the getter at most once:
      the second read answers from the cache with the same value. */
  lemma SecondReadCached(w: World, c: nat, trace1: seq<DepKey>, result1: nat, trace2: seq<DepKey>, result2: nat)
    requires WorldWf(w) && c in w.refs && w.refs[c].cacheable
    ensures var first := GetValue(w, c, trace1, result1);
      var second := GetValue(first.world, c, trace2, result2);
      second.events == [] && second.value == first.value
  {
  }

  /** Without the cache (server rendering) every read calls the getter when
      its effect runs: the value is always the getter's latest result. */
  lemma UncachedReadRecomputes(w: World, c: nat, trace: seq<DepKey>, result: nat)
    requires WorldWf(w) && c in w.refs && !w.refs[c].cacheable
    requires !w.store.effects[w.refs[c].effect].active
    ensures GetValue(w, c, trace, result).value == Some(result)
    ensures GetValue(w, c, trace, result).events == [CalledFn(w.refs[c].effect)]
  {
  }

  /** `triggerRefValue`: notify the subscribers of the ref's dep, if it has
      one. */
  function TriggerRef(s: Store, c: nat): (r: seq<Action>)
    requires Wf(s) && Consistent(s.graph)
    ensures forall e :: e in Notified(r) <==>
      RefDep(c) in s.graph.deps && e in s.graph.deps[RefDep(c)].subs && e in s.effects && Fires(s, e)
    ensures NoDups(Notified(r))
  {
    if RefDep(c) in s.graph.deps then
      var subs := s.graph.deps[RefDep(c)].subs;
      assert NoDups(subs) && forall e | e in subs :: e in s.effects;
      TriggerEffects(s, subs)
    else []
  }

  /** The scheduler of the ref's effect: a clean ref becomes dirty and its
      readers are notified (`triggerRefValue`); a dirty one is left alone. */
  function Invalidate(w: World, c: nat): (r: (World, seq<Action>))
    requires WorldWf(w) && c in w.refs && Consistent(w.store.graph)
    ensures WorldWf(r.0) && r.0.store == w.store && forall d :: d in r.0.refs <==> d in w.refs
    ensures r.0.refs[c] == w.refs[c].(dirty := true)
    ensures forall d | d in w.refs && d != c :: r.0.refs[d] == w.refs[d]
    ensures w.refs[c].dirty ==> r.1 == []
    // a clean ref notifies exactly the firing subscribers of its dep
    ensures !w.refs[c].dirty ==> r.1 == TriggerRef(w.store, c)
  {
    var ref := w.refs[c];
    if ref.dirty then (w, [])
    else (w.(refs := w.refs[c := ref.(dirty := true)]), TriggerRef(w.store, c))
  }

  /** After the scheduler, the next read calls the getter again (when its
      effect can run) and caches the new result. */
  lemma InvalidateThenRecompute(w: World, c: nat, trace: seq<DepKey>, result: nat)
    requires WorldWf(w) && c in w.refs && Consistent(w.store.graph)
    requires GetterRuns(Track(w.store, RefDep(c)), w.refs[c].effect)
    ensures var w1 := Invalidate(w, c).0;
      var r := GetValue(w1, c, trace, result);
      r.value == Some(result) && r.events[0] == CalledFn(w.refs[c].effect) && !r.world.refs[c].dirty
  {
  }

  /** Invalidating twice notifies once. */
  lemma InvalidateIdempotent(w: World, c: nat)
    requires WorldWf(w) && c in w.refs && Consistent(w.store.graph)
    ensures var a := Invalidate(w, c);
      Invalidate(a.0, c) == (a.0, [])
  {
  }

  /** What assigning `.value` does: call the user setter with the new value,
      nothing (the `NOOP` of a bare getter), or throw a `TypeError` because
      `_setter` is `undefined`. */
  datatype Assignment = CallsSetter(fn: nat, arg: nat) | Ignored | ThrowsTypeError

  /** `set value(newValue)`: hand the value to `_setter`; the ref itself, its
      cache and its effect are left as they are. */
  function SetValue(w: World, c: nat, v: nat): (r: (World, Assignment))
    requires WorldWf(w) && c in w.refs
    ensures r.0 == w
    ensures r.1.CallsSetter? <==> w.refs[c].setter.UserSetter?
    ensures r.1.CallsSetter? ==> r.1.fn == w.refs[c].setter.fn && r.1.arg == v
    ensures r.1.ThrowsTypeError? <==> w.refs[c].setter.NoSetter?
    // a read-only ref never reaches user code through an assignment
    ensures w.refs[c].readonly ==> !r.1.CallsSetter?
  {
    match w.refs[c].setter
    case UserSetter(f) => (w, CallsSetter(f, v))
    case NoopSetter => (w, Ignored)
    case NoSetter => (w, ThrowsTypeError)
  }

  /** Assigning to a fresh ref follows the argument of `computed()`: a bare
      getter ignores it, `{ get }` without `set` throws, and `{ get, set }`
      calls `set` with the value; the following read still sees a dirty
      ref. */
  lemma AssignAfterCreate(w: World, arg: GetterOrOptions, isSSR: bool, v: nat)
    requires WorldWf(w)
    ensures var (w1, c) := NewComputed(w, arg, isSSR);
      var (w2, a) := SetValue(w1, c, v);
      && w2.refs[c].dirty
      && match arg
         case Getter(_) => a == Ignored
         case Options(_, setFn) => a == if setFn.Some? then CallsSetter(setFn.value, v) else ThrowsTypeError
  {
  }
}
