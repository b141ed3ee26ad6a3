/**
 * The `get` and `set` traps of the base handlers (baseHandlers.ts), used by
 * proxies of plain objects and arrays. `get` answers the reactive flags,
 * reads the target and tracks the read; `set` stores raw values, writes
 * through refs, and triggers `ADD` or `SET`. A trap call returns the new
 * state and, for `set`, the trigger plan (see `Trigger`) instead of running
 * it. Accessor properties and the prototype chain are not modelled: a read
 * is an own-property lookup on the target.
 */
module BaseHandlers {
  import opened Wrappers
  import opened Keys
  import opened DepGraph
  import opened Dep
  import opened Effect
  import opened Trigger
  import opened Reactive

  /** `isSymbol(key) ? builtInSymbols.has(key) : isNonTrackableKeys(key)`. */
  predicate NotTracked(key: Key) {
    if key.Sym? then IsBuiltInSymbol(key) else key.Name? && key.s in NonTrackableNames
  }

  /** `proxyMap.get(target)` as a value (`undefined` when absent). */
  function RegisteredProxy(x: Rx, readonly: bool, shallow: bool, t: nat): (v: Value)
    ensures v.Obj? <==> t in MapFor(x.reg, readonly, shallow)
  {
    var m := MapFor(x.reg, readonly, shallow);
    if t in m then Obj(m[t]) else Undefined
  }

  /** A proxy made with the base handlers (`mutableHandlers`). */
  predicate BaseProxy(x: Rx, p: nat) {
    p in x.heap.objs && x.heap.objs[p].Proxy? && !x.heap.objs[p].collection
  }

  /** The keys `get` answers from the handler configuration. */
  predicate StatusFlag(key: Key) {
    key == IsReactiveFlag || key == IsReadonlyFlag || key == IsShallowFlag
  }

  /** The `get` trap of proxy `p` for `key` with `receiver`. */
  function ProxyGet(s: Store, x: Rx, p: nat, key: Key, receiver: Value): (r: (Store, Value))
    requires Wf(s) && RxWf(x) && BaseProxy(x, p)
    ensures Wf(r.0) && r.0.effects == s.effects && r.0.active == s.active
    // the three status flags come from the configuration, untracked
    ensures key == IsReactiveFlag ==> r == (s, Bool(!x.heap.objs[p].readonly))
    ensures key == IsReadonlyFlag ==> r == (s, Bool(x.heap.objs[p].readonly))
    ensures key == IsShallowFlag ==> r == (s, Bool(x.heap.objs[p].shallow))
    // `__v_raw` yields the target exactly for the registered proxy
    ensures var pr := x.heap.objs[p];
      key == RawFlag && receiver == RegisteredProxy(x, pr.readonly, pr.shallow, pr.target) ==> r == (s, Obj(pr.target))
    // everything else is the plain read ...
    ensures var pr := x.heap.objs[p];
      !StatusFlag(key) && !(key == RawFlag && receiver == RegisteredProxy(x, pr.readonly, pr.shallow, pr.target)) ==>
      r.1 == OwnProp(x, pr.target, key)
    // ... tracked unless readonly or an untracked key
    ensures var pr := x.heap.objs[p];
      !StatusFlag(key) && !(key == RawFlag && receiver == RegisteredProxy(x, pr.readonly, pr.shallow, pr.target)) ==>
      r.0 == (if !pr.readonly && !NotTracked(key) then Track(s, Slot(pr.target, key)) else s)
  {
    var pr := x.heap.objs[p];
    if key == IsReactiveFlag then (s, Bool(!pr.readonly))
    else if key == IsReadonlyFlag then (s, Bool(pr.readonly))
    else if key == IsShallowFlag then (s, Bool(pr.shallow))
    else if key == RawFlag && receiver == RegisteredProxy(x, pr.readonly, pr.shallow, pr.target) then (s, Obj(pr.target))
    else
      var res := OwnProp(x, pr.target, key);
      if NotTracked(key) then (s, res)
      else if !pr.readonly then (Track(s, Slot(pr.target, key)), res)
      else (s, res)
  }

  /** A read through a reactive proxy in an effect subscribes the effect's
      slot: the dep of (target, key) exists afterwards. */
  lemma GetTracksRead(s: Store, x: Rx, p: nat, key: Key)
    requires Wf(s) && RxWf(x) && BaseProxy(x, p)
    requires !x.heap.objs[p].readonly && !StatusFlag(key) && key != RawFlag && !NotTracked(key)
    requires s.shouldTrack && s.active.Some?
    ensures Slot(x.heap.objs[p].target, key) in ProxyGet(s, x, p, key, Obj(p)).0.graph.deps
  {
  }

  // ---------------------------------------------------------------------
  // set
  // ---------------------------------------------------------------------

  /** An array's `length` property. */
  function ArrayLength(x: Rx, t: nat): nat {
    var v := OwnProp(x, t, LengthKey);
    if v.Num? && v.n >= 0 then v.n else 0
  }

  /** `hadKey`: for an integer key of an array, below the length; otherwise
      an own property of the target. */
  predicate HadKey(x: Rx, t: nat, key: Key) {
    if IsArray(x, Obj(t)) && IsIntegerKey(key) then key.i < ArrayLength(x, t)
    else t in x.heap.objs && x.heap.objs[t].Plain? && key in x.heap.objs[t].props
  }

  /** The properties of a plain object after `Reflect.set`, or `None` when it
      throws (a `length` that is not a non-negative integer). Writing an index
      at or past an array's length extends it; writing `length` drops the
      indices at or past it; a new key on a non-extensible object is refused
      (`false`, nothing written). */
  function ReflectSet(o: Object, key: Key, v: Value): (r: Option<(Object, bool)>)
    requires o.Plain?
    ensures r.Some? ==> r.value.0.Plain? && r.value.0.rawType == o.rawType && r.value.0.extensible == o.extensible
    ensures r.Some? && r.value.1 ==> key in r.value.0.props && r.value.0.props[key] == v
    ensures r.Some? && !r.value.1 ==> r.value.0 == o
    ensures r.None? <==> o.rawType == "Array" && key == LengthKey && !(v.Num? && v.n >= 0)
    // an array write past the end extends the length
    ensures r.Some? && r.value.1 && o.rawType == "Array" && key.Index? ==>
      var len := if LengthKey in o.props && o.props[LengthKey].Num? then o.props[LengthKey].n else 0;
      LengthKey in r.value.0.props && r.value.0.props[LengthKey] == Num(if key.i >= len then key.i + 1 else len)
    // truncating an array drops the indices at or past the new length
    ensures r.Some? && o.rawType == "Array" && key == LengthKey ==>
      forall k | k in r.value.0.props && k.Index? :: k.i < v.n && k in o.props && r.value.0.props[k] == o.props[k]
  {
    if o.rawType == "Array" && key == LengthKey then
      if v.Num? && v.n >= 0 then
        var kept := map k | k in o.props && !(k.Index? && k.i >= v.n) :: o.props[k];
        Some((o.(props := kept[LengthKey := v]), true))
      else None
    else if key !in o.props && !o.extensible then Some((o, false))
    else if o.rawType == "Array" && key.Index? then
      var len := if LengthKey in o.props && o.props[LengthKey].Num? then o.props[LengthKey].n else 0;
      var props := o.props[key := v];
      Some((o.(props := props[LengthKey := Num(if key.i >= len then key.i + 1 else len)]), true))
    else Some((o.(props := o.props[key := v]), true))
  }

  /** The outcome of the `set` trap: it throws, or it returns `result` with
      the new heap, possibly a write through a ref (`ref.value = value`) and
      the trigger plan. */
  datatype SetOutcome =
    | Threw
    | SetDone(rx: Rx, result: bool, refWrite: Option<(Value, Value)>, plan: seq<Action>)

  /** What `trigger` would do for a write of `key` on target `t`: `ADD` when
      the key was absent, `SET` when the value changed, nothing otherwise. */
  function WritePlan(s: Store, x: Rx, t: nat, key: Key, v: Value, prev: Value, hadKey: bool): (r: seq<Action>)
    requires Wf(s) && Consistent(s.graph)
    ensures var kind := if IsArray(x, Obj(t)) then ArrayTarget else PlainObject;
      var n := if v.Num? && v.n >= 0 then v.n else 0;
      && (!hadKey ==> r == TriggerPlan(s, t, kind, AddOp, Some(key), n))
      && (hadKey && HasChanged(v, prev) ==> r == TriggerPlan(s, t, kind, SetOp, Some(key), n))
    ensures hadKey && !HasChanged(v, prev) ==> r == []
    ensures !HasDepsMap(s.graph, t) ==> r == []
    ensures forall i | 0 <= i < |r| :: r[i].effect in s.effects
  {
    var kind := if IsArray(x, Obj(t)) then ArrayTarget else PlainObject;
    var n := if v.Num? && v.n >= 0 then v.n else 0;
    if !hadKey then TriggerPlan(s, t, kind, AddOp, Some(key), n)
    else if HasChanged(v, prev) then TriggerPlan(s, t, kind, SetOp, Some(key), n)
    else []
  }

  /** The deps a write of `key` reaches: the key's own, then the iteration
      key for a new key on an object or `length` for a new index on an
      array; writing an array's `length` reaches `length` and the indices at
      or above the new length `n`. */
  ghost predicate WriteReaches(g: Graph, t: nat, key: Key, arr: bool, added: bool, n: nat, e: EffectId) {
    if arr && key == LengthKey then
      exists k :: SubscribedTo(g, t, k, e) && (k == LengthKey || (k.Index? && k.i >= n))
    else
      || SubscribedTo(g, t, key, e)
      || (added && !arr && SubscribedTo(g, t, Sym(IterateKey), e))
      || (added && arr && IsIntegerKey(key) && SubscribedTo(g, t, LengthKey, e))
  }

  /** The keys `trigger` selects for `ADD`/`SET` of `key` reach exactly the
      deps `WriteReaches` names. */
  lemma SelectedReaches(g: Graph, t: nat, key: Key, arr: bool, added: bool, n: nat, e: EffectId)
    requires OrderValid(g)
    ensures var kind := if arr then ArrayTarget else PlainObject;
      var sel := SelectKeys(TargetKeys(g.order, t), kind, if added then AddOp else SetOp, Some(key), n);
      Subscribed(g, t, sel, e) <==> WriteReaches(g, t, key, arr, added, n, e)
  {
    var kind := if arr then ArrayTarget else PlainObject;
    var op := if added then AddOp else SetOp;
    var sel := SelectKeys(TargetKeys(g.order, t), kind, op, Some(key), n);
    SubscribedMembers(g, t, sel, e);
    if arr && key == LengthKey {
      assert forall k :: k in sel <==> Slot(t, k) in g.order && (k == LengthKey || (k.Index? && k.i >= n));
    } else {
      var its := IterationKeys(kind, op, Some(key));
      assert forall k :: k in sel <==> k == key || k in its;
      assert Sym(IterateKey) in its <==> added && !arr;
      assert LengthKey in its <==> added && arr && IsIntegerKey(key);
      assert forall k | k in its :: k == Sym(IterateKey) || k == LengthKey by {
        forall k | k in its ensures k == Sym(IterateKey) || k == LengthKey {
          assert k != Sym(MapKeyIterateKey);
        }
      }
    }
  }

  /** Whom a write notifies, when the key was absent or the value changed:
      exactly the effects that fire and that subscribe to a dep the write
      reaches (`WriteReaches`). */
  lemma WriteNotifies(s: Store, x: Rx, t: nat, key: Key, v: Value, prev: Value, hadKey: bool)
    requires Wf(s) && Consistent(s.graph) && OrderValid(s.graph)
    requires !hadKey || HasChanged(v, prev)
    ensures var r := WritePlan(s, x, t, key, v, prev, hadKey);
      var n := if v.Num? && v.n >= 0 then v.n else 0;
      forall e :: e in Notified(r) <==>
        e in s.effects && Fires(s, e) && WriteReaches(s.graph, t, key, IsArray(x, Obj(t)), !hadKey, n, e)
  {
    var g := s.graph;
    var r := WritePlan(s, x, t, key, v, prev, hadKey);
    var arr := IsArray(x, Obj(t));
    var kind := if arr then ArrayTarget else PlainObject;
    var n := if v.Num? && v.n >= 0 then v.n else 0;
    var op := if !hadKey then AddOp else SetOp;
    var sel := SelectKeys(TargetKeys(g.order, t), kind, op, Some(key), n);
    if !HasDepsMap(g, t) {
      HasDepsMapIff(g, t);
      forall e ensures e !in Notified(r) && !WriteReaches(g, t, key, arr, !hadKey, n, e) {
        SubscribedMembers(g, t, sel, e);
        SelectedReaches(g, t, key, arr, !hadKey, n, e);
      }
    } else {
      assert r == TriggerPlan(s, t, kind, op, Some(key), n);
      TriggerNotifies(s, t, kind, op, Some(key), n);
      forall e ensures e in Notified(r) <==> e in s.effects && Fires(s, e) && WriteReaches(g, t, key, arr, !hadKey, n, e) {
        SelectedReaches(g, t, key, arr, !hadKey, n, e);
      }
    }
  }

  /** The `set` trap of proxy `p`: `target[key] = value` with `receiver`. */
  function ProxySet(s: Store, x: Rx, p: nat, key: Key, value: Value, receiver: Value): (r: SetOutcome)
    requires Wf(s) && Consistent(s.graph) && RxWf(x) && BaseProxy(x, p)
    ensures r.SetDone? ==> RxWf(r.rx) && r.rx.reg == x.reg
    // only the target's properties change
    ensures r.SetDone? ==> forall id | id in x.heap.objs && id != x.heap.objs[p].target ::
      id in r.rx.heap.objs && r.rx.heap.objs[id] == x.heap.objs[id]
    ensures r.SetDone? ==> p in r.rx.heap.objs && r.rx.heap.objs[p] == x.heap.objs[p]
    // a readonly ref is not replaced by a non-ref
    ensures var old0 := OwnProp(x, x.heap.objs[p].target, key);
      IsReadonly(x, old0) && IsRef(x, old0) && !IsRef(x, value) ==> r == SetDone(x, false, None, [])
    // a write through a ref changes nothing here and triggers nothing
    ensures r.SetDone? && r.refWrite.Some? ==> r.rx == x && r.result && r.plan == [] && !x.heap.objs[p].shallow
    // a receiver that is not the target (or its proxy) gets no trigger
    ensures r.SetDone? && ToRaw(x, receiver) != Some(Obj(x.heap.objs[p].target)) ==> r.plan == []
    // a deep proxy unwraps the value and the previous value; unwrapping that fails throws
    ensures var old0 := OwnProp(x, x.heap.objs[p].target, key);
      var raw := !x.heap.objs[p].shallow && !IsReadonly(x, value) && !IsShallow(x, value);
      raw && !(IsReadonly(x, old0) && IsRef(x, old0) && !IsRef(x, value)) && (ToRaw(x, value).None? || ToRaw(x, old0).None?) ==> r.Threw?
    // otherwise the target's own proxy triggers `ADD` or `SET` for the value stored
    ensures var t := x.heap.objs[p].target;
      var old0 := OwnProp(x, t, key);
      var raw := !x.heap.objs[p].shallow && !IsReadonly(x, value) && !IsShallow(x, value);
      r.SetDone? && r.refWrite.None? && ToRaw(x, receiver) == Some(Obj(t))
        && !(IsReadonly(x, old0) && IsRef(x, old0) && !IsRef(x, value)) ==>
      && (raw ==> ToRaw(x, value).Some? && ToRaw(x, old0).Some?)
      && r.plan == WritePlan(s, x, t, key,
        if raw then ToRaw(x, value).value else value,
        if raw then ToRaw(x, old0).value else old0,
        HadKey(x, t, key))
  {
    var pr := x.heap.objs[p];
    var t := pr.target;
    var old0 := OwnProp(x, t, key);
    assert ProxyWf(x, p);
    if IsReadonly(x, old0) && IsRef(x, old0) && !IsRef(x, value) then SetDone(x, false, None, [])
    else if !pr.shallow && !IsReadonly(x, value) then
      var v1 := if IsShallow(x, value) then Some(value) else ToRaw(x, value);
      var o1 := if IsShallow(x, value) then Some(old0) else ToRaw(x, old0);
      if v1.None? || o1.None? then Threw
      else if !IsArray(x, Obj(t)) && IsRef(x, o1.value) && !IsRef(x, v1.value) then
        SetDone(x, true, Some((o1.value, v1.value)), [])
      else StoreValue(s, x, t, key, v1.value, o1.value, receiver)
    else StoreValue(s, x, t, key, value, old0, receiver)
  }

  /** The rest of `set` from `hadKey` on: store the value and trigger. */
  function StoreValue(s: Store, x: Rx, t: nat, key: Key, v: Value, prev: Value, receiver: Value): (r: SetOutcome)
    requires Wf(s) && Consistent(s.graph) && RxWf(x) && t in x.heap.objs && x.heap.objs[t].Plain?
    ensures r.SetDone? ==> RxWf(r.rx) && r.refWrite.None? && r.rx.reg == x.reg && r.rx.heap.next == x.heap.next
    ensures r.SetDone? ==> forall id | id in x.heap.objs && id != t :: id in r.rx.heap.objs && r.rx.heap.objs[id] == x.heap.objs[id]
    // the value is stored on the target when the receiver is its proxy
    ensures r.SetDone? && r.result && ToRaw(x, receiver) == Some(Obj(t)) ==> OwnProp(r.rx, t, key) == v
    // `trigger` runs iff the receiver is the target or its proxy
    ensures r.SetDone? ==>
      r.plan == if ToRaw(x, receiver) == Some(Obj(t)) then WritePlan(s, x, t, key, v, prev, HadKey(x, t, key)) else []
  {
    var hadKey := HadKey(x, t, key);
    match ToRaw(x, receiver)
    case None => Threw
    case Some(raw) =>
      if raw != Obj(t) then SetDone(x, true, None, [])
      else match ReflectSet(x.heap.objs[t], key, v)
        case None => Threw
        case Some(res) =>
          var x1 := x.(heap := x.heap.(objs := x.heap.objs[t := res.0]));
          assert RxWf(x1) by { ReplacePlainWf(x, t, res.0); }
          SetDone(x1, res.1, None, WritePlan(s, x, t, key, v, prev, hadKey))
  }

  /** Replacing a plain object by another plain object keeps the heap
      well-formed. */
  lemma ReplacePlainWf(x: Rx, t: nat, o: Object)
    requires RxWf(x) && t in x.heap.objs && x.heap.objs[t].Plain? && o.Plain? && o.rawType == x.heap.objs[t].rawType
    ensures RxWf(x.(heap := x.heap.(objs := x.heap.objs[t := o])))
  {
    var x1 := x.(heap := x.heap.(objs := x.heap.objs[t := o]));
    forall id | id in x1.heap.objs && x1.heap.objs[id].Proxy?
      ensures ProxyWf(x1, id)
    {
      assert id != t && x1.heap.objs[id] == x.heap.objs[id];
      assert ProxyWf(x, id);
    }
    ReplaceKeeps(x, t, o, false, false);
    ReplaceKeeps(x, t, o, false, true);
    ReplaceKeeps(x, t, o, true, false);
    ReplaceKeeps(x, t, o, true, true);
  }

  lemma ReplaceKeeps(x: Rx, t: nat, o: Object, ro: bool, sh: bool)
    requires RxWf(x) && t in x.heap.objs && x.heap.objs[t].Plain? && o.Plain? && o.rawType == x.heap.objs[t].rawType
    ensures RegistryWf(x.(heap := x.heap.(objs := x.heap.objs[t := o])), ro, sh)
  {
    assert RegistryWf(x, ro, sh);
  }

  /** Through its registered proxy, `set` of a non-ref over a non-ref on an
      extensible target stores the raw value and returns `true`. */
  lemma SetStores(s: Store, x: Rx, p: nat, key: Key, value: Value)
    requires Wf(s) && Consistent(s.graph) && RxWf(x) && BaseProxy(x, p)
    requires !x.heap.objs[p].shallow
    requires var t := x.heap.objs[p].target;
      && Extensible(x, t) && !(IsArray(x, Obj(t)) && key == LengthKey)
      && !Truthy(OwnProp(x, t, RawFlag))
      && ToRaw(x, OwnProp(x, t, key)).Some? && !IsRef(x, OwnProp(x, t, key))
      && !IsRef(x, ToRaw(x, OwnProp(x, t, key)).value)
    requires !IsReadonly(x, value) && !IsShallow(x, value) && ToRaw(x, value).Some?
    ensures var r := ProxySet(s, x, p, key, value, Obj(p));
      && r.SetDone? && r.result && r.refWrite.None?
      && OwnProp(r.rx, x.heap.objs[p].target, key) == ToRaw(x, value).value
      && p in r.rx.heap.objs && r.rx.heap.objs[p] == x.heap.objs[p]
  {
    ToRawOfProxy(x, p);
    var t := x.heap.objs[p].target;
    var v1, o1 := ToRaw(x, value).value, ToRaw(x, OwnProp(x, t, key)).value;
    assert ProxySet(s, x, p, key, value, Obj(p)) == StoreValue(s, x, t, key, v1, o1, Obj(p));
    var res := ReflectSet(x.heap.objs[t], key, v1);
    assert res.Some? && res.value.1;
  }

  /** A write followed by a read through the same reactive proxy reads the
      stored (raw) value back. */
  lemma SetThenGet(s: Store, x: Rx, p: nat, key: Key, value: Value)
    requires Wf(s) && Consistent(s.graph) && RxWf(x) && BaseProxy(x, p)
    requires !x.heap.objs[p].shallow && !StatusFlag(key) && key != RawFlag
    requires var t := x.heap.objs[p].target;
      && Extensible(x, t) && !(IsArray(x, Obj(t)) && key == LengthKey)
      && !Truthy(OwnProp(x, t, RawFlag))
      && ToRaw(x, OwnProp(x, t, key)).Some? && !IsRef(x, OwnProp(x, t, key))
      && !IsRef(x, ToRaw(x, OwnProp(x, t, key)).value)
    requires !IsReadonly(x, value) && !IsShallow(x, value) && ToRaw(x, value).Some?
    ensures var r := ProxySet(s, x, p, key, value, Obj(p));
      r.SetDone? && ProxyGet(s, r.rx, p, key, Obj(p)).1 == ToRaw(x, value).value
  {
    SetStores(s, x, p, key, value);
  }

  /** A non-shallow write of a non-ref over a ref on a non-array target goes
      into the ref: `true`, no store on the target, no trigger. */
  lemma RefWriteThrough(s: Store, x: Rx, p: nat, key: Key, value: Value)
    requires Wf(s) && Consistent(s.graph) && RxWf(x) && BaseProxy(x, p)
    requires var t := x.heap.objs[p].target;
      && !x.heap.objs[p].shallow && !IsArray(x, Obj(t)) && !IsReadonly(x, OwnProp(x, t, key))
      && !IsReadonly(x, value) && !IsShallow(x, value)
      && ToRaw(x, value).Some? && ToRaw(x, OwnProp(x, t, key)).Some?
      && IsRef(x, ToRaw(x, OwnProp(x, t, key)).value) && !IsRef(x, ToRaw(x, value).value)
    ensures var t := x.heap.objs[p].target;
      ProxySet(s, x, p, key, value, Obj(p)) ==
        SetDone(x, true, Some((ToRaw(x, OwnProp(x, t, key)).value, ToRaw(x, value).value)), [])
  {
  }
}
