/**
 * Values, the object heap and the proxy registry (reactive.ts).
 *
 * A proxy is a heap object of its own that records its target and the
 * configuration of its handlers; its identity is its heap id. The four
 * `WeakMap`s from raw target to proxy are the `Registry`. Reading one of the
 * `ReactiveFlags` from a value goes through the base handlers' `get` when the
 * value is a proxy, which answers the flags without tracking; `ReadFlag`
 * states those answers.
 */
module Reactive {
  import opened Wrappers
  import opened Keys

  /** JavaScript values. Objects and functions are heap references. */
  datatype Value =
    | Undefined
    | Null
    | Bool(b: bool)
    | Num(n: int)
    | Str(s: string)
    | SymValue(sym: Symbol)
    | Obj(id: nat)
    | Func(fid: nat)

  /** JavaScript truthiness (numbers are integers here, so no `NaN`). */
  predicate Truthy(v: Value) {
    match v
    case Undefined => false
    case Null => false
    case Bool(b) => b
    case Num(n) => n != 0
    case Str(s) => s != ""
    case _ => true
  }

  /** `Object.is`, the identity `hasChanged` negates. */
  predicate HasChanged(v: Value, prev: Value) {
    v != prev
  }

  /** A heap object: a plain object (its `toRawType` name, own properties and
      extensibility; arrays keep their `length` as the property `length`), or
      a proxy over `target` with the handler configuration it was made with. */
  datatype Object =
    | Plain(rawType: string, props: map<Key, Value>, extensible: bool)
    | Proxy(target: nat, readonly: bool, shallow: bool, collection: bool)

  datatype Heap = Heap(objs: map<nat, Object>, next: nat)

  /** `reactiveMap`, `shallowReactiveMap`, `readonlyMap`, `shallowReadonlyMap`. */
  datatype Registry = Registry(
    reactive: map<nat, nat>,
    shallowReactive: map<nat, nat>,
    readonly: map<nat, nat>,
    shallowReadonly: map<nat, nat>)

  const EmptyRegistry := Registry(map[], map[], map[], map[])

  /** The registry map of a handler configuration. */
  function MapFor(reg: Registry, readonly: bool, shallow: bool): (m: map<nat, nat>)
    ensures !readonly && !shallow ==> m == reg.reactive
  {
    if readonly then (if shallow then reg.shallowReadonly else reg.readonly)
    else (if shallow then reg.shallowReactive else reg.reactive)
  }

  datatype Rx = Rx(heap: Heap, reg: Registry)

  /** Every object id is below `next`; every proxy is the registered proxy
      of its target in its configuration's map, and was made after it. A
      proxy with the base handlers wraps a plain object; one with the
      (empty) collection handlers wraps a plain collection or another such
      proxy. Every registry entry leads to a proxy of its key made with that
      map's configuration. */
  predicate RxWf(x: Rx) {
    && (forall id | id in x.heap.objs :: id < x.heap.next)
    && (forall id | id in x.heap.objs && x.heap.objs[id].Proxy? :: ProxyWf(x, id))
    && RegistryWf(x, false, false) && RegistryWf(x, false, true)
    && RegistryWf(x, true, false) && RegistryWf(x, true, true)
  }

  predicate ProxyWf(x: Rx, id: nat)
    requires id in x.heap.objs && x.heap.objs[id].Proxy?
  {
    var p := x.heap.objs[id];
    && p.target in x.heap.objs && p.target < id
    && p.target in MapFor(x.reg, p.readonly, p.shallow)
    && MapFor(x.reg, p.readonly, p.shallow)[p.target] == id
    && match x.heap.objs[p.target]
       case Plain(rt, _, _) => p.collection ==> TargetTypeMap(rt) == Collection
       case Proxy(_, _, _, c) => p.collection && c
  }

  predicate RegistryWf(x: Rx, readonly: bool, shallow: bool) {
    var m := MapFor(x.reg, readonly, shallow);
    forall t | t in m ::
      && t in x.heap.objs
      && m[t] in x.heap.objs && x.heap.objs[m[t]].Proxy?
      && x.heap.objs[m[t]].target == t
      && x.heap.objs[m[t]].readonly == readonly && x.heap.objs[m[t]].shallow == shallow
  }

  /** An own property of a plain object (`undefined` when absent; the
      prototype chain is not modelled). */
  function OwnProp(x: Rx, id: nat, k: Key): (v: Value)
  {
    if id in x.heap.objs && x.heap.objs[id].Plain? && k in x.heap.objs[id].props
    then x.heap.objs[id].props[k] else Undefined
  }

  /** The object a read of `id` ends at: every proxy hands property reads,
      `isExtensible` and the class name on to its target. */
  function Holder(x: Rx, id: nat): (b: nat)
    ensures b <= id
    decreases id
  {
    if id in x.heap.objs && x.heap.objs[id].Proxy? && x.heap.objs[id].target < id
    then Holder(x, x.heap.objs[id].target) else id
  }

  /** On a well-formed heap every chain ends at a plain object: the target
      itself for the base handlers, and a plain collection behind any chain
      of collection proxies. */
  lemma {:induction false} HolderPlain(x: Rx, id: nat)
    requires RxWf(x) && id in x.heap.objs
    ensures Holder(x, id) in x.heap.objs && x.heap.objs[Holder(x, id)].Plain?
    ensures x.heap.objs[id].Proxy? && !x.heap.objs[id].collection ==> Holder(x, id) == x.heap.objs[id].target
    ensures x.heap.objs[id].Proxy? && x.heap.objs[id].collection ==>
      TargetTypeMap(x.heap.objs[Holder(x, id)].rawType) == Collection
    decreases id
  {
    if x.heap.objs[id].Proxy? {
      var t := x.heap.objs[id].target;
      assert ProxyWf(x, id);
      HolderPlain(x, t);
    }
  }

  /** `obj[key]` read from object `id`, without what tracking does to the
      effect store. A plain object gives its own property. A proxy with the
      base handlers answers the three status flags from its configuration,
      `__v_raw` with its target (it is registered, see `RxWf`), and anything
      else from its target. A proxy with the collection handlers has no
      `get` trap: the read goes to its target. */
  function PropertyOf(x: Rx, id: nat, k: Key): (r: Value)
    decreases id
  {
    if id !in x.heap.objs then Undefined
    else match x.heap.objs[id]
      case Plain(_, props, _) => if k in props then props[k] else Undefined
      case Proxy(t, ro, sh, coll) =>
        if coll then (if t < id then PropertyOf(x, t, k) else Undefined)
        else if k == IsReactiveFlag then Bool(!ro)
        else if k == IsReadonlyFlag then Bool(ro)
        else if k == IsShallowFlag then Bool(sh)
        else if k == RawFlag then Obj(t)
        else OwnProp(x, t, k)
  }

  /** Through the collection handlers every property, the flags included, is
      the plain object's own at the end of the chain. */
  lemma {:induction false} CollectionReadsHolder(x: Rx, id: nat, k: Key)
    requires RxWf(x) && id in x.heap.objs && x.heap.objs[id].Proxy? && x.heap.objs[id].collection
    ensures PropertyOf(x, id, k) == OwnProp(x, Holder(x, id), k)
    decreases id
  {
    var t := x.heap.objs[id].target;
    assert ProxyWf(x, id);
    if x.heap.objs[t].Proxy? {
      CollectionReadsHolder(x, t, k);
    }
  }

  /** `value[flag]` for one of the `ReactiveFlags` (or `__v_isRef`); a
      primitive has none of them. */
  function ReadFlag(x: Rx, v: Value, flag: Key): (r: Value)
    ensures v.Obj? && v.id in x.heap.objs && x.heap.objs[v.id].Proxy? && !x.heap.objs[v.id].collection ==>
      && (flag == IsReactiveFlag ==> r == Bool(!x.heap.objs[v.id].readonly))
      && (flag == IsReadonlyFlag ==> r == Bool(x.heap.objs[v.id].readonly))
      && (flag == IsShallowFlag ==> r == Bool(x.heap.objs[v.id].shallow))
      && (flag == RawFlag ==> r == Obj(x.heap.objs[v.id].target))
      && (flag !in {IsReactiveFlag, IsReadonlyFlag, IsShallowFlag, RawFlag} ==>
            r == OwnProp(x, x.heap.objs[v.id].target, flag))
    // the collection handlers pass every flag on to the target
    ensures IsCollectionProxy(x, v) && x.heap.objs[v.id].target < v.id ==>
      r == PropertyOf(x, x.heap.objs[v.id].target, flag)
    ensures v.Obj? && v.id in x.heap.objs && x.heap.objs[v.id].Plain? ==> r == OwnProp(x, v.id, flag)
    ensures !v.Obj? ==> r == Undefined
  {
    if v.Obj? then PropertyOf(x, v.id, flag) else Undefined
  }

  /** A proxy with the collection handlers. */
  predicate IsCollectionProxy(x: Rx, v: Value) {
    v.Obj? && v.id in x.heap.objs && x.heap.objs[v.id].Proxy? && x.heap.objs[v.id].collection
  }

  /** `isReadonly(value)`. */
  predicate IsReadonly(x: Rx, v: Value) {
    Truthy(ReadFlag(x, v, IsReadonlyFlag))
  }

  /** `isShallow(value)`. */
  predicate IsShallow(x: Rx, v: Value) {
    Truthy(ReadFlag(x, v, IsShallowFlag))
  }

  /** `isRef(value)`: `__v_isRef` is exactly `true`. */
  predicate IsRef(x: Rx, v: Value) {
    Truthy(v) && ReadFlag(x, v, Name("__v_isRef")) == Bool(true)
  }

  /** `isObject`: a non-null value of type `object` (functions excluded). */
  predicate IsObject(x: Rx, v: Value) {
    v.Obj? && v.id in x.heap.objs
  }

  /** `isArray` (a proxy of an array is an array). */
  predicate IsArray(x: Rx, v: Value) {
    RawTypeOf(x, v) == "Array"
  }

  /** `toRawType`: the `[[Class]]` name of an object; a proxy reports its
      target's. Primitives are not asked about here. */
  function RawTypeOf(x: Rx, v: Value): string {
    if v.Obj? && v.id in x.heap.objs && Holder(x, v.id) in x.heap.objs && x.heap.objs[Holder(x, v.id)].Plain?
    then x.heap.objs[Holder(x, v.id)].rawType else ""
  }

  /** `Object.isExtensible(value)`; a proxy answers for its target. */
  predicate Extensible(x: Rx, id: nat) {
    Holder(x, id) in x.heap.objs && x.heap.objs[Holder(x, id)].Plain? && x.heap.objs[Holder(x, id)].extensible
  }

  // ---------------------------------------------------------------------
  // toRaw
  // ---------------------------------------------------------------------

  /** The next step of `toRaw`: `observed[__v_raw]` when it is truthy. */
  function RawLink(x: Rx, v: Value): (r: Option<Value>)
    ensures r.Some? ==> Truthy(r.value) && r.value == ReadFlag(x, v, RawFlag)
    ensures r.None? <==> !Truthy(v) || !Truthy(ReadFlag(x, v, RawFlag))
  {
    if Truthy(v) && Truthy(ReadFlag(x, v, RawFlag)) then Some(ReadFlag(x, v, RawFlag)) else None
  }

  /** `toRaw(observed)` with a recursion budget: `None` when the `__v_raw`
      links of plain objects form a cycle longer than the budget (the source
      overflows the stack). */
  function ToRawFuel(x: Rx, v: Value, fuel: nat): (r: Option<Value>)
    ensures r.Some? ==> RawLink(x, r.value).None?
    ensures RawLink(x, v).None? && fuel > 0 ==> r == Some(v)
    decreases fuel
  {
    if fuel == 0 then None
    else match RawLink(x, v)
      case None => Some(v)
      case Some(u) => ToRawFuel(x, u, fuel - 1)
  }

  /** `toRaw` with a budget of one step per heap object plus one. */
  function ToRaw(x: Rx, v: Value): (r: Option<Value>)
    ensures r.Some? ==> RawLink(x, r.value).None?
    ensures RawLink(x, v).None? ==> r == Some(v)
  {
    ToRawFuel(x, v, |x.heap.objs| + 1)
  }

  /** `toRaw(toRaw(x)) == toRaw(x)`: the result has no raw link left. */
  lemma ToRawIdempotent(x: Rx, v: Value)
    requires ToRaw(x, v).Some?
    ensures ToRaw(x, ToRaw(x, v).value) == ToRaw(x, v)
  {
  }

  /** On a well-formed heap the raw value of a proxy with the base handlers
      is its target, unless the target carries a `__v_raw` property of its
      own. */
  lemma ToRawOfProxy(x: Rx, p: nat)
    requires RxWf(x) && p in x.heap.objs && x.heap.objs[p].Proxy? && !x.heap.objs[p].collection
    requires !Truthy(OwnProp(x, x.heap.objs[p].target, RawFlag))
    ensures ToRaw(x, Obj(p)) == Some(Obj(x.heap.objs[p].target))
  {
    var t := x.heap.objs[p].target;
    assert RawLink(x, Obj(p)) == Some(Obj(t));
    assert ProxyWf(x, p);
    assert RawLink(x, Obj(t)).None?;
    assert |x.heap.objs| + 1 >= 2;
    assert ToRawFuel(x, Obj(t), |x.heap.objs|) == Some(Obj(t));
  }

  /** A proxy with the collection handlers has no `__v_raw` of its own: unless
      the collection carries one, `toRaw` returns the proxy itself. */
  lemma ToRawOfCollectionProxy(x: Rx, p: nat)
    requires RxWf(x) && IsCollectionProxy(x, Obj(p))
    requires !Truthy(OwnProp(x, Holder(x, p), RawFlag))
    ensures ToRaw(x, Obj(p)) == Some(Obj(p))
  {
    CollectionReadsHolder(x, p, RawFlag);
  }

  // ---------------------------------------------------------------------
  // createReactiveObject
  // ---------------------------------------------------------------------

  datatype TargetType = Invalid | Common | Collection

  /** `targetTypeMap(rawType)`. */
  function TargetTypeMap(rawType: string): (r: TargetType)
    ensures r == Common <==> rawType in {"Object", "Array"}
    ensures r == Collection <==> rawType in {"Map", "Set", "WeakMap", "WeakSet"}
  {
    if rawType == "Object" || rawType == "Array" then Common
    else if rawType == "Map" || rawType == "Set" || rawType == "WeakMap" || rawType == "WeakSet" then Collection
    else Invalid
  }

  /** `getTargetType(value)` for an object: invalid when marked to skip or
      not extensible, else by its raw type. */
  function GetTargetType(x: Rx, t: nat): (r: TargetType)
    requires t in x.heap.objs
    ensures Truthy(ReadFlag(x, Obj(t), SkipFlag)) || !Extensible(x, t) ==> r == Invalid
    ensures !Truthy(ReadFlag(x, Obj(t), SkipFlag)) && Extensible(x, t) ==> r == TargetTypeMap(RawTypeOf(x, Obj(t)))
  {
    if Truthy(ReadFlag(x, Obj(t), SkipFlag)) || !Extensible(x, t) then Invalid
    else TargetTypeMap(RawTypeOf(x, Obj(t)))
  }

  /** A proxy with the collection handlers reports its collection's class
      name, so it is never a common target. */
  lemma CollectionProxyType(x: Rx, t: nat)
    requires RxWf(x) && IsCollectionProxy(x, Obj(t))
    ensures GetTargetType(x, t) != Common
  {
    HolderPlain(x, t);
  }

  /** `createReactiveObject(target, isReadonly, baseHandlers,
      collectionHandlers, proxyMap)`, the map being the one of the
      configuration (`shallow` picks the shallow maps). Returns the new state
      and the value handed back. */
  function CreateReactiveObject(x: Rx, target: Value, readonly: bool, shallow: bool): (r: (Rx, Value))
    requires RxWf(x)
    ensures RxWf(r.0)
    // nothing to wrap: the input itself, nothing registered
    ensures !IsObject(x, target) ==> r == (x, target)
    // an existing proxy (unless it must be re-wrapped read-only)
    ensures (IsObject(x, target) && Truthy(ReadFlag(x, target, RawFlag)) &&
             !(readonly && Truthy(ReadFlag(x, target, IsReactiveFlag)))) ==> r == (x, target)
    // a target registered in the configuration's map gets its proxy back
    ensures IsObject(x, target) && !Truthy(ReadFlag(x, target, RawFlag)) && target.id in MapFor(x.reg, readonly, shallow) ==>
      r == (x, Obj(MapFor(x.reg, readonly, shallow)[target.id]))
    // anything new is one proxy over the target, registered under it, with
    // the collection handlers exactly for a collection target
    ensures r.0 != x ==>
      && IsObject(x, target) && target.id !in MapFor(x.reg, readonly, shallow)
      && r.1 == Obj(x.heap.next) && x.heap.next !in x.heap.objs
      && r.0.heap.objs == x.heap.objs[x.heap.next := Proxy(target.id, readonly, shallow, GetTargetType(x, target.id) == Collection)]
      && MapFor(r.0.reg, readonly, shallow) == MapFor(x.reg, readonly, shallow)[target.id := x.heap.next]
    ensures r.0 == x ==> r.1 == target || (IsObject(x, target) && target.id in MapFor(x.reg, readonly, shallow) && r.1 == Obj(MapFor(x.reg, readonly, shallow)[target.id]))
  {
    if !IsObject(x, target) then (x, target)
    else if Truthy(ReadFlag(x, target, RawFlag)) && !(readonly && Truthy(ReadFlag(x, target, IsReactiveFlag))) then (x, target)
    else
      var t := target.id;
      var m := MapFor(x.reg, readonly, shallow);
      if t in m then (x, Obj(m[t]))
      else if x.heap.objs[t].Proxy? && !x.heap.objs[t].collection then
        // `readonly()` of a proxy with the base handlers, which this package
        // does not define
        (x, target)
      else if GetTargetType(x, t) == Invalid then (x, target)
      else
        var p := x.heap.next;
        var coll := GetTargetType(x, t) == Collection;
        var heap := Heap(x.heap.objs[p := Proxy(t, readonly, shallow, coll)], p + 1);
        var x1 := Rx(heap, Register(x.reg, readonly, shallow, t, p));
        assert RxWf(x1) by {
          if x.heap.objs[t].Proxy? { CollectionProxyType(x, t); }
          HolderPlain(x, t);
          RegisterWf(x, t, p, readonly, shallow, coll);
        }
        (x1, Obj(p))
  }

  /** `proxyMap.set(target, proxy)` on the map of a configuration. */
  function Register(reg: Registry, readonly: bool, shallow: bool, t: nat, p: nat): (r: Registry)
    ensures MapFor(r, readonly, shallow) == MapFor(reg, readonly, shallow)[t := p]
    ensures forall ro: bool, sh: bool | (ro, sh) != (readonly, shallow) :: MapFor(r, ro, sh) == MapFor(reg, ro, sh)
  {
    if readonly then
      (if shallow then reg.(shallowReadonly := reg.shallowReadonly[t := p]) else reg.(readonly := reg.readonly[t := p]))
    else
      (if shallow then reg.(shallowReactive := reg.shallowReactive[t := p]) else reg.(reactive := reg.reactive[t := p]))
  }

  /** The new proxy's target is what its handlers need: a plain object for
      the base handlers, a plain collection or a collection proxy for the
      collection handlers. */
  lemma RegisterWf(x: Rx, t: nat, p: nat, readonly: bool, shallow: bool, collection: bool)
    requires RxWf(x) && t in x.heap.objs && p == x.heap.next
    requires t !in MapFor(x.reg, readonly, shallow)
    requires match x.heap.objs[t]
       case Plain(rt, _, _) => collection ==> TargetTypeMap(rt) == Collection
       case Proxy(_, _, _, c) => collection && c
    ensures RxWf(Rx(Heap(x.heap.objs[p := Proxy(t, readonly, shallow, collection)], p + 1),
                    Register(x.reg, readonly, shallow, t, p)))
  {
    var x1 := Rx(Heap(x.heap.objs[p := Proxy(t, readonly, shallow, collection)], p + 1),
                 Register(x.reg, readonly, shallow, t, p));
    assert p !in x.heap.objs;
    forall id | id in x1.heap.objs && x1.heap.objs[id].Proxy?
      ensures ProxyWf(x1, id)
    {
      if id != p {
        var q := x.heap.objs[id];
        assert ProxyWf(x, id);
        if (q.readonly, q.shallow) == (readonly, shallow) { assert q.target != t; }
      }
    }
    RegisterKeeps(x, x1, t, p, readonly, shallow, collection, false, false);
    RegisterKeeps(x, x1, t, p, readonly, shallow, collection, false, true);
    RegisterKeeps(x, x1, t, p, readonly, shallow, collection, true, false);
    RegisterKeeps(x, x1, t, p, readonly, shallow, collection, true, true);
  }

  lemma RegisterKeeps(x: Rx, x1: Rx, t: nat, p: nat, readonly: bool, shallow: bool, collection: bool, ro: bool, sh: bool)
    requires RxWf(x) && t in x.heap.objs && p == x.heap.next
    requires t !in MapFor(x.reg, readonly, shallow)
    requires x1 == Rx(Heap(x.heap.objs[p := Proxy(t, readonly, shallow, collection)], p + 1),
                      Register(x.reg, readonly, shallow, t, p))
    ensures RegistryWf(x1, ro, sh)
  {
    assert RegistryWf(x, ro, sh);
  }

  /** `reactive(target)`: a readonly value is returned as it is; anything
      else goes through `createReactiveObject` with the mutable handlers and
      `reactiveMap`. */
  function MakeReactive(x: Rx, target: Value): (r: (Rx, Value))
    requires RxWf(x)
    ensures RxWf(r.0)
    ensures IsReadonly(x, target) ==> r == (x, target)
    ensures !IsReadonly(x, target) ==> r == CreateReactiveObject(x, target, false, false)
  {
    if IsReadonly(x, target) then (x, target) else CreateReactiveObject(x, target, false, false)
  }

  /** What `reactive` makes of a plain object that carries neither `__v_raw`
      nor `__v_isReadonly`: its registered proxy when there is one; otherwise
      a new proxy, registered, with collection handlers exactly for the
      collection types; or the object itself, unregistered, when it is
      skipped, frozen or of another type. */
  lemma ReactiveOfPlain(x: Rx, t: nat)
    requires RxWf(x) && t in x.heap.objs && x.heap.objs[t].Plain?
    requires !Truthy(OwnProp(x, t, RawFlag)) && !Truthy(OwnProp(x, t, IsReadonlyFlag))
    ensures var r := MakeReactive(x, Obj(t));
      && (t in x.reg.reactive ==> r == (x, Obj(x.reg.reactive[t])))
      && (t !in x.reg.reactive && GetTargetType(x, t) == Invalid ==> r == (x, Obj(t)))
      && (t !in x.reg.reactive && GetTargetType(x, t) != Invalid ==>
            && r.1 == Obj(x.heap.next) && x.heap.next !in x.heap.objs
            && r.0.heap.objs[x.heap.next] == Proxy(t, false, false, GetTargetType(x, t) == Collection)
            && r.0.reg.reactive == x.reg.reactive[t := x.heap.next])
  {
  }

  /** `reactive` of a proxy with the collection handlers (whose collection
      carries neither `__v_raw` nor `__v_isReadonly`): the empty handlers
      hide that it is a proxy, so it is wrapped again, in a second proxy with
      the collection handlers, registered under the first one. */
  lemma ReactiveOfCollectionProxy(x: Rx, p: nat)
    requires RxWf(x) && IsCollectionProxy(x, Obj(p))
    requires !Truthy(OwnProp(x, Holder(x, p), RawFlag)) && !Truthy(OwnProp(x, Holder(x, p), IsReadonlyFlag))
    ensures var r := MakeReactive(x, Obj(p));
      && (p in x.reg.reactive ==> r == (x, Obj(x.reg.reactive[p])))
      && (p !in x.reg.reactive && GetTargetType(x, p) == Invalid ==> r == (x, Obj(p)))
      && (p !in x.reg.reactive && GetTargetType(x, p) != Invalid ==>
            && r.1 == Obj(x.heap.next) && r.1 != Obj(p)
            && r.0.heap.objs[x.heap.next] == Proxy(p, false, false, true)
            && r.0.reg.reactive == x.reg.reactive[p := x.heap.next])
  {
    CollectionReadsHolder(x, p, RawFlag);
    CollectionReadsHolder(x, p, IsReadonlyFlag);
    CollectionProxyType(x, p);
  }

  /** Wrapping the same target twice yields the same proxy, and wrapping a
      proxy with the base handlers yields the proxy itself. */
  lemma ReactiveIdempotent(x: Rx, target: Value)
    requires RxWf(x)
    ensures var r := MakeReactive(x, target);
      && MakeReactive(r.0, target) == (r.0, r.1)
      && (!IsCollectionProxy(r.0, r.1) ==> MakeReactive(r.0, r.1) == (r.0, r.1))
  {
    var r := MakeReactive(x, target);
    if r.0 != x {
      var t := target.id;
      var p := x.heap.next;
      assert r.1 == Obj(p) && r.0.heap.objs[p].Proxy?;
      assert ReadFlag(r.0, target, IsReadonlyFlag) == ReadFlag(x, target, IsReadonlyFlag) by {
        PropertyOfFrame(x, r.0, t, IsReadonlyFlag);
      }
      assert ReadFlag(r.0, target, RawFlag) == ReadFlag(x, target, RawFlag) by {
        PropertyOfFrame(x, r.0, t, RawFlag);
      }
      assert t in r.0.reg.reactive && r.0.reg.reactive[t] == p;
    }
  }

  /** Adding an object above every existing id changes no read of an
      existing one. */
  lemma {:induction false} PropertyOfFrame(x: Rx, x1: Rx, id: nat, k: Key)
    requires RxWf(x) && id in x.heap.objs
    requires x.heap.objs.Keys <= x1.heap.objs.Keys
    requires forall i | i in x.heap.objs :: x1.heap.objs[i] == x.heap.objs[i]
    ensures PropertyOf(x1, id, k) == PropertyOf(x, id, k)
    decreases id
  {
    if x.heap.objs[id].Proxy? {
      assert ProxyWf(x, id);
      PropertyOfFrame(x, x1, x.heap.objs[id].target, k);
    }
  }

  /** `toRaw(reactive(t))` for a plain object without `__v_raw`: the object
      itself, except that a proxy with the collection handlers has no
      `__v_raw` to give, so `toRaw` returns that proxy. */
  lemma ToRawOfReactive(x: Rx, t: nat)
    requires RxWf(x) && t in x.heap.objs && x.heap.objs[t].Plain? && !Truthy(OwnProp(x, t, RawFlag))
    ensures var r := MakeReactive(x, Obj(t));
      ToRaw(r.0, r.1) == Some(if IsCollectionProxy(r.0, r.1) then r.1 else Obj(t))
  {
    var r := MakeReactive(x, Obj(t));
    if r.1 != Obj(t) {
      assert r.1.Obj? && r.1.id in r.0.heap.objs && r.0.heap.objs[r.1.id].Proxy?;
      assert r.0.heap.objs[r.1.id].target == t;
      assert OwnProp(r.0, t, RawFlag) == OwnProp(x, t, RawFlag);
      if IsCollectionProxy(r.0, r.1) {
        HolderPlain(r.0, r.1.id);
        ToRawOfCollectionProxy(r.0, r.1.id);
      } else {
        ToRawOfProxy(r.0, r.1.id);
      }
    }
  }
}
