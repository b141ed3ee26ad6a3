/**
 * The collection handlers (collectionHandlers.ts). In this package
 * `mutableCollectionHandlers` and `shallowCollectionHandlers` are empty
 * objects, so a proxy made with them has no traps: reads, writes,
 * `isExtensible` and the class name all go to its target, as if there were
 * no proxy. Nothing is tracked, nothing is triggered, and no value is
 * unwrapped on the way in.
 */
module CollectionHandlers {
  import opened Wrappers
  import opened Keys
  import opened Effect
  import opened Reactive
  import opened BaseHandlers

  /** `proxy[key]` without a `get` trap: the property of the plain object at
      the end of the chain; the effect store is left alone. */
  function CollectionGet(s: Store, x: Rx, p: nat, key: Key): (r: (Store, Value))
    requires RxWf(x) && IsCollectionProxy(x, Obj(p))
    ensures r.0 == s
    ensures r.1 == OwnProp(x, Holder(x, p), key)
  {
    CollectionReadsHolder(x, p, key);
    (s, PropertyOf(x, p, key))
  }

  /** `proxy[key] = value` without a `set` trap: the ordinary `[[Set]]` of
      the target with the proxy as receiver defines the property on the plain
      object at the end of the chain. The value is stored as given, a new key
      on a non-extensible object is refused, and there is no trigger plan. */
  function CollectionSet(x: Rx, p: nat, key: Key, value: Value): (r: SetOutcome)
    requires RxWf(x) && IsCollectionProxy(x, Obj(p))
    ensures r.SetDone? && r.refWrite.None? && r.plan == []
    ensures RxWf(r.rx) && r.rx.reg == x.reg && r.rx.heap.next == x.heap.next
    // only the plain object at the end of the chain changes
    ensures forall id | id in x.heap.objs && id != Holder(x, p) ::
      id in r.rx.heap.objs && r.rx.heap.objs[id] == x.heap.objs[id]
    ensures r.result <==> Extensible(x, p) || HadKey(x, Holder(x, p), key)
    ensures r.result ==> OwnProp(r.rx, Holder(x, p), key) == value
    ensures !r.result ==> r.rx == x
  {
    HolderPlain(x, p);
    var b := Holder(x, p);
    var res := ReflectSet(x.heap.objs[b], key, value).value;
    ReplacePlainWf(x, b, res.0);
    SetDone(x.(heap := x.heap.(objs := x.heap.objs[b := res.0])), res.1, None, [])
  }

  /** Replacing a plain object by another leaves every chain where it was. */
  lemma {:induction false} HolderAfterReplace(x: Rx, b: nat, o: Object, id: nat)
    requires b in x.heap.objs && x.heap.objs[b].Plain? && o.Plain?
    ensures Holder(x.(heap := x.heap.(objs := x.heap.objs[b := o])), id) == Holder(x, id)
    decreases id
  {
    if id in x.heap.objs && x.heap.objs[id].Proxy? && x.heap.objs[id].target < id {
      HolderAfterReplace(x, b, o, x.heap.objs[id].target);
    }
  }

  /** A write through a collection proxy is read back through it as the
      very value written (a reactive proxy stays a proxy), and neither call
      touches the effect store. */
  lemma CollectionSetThenGet(s: Store, x: Rx, p: nat, key: Key, value: Value)
    requires RxWf(x) && IsCollectionProxy(x, Obj(p)) && Extensible(x, p)
    ensures var r := CollectionSet(x, p, key, value);
      r.result && CollectionGet(s, r.rx, p, key) == (s, value)
  {
    var r := CollectionSet(x, p, key, value);
    HolderPlain(x, p);
    HolderAfterReplace(x, Holder(x, p), r.rx.heap.objs[Holder(x, p)], p);
  }
}
