/**
 * Plain JavaScript values as the renderer helpers see them: primitives,
 * arrays, objects as their own enumerable string-keyed properties in
 * enumeration order, and functions by identity. Numbers are integers.
 */
module JsValue {
  import opened Wrappers

  datatype Js =
    | Undefined
    | Null
    | Bool(b: bool)
    | Num(n: int)
    | Str(s: string)
    | Arr(items: seq<Js>)
    | Obj(entries: seq<(string, Js)>)
    | Fn(id: nat)

  /** JavaScript truthiness (`NaN` is not modelled). */
  predicate Truthy(v: Js) {
    match v
    case Undefined => false
    case Null => false
    case Bool(b) => b
    case Num(n) => n != 0
    case Str(s) => s != []
    case _ => true
  }

  /** `v == null`: null or undefined. */
  predicate IsNullish(v: Js) {
    v.Undefined? || v.Null?
  }

  /** `isObject` of `@vue/shared`: `typeof v === 'object'` and not null. */
  predicate IsObject(v: Js) {
    v.Arr? || v.Obj?
  }

  // Objects are their own enumerable properties in enumeration order; the
  // helpers below work for any value type.

  /** The property keys of an object, in enumeration order. */
  function Keys<V>(entries: seq<(string, V)>): (ks: seq<string>)
    ensures |ks| == |entries| && forall i | 0 <= i < |ks| :: ks[i] == entries[i].0
  {
    if entries == [] then [] else [entries[0].0] + Keys(entries[1..])
  }

  /** `obj[k]` for an own property: the value of the first entry named `k`. */
  function Lookup<V>(entries: seq<(string, V)>, k: string): (r: Option<V>)
    ensures r.Some? <==> k in Keys(entries)
    ensures r.Some? ==> exists i | 0 <= i < |entries| :: entries[i] == (k, r.value)
  {
    if entries == [] then None
    else if entries[0].0 == k then Some(entries[0].1)
    else Lookup(entries[1..], k)
  }

  /** `obj[k]`, reading `undefined` when there is no such property. */
  function Get(entries: seq<(string, Js)>, k: string): Js {
    Lookup(entries, k).GetOr(Undefined)
  }

  /** `obj[k] = v`: an existing property keeps its place, a new one is
      appended. */
  function Assign<V>(entries: seq<(string, V)>, k: string, v: V): (r: seq<(string, V)>)
    ensures forall k' :: k' in Keys(r) <==> k' in Keys(entries) || k' == k
    ensures k in Keys(entries) ==> |r| == |entries|
    ensures k !in Keys(entries) ==> r == entries + [(k, v)]
  {
    if entries == [] then [(k, v)]
    else
      assert Keys(entries) == [entries[0].0] + Keys(entries[1..]);
      if entries[0].0 == k then
        assert Keys([(k, v)] + entries[1..]) == [k] + Keys(entries[1..]);
        [(k, v)] + entries[1..]
      else
        var rest := Assign(entries[1..], k, v);
        assert Keys([entries[0]] + rest) == [entries[0].0] + Keys(rest);
        [entries[0]] + rest
  }

  /** Reading back after a write sees the written value, and only there. */
  lemma {:induction false} LookupAssign<V>(entries: seq<(string, V)>, k: string, v: V, k': string)
    ensures Lookup(Assign(entries, k, v), k') == if k' == k then Some(v) else Lookup(entries, k')
  {
    if entries != [] && entries[0].0 != k {
      LookupAssign(entries[1..], k, v, k');
    }
  }
}
