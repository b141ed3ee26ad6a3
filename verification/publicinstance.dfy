/**
 * The component proxy (`runtime-core/src/componentPublicInstance.ts`): a
 * property read resolves through setup state, data, declared props and the
 * context, remembering in `accessCache` where each name was found; names
 * starting with `$` go to the public getters. Writes reach data only.
 */
module PublicInstance {
  import opened Wrappers
  import opened JsValue
  import opened ComponentProps

  /** `AccessTypes`: where a name was found. */
  datatype AccessType = OTHER | SETUP | DATA | PROPS | CONTEXT

  /** The instance fields the proxy reads; an empty object stands for
      `EMPTY_OBJ`, which owns nothing. */
  datatype Instance = Instance(
    setupState: seq<(string, Js)>,
    data: seq<(string, Js)>,
    props: seq<(string, Js)>,
    ctx: seq<(string, Js)>,
    propsOptions: PropsOptions,
    accessCache: map<string, AccessType>)

  /** The names of `publicPropertiesMap`. */
  const PublicKeys: seq<string> := [
    "$", "$el", "$data", "$props", "$attrs", "$slots", "$refs", "$parent",
    "$root", "$emit", "$options", "$forceUpdate", "$nextTick", "$watch"
  ]

  /** `key[0] !== "$"`: the empty name passes too. */
  predicate Plain(key: string) {
    key == [] || key[0] != '$'
  }

  /** The props the component declares (`instance.propsOptions[0]`). */
  predicate DeclaresProp(inst: Instance, key: string) {
    inst.propsOptions.Options? && key in Keys(inst.propsOptions.normalized)
  }

  /** Where an uncached read finds a name: the first of setup state, data,
      declared props and context that owns it. */
  function Source(inst: Instance, key: string): (r: Option<AccessType>)
    ensures r.Some? ==> r.value != OTHER
    ensures r == Some(SETUP) <==> key in Keys(inst.setupState)
    ensures r.None? <==> key !in Keys(inst.setupState) && key !in Keys(inst.data) && !DeclaresProp(inst, key) && key !in Keys(inst.ctx)
  {
    if key in Keys(inst.setupState) then Some(SETUP)
    else if key in Keys(inst.data) then Some(DATA)
    else if DeclaresProp(inst, key) then Some(PROPS)
    else if key in Keys(inst.ctx) then Some(CONTEXT)
    else None
  }

  /** Reading `key` from the store `source` names. */
  function ReadFrom(inst: Instance, source: AccessType, key: string): Js {
    match source
    case SETUP => Get(inst.setupState, key)
    case DATA => Get(inst.data, key)
    case PROPS => Get(inst.props, key)
    case CONTEXT => Get(inst.ctx, key)
    case OTHER => Undefined
  }

  /** What a read returns: a plain value, or what the public getter for a
      `$` name computes from the instance. */
  datatype Read = Value(v: Js) | Public(name: string)

  /** A read's value, the cache after it, and whether it tracked `$attrs`. */
  datatype GetResult = GetResult(read: Read, accessCache: map<string, AccessType>, tracksAttrs: bool)

  /** The public getter for `key`, or `undefined`. */
  function PublicRead(key: string): (r: GetResult)
    ensures r.read.Public? <==> key in PublicKeys
    ensures r.tracksAttrs <==> key == "$attrs"
  {
    if key in PublicKeys then GetResult(Public(key), map[], key == "$attrs")
    else GetResult(Value(Undefined), map[], false)
  }

  /** `PublicInstanceProxyHandlers.get`. */
  function GetProp(inst: Instance, key: string): (r: GetResult)
    // the cache only ever gains the name read, with the store it came from
    ensures r.accessCache == inst.accessCache ||
      (Plain(key) && key !in inst.accessCache && Source(inst, key).Some? && r.accessCache == inst.accessCache[key := Source(inst, key).value])
    // `$` names skip the cache and the stores
    ensures !Plain(key) ==> r == PublicRead(key).(accessCache := inst.accessCache)
    // a recorded store is read directly
    ensures Plain(key) && key in inst.accessCache && inst.accessCache[key] != OTHER ==>
      r == GetResult(Value(ReadFrom(inst, inst.accessCache[key], key)), inst.accessCache, false)
    // a name found nowhere ends at the public getters and is not cached
    ensures Plain(key) && key !in inst.accessCache && Source(inst, key).None? ==>
      r == PublicRead(key).(accessCache := inst.accessCache)
  {
    if Plain(key) && key in inst.accessCache && inst.accessCache[key] != OTHER then
      GetResult(Value(ReadFrom(inst, inst.accessCache[key], key)), inst.accessCache, false)
    else if Plain(key) && key !in inst.accessCache && Source(inst, key).Some? then
      var source := Source(inst, key).value;
      GetResult(Value(ReadFrom(inst, source, key)), inst.accessCache[key := source], false)
    else
      // `OTHER` falls through to the public getters, as do `$` names and
      // names found nowhere
      PublicRead(key).(accessCache := inst.accessCache)
  }

  /** Every recorded store is where an uncached read would find the name. */
  predicate CacheAgrees(inst: Instance) {
    forall k | k in inst.accessCache :: Plain(k) && Source(inst, k) == Some(inst.accessCache[k])
  }

  /** The read a proxy without a cache would make. */
  function Uncached(inst: Instance, key: string): Read {
    if Plain(key) && Source(inst, key).Some? then Value(ReadFrom(inst, Source(inst, key).value, key))
    else PublicRead(key).read
  }

  /** A cache that agrees with the stores is invisible: reads return what an
      uncached lookup returns, and the cache still agrees afterwards. */
  lemma CacheTransparent(inst: Instance, key: string)
    requires CacheAgrees(inst)
    ensures GetProp(inst, key).read == Uncached(inst, key)
    ensures CacheAgrees(inst.(accessCache := GetProp(inst, key).accessCache))
  {
  }

  /** Reading a name twice gives the same value, and the second read leaves
      the cache alone. */
  lemma ReadTwice(inst: Instance, key: string)
    ensures var first := GetProp(inst, key);
      var second := GetProp(inst.(accessCache := first.accessCache), key);
      second.read == first.read && second.accessCache == first.accessCache
  {
  }

  /** `PublicInstanceProxyHandlers.set`: the instance after the write and the
      value returned. */
  function SetProp(inst: Instance, key: string, value: Js): (r: (Instance, bool))
    // a data name is written, and reads back
    ensures key in Keys(inst.data) ==> r.1 && r.0 == inst.(data := Assign(inst.data, key, value))
    // a prop name is refused
    ensures key !in Keys(inst.data) && key in Keys(inst.props) ==> r == (inst, false)
    // anything else is accepted and ignored
    ensures key !in Keys(inst.data) && key !in Keys(inst.props) ==> r == (inst, true)
  {
    if key in Keys(inst.data) then (inst.(data := Assign(inst.data, key, value)), true)
    else if key in Keys(inst.props) then (inst, false)
    else (inst, true)
  }

  /** A write keeps the cache in agreement with the stores, since it never
      adds a name to any of them. */
  lemma SetKeepsCache(inst: Instance, key: string, value: Js)
    requires CacheAgrees(inst)
    ensures CacheAgrees(SetProp(inst, key, value).0)
  {
    var after := SetProp(inst, key, value).0;
    forall k | k in after.accessCache
      ensures Source(after, k) == Source(inst, k)
    {
    }
  }

  /** A data name written through the proxy reads back the written value,
      unless setup state shadows it. */
  lemma SetThenGet(inst: Instance, key: string, value: Js)
    requires CacheAgrees(inst)
    requires Plain(key) && key in Keys(inst.data) && key !in Keys(inst.setupState)
    ensures GetProp(SetProp(inst, key, value).0, key).read == Value(value)
  {
    var after := SetProp(inst, key, value).0;
    SetKeepsCache(inst, key, value);
    CacheTransparent(after, key);
    LookupAssign(inst.data, key, value, key);
  }
}
