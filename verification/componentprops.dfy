/**
 * Component props (`runtime-core/src/componentProps.ts`): normalising a
 * component's `props` declaration (with a per-component cache), splitting the
 * props a vnode passes into declared props and fallthrough attributes, and
 * resolving defaults and boolean casting.
 */
module ComponentProps {
  import opened Wrappers
  import opened JsStrings
  import opened JsValue
  import opened ComponentEmits

  // ---------------------------------------------------------------- prop types

  /** A prop type as `getType` reads it: a function whose source text starts
      with `function Name`, another function (an arrow function or a class),
      `null`, or any other value. */
  datatype Ctor = NamedFn(name: string) | OtherFn | NullCtor | NotFn

  predicate IsFunction(c: Ctor) {
    c.NamedFn? || c.OtherFn?
  }

  /** `getType(ctor)`: the function's name, `"null"` for `null`, `""`
      otherwise. */
  function GetType(c: Ctor): string {
    match c
    case NamedFn(name) => name
    case NullCtor => "null"
    case _ => ""
  }

  predicate IsSameType(a: Ctor, b: Ctor) {
    GetType(a) == GetType(b)
  }

  /** The global constructors the code compares with. */
  const BooleanCtor := NamedFn("Boolean")
  const StringCtor := NamedFn("String")
  const FunctionCtor := NamedFn("Function")

  /** The `type` of a prop option: one value, or an array of them. */
  datatype TypeField = Single(ctor: Ctor) | Many(ctors: seq<Ctor>)

  /** `findIndex` of the first type like `t`, from index `i` on. */
  function FindSameType(ctors: seq<Ctor>, t: Ctor, i: nat): (r: int)
    requires i <= |ctors|
    decreases |ctors| - i
    ensures r == -1 || i <= r < |ctors|
    ensures r >= 0 ==> IsSameType(ctors[r], t)
    ensures forall j | i <= j < (if r == -1 then |ctors| else r) :: !IsSameType(ctors[j], t)
  {
    if i == |ctors| then -1
    else if IsSameType(ctors[i], t) then i
    else FindSameType(ctors, t, i + 1)
  }

  /** `getTypeIndex(type, expectedTypes)`. */
  function GetTypeIndex(t: Ctor, expected: TypeField): (r: int)
    // an array: the index of the first type like `t`, or -1
    ensures expected.Many? ==>
      && (r == -1 || 0 <= r < |expected.ctors|)
      && (r >= 0 ==> IsSameType(expected.ctors[r], t))
      && forall j | 0 <= j < (if r == -1 then |expected.ctors| else r) :: !IsSameType(expected.ctors[j], t)
    // a single function: 0 when it is like `t`; anything else: -1
    ensures expected.Single? ==>
      (r == 0 <==> IsFunction(expected.ctor) && IsSameType(expected.ctor, t)) && (r == 0 || r == -1)
  {
    match expected
    case Many(ctors) => FindSameType(ctors, t, 0)
    case Single(c) => if IsFunction(c) then (if IsSameType(c, t) then 0 else -1) else -1
  }

  // ---------------------------------------------------------------- options

  /** A prop declaration as written: a type function, an array of types, an
      options object (its `type`, and its `default` when it has one), or a
      falsy value. */
  datatype RawOpt =
    | RawFunction(fn: Ctor)
    | RawArray(types: seq<Ctor>)
    | RawObject(ptype: TypeField, default: Option<Js>)
    | RawFalsy

  /** A normalised prop option with its two boolean-casting flags, or the
      falsy declaration kept as it was. */
  datatype NormProp = Prop(ptype: TypeField, default: Option<Js>, shouldCast: bool, shouldCastTrue: bool) | NoProp

  /** Whether `type` names `name` among its types. */
  predicate HasType(t: TypeField, name: string) {
    match t
    case Single(c) => IsFunction(c) && GetType(c) == name
    case Many(cs) => exists j | 0 <= j < |cs| :: GetType(cs[j]) == name
  }

  /** A String type comes before every Boolean type, and there is one. */
  predicate StringFirst(t: TypeField) {
    t.Many? && exists i | 0 <= i < |t.ctors| ::
      && GetType(t.ctors[i]) == "String"
      && (forall j | 0 <= j < i :: GetType(t.ctors[j]) != "Boolean")
      && (exists j | i < j < |t.ctors| :: GetType(t.ctors[j]) == "Boolean")
  }

  /** The option a declaration normalises to, flags included. */
  function NormalizeOpt(opt: RawOpt): (p: NormProp)
    ensures opt.RawFalsy? <==> p.NoProp?
    ensures opt.RawFunction? ==> p.ptype == Single(opt.fn) && p.default.None?
    ensures opt.RawArray? ==> p.ptype == Many(opt.types) && p.default.None?
    ensures opt.RawObject? ==> p.ptype == opt.ptype && p.default == opt.default
  {
    var t := match opt
      case RawFunction(fn) => Single(fn)
      case RawArray(types) => Many(types)
      case RawObject(ptype, _) => ptype
      case RawFalsy => Single(NotFn);
    var booleanIndex := GetTypeIndex(BooleanCtor, t);
    var stringIndex := GetTypeIndex(StringCtor, t);
    match opt
    case RawFalsy => NoProp
    case RawObject(_, d) => Prop(t, d, booleanIndex > -1, stringIndex < 0 || booleanIndex < stringIndex)
    case _ => Prop(t, None, booleanIndex > -1, stringIndex < 0 || booleanIndex < stringIndex)
  }

  lemma BooleanIndexType(t: TypeField)
    ensures GetTypeIndex(BooleanCtor, t) > -1 <==> HasType(t, "Boolean")
  {
    if t.Many? && HasType(t, "Boolean") {
      var j :| 0 <= j < |t.ctors| && GetType(t.ctors[j]) == "Boolean";
      assert IsSameType(t.ctors[j], BooleanCtor);
    }
  }

  /** The first match is at or before any match. */
  lemma FindAtOrBefore(ctors: seq<Ctor>, t: Ctor, i: nat)
    requires i < |ctors| && IsSameType(ctors[i], t)
    ensures 0 <= FindSameType(ctors, t, 0) <= i
  {
  }

  /** With no match before `i`, the first match is not before `i`. */
  lemma FindNotBefore(ctors: seq<Ctor>, t: Ctor, i: nat)
    requires forall j | 0 <= j < i && j < |ctors| :: !IsSameType(ctors[j], t)
    ensures FindSameType(ctors, t, 0) == -1 || FindSameType(ctors, t, 0) >= i
  {
  }

  lemma StringBeforeBoolean(cs: seq<Ctor>, i: nat, j: nat)
    requires i < j < |cs| && GetType(cs[i]) == "String" && GetType(cs[j]) == "Boolean"
    requires forall k | 0 <= k < i :: GetType(cs[k]) != "Boolean"
    ensures 0 <= FindSameType(cs, StringCtor, 0) < FindSameType(cs, BooleanCtor, 0)
  {
    FindAtOrBefore(cs, StringCtor, i);
    FindAtOrBefore(cs, BooleanCtor, j);
    NamesDiffer();
    assert forall k | 0 <= k < i + 1 && k < |cs| :: !IsSameType(cs[k], BooleanCtor) by {
      forall k | 0 <= k < i + 1 && k < |cs|
        ensures !IsSameType(cs[k], BooleanCtor)
      {
        if k < i {
          assert GetType(cs[k]) != "Boolean";
        } else {
          assert GetType(cs[k]) == "String";
        }
      }
    }
    FindNotBefore(cs, BooleanCtor, i + 1);
  }

  lemma NamesDiffer()
    ensures "String" != "Boolean"
  {
    assert "String"[0] != "Boolean"[0];
  }

  lemma StringFirstIndices(t: TypeField)
    requires StringFirst(t)
    ensures var b := GetTypeIndex(BooleanCtor, t);
      var s := GetTypeIndex(StringCtor, t);
      0 <= s < b
  {
    var i :| 0 <= i < |t.ctors| && GetType(t.ctors[i]) == "String"
      && (forall j | 0 <= j < i :: GetType(t.ctors[j]) != "Boolean")
      && (exists j | i < j < |t.ctors| :: GetType(t.ctors[j]) == "Boolean");
    var j :| i < j < |t.ctors| && GetType(t.ctors[j]) == "Boolean";
    StringBeforeBoolean(t.ctors, i, j);
  }

  lemma IndicesStringFirst(t: TypeField)
    requires var b := GetTypeIndex(BooleanCtor, t);
      var s := GetTypeIndex(StringCtor, t);
      0 <= s <= b
    ensures StringFirst(t)
  {
    var b := GetTypeIndex(BooleanCtor, t);
    var s := GetTypeIndex(StringCtor, t);
    assert t.Many?;
    assert GetType(t.ctors[s]) == "String";
    assert GetType(t.ctors[b]) == "Boolean";
  }

  lemma StringFirstType(t: TypeField)
    ensures var b := GetTypeIndex(BooleanCtor, t);
      var s := GetTypeIndex(StringCtor, t);
      s < 0 || b < s <==> !StringFirst(t)
  {
    if StringFirst(t) {
      StringFirstIndices(t);
    } else if 0 <= GetTypeIndex(StringCtor, t) <= GetTypeIndex(BooleanCtor, t) {
      IndicesStringFirst(t);
    }
  }

  /** Casting applies exactly when Boolean is among the types; casting to
      `true` is off exactly when a String type comes before the first
      Boolean. */
  lemma CastFlags(opt: RawOpt)
    requires !opt.RawFalsy?
    ensures NormalizeOpt(opt).shouldCast <==> HasType(NormalizeOpt(opt).ptype, "Boolean")
    ensures NormalizeOpt(opt).shouldCastTrue <==> !StringFirst(NormalizeOpt(opt).ptype)
  {
    BooleanIndexType(NormalizeOpt(opt).ptype);
    StringFirstType(NormalizeOpt(opt).ptype);
  }

  /** Whether a key must be resolved after the props are split: it has a
      Boolean type or a default. */
  predicate NeedsCast(p: NormProp) {
    p.Prop? && (GetTypeIndex(BooleanCtor, p.ptype) > -1 || p.default.Some?)
  }

  /** `validatePropName`: names starting with `$` are refused. */
  predicate ValidatePropName(key: string) {
    key == [] || key[0] != '$'
  }

  /** The cached result of `normalizePropsOptions`: the shared empty array
      for a component without props, or the normalised options and the keys
      that need casting (a key may be listed twice when two declarations
      camelise to it). */
  datatype PropsOptions = EmptyArr | Options(normalized: seq<(string, NormProp)>, needCastKeys: seq<string>)

  /** The `for (const key in raw)` loop over the declarations still to
      visit. */
  function NormalizeLoop(normalized: seq<(string, NormProp)>, need: seq<string>, rest: seq<(string, RawOpt)>): (r: PropsOptions)
    decreases |rest|
    ensures r.Options?
  {
    if rest == [] then Options(normalized, need)
    else
      var normalizedKey := Camelize(rest[0].0);
      if ValidatePropName(normalizedKey) then
        var prop := NormalizeOpt(rest[0].1);
        NormalizeLoop(Assign(normalized, normalizedKey, prop), if NeedsCast(prop) then need + [normalizedKey] else need, rest[1..])
      else NormalizeLoop(normalized, need, rest[1..])
  }

  /** A declaration some raw key at `i` makes for the normalised key `k`. */
  predicate DeclaresAt(rest: seq<(string, RawOpt)>, i: int, k: string) {
    0 <= i < |rest| && Camelize(rest[i].0) == k && ValidatePropName(k)
  }

  /** Some raw key declares `k`. */
  predicate Declared(rest: seq<(string, RawOpt)>, k: string) {
    exists i | 0 <= i < |rest| :: DeclaresAt(rest, i, k)
  }

  /** Some raw key declares `k` with an option that needs casting. */
  predicate DeclaredCast(rest: seq<(string, RawOpt)>, k: string) {
    exists i | 0 <= i < |rest| :: DeclaresAt(rest, i, k) && NeedsCast(NormalizeOpt(rest[i].1))
  }

  lemma DeclaredTail(rest: seq<(string, RawOpt)>, k: string)
    requires rest != []
    ensures Declared(rest, k) <==> DeclaresAt(rest, 0, k) || Declared(rest[1..], k)
    ensures DeclaredCast(rest, k) <==>
      (DeclaresAt(rest, 0, k) && NeedsCast(NormalizeOpt(rest[0].1))) || DeclaredCast(rest[1..], k)
  {
    forall i | DeclaresAt(rest[1..], i, k)
      ensures DeclaresAt(rest, i + 1, k) && rest[1..][i] == rest[i + 1]
    {
    }
    forall i | DeclaresAt(rest, i, k) && i > 0
      ensures DeclaresAt(rest[1..], i - 1, k) && rest[1..][i - 1] == rest[i]
    {
    }
  }

  lemma {:induction false} NormalizeLoopKeys(normalized: seq<(string, NormProp)>, need: seq<string>, rest: seq<(string, RawOpt)>, k: string)
    decreases |rest|
    ensures k in Keys(NormalizeLoop(normalized, need, rest).normalized) <==> k in Keys(normalized) || Declared(rest, k)
  {
    if rest != [] {
      var normalizedKey := Camelize(rest[0].0);
      var n' := if ValidatePropName(normalizedKey) then Assign(normalized, normalizedKey, NormalizeOpt(rest[0].1)) else normalized;
      var need' := if ValidatePropName(normalizedKey) && NeedsCast(NormalizeOpt(rest[0].1)) then need + [normalizedKey] else need;
      assert NormalizeLoop(normalized, need, rest) == NormalizeLoop(n', need', rest[1..]);
      assert k in Keys(n') <==> k in Keys(normalized) || DeclaresAt(rest, 0, k);
      NormalizeLoopKeys(n', need', rest[1..], k);
      DeclaredTail(rest, k);
    }
  }

  lemma {:induction false} NormalizeLoopNeed(normalized: seq<(string, NormProp)>, need: seq<string>, rest: seq<(string, RawOpt)>, k: string)
    decreases |rest|
    ensures k in NormalizeLoop(normalized, need, rest).needCastKeys <==> k in need || DeclaredCast(rest, k)
  {
    if rest != [] {
      var normalizedKey := Camelize(rest[0].0);
      var n' := if ValidatePropName(normalizedKey) then Assign(normalized, normalizedKey, NormalizeOpt(rest[0].1)) else normalized;
      var need' := if ValidatePropName(normalizedKey) && NeedsCast(NormalizeOpt(rest[0].1)) then need + [normalizedKey] else need;
      assert NormalizeLoop(normalized, need, rest) == NormalizeLoop(n', need', rest[1..]);
      assert k in need' <==> k in need || (DeclaresAt(rest, 0, k) && NeedsCast(NormalizeOpt(rest[0].1)));
      NormalizeLoopNeed(n', need', rest[1..], k);
      DeclaredTail(rest, k);
    }
  }

  /** A component: its identity and its `props` declaration, if any. */
  datatype Component = Component(id: nat, props: Option<seq<(string, RawOpt)>>)

  /** `normalizePropsOptions(comp, appContext)` with `appContext.propsCache`:
      the result and the cache after the call. */
  function NormalizePropsOptions(comp: Component, cache: map<nat, PropsOptions>): (r: (PropsOptions, map<nat, PropsOptions>))
    // a component seen before gets its cached result, and nothing changes
    ensures comp.id in cache ==> r == (cache[comp.id], cache)
    // otherwise the result is cached
    ensures comp.id !in cache ==> r.1 == cache[comp.id := r.0]
    ensures comp.id !in cache ==> (r.0 == EmptyArr <==> comp.props.None?)
  {
    if comp.id in cache then (cache[comp.id], cache)
    else if comp.props.None? then (EmptyArr, cache[comp.id := EmptyArr])
    else
      var res := NormalizeLoop([], [], comp.props.value);
      (res, cache[comp.id := res])
  }

  /** The normalised keys are the camelised declared names, except those
      starting with `$`; exactly those with a Boolean type or a default need
      casting. */
  lemma NormalizePropsOptionsKeys(comp: Component, cache: map<nat, PropsOptions>, k: string)
    requires comp.id !in cache && comp.props.Some?
    ensures var r := NormalizePropsOptions(comp, cache).0;
      && (k in Keys(r.normalized) <==> Declared(comp.props.value, k))
      && (k in r.needCastKeys <==> DeclaredCast(comp.props.value, k))
  {
    NormalizeLoopKeys([], [], comp.props.value, k);
    NormalizeLoopNeed([], [], comp.props.value, k);
  }

  // ---------------------------------------------------------------- resolving

  /** The default for a value that is `undefined`: a function default of a
      prop whose type is not `Function` is a factory, called once per key
      (`call` gives the factory's result) and kept in `propsDefaults`; any
      other default is used as it is. */
  function DefaultValue(p: NormProp, key: string, propsDefaults: map<string, Js>, call: nat -> Js): (r: (Js, map<string, Js>))
    requires p.Prop? && p.default.Some?
    // a factory result already kept is reused, and the cache is unchanged
    ensures key in propsDefaults ==> r.1 == propsDefaults
    // at most the key's own entry is added, holding the value returned
    ensures r.1 == propsDefaults || (key !in propsDefaults && r.1 == propsDefaults[key := r.0])
    // a plain default, or any default of a Function prop, is the value itself
    ensures !p.default.value.Fn? || p.ptype == Single(FunctionCtor) ==> r == (p.default.value, propsDefaults)
    ensures p.default.value.Fn? && p.ptype != Single(FunctionCtor) ==>
      r.0 == if key in propsDefaults then propsDefaults[key] else call(p.default.value.id)
  {
    var d := p.default.value;
    if p.ptype != Single(FunctionCtor) && d.Fn? then
      if key in propsDefaults then (propsDefaults[key], propsDefaults)
      else (call(d.id), propsDefaults[key := call(d.id)])
    else (d, propsDefaults)
  }

  /** Boolean casting: an absent prop without a default becomes `false`; the
      empty string or the hyphenated key becomes `true` unless a String type
      comes first. */
  function Cast(p: NormProp, key: string, value: Js, isAbsent: bool): Js
    requires p.Prop?
  {
    if !p.shouldCast then value
    else if isAbsent && p.default.None? then Bool(false)
    else if p.shouldCastTrue && (value == Str("") || value == Str(Hyphenate(key))) then Bool(true)
    else value
  }

  /** `resolvePropValue(options, props, key, value, instance, isAbsent)` as
      written: the boolean casting sits inside the branch that applies a
      default, so it only ever sees props that have one. */
  function ResolvePropValueAsWritten(options: seq<(string, NormProp)>, key: string, value: Js, propsDefaults: map<string, Js>, call: nat -> Js, isAbsent: bool): (r: (Js, map<string, Js>))
    // a supplied value is never changed, not even cast
    ensures value != Undefined ==> r == (value, propsDefaults)
    ensures Lookup(options, key).None? || Lookup(options, key).value.NoProp? ==> r == (value, propsDefaults)
  {
    var opt := Lookup(options, key);
    if opt.None? || opt.value.NoProp? then (value, propsDefaults)
    else
      var p := opt.value;
      if p.default.Some? && value == Undefined then
        var (v, ds) := DefaultValue(p, key, propsDefaults, call);
        (Cast(p, key, v, isAbsent), ds)
      else (value, propsDefaults)
  }

  /** As written, the cast to `false` is dead code: the result is the value
      given, the default taken as it is, or `true`. */
  lemma AsWrittenNeverCastsFalse(options: seq<(string, NormProp)>, key: string, value: Js, propsDefaults: map<string, Js>, call: nat -> Js, isAbsent: bool)
    ensures var r := ResolvePropValueAsWritten(options, key, value, propsDefaults, call, isAbsent).0;
      var opt := Lookup(options, key);
      || r == value
      || r == Bool(true)
      || (opt.Some? && opt.value.Prop? && opt.value.default.Some? && r == DefaultValue(opt.value, key, propsDefaults, call).0)
  {
  }

  /** `resolvePropValue` with the boolean casting applied to every declared
      prop, whether or not a default was used. */
  function ResolvePropValue(options: seq<(string, NormProp)>, key: string, value: Js, propsDefaults: map<string, Js>, call: nat -> Js, isAbsent: bool): (r: (Js, map<string, Js>))
    // an undeclared key keeps its value
    ensures Lookup(options, key).None? || Lookup(options, key).value.NoProp? ==> r == (value, propsDefaults)
    // only an undefined value can take a default, and only a factory default
    // adds to the cache
    ensures value != Undefined ==> r.1 == propsDefaults
    ensures key in propsDefaults ==> r.1 == propsDefaults
    ensures r.1 == propsDefaults || key !in propsDefaults
    ensures var opt := Lookup(options, key); opt.Some? && opt.value.Prop? ==>
      var p := opt.value;
      // a supplied value is kept unless it is cast
      && (value != Undefined && !p.shouldCast ==> r.0 == value)
      // an absent Boolean prop without a default is false
      && (p.shouldCast && isAbsent && p.default.None? ==> r.0 == Bool(false))
      // `""` or the hyphenated key is true for a Boolean prop not led by String
      && (p.shouldCast && p.shouldCastTrue && !(isAbsent && p.default.None?) && (value == Str("") || value == Str(Hyphenate(key)))
          ==> r.0 == Bool(true))
      // an undefined value of a non-Boolean prop takes its plain default
      && (value == Undefined && !p.shouldCast && p.default.Some? && !p.default.value.Fn? ==> r.0 == p.default.value)
  {
    var opt := Lookup(options, key);
    if opt.None? || opt.value.NoProp? then (value, propsDefaults)
    else
      var p := opt.value;
      var (v, ds) := if p.default.Some? && value == Undefined then DefaultValue(p, key, propsDefaults, call) else (value, propsDefaults);
      (Cast(p, key, v, isAbsent), ds)
  }

  /** `d` holds every entry of `d0`. */
  predicate Extends(d: map<string, Js>, d0: map<string, Js>) {
    forall k | k in d0 :: k in d && d[k] == d0[k]
  }

  /** Resolving against any later state of the defaults cache gives the same
      value: a factory runs once per key, and what it returned is reused. */
  lemma ResolveStable(options: seq<(string, NormProp)>, key: string, value: Js, propsDefaults: map<string, Js>, later: map<string, Js>, call: nat -> Js, isAbsent: bool)
    requires Extends(later, ResolvePropValue(options, key, value, propsDefaults, call, isAbsent).1)
    ensures ResolvePropValue(options, key, value, later, call, isAbsent).0 ==
      ResolvePropValue(options, key, value, propsDefaults, call, isAbsent).0
  {
  }

  /** The casting finding: a Boolean prop without a default, passed nothing or
      the empty string. */
  lemma NestedCastingSkipped()
    ensures var options := [("flag", Prop(Single(BooleanCtor), None, true, true))];
      var call := (id: nat) => Undefined;
      && ResolvePropValueAsWritten(options, "flag", Undefined, map[], call, true).0 == Undefined
      && ResolvePropValue(options, "flag", Undefined, map[], call, true).0 == Bool(false)
      && ResolvePropValueAsWritten(options, "flag", Str(""), map[], call, false).0 == Str("")
      && ResolvePropValue(options, "flag", Str(""), map[], call, false).0 == Bool(true)
  {
    var options := [("flag", Prop(Single(BooleanCtor), None, true, true))];
    assert Lookup(options, "flag") == Some(options[0].1);
  }

  // ---------------------------------------------------------------- setting props

  /** `isReservedProp`: keys a vnode uses itself and never passes down. */
  const ReservedProps: seq<string> := [
    "", "key", "ref", "ref_for", "ref_key",
    "onVnodeBeforeMount", "onVnodeMounted",
    "onVnodeBeforeUpdate", "onVnodeUpdated",
    "onVnodeBeforeUnmount", "onVnodeUnmounted"
  ]

  predicate IsReservedProp(key: string) {
    key in ReservedProps
  }

  /** Where `setFullProps` sends an incoming key: nowhere (reserved, or a
      declared event's listener), to `props` under its camelised name, to the
      values still to be cast, to `attrs`, or into a `TypeError`. */
  datatype Route = Skip | ToProps | ToCast | ToAttrs | Listener | Throws

  function RouteOf(options: PropsOptions, emits: Option<seq<(string, Js)>>, key: string): Route {
    if IsReservedProp(key) then Skip
    else if options.Options? && Camelize(key) in Keys(options.normalized) then
      if Camelize(key) in options.needCastKeys then ToCast else ToProps
    else
      match IsEmitListener(emits, key)
      case None => Throws
      case Some(true) => Listener
      case Some(false) => ToAttrs
  }

  /** The name a key is stored under: attributes keep the key as passed,
      props take its camelised form. */
  function Target(key: string, route: Route): string {
    if route == ToAttrs then key else Camelize(key)
  }

  /** The value the last incoming entry sent along `route` to the name `k`
      brings, if any: later entries overwrite earlier ones. */
  function Incoming(options: PropsOptions, emits: Option<seq<(string, Js)>>, rest: seq<(string, Js)>, route: Route, k: string): Option<Js>
    decreases |rest|
  {
    if rest == [] then None
    else
      var later := Incoming(options, emits, rest[1..], route, k);
      if later.Some? then later
      else if RouteOf(options, emits, rest[0].0) == route && Target(rest[0].0, route) == k then Some(rest[0].1)
      else None
  }

  /** Some incoming key makes `isEmitListener` throw. */
  predicate AnyThrows(options: PropsOptions, emits: Option<seq<(string, Js)>>, rest: seq<(string, Js)>)
    decreases |rest|
  {
    rest != [] && (RouteOf(options, emits, rest[0].0) == Throws || AnyThrows(options, emits, rest[1..]))
  }

  /** The three objects the first loop of `setFullProps` fills:
      `rawCastValues` is created on first use. */
  datatype Split = Split(props: seq<(string, Js)>, attrs: seq<(string, Js)>, cast: Option<seq<(string, Js)>>)

  /** One pass of the loop body for an incoming key that does not throw. */
  function Step(options: PropsOptions, emits: Option<seq<(string, Js)>>, key: string, value: Js, acc: Split): Split {
    var camelKey := Camelize(key);
    match RouteOf(options, emits, key)
    case ToProps => acc.(props := Assign(acc.props, camelKey, value))
    case ToCast => acc.(cast := Some(Assign(acc.cast.GetOr([]), camelKey, value)))
    case ToAttrs =>
      // `attrs[key]` is written only when missing or different
      acc.(attrs := if key !in Keys(acc.attrs) || Get(acc.attrs, key) != value then Assign(acc.attrs, key, value) else acc.attrs)
    case _ => acc
  }

  /** The `for (let key in rawProps)` loop of `setFullProps` over the keys
      still to visit; `None` when `isEmitListener` throws. */
  function SplitProps(options: PropsOptions, emits: Option<seq<(string, Js)>>, rest: seq<(string, Js)>, acc: Split): (r: Option<Split>)
    decreases |rest|
  {
    if rest == [] then Some(acc)
    else if RouteOf(options, emits, rest[0].0) == Throws then None
    else SplitProps(options, emits, rest[1..], Step(options, emits, rest[0].0, rest[0].1, acc))
  }

  lemma IncomingTail(options: PropsOptions, emits: Option<seq<(string, Js)>>, rest: seq<(string, Js)>, route: Route, k: string)
    requires rest != []
    ensures Incoming(options, emits, rest, route, k) ==
      if Incoming(options, emits, rest[1..], route, k).Some? then Incoming(options, emits, rest[1..], route, k)
      else if RouteOf(options, emits, rest[0].0) == route && Target(rest[0].0, route) == k then Some(rest[0].1)
      else None
  {
  }

  /** The split fails exactly when some incoming key makes
      `isEmitListener` throw. */
  lemma {:induction false} SplitPropsThrows(options: PropsOptions, emits: Option<seq<(string, Js)>>, rest: seq<(string, Js)>, acc: Split)
    decreases |rest|
    ensures SplitProps(options, emits, rest, acc).None? <==> AnyThrows(options, emits, rest)
  {
    if rest != [] {
      SplitPropsThrows(options, emits, rest[1..], Step(options, emits, rest[0].0, rest[0].1, acc));
    }
  }

  /** The object of a split that `route` fills. */
  function Slot(s: Split, route: Route): seq<(string, Js)> {
    match route
    case ToProps => s.props
    case ToAttrs => s.attrs
    case ToCast => s.cast.GetOr([])
    case _ => []
  }

  /** One step writes the slot of its route under the key's target name,
      and leaves every other slot and name alone. */
  lemma StepSlot(options: PropsOptions, emits: Option<seq<(string, Js)>>, key: string, value: Js, acc: Split, route: Route, k: string)
    requires route == ToProps || route == ToAttrs || route == ToCast
    ensures Lookup(Slot(Step(options, emits, key, value, acc), route), k) ==
      if RouteOf(options, emits, key) == route && Target(key, route) == k then Some(value) else Lookup(Slot(acc, route), k)
  {
    if RouteOf(options, emits, key) == route {
      LookupAssign(Slot(acc, route), Target(key, route), value, k);
    }
  }

  /** After the split, each of `props`, `attrs` and the values to cast holds,
      under each name, the value of the last incoming key sent there under
      that name, and otherwise what it held before. */
  lemma {:induction false} SplitPropsLookup(options: PropsOptions, emits: Option<seq<(string, Js)>>, rest: seq<(string, Js)>, acc: Split, route: Route, k: string)
    requires SplitProps(options, emits, rest, acc).Some?
    requires route == ToProps || route == ToAttrs || route == ToCast
    decreases |rest|
    ensures Lookup(Slot(SplitProps(options, emits, rest, acc).value, route), k) ==
      if Incoming(options, emits, rest, route, k).Some? then Incoming(options, emits, rest, route, k) else Lookup(Slot(acc, route), k)
  {
    if rest != [] {
      IncomingTail(options, emits, rest, route, k);
      var acc' := Step(options, emits, rest[0].0, rest[0].1, acc);
      SplitPropsLookup(options, emits, rest[1..], acc', route, k);
      StepSlot(options, emits, rest[0].0, rest[0].1, acc, route, k);
    }
  }

  /** The second loop of `setFullProps`: every key in `needCastKeys` gets its
      resolved value, read from the values set aside (`castValues`). */
  function CastLoop(normalized: seq<(string, NormProp)>, keys: seq<string>, props: seq<(string, Js)>, castValues: seq<(string, Js)>, propsDefaults: map<string, Js>, call: nat -> Js): (r: (seq<(string, Js)>, map<string, Js>))
    decreases |keys|
    // the cache only grows
    ensures Extends(r.1, propsDefaults)
  {
    if keys == [] then (props, propsDefaults)
    else
      var key := keys[0];
      var (v, ds) := ResolvePropValue(normalized, key, Get(castValues, key), propsDefaults, call, key !in Keys(castValues));
      CastLoop(normalized, keys[1..], Assign(props, key, v), castValues, ds, call)
  }

  /** After the cast loop, a listed key holds its value resolved against the
      final defaults cache; every other key is untouched. */
  lemma {:induction false} CastLoopLookup(normalized: seq<(string, NormProp)>, keys: seq<string>, props: seq<(string, Js)>, castValues: seq<(string, Js)>, propsDefaults: map<string, Js>, call: nat -> Js, k: string)
    decreases |keys|
    ensures var (out, ds) := CastLoop(normalized, keys, props, castValues, propsDefaults, call);
      Lookup(out, k) ==
        if k in keys then Some(ResolvePropValue(normalized, k, Get(castValues, k), ds, call, k !in Keys(castValues)).0)
        else Lookup(props, k)
  {
    if keys != [] {
      var key := keys[0];
      var (v, ds) := ResolvePropValue(normalized, key, Get(castValues, key), propsDefaults, call, key !in Keys(castValues));
      var final := CastLoop(normalized, keys[1..], Assign(props, key, v), castValues, ds, call);
      assert CastLoop(normalized, keys, props, castValues, propsDefaults, call) == final;
      CastLoopLookup(normalized, keys[1..], Assign(props, key, v), castValues, ds, call, k);
      LookupAssign(props, key, v, k);
      if k == key && k !in keys[1..] {
        ResolveStable(normalized, key, Get(castValues, key), propsDefaults, final.1, call, key !in Keys(castValues));
      }
    }
  }

  /** What `setFullProps` leaves behind. */
  datatype FullProps = FullProps(props: seq<(string, Js)>, attrs: seq<(string, Js)>, propsDefaults: map<string, Js>)

  /** The first loop of `setFullProps` from empty objects. */
  function InitialSplit(options: PropsOptions, emits: Option<seq<(string, Js)>>, rawProps: Option<seq<(string, Js)>>): Option<Split> {
    if rawProps.Some? then SplitProps(options, emits, rawProps.value, Split([], [], None)) else Some(Split([], [], None))
  }

  lemma InitialSplitLookup(options: PropsOptions, emits: Option<seq<(string, Js)>>, rawProps: Option<seq<(string, Js)>>, route: Route, k: string)
    requires InitialSplit(options, emits, rawProps).Some?
    requires route == ToProps || route == ToAttrs || route == ToCast
    ensures Lookup(Slot(InitialSplit(options, emits, rawProps).value, route), k) == Incoming(options, emits, RawEntries(rawProps), route, k)
  {
    if rawProps.Some? {
      SplitPropsLookup(options, emits, rawProps.value, Split([], [], None), route, k);
    }
  }

  /** `setFullProps(instance, rawProps, props, attrs)` on empty `props` and
      `attrs`; `None` when it throws. */
  function SetFullProps(options: PropsOptions, emits: Option<seq<(string, Js)>>, rawProps: Option<seq<(string, Js)>>, propsDefaults: map<string, Js>, call: nat -> Js): (r: Option<FullProps>)
    ensures rawProps.None? ==> r.Some? && r.value.attrs == []
    ensures r.Some? ==> Extends(r.value.propsDefaults, propsDefaults)
  {
    var split := InitialSplit(options, emits, rawProps);
    if split.None? then None
    else if options.Options? then
      var (props, ds) := CastLoop(options.normalized, options.needCastKeys, split.value.props, split.value.cast.GetOr([]), propsDefaults, call);
      Some(FullProps(props, split.value.attrs, ds))
    else Some(FullProps(split.value.props, split.value.attrs, propsDefaults))
  }

  /** The incoming props of a vnode, `{}` when it has none. */
  function RawEntries(rawProps: Option<seq<(string, Js)>>): seq<(string, Js)> {
    rawProps.GetOr([])
  }

  /** `setFullProps` throws exactly when an undeclared incoming key makes
      `isEmitListener` throw (the key `onOnce` on a component declaring
      events). */
  lemma SetFullPropsThrows(options: PropsOptions, emits: Option<seq<(string, Js)>>, rawProps: Option<seq<(string, Js)>>, propsDefaults: map<string, Js>, call: nat -> Js)
    ensures SetFullProps(options, emits, rawProps, propsDefaults, call).None? <==> AnyThrows(options, emits, RawEntries(rawProps))
  {
    if rawProps.Some? {
      SplitPropsThrows(options, emits, rawProps.value, Split([], [], None));
    }
    assert SetFullProps(options, emits, rawProps, propsDefaults, call).None? <==> InitialSplit(options, emits, rawProps).None?;
  }

  /** What `setFullProps` puts where: `attrs` holds the undeclared keys that
      are not listeners for declared events, as passed; `props` holds each
      declared key, camelised, with the value passed for it, or, for a key
      that needs casting, with that value (or its absence) resolved. */
  lemma SetFullPropsLookup(options: PropsOptions, emits: Option<seq<(string, Js)>>, rawProps: Option<seq<(string, Js)>>, propsDefaults: map<string, Js>, call: nat -> Js, k: string)
    requires SetFullProps(options, emits, rawProps, propsDefaults, call).Some?
    ensures var out := SetFullProps(options, emits, rawProps, propsDefaults, call).value;
      var raw := RawEntries(rawProps);
      && Lookup(out.attrs, k) == Incoming(options, emits, raw, ToAttrs, k)
      && (options.EmptyArr? || k !in options.needCastKeys ==> Lookup(out.props, k) == Incoming(options, emits, raw, ToProps, k))
      && (options.Options? && k in options.needCastKeys ==>
          var passed := Incoming(options, emits, raw, ToCast, k);
          Lookup(out.props, k) == Some(ResolvePropValue(options.normalized, k, passed.GetOr(Undefined), out.propsDefaults, call, passed.None?).0))
  {
    var split := InitialSplit(options, emits, rawProps).value;
    InitialSplitLookup(options, emits, rawProps, ToProps, k);
    InitialSplitLookup(options, emits, rawProps, ToAttrs, k);
    InitialSplitLookup(options, emits, rawProps, ToCast, k);
    if options.Options? {
      CastLoopLookup(options.normalized, options.needCastKeys, split.props, split.cast.GetOr([]), propsDefaults, call, k);
    }
  }

  // ---------------------------------------------------------------- initProps

  /** `for (const key in instance.propsOptions[0])`: every declared key
      missing from `props` is added as `undefined`. */
  function FillDeclared(props: seq<(string, Js)>, keys: seq<string>): (r: seq<(string, Js)>)
    decreases |keys|
    ensures forall k :: k in Keys(r) <==> k in Keys(props) || k in keys
  {
    if keys == [] then props
    else FillDeclared(if keys[0] in Keys(props) then props else Assign(props, keys[0], Undefined), keys[1..])
  }

  lemma {:induction false} FillDeclaredLookup(props: seq<(string, Js)>, keys: seq<string>, k: string)
    decreases |keys|
    ensures Lookup(FillDeclared(props, keys), k) ==
      if k in Keys(props) then Lookup(props, k) else if k in keys then Some(Undefined) else None
  {
    if keys != [] {
      var props' := if keys[0] in Keys(props) then props else Assign(props, keys[0], Undefined);
      LookupAssign(props, keys[0], Undefined, k);
      FillDeclaredLookup(props', keys[1..], k);
    }
  }

  /** The instance fields `initProps` sets. */
  datatype InitResult = InitResult(props: seq<(string, Js)>, attrs: seq<(string, Js)>, propsDefaults: map<string, Js>)

  /** `initProps(instance, rawProps, isStateful)`: `typeHasProps` is whether
      the component declares `props`. */
  function InitProps(options: PropsOptions, emits: Option<seq<(string, Js)>>, rawProps: Option<seq<(string, Js)>>, isStateful: int, typeHasProps: bool, call: nat -> Js): (r: Option<InitResult>)
    // a functional component without declared props gets its attributes as props
    ensures r.Some? && isStateful == 0 && !typeHasProps ==> r.value.props == r.value.attrs
    // otherwise every declared key is present
    ensures r.Some? && options.Options? && (isStateful != 0 || typeHasProps) ==>
      forall k | k in Keys(options.normalized) :: k in Keys(r.value.props)
    ensures r.None? <==> AnyThrows(options, emits, RawEntries(rawProps))
  {
    SetFullPropsThrows(options, emits, rawProps, map[], call);
    match SetFullProps(options, emits, rawProps, map[], call)
    case None => None
    case Some(full) =>
      var props := if options.Options? then FillDeclared(full.props, Keys(options.normalized)) else full.props;
      Some(InitResult(if isStateful != 0 || typeHasProps then props else full.attrs, full.attrs, full.propsDefaults))
  }

  /** A declared key that needs no casting holds the value passed for it, or
      `undefined` when nothing was passed. */
  lemma InitPropsDeclared(options: PropsOptions, emits: Option<seq<(string, Js)>>, rawProps: Option<seq<(string, Js)>>, isStateful: int, typeHasProps: bool, call: nat -> Js, k: string)
    requires InitProps(options, emits, rawProps, isStateful, typeHasProps, call).Some?
    requires isStateful != 0 || typeHasProps
    requires options.Options? && k in Keys(options.normalized) && k !in options.needCastKeys
    ensures Lookup(InitProps(options, emits, rawProps, isStateful, typeHasProps, call).value.props, k) ==
      Some(Incoming(options, emits, RawEntries(rawProps), ToProps, k).GetOr(Undefined))
  {
    SetFullPropsLookup(options, emits, rawProps, map[], call, k);
    var full := SetFullProps(options, emits, rawProps, map[], call).value;
    FillDeclaredLookup(full.props, Keys(options.normalized), k);
  }
}
