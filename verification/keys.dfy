/**
 * JavaScript property keys as the reactivity core sees them: canonical
 * array-index strings, other strings, and symbols.
 */
module Keys {

  /** Symbols: the engine's two private iteration keys, the built-in
      (well-known) symbols of the platform, and user-created symbols. */
  datatype Symbol =
    | IterateKey
    | MapKeyIterateKey
    | WellKnown(name: string)
    | UserSymbol(id: nat)

  /** A property key. `Index(i)` is the canonical decimal string of a
      non-negative integer (what `isIntegerKey` accepts); every other string
      is a `Name`. */
  datatype Key =
    | Index(i: nat)
    | Name(s: string)
    | Sym(sym: Symbol)

  /** `isIntegerKey`: a canonical non-negative integer string. */
  predicate IsIntegerKey(k: Key) {
    k.Index?
  }

  /** `builtInSymbols.has(key)`: the well-known symbols of the platform. */
  predicate IsBuiltInSymbol(k: Key) {
    k.Sym? && k.sym.WellKnown?
  }

  /** The string keys `isNonTrackableKeys` lists. */
  const NonTrackableNames: set<string> := {"__proto__", "__v_isRef", "__isVue"}

  /** Reserved flag keys answered by the base handlers (`ReactiveFlags`). */
  const SkipFlag := Name("__v_skip")
  const IsReactiveFlag := Name("__v_isReactive")
  const IsReadonlyFlag := Name("__v_isReadonly")
  const IsShallowFlag := Name("__v_isShallow")
  const RawFlag := Name("__v_raw")
  const LengthKey := Name("length")
}
