/**
 * DOM event props (`runtime-dom/src/modules/events.ts`): a prop name such as
 * `onClickOnce` is parsed into an event name and listener options, and each
 * element keeps one invoker per prop name whose `value` is swapped on
 * update, so the DOM listener is added once and removed once.
 */
module Events {
  import opened Wrappers
  import opened JsStrings
  import opened JsValue

  // ---------------------------------------------------------------- names

  /** The listener option modifiers `optionsModifierRE` recognises. */
  datatype Modifier = Once | Passive | Capture

  function Suffix(m: Modifier): string {
    match m
    case Once => "Once"
    case Passive => "Passive"
    case Capture => "Capture"
  }

  predicate EndsWith(s: string, suffix: string) {
    |suffix| <= |s| && s[|s| - |suffix|..] == suffix
  }

  /** `optionsModifierRE.test(name)`. */
  predicate HasModifier(name: string) {
    EndsWith(name, "Once") || EndsWith(name, "Passive") || EndsWith(name, "Capture")
  }

  /** The listener options object: each flag set by its modifier. */
  datatype EventOptions = EventOptions(once: bool, passive: bool, capture: bool)

  const NoFlags := EventOptions(false, false, false)

  /** `options[m[0].toLowerCase()] = true`. */
  function SetFlag(opts: EventOptions, m: Modifier): EventOptions {
    match m
    case Once => opts.(once := true)
    case Passive => opts.(passive := true)
    case Capture => opts.(capture := true)
  }

  /** The `while` loop of `parseName`: trailing modifiers are removed one at
      a time, each setting its flag. */
  function StripModifiers(name: string, opts: EventOptions): (r: (string, EventOptions))
    decreases |name|
    ensures !HasModifier(r.0) && |r.0| <= |name|
  {
    if EndsWith(name, "Once") then StripModifiers(name[..|name| - 4], SetFlag(opts, Once))
    else if EndsWith(name, "Passive") then StripModifiers(name[..|name| - 7], SetFlag(opts, Passive))
    else if EndsWith(name, "Capture") then StripModifiers(name[..|name| - 7], SetFlag(opts, Capture))
    else (name, opts)
  }

  /** `parseName(name)`: the event name and the options, `undefined` when
      no modifier ends the name. */
  function ParseName(name: string): (r: (string, Option<EventOptions>))
    ensures r.1.None? <==> !HasModifier(name)
    // the event name never holds an upper-case letter
    ensures forall i | 0 <= i < |r.0| :: !IsUpper(r.0[i])
  {
    if HasModifier(name) then
      var (base, opts) := StripModifiers(name, NoFlags);
      (Hyphenate(Slice(base, 2, |base|)), Some(opts))
    else (Hyphenate(Slice(name, 2, |name|)), None)
  }

  /** A name followed by modifiers. */
  function WithModifiers(base: string, ms: seq<Modifier>): string
    decreases |ms|
  {
    if ms == [] then base else WithModifiers(base + Suffix(ms[0]), ms[1..])
  }

  /** The flags a list of modifiers sets, in any order. */
  function Flags(opts: EventOptions, ms: seq<Modifier>): EventOptions
    decreases |ms|
  {
    if ms == [] then opts else Flags(SetFlag(opts, ms[0]), ms[1..])
  }

  lemma {:induction false} FlagsLast(opts: EventOptions, ms: seq<Modifier>, m: Modifier)
    decreases |ms|
    ensures Flags(opts, ms + [m]) == SetFlag(Flags(opts, ms), m)
    ensures SetFlag(Flags(opts, ms), m) == Flags(SetFlag(opts, m), ms)
  {
    if ms != [] {
      assert (ms + [m])[1..] == ms[1..] + [m];
      FlagsLast(SetFlag(opts, ms[0]), ms[1..], m);
    }
  }

  lemma {:induction false} WithModifiersLast(base: string, ms: seq<Modifier>, m: Modifier)
    decreases |ms|
    ensures WithModifiers(base, ms + [m]) == WithModifiers(base, ms) + Suffix(m)
  {
    if ms != [] {
      assert (ms + [m])[1..] == ms[1..] + [m];
      WithModifiersLast(base + Suffix(ms[0]), ms[1..], m);
    }
  }

  lemma EndsWithAppend(name: string, suffix: string)
    ensures EndsWith(name + suffix, suffix)
    ensures (name + suffix)[..|name + suffix| - |suffix|] == name
  {
    assert (name + suffix)[|name + suffix| - |suffix|..] == suffix;
  }

  /** Which modifier regex alternative matches: the three suffixes differ in
      their last four characters or in their seventh-last. */
  lemma SuffixMatches(name: string, m: Modifier)
    ensures var s := name + Suffix(m);
      && (EndsWith(s, "Once") <==> m == Once)
      && (!EndsWith(s, "Once") ==> (EndsWith(s, "Passive") <==> m == Passive))
  {
    var s := name + Suffix(m);
    EndsWithAppend(name, Suffix(m));
    assert s[|s| - 1] == 'e';
    if m != Once {
      assert s[|s| - 4] != 'O' by {
        assert s[|s| - 4] == Suffix(m)[3];
      }
    }
    if m == Capture {
      assert s[|s| - 7] == 'C' by {
        assert s[|s| - 7] == Suffix(m)[0];
      }
    }
  }

  lemma StripOne(name: string, m: Modifier, opts: EventOptions)
    ensures StripModifiers(name + Suffix(m), opts) == StripModifiers(name, SetFlag(opts, m))
  {
    EndsWithAppend(name, Suffix(m));
    SuffixMatches(name, m);
  }

  /** Stripping undoes appending modifiers: the name comes back, with every
      modifier's flag set. */
  lemma {:induction false} StripWithModifiers(base: string, ms: seq<Modifier>, opts: EventOptions)
    requires !HasModifier(base)
    decreases |ms|
    ensures StripModifiers(WithModifiers(base, ms), opts) == (base, Flags(opts, ms))
  {
    if ms != [] {
      var init := ms[..|ms| - 1];
      var m := ms[|ms| - 1];
      assert ms == init + [m];
      WithModifiersLast(base, init, m);
      StripOne(WithModifiers(base, init), m, opts);
      StripWithModifiers(base, init, SetFlag(opts, m));
      FlagsLast(opts, init, m);
    }
  }

  /** A prop name is parsed into the hyphenated name after `on` and exactly
      the options its modifiers set; without modifiers there are none. */
  lemma ParseNameModifiers(base: string, ms: seq<Modifier>)
    requires !HasModifier(base)
    ensures ParseName(WithModifiers(base, ms)) ==
      (Hyphenate(Slice(base, 2, |base|)), if ms == [] then None else Some(Flags(NoFlags, ms)))
  {
    StripWithModifiers(base, ms, NoFlags);
    if ms != [] {
      var init := ms[..|ms| - 1];
      assert ms == init + [ms[|ms| - 1]];
      WithModifiersLast(base, init, ms[|ms| - 1]);
      match ms[|ms| - 1]
      case Once =>
      case Passive =>
      case Capture =>
    }
  }

  // ---------------------------------------------------------------- invokers

  /** `createInvoker`: a fresh function whose calls go to its `value`. */
  datatype Invoker = Invoker(id: nat, value: Js)

  /** A DOM listener: the event, the invoker function registered for it, and
      the options it was added with. */
  datatype Listener = Listener(event: string, invoker: nat, options: Option<EventOptions>)

  /** The element's state: `el._vei` (an entry reset to `undefined` is
      `None`), its listeners, and the identity the next invoker gets. */
  datatype El = El(vei: map<string, Option<Invoker>>, listeners: seq<Listener>, nextId: nat)

  /** Every invoker in use is older than the next one. */
  predicate Fresh(el: El) {
    && (forall i | 0 <= i < |el.listeners| :: el.listeners[i].invoker < el.nextId)
    && (forall k | k in el.vei && el.vei[k].Some? :: el.vei[k].value.id < el.nextId)
  }

  /** `el._vei[rawName]`, `undefined` when missing. */
  function Existing(el: El, rawName: string): Option<Invoker> {
    if rawName in el.vei then el.vei[rawName] else None
  }

  predicate Capturing(options: Option<EventOptions>) {
    options.Some? && options.value.capture
  }

  /** `removeEventListener(event, invoker, options)`: the DOM drops the
      listeners registered with that event, function and capture flag. */
  function RemoveListener(ls: seq<Listener>, event: string, invoker: nat, options: Option<EventOptions>): (r: seq<Listener>)
    ensures forall l :: l in r <==> l in ls && !(l.event == event && l.invoker == invoker && Capturing(l.options) == Capturing(options))
  {
    if ls == [] then []
    else
      var rest := RemoveListener(ls[1..], event, invoker, options);
      if ls[0].event == event && ls[0].invoker == invoker && Capturing(ls[0].options) == Capturing(options) then rest
      else [ls[0]] + rest
  }

  /** `patchEvent(el, rawName, prevValue, nextValue)`. */
  function PatchEvent(el: El, rawName: string, nextValue: Js): (r: El)
    // patch: the invoker keeps its identity and takes the new value; no
    // listener changes
    ensures Truthy(nextValue) && Existing(el, rawName).Some? ==>
      r == el.(vei := el.vei[rawName := Some(Existing(el, rawName).value.(value := nextValue))])
    // add: a fresh invoker is cached and registered once
    ensures Truthy(nextValue) && Existing(el, rawName).None? ==>
      && r.vei == el.vei[rawName := Some(Invoker(el.nextId, nextValue))]
      && r.listeners == el.listeners + [Listener(ParseName(rawName).0, el.nextId, ParseName(rawName).1)]
      && r.nextId == el.nextId + 1
    // remove: the listener goes and the cache entry is cleared
    ensures !Truthy(nextValue) && Existing(el, rawName).Some? ==>
      && r.vei == el.vei[rawName := None]
      && r.listeners == RemoveListener(el.listeners, ParseName(rawName).0, Existing(el, rawName).value.id, ParseName(rawName).1)
      && r.nextId == el.nextId
    // neither: nothing changes
    ensures !Truthy(nextValue) && Existing(el, rawName).None? ==> r == el
  {
    var existing := Existing(el, rawName);
    if Truthy(nextValue) && existing.Some? then
      el.(vei := el.vei[rawName := Some(existing.value.(value := nextValue))])
    else
      var (name, options) := ParseName(rawName);
      if Truthy(nextValue) then
        El(el.vei[rawName := Some(Invoker(el.nextId, nextValue))], el.listeners + [Listener(name, el.nextId, options)], el.nextId + 1)
      else if existing.Some? then
        el.(vei := el.vei[rawName := None], listeners := RemoveListener(el.listeners, name, existing.value.id, options))
      else el
  }

  /** Patching keeps invoker identities fresh. */
  lemma PatchEventFresh(el: El, rawName: string, nextValue: Js)
    requires Fresh(el)
    ensures Fresh(PatchEvent(el, rawName, nextValue))
  {
    var r := PatchEvent(el, rawName, nextValue);
    forall i | 0 <= i < |r.listeners|
      ensures r.listeners[i].invoker < r.nextId
    {
      assert r.listeners[i] in r.listeners;
      if !Truthy(nextValue) && Existing(el, rawName).Some? {
        assert r.listeners[i] in el.listeners;
      } else if i < |el.listeners| {
        assert r.listeners[i] == el.listeners[i] by {
          if Truthy(nextValue) && Existing(el, rawName).None? {
            assert r.listeners == el.listeners + [r.listeners[|r.listeners| - 1]];
          }
        }
      }
    }
  }

  /** A listener the removal does not match survives it, in order. */
  lemma {:induction false} RemoveFreshListener(ls: seq<Listener>, l: Listener, options: Option<EventOptions>)
    requires forall i | 0 <= i < |ls| :: ls[i].invoker != l.invoker
    requires Capturing(l.options) == Capturing(options)
    ensures RemoveListener(ls + [l], l.event, l.invoker, options) == ls
  {
    if ls != [] {
      assert (ls + [l])[1..] == ls[1..] + [l];
      RemoveFreshListener(ls[1..], l, options);
    } else {
      assert RemoveListener([l], l.event, l.invoker, options) == RemoveListener([], l.event, l.invoker, options);
    }
  }

  /** Binding a handler to a name with none and then unbinding it leaves the
      element's listeners as they were; the name's cache entry is left
      `undefined`. */
  lemma AddThenRemove(el: El, rawName: string, handler: Js, none: Js)
    requires Fresh(el)
    requires Existing(el, rawName).None?
    requires Truthy(handler) && !Truthy(none)
    ensures var after := PatchEvent(PatchEvent(el, rawName, handler), rawName, none);
      after == El(el.vei[rawName := None], el.listeners, el.nextId + 1)
  {
    var added := PatchEvent(el, rawName, handler);
    var l := Listener(ParseName(rawName).0, el.nextId, ParseName(rawName).1);
    assert Existing(added, rawName) == Some(Invoker(el.nextId, handler));
    RemoveFreshListener(el.listeners, l, ParseName(rawName).1);
  }
}
