/**
 * Component events (`runtime-core/src/componentEmits.ts`): which incoming
 * props are listeners for declared events, and which handler `emit` calls.
 */
module ComponentEmits {
  import opened Wrappers
  import opened JsStrings
  import opened JsValue

  predicate EndsWithOnce(s: string) {
    |s| >= 4 && s[|s| - 4..] == "Once"
  }

  /** `s.replace(/Once$/, "")`. */
  function StripOnce(s: string): (r: string)
    ensures EndsWithOnce(s) ==> s == r + "Once"
    ensures !EndsWithOnce(s) ==> r == s
  {
    if EndsWithOnce(s) then s[..|s| - 4] else s
  }

  /** The three names `isEmitListener` looks up for the event name `name`. */
  predicate Declares(keys: seq<string>, name: string)
    requires name != []
  {
    [ToLower(name[0])] + name[1..] in keys || Hyphenate(name) in keys || name in keys
  }

  /** `isEmitListener(options, key)`. Options are the declared events
      (`None` when there are none). The name left after dropping `on` and a
      trailing `Once` is looked up with its first letter lower-cased,
      hyphenated, and as it is. For the key `onOnce` nothing is left, and
      reading its first character throws a `TypeError`, here `None`. */
  function IsEmitListener(options: Option<seq<(string, Js)>>, key: string): (r: Option<bool>)
    ensures options.None? || !IsOn(key) ==> r == Some(false)
    ensures r == Some(true) ==> options.Some? && IsOn(key)
  {
    if options.None? || !IsOn(key) then Some(false)
    else
      var name := StripOnce(key[2..]);
      if name == [] then None
      else Some(Declares(Keys(options.value), name))
  }

  /** Only the key `onOnce` makes `isEmitListener` throw, and only when
      events are declared. */
  lemma IsEmitListenerThrows(options: Option<seq<(string, Js)>>, key: string)
    ensures IsEmitListener(options, key).None? <==> options.Some? && key == "onOnce"
  {
    ThrowsExactly(options, key);
    OnOnceKey(key);
  }

  /** `isEmitListener` throws when nothing is left of the name. */
  lemma ThrowsExactly(options: Option<seq<(string, Js)>>, key: string)
    ensures IsEmitListener(options, key).None? <==> options.Some? && IsOn(key) && StripOnce(key[2..]) == []
  {
  }

  /** Of the listener keys, only `onOnce` leaves nothing once `on` and a
      trailing `Once` are dropped. */
  lemma OnOnceKey(key: string)
    ensures IsOn(key) && StripOnce(key[2..]) == [] <==> key == "onOnce"
  {
    if IsOn(key) && StripOnce(key[2..]) == [] {
      OnOnceOnly(key);
    }
    if key == "onOnce" {
      OnOnceIs(key);
    }
  }

  lemma OnOnceOnly(key: string)
    requires IsOn(key) && StripOnce(key[2..]) == []
    ensures key == "onOnce"
  {
    var rest := key[2..];
    StripOnceEmpty(rest);
    assert rest == "Once";
    assert |key| == 6;
    assert key[2] == 'O' && key[3] == 'n' && key[4] == 'c' && key[5] == 'e' by {
      assert key[2] == rest[0] && key[3] == rest[1] && key[4] == rest[2] && key[5] == rest[3];
    }
  }

  lemma OnOnceIs(key: string)
    requires key == "onOnce"
    ensures IsOn(key) && StripOnce(key[2..]) == []
  {
    assert key[0] == 'o' && key[1] == 'n' && key[2] == 'O';
    assert key[2..] == "Once";
    StripOnceEmpty(key[2..]);
  }

  lemma StripOnceEmpty(s: string)
    ensures StripOnce(s) == [] <==> s == [] || s == "Once"
  {
    if EndsWithOnce(s) && |s| == 4 {
      assert s == s[|s| - 4..];
    }
  }

  /** Capitalising a name does not make it end in `Once`, except for `once`
      itself. */
  lemma CapitalizeKeepsEnd(event: string)
    requires !EndsWithOnce(event) && event != "once"
    ensures !EndsWithOnce(Capitalize(event))
  {
    var cap := Capitalize(event);
    if |event| >= 5 {
      assert cap[|cap| - 4..] == cap[1..][|cap| - 5..];
      assert event[|event| - 4..] == event[1..][|event| - 5..];
    }
  }

  lemma StripOnceAppend(name: string, suffix: string)
    requires !EndsWithOnce(name)
    requires suffix == "" || suffix == "Once"
    ensures StripOnce(name + suffix) == name
  {
    if suffix == "Once" {
      assert (name + suffix)[|name + suffix| - 4..] == "Once";
      assert (name + suffix)[..|name|] == name;
    } else {
      assert name + suffix == name;
    }
  }

  /** The handler key of a declared event, with or without the `Once`
      modifier, is a listener for it. */
  lemma HandlerKeyIsListener(options: seq<(string, Js)>, event: string, suffix: string)
    requires event != [] && event in Keys(options)
    requires !EndsWithOnce(event) && event != "once"
    requires suffix == "" || suffix == "Once"
    ensures IsEmitListener(Some(options), ToHandlerKey(event) + suffix) == Some(true)
  {
    var h := ToHandlerKey(event);
    var key := h + suffix;
    var cap := Capitalize(event);
    assert h == "on" + cap;
    assert key[2..] == cap + suffix;
    assert IsOn(key) by {
      assert key[0] == h[0] && key[1] == h[1] && key[2] == h[2];
    }
    CapitalizeKeepsEnd(event);
    StripOnceAppend(cap, suffix);
    assert Declares(Keys(options), cap) by {
      if IsUpper(event[0]) {
        assert cap == event;
      } else {
        assert [ToLower(cap[0])] + cap[1..] == event;
      }
    }
  }

  /** The instance fields `emit` reads. */
  datatype EmitInstance = EmitInstance(isUnmounted: bool, vnodeProps: Option<seq<(string, Js)>>)

  /** A call of a user handler with its arguments. */
  datatype Call = Call(handler: Js, args: seq<Js>)

  /** `emit(instance, event, ...args)`: the handler call it makes, if any. */
  function Emit(instance: EmitInstance, event: string, args: seq<Js>): (r: Option<Call>)
    ensures instance.isUnmounted ==> r.None?
    ensures r.Some? ==> Truthy(r.value.handler) && r.value.args == args
    ensures r.Some? ==>
      var props := instance.vnodeProps.GetOr([]);
      r.value.handler == Get(props, ToHandlerKey(event)) || r.value.handler == Get(props, ToHandlerKey(Camelize(event)))
  {
    if instance.isUnmounted then None
    else
      var props := instance.vnodeProps.GetOr([]);
      var handler :=
        if Truthy(Get(props, ToHandlerKey(event))) then Get(props, ToHandlerKey(event))
        else Get(props, ToHandlerKey(Camelize(event)));
      if Truthy(handler) then Some(Call(handler, args)) else None
  }

  /** A mounted instance calls the handler registered under the event's
      handler key, or else under its camelised handler key; it calls nothing
      only when neither is set. */
  lemma EmitLookup(instance: EmitInstance, event: string, args: seq<Js>)
    requires !instance.isUnmounted
    ensures var props := instance.vnodeProps.GetOr([]);
      var direct := Get(props, ToHandlerKey(event));
      var camel := Get(props, ToHandlerKey(Camelize(event)));
      Emit(instance, event, args) ==
        if Truthy(direct) then Some(Call(direct, args))
        else if Truthy(camel) then Some(Call(camel, args))
        else None
  {
  }
}
