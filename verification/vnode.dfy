/**
 * Virtual nodes (`runtime-core/src/vnode.ts`): creating a vnode classifies
 * its type into shape flags, normalises `class`, `style` and `key`, and
 * records what kind of children it has; `normalizeVNode` turns any render
 * result into a vnode.
 */
module VNode {
  import opened Wrappers
  import opened JsStrings
  import opened JsValue
  import opened NormalizeProp

  // ---------------------------------------------------------------- shape flags

  /** `ShapeFlags` of `@vue/shared` (upstream values). */
  const ELEMENT: bv32 := 1
  const FUNCTIONAL_COMPONENT: bv32 := 2
  const STATEFUL_COMPONENT: bv32 := 4
  const TEXT_CHILDREN: bv32 := 8
  const ARRAY_CHILDREN: bv32 := 16
  const SLOTS_CHILDREN: bv32 := 32
  const TELEPORT: bv32 := 64
  const SUSPENSE: bv32 := 128

  /** The built-in vnode types. */
  datatype Builtin = Fragment | Text | Comment | Static

  /** What `type` may be: a tag name, a component object or function (with
      the `__isSuspense` / `__isTeleport` markers they may carry), one of the
      built-in symbols, or another primitive. */
  datatype VType =
    | Tag(name: string)
    | ComponentObject(id: nat, isSuspense: bool, isTeleport: bool)
    | ComponentFunction(fid: nat, fnIsSuspense: bool, fnIsTeleport: bool)
    | Symbol(builtin: Builtin)
    | OtherType(n: int)
  {
    predicate IsSuspense() {
      (ComponentObject? && isSuspense) || (ComponentFunction? && fnIsSuspense)
    }

    predicate IsTeleport() {
      (ComponentObject? && isTeleport) || (ComponentFunction? && fnIsTeleport)
    }
  }

  /** The shape flag `_createVNode` gives a type. */
  function TypeShape(t: VType): (r: bv32)
    ensures r == ELEMENT <==> t.Tag?
    ensures r == SUSPENSE <==> !t.Tag? && t.IsSuspense()
    ensures r == TELEPORT <==> !t.Tag? && !t.IsSuspense() && t.IsTeleport()
    ensures r == STATEFUL_COMPONENT <==> t.ComponentObject? && !t.IsSuspense() && !t.IsTeleport()
    ensures r == FUNCTIONAL_COMPONENT <==> t.ComponentFunction? && !t.IsSuspense() && !t.IsTeleport()
    ensures r == 0 <==> t.Symbol? || t.OtherType?
  {
    if t.Tag? then ELEMENT
    else if t.IsSuspense() then SUSPENSE
    else if t.IsTeleport() then TELEPORT
    else if t.ComponentObject? then STATEFUL_COMPONENT
    else if t.ComponentFunction? then FUNCTIONAL_COMPONENT
    else 0
  }

  // ---------------------------------------------------------------- vnodes

  /** A value passed as children or returned from a render function. */
  datatype Child =
    | CNull
    | CUndefined
    | CBool(b: bool)
    | CNum(n: int)
    | CStr(s: string)
    | CArray(items: seq<Child>)
    | CNode(node: VNode)

  /** What a vnode's `children` holds after normalisation. */
  datatype Children = NoChildren | TextChildren(text: string) | ArrayChildren(items: seq<Child>)

  datatype VNode = VNode(
    vtype: VType,
    props: Option<seq<(string, Js)>>,
    key: Js,
    children: Children,
    shapeFlag: bv32,
    patchFlag: int)

  /** `String(child)`; an array is its elements' strings joined by commas,
      with `null` and `undefined` elements empty. */
  function ChildString(c: Child): string
    decreases c, 1
  {
    match c
    case CNull => "null"
    case CUndefined => "undefined"
    case CBool(b) => if b then "true" else "false"
    case CNum(n) => IntToString(n)
    case CStr(s) => s
    case CArray(items) => ArrayString(items, |items|)
    case CNode(_) => "[object Object]"
  }

  /** `Array.prototype.toString` over the first `n` elements. */
  function ArrayString(items: seq<Child>, n: nat): string
    requires n <= |items|
    decreases CArray(items), 0, n
  {
    if n == 0 then []
    else
      assert items[n - 1] in items;
      var last := if items[n - 1].CNull? || items[n - 1].CUndefined? then [] else ChildString(items[n - 1]);
      if n == 1 then last else ArrayString(items, n - 1) + "," + last
  }

  /** `normalizeKey`: a `null` or `undefined` key becomes `null`. */
  function NormalizeKey(props: seq<(string, Js)>): (k: Js)
    ensures IsNullish(Get(props, "key")) ==> k == Null
    ensures !IsNullish(Get(props, "key")) ==> k == Get(props, "key")
    ensures !k.Undefined?
  {
    var key := Get(props, "key");
    if !IsNullish(key) then key else Null
  }

  /** The class and style normalisation of `_createVNode`: a truthy class that
      is not a string is normalised, and an object or array style is
      normalised. */
  function NormalizeClassStyle(props: seq<(string, Js)>): (r: seq<(string, Js)>)
    // a class is left a string or falsy
    ensures Truthy(Get(r, "class")) ==> Get(r, "class").Str?
    ensures Truthy(Get(props, "class")) && !Get(props, "class").Str? ==>
      Get(r, "class") == Str(NormalizeClass(Get(props, "class")))
    ensures !Truthy(Get(props, "class")) || Get(props, "class").Str? ==> Get(r, "class") == Get(props, "class")
    // a style array becomes one record; other styles are kept
    ensures Get(props, "style").Arr? ==> Get(r, "style").Obj?
    ensures !Get(props, "style").Arr? ==> Get(r, "style") == Get(props, "style")
    // no other property changes
    ensures forall k | k != "class" && k != "style" :: Lookup(r, k) == Lookup(props, k)
  {
    var klass := Get(props, "class");
    var style := Get(props, "style");
    var p1 := if Truthy(klass) && !klass.Str? then Assign(props, "class", Str(NormalizeClass(klass))) else props;
    LookupAssignAll(props, "class", Str(NormalizeClass(klass)));
    LookupAssignAll(p1, "style", NormalizeStyle(style));
    assert Get(p1, "style") == style;
    var p2 := if IsObject(style) then Assign(p1, "style", NormalizeStyle(style)) else p1;
    p2
  }

  lemma LookupAssignAll(entries: seq<(string, Js)>, k: string, v: Js)
    ensures forall k' :: Lookup(Assign(entries, k, v), k') == if k' == k then Some(v) else Lookup(entries, k')
  {
    forall k' {
      LookupAssign(entries, k, v, k');
    }
  }

  /** `normalizeChildren(vnode, children)`: records the children and ORs in
      what kind they are; under a teleport text becomes one text vnode. */
  function NormalizeChildren(vnode: VNode, children: Child): (r: VNode)
    ensures r.vtype == vnode.vtype && r.props == vnode.props && r.key == vnode.key && r.patchFlag == vnode.patchFlag
    // only sets bits
    ensures r.shapeFlag & vnode.shapeFlag == vnode.shapeFlag
  {
    var kind: bv32 :=
      if children.CNull? || children.CUndefined? then 0
      else if children.CArray? || vnode.shapeFlag & TELEPORT != 0 then ARRAY_CHILDREN
      else TEXT_CHILDREN;
    var c :=
      if children.CNull? || children.CUndefined? then NoChildren
      else if children.CArray? then ArrayChildren(children.items)
      else if vnode.shapeFlag & TELEPORT != 0 then ArrayChildren([CNode(TextVNode(ChildString(children)))])
      else TextChildren(ChildString(children));
    OrKeeps(vnode.shapeFlag, kind);
    VNode(vnode.vtype, vnode.props, vnode.key, c, vnode.shapeFlag | kind, vnode.patchFlag)
  }

  /** `null` and `undefined` children are recorded as none, and the flags
      stay as they were. */
  lemma NormalizeChildrenNull(vnode: VNode, children: Child)
    requires children.CNull? || children.CUndefined?
    ensures NormalizeChildren(vnode, children).children == NoChildren
    ensures NormalizeChildren(vnode, children).shapeFlag == vnode.shapeFlag
  {
  }

  /** An array is recorded as it is, with ARRAY_CHILDREN. */
  lemma NormalizeChildrenArray(vnode: VNode, children: Child)
    requires children.CArray?
    ensures NormalizeChildren(vnode, children).children == ArrayChildren(children.items)
    ensures NormalizeChildren(vnode, children).shapeFlag == vnode.shapeFlag | ARRAY_CHILDREN
  {
  }

  /** Anything else is recorded as its string with TEXT_CHILDREN, or under a
      teleport as one text vnode with ARRAY_CHILDREN. */
  lemma NormalizeChildrenText(vnode: VNode, children: Child)
    requires !(children.CNull? || children.CUndefined? || children.CArray?)
    ensures vnode.shapeFlag & TELEPORT != 0 ==>
      && NormalizeChildren(vnode, children).children == ArrayChildren([CNode(TextVNode(ChildString(children)))])
      && NormalizeChildren(vnode, children).shapeFlag == vnode.shapeFlag | ARRAY_CHILDREN
    ensures vnode.shapeFlag & TELEPORT == 0 ==>
      && NormalizeChildren(vnode, children).children == TextChildren(ChildString(children))
      && NormalizeChildren(vnode, children).shapeFlag == vnode.shapeFlag | TEXT_CHILDREN
  {
  }

  lemma OrKeeps(x: bv32, y: bv32)
    ensures (x | y) & x == x && x | 0 == x
  {
  }

  /** The vnode `createTextVNode(text)` builds. */
  function TextVNode(text: string): (r: VNode)
    ensures r.vtype == Symbol(Text) && r.children == TextChildren(text) && r.shapeFlag == TEXT_CHILDREN
    ensures r.props == None && r.key == Null
  {
    VNode(Symbol(Text), None, Null, TextChildren(text), TEXT_CHILDREN, 0)
  }

  /** `createVNode(type, props, children, patchFlag)`. */
  function CreateVNode(t: VType, props: Option<seq<(string, Js)>>, children: Child, patchFlag: int): (r: VNode)
    ensures r.vtype == t && r.patchFlag == patchFlag
    ensures r.shapeFlag & TypeShape(t) == TypeShape(t)
    ensures props.None? ==> r.props == None && r.key == Null
    ensures props.Some? ==> r.props == Some(NormalizeClassStyle(props.value)) && r.key == NormalizeKey(props.value)
  {
    var p := if props.Some? then Some(NormalizeClassStyle(props.value)) else None;
    var key := if p.Some? then NormalizeKey(p.value) else Null;
    KeySurvives(props);
    NormalizeChildren(VNode(t, p, key, NoChildren, TypeShape(t), patchFlag), children)
  }

  /** Normalising class and style leaves the key alone. */
  lemma KeySurvives(props: Option<seq<(string, Js)>>)
    ensures props.Some? ==> NormalizeKey(NormalizeClassStyle(props.value)) == NormalizeKey(props.value)
  {
    if props.Some? {
      assert Lookup(NormalizeClassStyle(props.value), "key") == Lookup(props.value, "key");
    }
  }

  /** `createTextVNode` is `createVNode(Text, null, text, flag)`. */
  lemma CreateTextVNode(text: string)
    ensures CreateVNode(Symbol(Text), None, CStr(text), 0) == TextVNode(text)
  {
  }

  /** `isSameVNodeType(n1, n2)`. */
  predicate IsSameVNodeType(n1: VNode, n2: VNode) {
    n1.vtype == n2.vtype && n1.key == n2.key
  }

  /** Two vnodes created for the same type are the same vnode type exactly
      when their keys agree after normalisation: a missing, `null` and
      `undefined` key all match each other. */
  lemma SameTypeByKey(t: VType, p1: seq<(string, Js)>, p2: seq<(string, Js)>, c1: Child, c2: Child, f1: int, f2: int)
    ensures IsSameVNodeType(CreateVNode(t, Some(p1), c1, f1), CreateVNode(t, Some(p2), c2, f2)) <==>
      (if IsNullish(Get(p1, "key")) then Null else Get(p1, "key")) == (if IsNullish(Get(p2, "key")) then Null else Get(p2, "key"))
  {
    var q1 := NormalizeClassStyle(p1);
    var q2 := NormalizeClassStyle(p2);
    assert Lookup(q1, "key") == Lookup(p1, "key") && Lookup(q2, "key") == Lookup(p2, "key");
  }

  /** Vnodes of different types are never the same vnode type, whatever
      their keys. */
  lemma DifferentTypes(t1: VType, t2: VType, p1: Option<seq<(string, Js)>>, p2: Option<seq<(string, Js)>>, c1: Child, c2: Child)
    requires t1 != t2
    ensures !IsSameVNodeType(CreateVNode(t1, p1, c1, 0), CreateVNode(t2, p2, c2, 0))
  {
  }

  /** `normalizeVNode(child)`. */
  function NormalizeVNode(child: Child): (r: VNode)
    ensures child.CNull? || child.CUndefined? || child.CBool? ==>
      r.vtype == Symbol(Comment) && r.children == NoChildren && r.shapeFlag == 0
    ensures child.CArray? ==>
      r.vtype == Symbol(Fragment) && r.children == ArrayChildren(child.items) && r.shapeFlag == ARRAY_CHILDREN
    ensures child.CNode? ==> r == child.node
    ensures child.CNum? || child.CStr? ==>
      r.vtype == Symbol(Text) && r.children == TextChildren(ChildString(child)) && r.shapeFlag == TEXT_CHILDREN
    ensures !child.CNode? ==> r.props == None && r.key == Null
  {
    match child
    case CNull => CreateVNode(Symbol(Comment), None, CNull, 0)
    case CUndefined => CreateVNode(Symbol(Comment), None, CNull, 0)
    case CBool(_) => CreateVNode(Symbol(Comment), None, CNull, 0)
    case CArray(items) => CreateVNode(Symbol(Fragment), None, CArray(items), 0)
    case CNode(node) => node
    case _ => CreateVNode(Symbol(Text), None, CStr(ChildString(child)), 0)
  }
}
