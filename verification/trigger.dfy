/**
 * `trigger`, `triggerEffects` and `triggerEffect` (effect.ts): which deps of
 * a target a write reaches, the effects they hold, and what is done with
 * each of them. The result of a trigger is a plan of actions, one per effect
 * to notify, in the order the source performs them; `Perform` carries the
 * plan out on the store. The plan can be fixed up front because every
 * decision depends only on the active effect, which each run restores, and
 * on fields of the effects that no run changes.
 */
module Trigger {
  import opened Wrappers
  import opened Keys
  import opened Dep
  import opened DepGraph
  import opened Effect

  /** What `isArray` and `isMap` tell apart about a target. */
  datatype TargetKind = PlainObject | ArrayTarget | MapTarget | SetTarget

  /** `TriggerOpTypes`. */
  datatype TriggerOp = SetOp | AddOp | DeleteOp | ClearOp

  // ---------------------------------------------------------------------
  // the dep map of one target
  // ---------------------------------------------------------------------

  /** The keys of the dep map of target `t`, in insertion order: the slots of
      `t` in the creation order of the graph. */
  function TargetKeys(order: seq<DepKey>, t: nat): (r: seq<Key>)
    ensures forall k :: k in r <==> Slot(t, k) in order
    ensures NoDups(order) ==> NoDups(r)
  {
    if |order| == 0 then []
    else
      var rest := TargetKeys(order[1..], t);
      assert forall x :: x in order <==> x == order[0] || x in order[1..];
      assert NoDups(order) ==> NoDups(order[1..]) && order[0] !in order[1..];
      if order[0].Slot? && order[0].target == t then [order[0].key] + rest else rest
  }

  /** `targetMap.get(target)` is defined: some slot of the target was tracked.
      Dep maps and their entries are never removed, so this is the same as
      the target having a dep in the graph. */
  predicate HasDepsMap(g: Graph, t: nat) {
    |TargetKeys(g.order, t)| > 0
  }

  lemma HasDepsMapIff(g: Graph, t: nat)
    requires OrderValid(g)
    ensures HasDepsMap(g, t) <==> exists k :: Slot(t, k) in g.deps
  {
    if HasDepsMap(g, t) {
      var k := TargetKeys(g.order, t)[0];
      assert Slot(t, k) in g.deps;
    }
  }

  // ---------------------------------------------------------------------
  // the length branch
  // ---------------------------------------------------------------------

  /** JavaScript `key >= newValue` for a dep-map key and a number: an index
      string converts to its number, a symbol throws a TypeError (`None`),
      and any other string is taken as `NaN` (never `>=`). */
  function AtOrAbove(k: Key, n: nat): (r: Option<bool>)
    ensures r.None? <==> k.Sym?
    ensures r == Some(true) <==> k.Index? && k.i >= n
  {
    match k
    case Index(i) => Some(i >= n)
    case Name(_) => Some(false)
    case Sym(_) => None
  }

  /** The `length` branch as written: `key === "length" || key >= newValue`
      over the dep map in order. The first symbol key other than `length`
      throws, which aborts the whole trigger (`None`). */
  function LengthKeysAsWritten(ks: seq<Key>, n: nat): (r: Option<seq<Key>>)
    ensures r.None? <==> exists i | 0 <= i < |ks| :: ks[i].Sym?
    decreases |ks|
  {
    if |ks| == 0 then Some([])
    else
      var rest := LengthKeysAsWritten(ks[1..], n);
      assert (exists i | 0 <= i < |ks| :: ks[i].Sym?) <==> ks[0].Sym? || exists i | 0 <= i < |ks[1..]| :: ks[1..][i].Sym? by {
        if exists i | 0 <= i < |ks| :: ks[i].Sym? {
          var i :| 0 <= i < |ks| && ks[i].Sym?;
          if i > 0 { assert ks[1..][i - 1].Sym?; }
        }
        if exists i | 0 <= i < |ks[1..]| :: ks[1..][i].Sym? {
          var i :| 0 <= i < |ks[1..]| && ks[1..][i].Sym?;
          assert ks[i + 1].Sym?;
        }
      }
      if ks[0] == LengthKey then (if rest.Some? then Some([ks[0]] + rest.value) else None)
      else match AtOrAbove(ks[0], n)
        case None => None
        case Some(b) => if rest.None? then None else Some((if b then [ks[0]] else []) + rest.value)
  }

  /** The `length` branch as intended: `length` and every index at or above
      the new length, symbols skipped. */
  function LengthKeys(ks: seq<Key>, n: nat): (r: seq<Key>)
    ensures forall k :: k in r <==> k in ks && (k == LengthKey || (k.Index? && k.i >= n))
    ensures NoDups(ks) ==> NoDups(r)
    decreases |ks|
  {
    if |ks| == 0 then []
    else
      var rest := LengthKeys(ks[1..], n);
      assert forall x :: x in ks <==> x == ks[0] || x in ks[1..];
      assert NoDups(ks) ==> NoDups(ks[1..]) && ks[0] !in ks[1..];
      if ks[0] == LengthKey || (ks[0].Index? && ks[0].i >= n) then [ks[0]] + rest else rest
  }

  /** Without symbol keys the branch as written computes the intended keys. */
  lemma {:induction false} LengthKeysAgree(ks: seq<Key>, n: nat)
    requires forall i | 0 <= i < |ks| :: !ks[i].Sym?
    ensures LengthKeysAsWritten(ks, n) == Some(LengthKeys(ks, n))
    decreases |ks|
  {
    if |ks| > 0 {
      assert forall i | 0 <= i < |ks[1..]| :: ks[1..][i] == ks[i + 1];
      LengthKeysAgree(ks[1..], n);
      var rest := LengthKeys(ks[1..], n);
      assert LengthKeysAsWritten(ks[1..], n) == Some(rest);
      assert !ks[0].Sym?;
      if ks[0] == LengthKey {
        assert LengthKeysAsWritten(ks, n) == Some([ks[0]] + rest);
      } else {
        assert AtOrAbove(ks[0], n) == Some(ks[0].Index? && ks[0].i >= n);
        assert [] + rest == rest;
      }
    }
  }

  /** An array whose effect read a user symbol property: setting its length
      throws instead of notifying anybody. */
  lemma SymbolKeyAbortsLengthWrite()
    ensures LengthKeysAsWritten([LengthKey, Sym(UserSymbol(0))], 0) == None
    ensures LengthKeys([LengthKey, Sym(UserSymbol(0))], 0) == [LengthKey]
  {
    var ks := [LengthKey, Sym(UserSymbol(0))];
    assert ks[1].Sym?;
    assert ks[1..] == [Sym(UserSymbol(0))] && ks[1..][1..] == [];
    assert LengthKeys(ks[1..][1..], 0) == [];
    assert LengthKeys(ks[1..], 0) == [];
  }

  // ---------------------------------------------------------------------
  // choosing the deps
  // ---------------------------------------------------------------------

  /** The extra iteration keys an operation also fires, after the key itself. */
  function IterationKeys(kind: TargetKind, op: TriggerOp, key: Option<Key>): (r: seq<Key>)
    ensures Sym(IterateKey) in r <==>
      (op == AddOp && kind != ArrayTarget) || (op == DeleteOp && kind != ArrayTarget) || (op == SetOp && kind == MapTarget)
    ensures Sym(MapKeyIterateKey) in r <==> (op == AddOp || op == DeleteOp) && kind == MapTarget
    ensures LengthKey in r <==> op == AddOp && kind == ArrayTarget && key.Some? && IsIntegerKey(key.value)
    ensures |r| <= 2
  {
    match op
    case AddOp =>
      if kind != ArrayTarget then [Sym(IterateKey)] + (if kind == MapTarget then [Sym(MapKeyIterateKey)] else [])
      else if key.Some? && IsIntegerKey(key.value) then [LengthKey]
      else []
    case DeleteOp =>
      if kind != ArrayTarget then [Sym(IterateKey)] + (if kind == MapTarget then [Sym(MapKeyIterateKey)] else [])
      else []
    case SetOp => if kind == MapTarget then [Sym(IterateKey)] else []
    case ClearOp => []
  }

  /** The keys whose deps `trigger` collects, in order (an entry may name a
      key without a dep: `depsMap.get(key)` is then undefined). `ks` is the
      dep map's key list and `n` the new length of a `length` write. */
  function SelectKeys(ks: seq<Key>, kind: TargetKind, op: TriggerOp, key: Option<Key>, n: nat): (r: seq<Key>)
    // CLEAR: every dep of the target
    ensures op == ClearOp ==> r == ks
    // array length: `length` and the indices at or above the new length
    ensures op != ClearOp && key == Some(LengthKey) && kind == ArrayTarget ==>
      forall k :: k in r <==> k in ks && (k == LengthKey || (k.Index? && k.i >= n))
    // otherwise: the key itself, then the iteration keys of the operation
    ensures op != ClearOp && !(key == Some(LengthKey) && kind == ArrayTarget) ==>
      && (key.Some? ==> |r| >= 1 && r[0] == key.value)
      && forall k :: k in r <==> Some(k) == key || k in IterationKeys(kind, op, key)
  {
    if op == ClearOp then ks
    else if key == Some(LengthKey) && kind == ArrayTarget then LengthKeys(ks, n)
    else (if key.Some? then [key.value] else []) + IterationKeys(kind, op, key)
  }

  /** The same choice with the `length` branch as written (`None`: the
      trigger throws). */
  function SelectKeysAsWritten(ks: seq<Key>, kind: TargetKind, op: TriggerOp, key: Option<Key>, n: nat): (r: Option<seq<Key>>)
    ensures r.None? <==>
      op != ClearOp && key == Some(LengthKey) && kind == ArrayTarget && exists i | 0 <= i < |ks| :: ks[i].Sym?
  {
    if op == ClearOp then Some(ks)
    else if key == Some(LengthKey) && kind == ArrayTarget then LengthKeysAsWritten(ks, n)
    else Some((if key.Some? then [key.value] else []) + IterationKeys(kind, op, key))
  }

  /** The two choices differ only where the one as written throws. */
  lemma SelectKeysAgree(ks: seq<Key>, kind: TargetKind, op: TriggerOp, key: Option<Key>, n: nat)
    requires forall i | 0 <= i < |ks| :: !ks[i].Sym?
    ensures SelectKeysAsWritten(ks, kind, op, key, n) == Some(SelectKeys(ks, kind, op, key, n))
  {
    if op != ClearOp && key == Some(LengthKey) && kind == ArrayTarget {
      LengthKeysAgree(ks, n);
    }
  }

  // ---------------------------------------------------------------------
  // collecting the effects
  // ---------------------------------------------------------------------

  /** Effect `e` sits in the dep of one of the chosen keys. */
  predicate Subscribed(g: Graph, t: nat, sel: seq<Key>, e: EffectId) {
    exists i | 0 <= i < |sel| :: Slot(t, sel[i]) in g.deps && e in g.deps[Slot(t, sel[i])].subs
  }

  /** Effect `e` sits in the dep of key `k` on target `t`. */
  predicate SubscribedTo(g: Graph, t: nat, k: Key, e: EffectId) {
    Slot(t, k) in g.deps && e in g.deps[Slot(t, k)].subs
  }

  /** `Subscribed` by the keys chosen, whatever their order. */
  lemma SubscribedMembers(g: Graph, t: nat, sel: seq<Key>, e: EffectId)
    ensures Subscribed(g, t, sel, e) <==> exists k | k in sel :: SubscribedTo(g, t, k, e)
  {
    if Subscribed(g, t, sel, e) {
      var i :| 0 <= i < |sel| && Slot(t, sel[i]) in g.deps && e in g.deps[Slot(t, sel[i])].subs;
      assert sel[i] in sel && SubscribedTo(g, t, sel[i], e);
    }
    if exists k | k in sel :: SubscribedTo(g, t, k, e) {
      var k :| k in sel && SubscribedTo(g, t, k, e);
      var i :| 0 <= i < |sel| && sel[i] == k;
      assert Slot(t, sel[i]) in g.deps && e in g.deps[Slot(t, sel[i])].subs;
    }
  }

  /** The subscribers of the chosen deps, concatenated in order (absent deps
      contribute nothing). */
  function Collect(g: Graph, t: nat, sel: seq<Key>): (r: seq<EffectId>)
    ensures forall e :: e in r <==> Subscribed(g, t, sel, e)
    decreases |sel|
  {
    if |sel| == 0 then []
    else
      var last := sel[|sel| - 1];
      var init := sel[..|sel| - 1];
      var rest := Collect(g, t, init);
      assert forall e :: Subscribed(g, t, sel, e) <==>
        Subscribed(g, t, init, e) || (Slot(t, last) in g.deps && e in g.deps[Slot(t, last)].subs) by {
        forall e ensures Subscribed(g, t, sel, e) <==>
          Subscribed(g, t, init, e) || (Slot(t, last) in g.deps && e in g.deps[Slot(t, last)].subs) {
          if Subscribed(g, t, sel, e) {
            var i :| 0 <= i < |sel| && Slot(t, sel[i]) in g.deps && e in g.deps[Slot(t, sel[i])].subs;
            if i < |sel| - 1 { assert init[i] == sel[i]; }
          }
          if Subscribed(g, t, init, e) {
            var i :| 0 <= i < |init| && Slot(t, init[i]) in g.deps && e in g.deps[Slot(t, init[i])].subs;
            assert sel[i] == init[i];
          }
        }
      }
      rest + (if Slot(t, last) in g.deps then g.deps[Slot(t, last)].subs else [])
  }

  /** The effect list `triggerEffects` receives: the one dep itself when a
      single dep was chosen, otherwise `createDep` of the concatenation. */
  function EffectsToNotify(g: Graph, t: nat, sel: seq<Key>): (r: seq<EffectId>)
    ensures forall e :: e in r <==> Subscribed(g, t, sel, e)
  {
    if |sel| == 1 then
      assert [] + (if Slot(t, sel[0]) in g.deps then g.deps[Slot(t, sel[0])].subs else []) == Collect(g, t, sel);
      if Slot(t, sel[0]) in g.deps then g.deps[Slot(t, sel[0])].subs else []
    else CreateDep(Collect(g, t, sel)).subs
  }

  /** The single-dep shortcut of `trigger` agrees with the general path: the
      list is the collapsed concatenation in both cases, so no effect is
      notified twice. */
  lemma ShortcutAgrees(g: Graph, t: nat, sel: seq<Key>)
    requires Consistent(g)
    ensures EffectsToNotify(g, t, sel) == Dedup(Collect(g, t, sel))
    ensures NoDups(EffectsToNotify(g, t, sel))
  {
    if |sel| == 1 {
      assert Collect(g, t, sel) == [] + (if Slot(t, sel[0]) in g.deps then g.deps[Slot(t, sel[0])].subs else []);
      if Slot(t, sel[0]) in g.deps {
        var subs := g.deps[Slot(t, sel[0])].subs;
        assert [] + subs == subs;
        DedupOfDistinct(subs);
      }
    }
  }

  // ---------------------------------------------------------------------
  // dispatch
  // ---------------------------------------------------------------------

  /** What `triggerEffect` does with one effect. */
  datatype Action = RunEffect(effect: EffectId) | CallScheduler(effect: EffectId, scheduler: nat)

  /** `effect !== activeEffect || effect.allowRecurse`. */
  predicate Fires(s: Store, e: EffectId)
    requires e in s.effects
  {
    s.active != Some(e) || s.effects[e].allowRecurse
  }

  /** `triggerEffect`: the scheduler if there is one, else `run`. */
  function TriggerEffect(s: Store, e: EffectId): (r: seq<Action>)
    requires e in s.effects
    ensures |r| <= 1 && (|r| == 1 <==> Fires(s, e))
    ensures |r| == 1 ==> r[0].effect == e && (r[0].CallScheduler? <==> s.effects[e].scheduler.Some?)
    ensures |r| == 1 && r[0].CallScheduler? ==> r[0].scheduler == s.effects[e].scheduler.value
  {
    if !Fires(s, e) then []
    else if s.effects[e].scheduler.Some? then [CallScheduler(e, s.effects[e].scheduler.value)]
    else [RunEffect(e)]
  }

  /** The ids an action list notifies, in order. */
  function Notified(plan: seq<Action>): (r: seq<EffectId>)
    ensures |r| == |plan| && forall i | 0 <= i < |plan| :: r[i] == plan[i].effect
  {
    if |plan| == 0 then [] else [plan[0].effect] + Notified(plan[1..])
  }

  /** What one loop of `triggerEffects` makes of `effects`: an action for
      each listed effect whose `computed` tag is set (`withComputed`) or
      unset and that fires, a scheduler call exactly when it has one, and
      no effect twice when the list has none twice. */
  ghost predicate Selected(s: Store, effects: seq<EffectId>, withComputed: bool, r: seq<Action>)
    requires forall e | e in effects :: e in s.effects
  {
    && (forall e :: e in Notified(r) <==> e in effects && (s.effects[e].computed.Some? == withComputed) && Fires(s, e))
    && (forall i | 0 <= i < |r| :: r[i].effect in s.effects && s.effects[r[i].effect].computed.Some? == withComputed)
    && (forall i | 0 <= i < |r| :: r[i].CallScheduler? <==> s.effects[r[i].effect].scheduler.Some?)
    && (NoDups(effects) ==> NoDups(Notified(r)))
  }

  /** One loop of `triggerEffects`: the effects of `effects` whose
      `computed` tag is set (`withComputed`) or unset, in order. */
  function Pass(s: Store, effects: seq<EffectId>, withComputed: bool): (r: seq<Action>)
    requires forall e | e in effects :: e in s.effects
    ensures Selected(s, effects, withComputed, r)
    decreases |effects|
  {
    if |effects| == 0 then []
    else
      var e := effects[0];
      var head := if s.effects[e].computed.Some? == withComputed then TriggerEffect(s, e) else [];
      var rest := Pass(s, effects[1..], withComputed);
      PassCons(s, effects, withComputed, head, rest);
      head + rest
  }

  /** The first effect's action, if any, in front of the loop's actions for
      the others. */
  lemma PassCons(s: Store, effects: seq<EffectId>, withComputed: bool, head: seq<Action>, rest: seq<Action>)
    requires |effects| > 0 && forall e | e in effects :: e in s.effects
    requires head == if s.effects[effects[0]].computed.Some? == withComputed then TriggerEffect(s, effects[0]) else []
    requires Selected(s, effects[1..], withComputed, rest)
    ensures Selected(s, effects, withComputed, head + rest)
  {
    var e := effects[0];
    var r := head + rest;
    var picked := s.effects[e].computed.Some? == withComputed && Fires(s, e);
    assert Notified(head) == if picked then [e] else [];
    NotifiedAppend(head, rest);
    assert Notified(r) == Notified(head) + Notified(rest);
    forall x
      ensures x in Notified(r) <==> x in effects && (s.effects[x].computed.Some? == withComputed) && Fires(s, x)
    {
      assert x in effects <==> x == e || x in effects[1..];
    }
    forall i | 0 <= i < |r|
      ensures r[i].effect in s.effects && s.effects[r[i].effect].computed.Some? == withComputed
      ensures r[i].CallScheduler? <==> s.effects[r[i].effect].scheduler.Some?
    {
      if i >= |head| {
        assert r[i] == rest[i - |head|];
      }
    }
    if NoDups(effects) {
      NoDupsTail(effects);
      NoDupsCons(e, Notified(rest), picked);
      assert NoDups(Notified(r));
    }
    assert Selected(s, effects, withComputed, r);
  }

  lemma NoDupsTail(effects: seq<EffectId>)
    requires |effects| > 0 && NoDups(effects)
    ensures NoDups(effects[1..]) && effects[0] !in effects[1..]
  {
    forall i, j | 0 <= i < j < |effects| - 1
      ensures effects[1..][i] != effects[1..][j]
    {
      assert effects[1..][i] == effects[i + 1];
    }
  }

  lemma NoDupsCons(e: EffectId, rest: seq<EffectId>, picked: bool)
    requires NoDups(rest) && e !in rest
    ensures NoDups((if picked then [e] else []) + rest)
  {
    if picked {
      var l := [e] + rest;
      forall i, j | 0 <= i < j < |l|
        ensures l[i] != l[j]
      {
        assert l[j] == rest[j - 1];
        if i > 0 {
          assert l[i] == rest[i - 1];
        }
      }
    } else {
      assert [] + rest == rest;
    }
  }

  lemma NotifiedAppend(a: seq<Action>, b: seq<Action>)
    ensures Notified(a + b) == Notified(a) + Notified(b)
  {
    var l, r := Notified(a + b), Notified(a) + Notified(b);
    assert |l| == |r|;
    forall i | 0 <= i < |l| ensures l[i] == r[i] {
      if i < |a| { assert (a + b)[i] == a[i]; } else { assert (a + b)[i] == b[i - |a|]; }
    }
  }

  /** `triggerEffects`: the computed effects first, then the others. */
  function TriggerEffects(s: Store, effects: seq<EffectId>): (r: seq<Action>)
    requires forall e | e in effects :: e in s.effects
    // exactly the listed effects that fire
    ensures forall e :: e in Notified(r) <==> e in effects && Fires(s, e)
    // computed-backed effects before the others
    ensures ComputedFirst(s, r)
    // a scheduler instead of a run
    ensures forall i | 0 <= i < |r| :: r[i].CallScheduler? <==> s.effects[r[i].effect].scheduler.Some?
    // each effect once
    ensures NoDups(effects) ==> NoDups(Notified(r))
  {
    var a := Pass(s, effects, true);
    var b := Pass(s, effects, false);
    JoinPasses(s, effects, a, b);
    a + b
  }

  /** The two loops together notify each firing effect once, computed-backed
      ones first. */
  lemma JoinPasses(s: Store, effects: seq<EffectId>, a: seq<Action>, b: seq<Action>)
    requires forall e | e in effects :: e in s.effects
    requires Selected(s, effects, true, a) && Selected(s, effects, false, b)
    ensures forall e :: e in Notified(a + b) <==> e in effects && Fires(s, e)
    ensures ComputedFirst(s, a + b)
    ensures forall i | 0 <= i < |a + b| :: (a + b)[i].CallScheduler? <==> s.effects[(a + b)[i].effect].scheduler.Some?
    ensures NoDups(effects) ==> NoDups(Notified(a + b))
  {
    NotifiedAppend(a, b);
    PassesInOrder(s, a, b);
    SchedulersJoin(s, a, b);
    if NoDups(effects) {
      DisjointJoin(s, Notified(a), Notified(b));
    }
  }

  lemma SchedulersJoin(s: Store, a: seq<Action>, b: seq<Action>)
    requires forall i | 0 <= i < |a| :: a[i].effect in s.effects && (a[i].CallScheduler? <==> s.effects[a[i].effect].scheduler.Some?)
    requires forall i | 0 <= i < |b| :: b[i].effect in s.effects && (b[i].CallScheduler? <==> s.effects[b[i].effect].scheduler.Some?)
    ensures forall i | 0 <= i < |a + b| :: (a + b)[i].effect in s.effects && ((a + b)[i].CallScheduler? <==> s.effects[(a + b)[i].effect].scheduler.Some?)
  {
    var r := a + b;
    forall i | 0 <= i < |r|
      ensures r[i].effect in s.effects && (r[i].CallScheduler? <==> s.effects[r[i].effect].scheduler.Some?)
    {
      if i < |a| { assert r[i] == a[i]; } else { assert r[i] == b[i - |a|]; }
    }
  }

  /** Two duplicate-free lists, one of computed-backed effects and one of
      plain ones, join without duplicates. */
  lemma DisjointJoin(s: Store, na: seq<EffectId>, nb: seq<EffectId>)
    requires NoDups(na) && NoDups(nb)
    requires forall i | 0 <= i < |na| :: na[i] in s.effects && s.effects[na[i]].computed.Some?
    requires forall i | 0 <= i < |nb| :: nb[i] in s.effects && s.effects[nb[i]].computed.None?
    ensures NoDups(na + nb)
  {
    var n := na + nb;
    forall i, j | 0 <= i < j < |n| ensures n[i] != n[j] {
      if j < |na| {
        assert n[i] == na[i] && n[j] == na[j];
      } else if i >= |na| {
        assert n[i] == nb[i - |na|] && n[j] == nb[j - |na|];
      } else {
        assert n[i] == na[i] && n[j] == nb[j - |na|];
      }
    }
  }

  /** Every action names a known effect, and no action for a computed-backed
      effect comes after one for a plain effect. */
  predicate ComputedFirst(s: Store, r: seq<Action>) {
    && (forall i | 0 <= i < |r| :: r[i].effect in s.effects)
    && forall i, j | 0 <= i < j < |r| ::
         r[j].effect in s.effects && s.effects[r[j].effect].computed.Some? ==>
         r[i].effect in s.effects && s.effects[r[i].effect].computed.Some?
  }

  lemma PassesInOrder(s: Store, a: seq<Action>, b: seq<Action>)
    requires forall i | 0 <= i < |a| :: a[i].effect in s.effects && s.effects[a[i].effect].computed.Some?
    requires forall i | 0 <= i < |b| :: b[i].effect in s.effects && s.effects[b[i].effect].computed.None?
    ensures ComputedFirst(s, a + b)
    ensures forall i | 0 <= i < |a + b| :: (a + b)[i] in a || (a + b)[i] in b
  {
    var r := a + b;
    forall i | 0 <= i < |r| ensures r[i].effect in s.effects && (r[i] in a || r[i] in b) {
      if i < |a| { assert r[i] == a[i]; } else { assert r[i] == b[i - |a|]; }
    }
    forall i, j | 0 <= i < j < |r| && s.effects[r[j].effect].computed.Some?
      ensures s.effects[r[i].effect].computed.Some?
    {
      if j >= |a| { assert r[j] == b[j - |a|]; }
      assert r[i] == a[i];
    }
  }

  // ---------------------------------------------------------------------
  // trigger
  // ---------------------------------------------------------------------

  /** `trigger(target, type, key, newValue)` on the store: nothing for a
      target that was never tracked, else the plan for the effects of the
      chosen deps. `n` is the new length for an array `length` write. */
  function TriggerPlan(s: Store, t: nat, kind: TargetKind, op: TriggerOp, key: Option<Key>, n: nat): (r: seq<Action>)
    requires Wf(s) && Consistent(s.graph)
    ensures !HasDepsMap(s.graph, t) ==> r == []
    ensures forall i | 0 <= i < |r| :: r[i].effect in s.effects
  {
    if !HasDepsMap(s.graph, t) then []
    else
      var effects := EffectsToNotify(s.graph, t, SelectKeys(TargetKeys(s.graph.order, t), kind, op, key, n));
      TriggerEffects(s, effects)
  }

  /** Which effects a trigger notifies: those subscribed to a chosen dep that
      are not the running effect (unless it allows recursion), each once,
      computed-backed ones first, through the scheduler when there is one. */
  lemma TriggerNotifies(s: Store, t: nat, kind: TargetKind, op: TriggerOp, key: Option<Key>, n: nat)
    requires Wf(s) && Consistent(s.graph) && HasDepsMap(s.graph, t)
    ensures var r := TriggerPlan(s, t, kind, op, key, n);
      var sel := SelectKeys(TargetKeys(s.graph.order, t), kind, op, key, n);
      && (forall e :: e in Notified(r) <==> Subscribed(s.graph, t, sel, e) && e in s.effects && Fires(s, e))
      && NoDups(Notified(r))
      && ComputedFirst(s, r)
      && (forall i | 0 <= i < |r| :: r[i].CallScheduler? <==> s.effects[r[i].effect].scheduler.Some?)
  {
    var sel := SelectKeys(TargetKeys(s.graph.order, t), kind, op, key, n);
    ShortcutAgrees(s.graph, t, sel);
  }

  // ---------------------------------------------------------------------
  // carrying out a plan
  // ---------------------------------------------------------------------

  /** Perform a plan: a run per `RunEffect`, with `traces[i]` the reads of the
      i-th action's run, and a scheduler call per `CallScheduler`. */
  function Perform(s: Store, plan: seq<Action>, traces: seq<seq<DepKey>>): (r: Outcome)
    requires Wf(s) && |traces| == |plan|
    requires forall i | 0 <= i < |plan| :: plan[i].effect in s.effects
    ensures Wf(r.store) && r.store.effects.Keys == s.effects.Keys
    ensures |r.events| >= |plan| - CountRuns(plan) && CountSchedulerCalls(r.events) == |plan| - CountRuns(plan)
    decreases |plan|
  {
    if |plan| == 0 then Outcome(s, [])
    else
      var first := match plan[0]
        case RunEffect(e) => Run(s, e, traces[0], false)
        case CallScheduler(e, sch) => Outcome(s, [CalledScheduler(e, sch)]);
      assert CountSchedulerCalls(first.events) == if plan[0].CallScheduler? then 1 else 0 by {
        if plan[0].RunEffect? { RunEvents(s, plan[0].effect, traces[0]); }
      }
      var rest := Perform(first.store, plan[1..], traces[1..]);
      CountAppend(first.events, rest.events);
      Outcome(rest.store, first.events + rest.events)
  }

  function CountRuns(plan: seq<Action>): (r: nat)
    ensures r <= |plan|
  {
    if |plan| == 0 then 0 else (if plan[0].RunEffect? then 1 else 0) + CountRuns(plan[1..])
  }

  function CountSchedulerCalls(events: seq<Event>): (r: nat)
    ensures r <= |events|
  {
    if |events| == 0 then 0 else (if events[0].CalledScheduler? then 1 else 0) + CountSchedulerCalls(events[1..])
  }

  lemma {:induction false} CountAppend(a: seq<Event>, b: seq<Event>)
    ensures CountSchedulerCalls(a + b) == CountSchedulerCalls(a) + CountSchedulerCalls(b)
    decreases |a|
  {
    if |a| > 0 {
      assert (a + b)[0] == a[0];
      assert (a + b)[1..] == a[1..] + b;
      CountAppend(a[1..], b);
    } else {
      assert a + b == b;
    }
  }

  /** A run calls no scheduler. */
  lemma RunEvents(s: Store, id: EffectId, trace: seq<DepKey>)
    requires Wf(s) && id in s.effects
    ensures CountSchedulerCalls(Run(s, id, trace, false).events) == 0
  {
    var r := Run(s, id, trace, false);
    if s.effects[id].active && !OnParentChain(s, id) {
      ActiveNotOffChain(s, id);
      var b := RunBody(s, id, trace, false);
      if b.effects[id].deferStop {
        var st := Stop(b, id);
        assert CountSchedulerCalls(st.events) == 0;
        CountAppend([CalledFn(id)], st.events);
      }
    }
  }
}
