/**
 * The subscription graph of effect.ts: every dep keyed by the slot it
 * guards, in creation order, and every effect's `deps` array. The two sides
 * point at each other: an effect lists a dep exactly when the dep holds the
 * effect. `trackEffects`, `initDepMarkers`, `finalizeDepMarkers` and
 * `cleanupEffect` act on this graph only; effect.ts drives them.
 */
module DepGraph {
  import opened Keys
  import opened Dep

  /** `maxMarkerBits`: up to this nesting depth deps are retracked with the
      generation markers, beyond it an effect is cleaned up before each run. */
  const MaxMarkerBits: nat := 30

  /** Identity of a dep: the (target, key) slot of `targetMap`, or the own dep
      of a ref-like object such as a computed value. */
  datatype DepKey = Slot(target: nat, key: Key) | RefDep(ref: nat)

  /** `deps` maps each slot to its dep; `order` is the creation order of the
      deps (restricted to one target: the insertion order of its key map);
      `depsOf` is the `deps` array of each effect. */
  datatype Graph = Graph(deps: map<DepKey, Dep>, order: seq<DepKey>, depsOf: map<EffectId, seq<DepKey>>)

  const Empty: Graph := Graph(map[], [], map[])

  /** `order` lists every dep once. */
  predicate OrderValid(g: Graph) {
    && NoDups(g.order)
    && (forall k | k in g.order :: k in g.deps)
    && (forall k | k in g.deps :: k in g.order)
  }

  /** The two directions of the graph agree and neither repeats an entry. */
  predicate Consistent(g: Graph) {
    && (forall e | e in g.depsOf :: NoDups(g.depsOf[e]))
    && (forall k | k in g.deps :: NoDups(g.deps[k].subs))
    && (forall e, k | e in g.depsOf && k in g.depsOf[e] :: k in g.deps && e in g.deps[k].subs)
    && (forall k, e | k in g.deps && e in g.deps[k].subs :: e in g.depsOf && k in g.depsOf[e])
  }

  /** No dep carries a marker bit of nesting level `level`. */
  predicate LevelClear(g: Graph, level: nat) {
    forall k | k in g.deps :: level !in g.deps[k].w && level !in g.deps[k].n
  }

  // ---------------------------------------------------------------------
  // track
  // ---------------------------------------------------------------------

  /** `depsMap.get(key)`, creating an empty dep on first use. */
  function EnsureDep(g: Graph, k: DepKey): (r: Graph)
    ensures k in r.deps && r.deps.Keys == g.deps.Keys + {k}
    ensures forall j | j in g.deps :: r.deps[j] == g.deps[j]
    ensures k !in g.deps ==> r.deps[k] == Dep([], {}, {})
    ensures r.depsOf == g.depsOf
    ensures OrderValid(g) ==> OrderValid(r)
  {
    if k in g.deps then g else g.(deps := g.deps[k := CreateDep([])], order := g.order + [k])
  }

  /** `dep.add(activeEffect)` and `activeEffect.deps.push(dep)`, with `d` as
      the new state of the dep before the insertion. */
  function Bind(g: Graph, a: EffectId, k: DepKey, d: Dep): (r: Graph)
    requires k in g.deps && a in g.depsOf
    ensures r.deps.Keys == g.deps.Keys && r.depsOf.Keys == g.depsOf.Keys && r.order == g.order
  {
    g.(deps := g.deps[k := Add(d, a)], depsOf := g.depsOf[a := g.depsOf[a] + [k]])
  }

  /** `trackEffects` at a depth `level` within the marker cap: mark the dep
      as newly tracked, and bind it unless it already was new or was tracked
      by the previous run. */
  function TrackMarked(g: Graph, a: EffectId, k: DepKey, level: nat): (r: Graph)
    requires k in g.deps && a in g.depsOf
    ensures r.deps.Keys == g.deps.Keys && r.depsOf.Keys == g.depsOf.Keys && r.order == g.order
  {
    var d := g.deps[k];
    if NewTracked(d, level) then g
    else
      var marked := d.(n := d.n + {level});
      if !WasTracked(marked, level) then Bind(g, a, k, marked)
      else g.(deps := g.deps[k := marked])
  }

  /** `trackEffects` beyond the marker cap: bind unless already subscribed. */
  function TrackUnmarked(g: Graph, a: EffectId, k: DepKey): (r: Graph)
    requires k in g.deps && a in g.depsOf
    ensures r.deps.Keys == g.deps.Keys && r.depsOf.Keys == g.depsOf.Keys && r.order == g.order
  {
    if a !in g.deps[k].subs then Bind(g, a, k, g.deps[k]) else g
  }

  /** `track` of slot `k` by effect `a` running at nesting depth `depth`. */
  function TrackDep(g: Graph, a: EffectId, k: DepKey, depth: nat): (r: Graph)
    requires a in g.depsOf
    ensures k in r.deps && r.deps.Keys == g.deps.Keys + {k} && r.depsOf.Keys == g.depsOf.Keys
    ensures forall j | j in g.deps && j != k :: r.deps[j] == g.deps[j]
    ensures forall e | e in g.depsOf && e != a :: r.depsOf[e] == g.depsOf[e]
    ensures OrderValid(g) ==> OrderValid(r)
  {
    var g1 := EnsureDep(g, k);
    if depth <= MaxMarkerBits then TrackMarked(g1, a, k, depth) else TrackUnmarked(g1, a, k)
  }

  /** The tracked reads of one run of `a`, in order. */
  function TrackAll(g: Graph, a: EffectId, depth: nat, trace: seq<DepKey>): (r: Graph)
    requires a in g.depsOf
    ensures r.depsOf.Keys == g.depsOf.Keys
    ensures forall k :: k in r.deps <==> k in g.deps || k in trace
    ensures OrderValid(g) ==> OrderValid(r)
    decreases |trace|
  {
    if |trace| == 0 then g
    else
      var init := trace[..|trace| - 1];
      assert trace == init + [trace[|trace| - 1]];
      TrackDep(TrackAll(g, a, depth, init), a, trace[|trace| - 1], depth)
  }

  // ---------------------------------------------------------------------
  // markers and cleanup
  // ---------------------------------------------------------------------

  /** `initDepMarkers(effect)`: set the `w` bit of `level` on every dep the
      effect currently lists. */
  function InitMarkers(g: Graph, id: EffectId, level: nat): (r: Graph)
    requires id in g.depsOf
    ensures r.depsOf == g.depsOf && r.order == g.order && r.deps.Keys == g.deps.Keys
    ensures forall k | k in r.deps :: r.deps[k].subs == g.deps[k].subs && r.deps[k].n == g.deps[k].n
    ensures forall k | k in r.deps ::
      r.deps[k].w == (if k in g.depsOf[id] then g.deps[k].w + {level} else g.deps[k].w)
  {
    g.(deps := map k | k in g.deps :: if k in g.depsOf[id] then g.deps[k].(w := g.deps[k].w + {level}) else g.deps[k])
  }

  /** `cleanupEffect(effect)`: leave every listed dep, then empty the list. */
  function Cleanup(g: Graph, id: EffectId): (r: Graph)
    requires id in g.depsOf
    ensures r.depsOf == g.depsOf[id := []] && r.order == g.order && r.deps.Keys == g.deps.Keys
    ensures forall k | k in r.deps :: r.deps[k].w == g.deps[k].w && r.deps[k].n == g.deps[k].n
    ensures forall k | k in r.deps && k !in g.depsOf[id] :: r.deps[k] == g.deps[k]
    ensures forall k | k in r.deps && k in g.depsOf[id] :: r.deps[k] == Delete(g.deps[k], id)
  {
    g.(deps := map k | k in g.deps :: if k in g.depsOf[id] then Delete(g.deps[k], id) else g.deps[k],
       depsOf := g.depsOf[id := []])
  }

  /** The finalisation test: tracked by the previous run, not by this one. */
  predicate Stale(d: Dep, level: nat) {
    WasTracked(d, level) && !NewTracked(d, level)
  }

  /** One dep at finalisation: a stale dep drops the effect, and both marker
      bits of `level` are cleared. */
  function Settle(d: Dep, id: EffectId, level: nat): (r: Dep)
    ensures r.w == d.w - {level} && r.n == d.n - {level}
    ensures forall e :: e in r.subs <==> e in d.subs && !(e == id && Stale(d, level))
    ensures NoDups(d.subs) ==> NoDups(r.subs)
  {
    (if Stale(d, level) then Delete(d, id) else d).(w := d.w - {level}, n := d.n - {level})
  }

  /** The loop of `finalizeDepMarkers` over the list `ks`: returns the new
      dep map and the compacted list, which keeps the deps that are not stale. */
  function Finalize(deps: map<DepKey, Dep>, ks: seq<DepKey>, id: EffectId, level: nat): (r: (map<DepKey, Dep>, seq<DepKey>))
    ensures r.0.Keys == deps.Keys
    decreases |ks|
  {
    if |ks| == 0 then (deps, [])
    else if ks[0] in deps then
      var rest := Finalize(deps[ks[0] := Settle(deps[ks[0]], id, level)], ks[1..], id, level);
      (rest.0, if Stale(deps[ks[0]], level) then rest.1 else [ks[0]] + rest.1)
    else
      var rest := Finalize(deps, ks[1..], id, level);
      (rest.0, [ks[0]] + rest.1)
  }

  /** `finalizeDepMarkers(effect)`. */
  function FinalizeMarkers(g: Graph, id: EffectId, level: nat): (r: Graph)
    requires id in g.depsOf
    ensures r.deps.Keys == g.deps.Keys && r.depsOf.Keys == g.depsOf.Keys && r.order == g.order
    ensures forall e | e in g.depsOf && e != id :: r.depsOf[e] == g.depsOf[e]
  {
    var f := Finalize(g.deps, g.depsOf[id], id, level);
    g.(deps := f.0, depsOf := g.depsOf[id := f.1])
  }

  // ---------------------------------------------------------------------
  // consistency of the single steps
  // ---------------------------------------------------------------------

  lemma EnsureDepPreserves(g: Graph, k: DepKey)
    requires Consistent(g)
    ensures Consistent(EnsureDep(g, k))
  {
  }

  /** Replacing a dep's markers keeps the graph consistent. */
  lemma RemarkPreserves(g: Graph, k: DepKey, d: Dep)
    requires Consistent(g) && k in g.deps && d.subs == g.deps[k].subs
    ensures Consistent(g.(deps := g.deps[k := d]))
  {
  }

  /** Binding an effect to a dep it is not subscribed to keeps the graph consistent. */
  lemma BindPreserves(g: Graph, a: EffectId, k: DepKey, d: Dep)
    requires Consistent(g) && k in g.deps && a in g.depsOf
    requires d.subs == g.deps[k].subs && a !in d.subs
    ensures Consistent(Bind(g, a, k, d))
  {
    var r := Bind(g, a, k, d);
    assert k !in g.depsOf[a];
    forall e, j | e in r.depsOf && j in r.depsOf[e] ensures j in r.deps && e in r.deps[j].subs {
      if e == a && j == k {
      } else if e == a {
        assert j in g.depsOf[a];
      }
    }
  }

  /** `cleanupEffect` keeps the graph consistent and leaves the effect in no dep. */
  lemma CleanupPreserves(g: Graph, id: EffectId)
    requires Consistent(g) && id in g.depsOf
    ensures Consistent(Cleanup(g, id))
    ensures forall k | k in Cleanup(g, id).deps :: id !in Cleanup(g, id).deps[k].subs
  {
  }

  // ---------------------------------------------------------------------
  // a marked re-run: initDepMarkers, the tracked reads, finalizeDepMarkers
  // ---------------------------------------------------------------------

  /** The `w` marker a slot had before the run (none if it had no dep yet). */
  function OldW(g0: Graph, k: DepKey): set<nat> {
    if k in g0.deps then g0.deps[k].w else {}
  }

  /** The `n` marker a slot had before the run. */
  function OldN(g0: Graph, k: DepKey): set<nat> {
    if k in g0.deps then g0.deps[k].n else {}
  }

  /** The state `d` of the dep of `k` during a marked run of `id` at level
      `level` that started from `g0` and has performed the reads `p`: the `w`
      bit marks the deps of the previous run, the `n` bit the deps read so
      far, the effect is subscribed to both, and the other levels' bits are
      as before. */
  ghost predicate KeyState(g0: Graph, id: EffectId, level: nat, p: seq<DepKey>, k: DepKey, d: Dep)
    requires id in g0.depsOf
  {
    && (level in d.w <==> k in g0.depsOf[id])
    && (level in d.n <==> k in p)
    && (id in d.subs <==> k in g0.depsOf[id] || k in p)
    && d.w - {level} == OldW(g0, k) - {level}
    && d.n - {level} == OldN(g0, k) - {level}
  }

  /** A read of another slot leaves the state of `k` valid. */
  lemma KeyStateExtend(g0: Graph, id: EffectId, level: nat, p: seq<DepKey>, k: DepKey, d: Dep, j: DepKey)
    requires id in g0.depsOf && KeyState(g0, id, level, p, k, d) && j != k
    ensures KeyState(g0, id, level, p + [j], k, d)
  {
    assert k in p + [j] <==> k in p;
  }

  /** The graph during a marked run of `id`. */
  ghost predicate MarkedRun(g0: Graph, id: EffectId, level: nat, p: seq<DepKey>, g: Graph)
    requires id in g0.depsOf
  {
    && Consistent(g) && g.depsOf.Keys == g0.depsOf.Keys
    && (forall k :: k in g.deps <==> k in g0.deps || k in p)
    && (forall e | e in g0.depsOf && e != id :: g.depsOf[e] == g0.depsOf[e])
    && (forall k | k in g.deps :: KeyState(g0, id, level, p, k, g.deps[k]))
  }

  /** Only the dep of `k` and the effect's own list change in one step. */
  lemma MarkedFrame(g0: Graph, id: EffectId, level: nat, p: seq<DepKey>, g: Graph, k: DepKey)
    requires id in g0.depsOf && MarkedRun(g0, id, level, p, g)
    requires Consistent(TrackDep(g, id, k, level))
    requires KeyState(g0, id, level, p + [k], k, TrackDep(g, id, k, level).deps[k])
    ensures MarkedRun(g0, id, level, p + [k], TrackDep(g, id, k, level))
  {
    StepFrame(g0, id, level, p, g, k, TrackDep(g, id, k, level));
  }

  /** `MarkedFrame` for any graph that changes at most the dep of `k` and
      the effect's own list. */
  lemma StepFrame(g0: Graph, id: EffectId, level: nat, p: seq<DepKey>, g: Graph, k: DepKey, r: Graph)
    requires id in g0.depsOf && MarkedRun(g0, id, level, p, g)
    requires Consistent(r) && k in r.deps && r.deps.Keys == g.deps.Keys + {k} && r.depsOf.Keys == g.depsOf.Keys
    requires forall j | j in g.deps && j != k :: r.deps[j] == g.deps[j]
    requires forall e | e in g.depsOf && e != id :: r.depsOf[e] == g.depsOf[e]
    requires KeyState(g0, id, level, p + [k], k, r.deps[k])
    ensures MarkedRun(g0, id, level, p + [k], r)
  {
    forall j | j in r.deps ensures KeyState(g0, id, level, p + [k], j, r.deps[j]) {
      if j != k {
        KeyStateExtend(g0, id, level, p, j, g.deps[j], k);
      }
    }
    forall j
      ensures j in r.deps <==> j in g0.deps || j in p + [k]
    {
      assert j in p + [k] <==> j in p || j == k;
    }
    assert r.depsOf.Keys == g0.depsOf.Keys;
  }

  lemma MarkedStart(g0: Graph, id: EffectId, level: nat)
    requires Consistent(g0) && id in g0.depsOf && LevelClear(g0, level)
    ensures MarkedRun(g0, id, level, [], InitMarkers(g0, id, level))
  {
    var r := InitMarkers(g0, id, level);
    forall k | k in r.deps ensures KeyState(g0, id, level, [], k, r.deps[k]) {
    }
  }

  /** A read of `k` that the run has already made changes nothing. */
  lemma MarkedRepeat(g0: Graph, id: EffectId, level: nat, p: seq<DepKey>, g: Graph, k: DepKey)
    requires id in g0.depsOf && 1 <= level <= MaxMarkerBits
    requires MarkedRun(g0, id, level, p, g) && k in p
    ensures TrackDep(g, id, k, level) == g
    ensures MarkedRun(g0, id, level, p + [k], g)
  {
    assert KeyState(g0, id, level, p, k, g.deps[k]);
    forall j | j in g.deps ensures KeyState(g0, id, level, p + [k], j, g.deps[j]) {
      assert j in p + [k] <==> j in p;
    }
  }

  /** A first read of a dep of the previous run only sets its `n` bit. */
  lemma MarkedKeep(g0: Graph, id: EffectId, level: nat, p: seq<DepKey>, g: Graph, k: DepKey)
    requires Consistent(g0) && id in g0.depsOf && 1 <= level <= MaxMarkerBits
    requires MarkedRun(g0, id, level, p, g) && k !in p && k in g0.depsOf[id]
    ensures MarkedRun(g0, id, level, p + [k], TrackDep(g, id, k, level))
  {
    var d := g.deps[k];
    assert KeyState(g0, id, level, p, k, d);
    var marked := d.(n := d.n + {level});
    assert TrackDep(g, id, k, level) == g.(deps := g.deps[k := marked]);
    RemarkPreserves(g, k, marked);
    MarkedFrame(g0, id, level, p, g, k);
  }

  /** Before its first read in the run, a slot the previous run did not read
      has a dep (possibly a fresh one) with neither bit of `level` and
      without the effect. */
  lemma Unread(g0: Graph, id: EffectId, level: nat, p: seq<DepKey>, g: Graph, k: DepKey)
    requires Consistent(g0) && id in g0.depsOf
    requires MarkedRun(g0, id, level, p, g) && k !in p && k !in g0.depsOf[id]
    ensures var d := EnsureDep(g, k).deps[k];
      && level !in d.w && level !in d.n && id !in d.subs
      && d.w - {level} == OldW(g0, k) - {level} && d.n - {level} == OldN(g0, k) - {level}
  {
    if k in g.deps {
      assert KeyState(g0, id, level, p, k, g.deps[k]);
    }
  }

  /** The dep of a slot the previous run did not read, after its first read. */
  lemma AddedState(g0: Graph, id: EffectId, level: nat, p: seq<DepKey>, g: Graph, k: DepKey)
    requires id in g0.depsOf && 1 <= level <= MaxMarkerBits
    requires Consistent(g) && id in g.depsOf && k !in p && k !in g0.depsOf[id]
    requires var d := EnsureDep(g, k).deps[k];
      && level !in d.w && level !in d.n && id !in d.subs
      && d.w - {level} == OldW(g0, k) - {level} && d.n - {level} == OldN(g0, k) - {level}
    ensures Consistent(TrackDep(g, id, k, level))
    ensures KeyState(g0, id, level, p + [k], k, TrackDep(g, id, k, level).deps[k])
  {
    var g1 := EnsureDep(g, k);
    EnsureDepPreserves(g, k);
    var d := g1.deps[k];
    var marked := d.(n := d.n + {level});
    assert TrackDep(g, id, k, level) == Bind(g1, id, k, marked);
    BindPreserves(g1, id, k, marked);
  }

  /** A first read of a slot the previous run did not read binds it. */
  lemma MarkedAdd(g0: Graph, id: EffectId, level: nat, p: seq<DepKey>, g: Graph, k: DepKey)
    requires Consistent(g0) && id in g0.depsOf && 1 <= level <= MaxMarkerBits
    requires MarkedRun(g0, id, level, p, g) && k !in p && k !in g0.depsOf[id]
    ensures MarkedRun(g0, id, level, p + [k], TrackDep(g, id, k, level))
  {
    Unread(g0, id, level, p, g, k);
    AddedState(g0, id, level, p, g, k);
    MarkedFrame(g0, id, level, p, g, k);
  }

  lemma MarkedStep(g0: Graph, id: EffectId, level: nat, p: seq<DepKey>, g: Graph, k: DepKey)
    requires Consistent(g0) && id in g0.depsOf && 1 <= level <= MaxMarkerBits
    requires MarkedRun(g0, id, level, p, g)
    ensures MarkedRun(g0, id, level, p + [k], TrackDep(g, id, k, level))
  {
    if k in p {
      MarkedRepeat(g0, id, level, p, g, k);
    } else if k in g0.depsOf[id] {
      MarkedKeep(g0, id, level, p, g, k);
    } else {
      MarkedAdd(g0, id, level, p, g, k);
    }
  }

  lemma {:induction false} MarkedReads(g0: Graph, id: EffectId, level: nat, g: Graph, trace: seq<DepKey>)
    requires Consistent(g0) && id in g0.depsOf && 1 <= level <= MaxMarkerBits
    requires MarkedRun(g0, id, level, [], g)
    ensures MarkedRun(g0, id, level, trace, TrackAll(g, id, level, trace))
    decreases |trace|
  {
    if |trace| > 0 {
      var init, last := trace[..|trace| - 1], trace[|trace| - 1];
      assert init + [last] == trace;
      var x := TrackAll(g, id, level, init);
      assert TrackAll(g, id, level, trace) == TrackDep(x, id, last, level);
      MarkedReads(g0, id, level, g, init);
      MarkedStep(g0, id, level, init, x, last);
    }
  }

  /** The finalisation loop settles each listed dep once and keeps, in order,
      exactly the listed deps that are not stale. */
  lemma {:induction false} FinalizeSpec(deps: map<DepKey, Dep>, ks: seq<DepKey>, id: EffectId, level: nat)
    requires NoDups(ks) && forall k | k in ks :: k in deps
    ensures forall k | k in deps ::
      Finalize(deps, ks, id, level).0[k] == if k in ks then Settle(deps[k], id, level) else deps[k]
    ensures forall k :: k in Finalize(deps, ks, id, level).1 <==> k in ks && !Stale(deps[k], level)
    ensures NoDups(Finalize(deps, ks, id, level).1)
    decreases |ks|
  {
    if |ks| > 0 {
      var k0 := ks[0];
      var deps' := deps[k0 := Settle(deps[k0], id, level)];
      assert NoDups(ks[1..]);
      assert k0 !in ks[1..];
      assert forall k :: k in ks <==> k == k0 || k in ks[1..];
      FinalizeSpec(deps', ks[1..], id, level);
    }
  }

  /** The outcome of re-running `id` with the reads `trace` from `g0`: the
      effect is subscribed to exactly the slots it read, every other effect
      keeps its subscriptions, the markers are as before, and the graph is
      consistent. */
  ghost predicate Retracked(g0: Graph, id: EffectId, trace: seq<DepKey>, r: Graph)
    requires id in g0.depsOf
  {
    && Consistent(r) && r.depsOf.Keys == g0.depsOf.Keys
    && (forall k :: k in r.deps <==> k in g0.deps || k in trace)
    && (forall e | e in g0.depsOf && e != id :: r.depsOf[e] == g0.depsOf[e])
    && (forall k :: k in r.depsOf[id] <==> k in trace)
    && (forall k | k in r.deps :: r.deps[k].w == OldW(g0, k) && r.deps[k].n == OldN(g0, k))
  }

  /** What the finalisation sees for each dep at the end of a marked run. */
  lemma FinishKeys(g0: Graph, id: EffectId, level: nat, trace: seq<DepKey>, g: Graph)
    requires Consistent(g0) && id in g0.depsOf && LevelClear(g0, level)
    requires MarkedRun(g0, id, level, trace, g)
    ensures forall k | k in g.deps :: k in g.depsOf[id] <==> k in g0.depsOf[id] || k in trace
    ensures forall k | k in g.deps :: Stale(g.deps[k], level) <==> k in g0.depsOf[id] && k !in trace
    ensures forall k | k in g.deps && k !in g.depsOf[id] :: g.deps[k].w == OldW(g0, k) && g.deps[k].n == OldN(g0, k)
    ensures forall k | k in g.deps :: g.deps[k].w - {level} == OldW(g0, k) && g.deps[k].n - {level} == OldN(g0, k)
  {
    forall k | k in g.deps
      ensures k in g.depsOf[id] <==> k in g0.depsOf[id] || k in trace
      ensures Stale(g.deps[k], level) <==> k in g0.depsOf[id] && k !in trace
      ensures g.deps[k].w - {level} == OldW(g0, k) && g.deps[k].n - {level} == OldN(g0, k)
    {
      assert KeyState(g0, id, level, trace, k, g.deps[k]);
      assert level !in OldW(g0, k) && level !in OldN(g0, k);
    }
  }

  /** `finalizeDepMarkers` completes a marked run. */
  lemma MarkedFinish(g0: Graph, id: EffectId, level: nat, trace: seq<DepKey>, g: Graph)
    requires Consistent(g0) && id in g0.depsOf && LevelClear(g0, level)
    requires MarkedRun(g0, id, level, trace, g)
    ensures Retracked(g0, id, trace, FinalizeMarkers(g, id, level))
  {
    var ks := g.depsOf[id];
    FinishKeys(g0, id, level, trace, g);
    FinalizeSpec(g.deps, ks, id, level);
    var r := FinalizeMarkers(g, id, level);
    forall k | k in r.deps ensures r.deps[k].w == OldW(g0, k) && r.deps[k].n == OldN(g0, k) {
    }
    FinishConsistent(g, id, level);
  }

  /** `finalizeDepMarkers` keeps the graph consistent. */
  lemma FinishConsistent(g: Graph, id: EffectId, level: nat)
    requires Consistent(g) && id in g.depsOf
    ensures Consistent(FinalizeMarkers(g, id, level))
  {
    var ks := g.depsOf[id];
    FinalizeSpec(g.deps, ks, id, level);
    var r := FinalizeMarkers(g, id, level);
    forall e, k | e in r.depsOf && k in r.depsOf[e] ensures k in r.deps && e in r.deps[k].subs {
      if e == id {
        assert k in ks && !Stale(g.deps[k], level);
      } else {
        assert k in g.depsOf[e];
      }
    }
    forall k, e | k in r.deps && e in r.deps[k].subs ensures e in r.depsOf && k in r.depsOf[e] {
      assert e in g.deps[k].subs;
    }
  }

  // ---------------------------------------------------------------------
  // a re-run beyond the marker cap: cleanupEffect, then the tracked reads
  // ---------------------------------------------------------------------

  /** The graph during a run of `id` beyond the marker cap that started from
      `g0` and has performed the reads `p`. */
  ghost predicate FullRun(g0: Graph, id: EffectId, p: seq<DepKey>, g: Graph)
    requires id in g0.depsOf
  {
    && Consistent(g) && g.depsOf.Keys == g0.depsOf.Keys
    && (forall k :: k in g.deps <==> k in g0.deps || k in p)
    && (forall e | e in g0.depsOf && e != id :: g.depsOf[e] == g0.depsOf[e])
    && (forall k :: k in g.depsOf[id] <==> k in p)
    && (forall k | k in g.deps :: g.deps[k].w == OldW(g0, k) && g.deps[k].n == OldN(g0, k))
  }

  lemma FullStart(g0: Graph, id: EffectId)
    requires Consistent(g0) && id in g0.depsOf
    ensures FullRun(g0, id, [], Cleanup(g0, id))
  {
    CleanupPreserves(g0, id);
  }

  /** Only the dep of `k` and the effect's own list change in one step. */
  lemma FullFrame(g0: Graph, id: EffectId, depth: nat, p: seq<DepKey>, g: Graph, k: DepKey)
    requires id in g0.depsOf && depth > MaxMarkerBits && FullRun(g0, id, p, g)
    requires var r := TrackDep(g, id, k, depth);
      && Consistent(r) && (forall j :: j in r.depsOf[id] <==> j in p || j == k)
      && r.deps[k].w == OldW(g0, k) && r.deps[k].n == OldN(g0, k)
    ensures FullRun(g0, id, p + [k], TrackDep(g, id, k, depth))
  {
    var r := TrackDep(g, id, k, depth);
    forall j | j in r.deps ensures r.deps[j].w == OldW(g0, j) && r.deps[j].n == OldN(g0, j) {
      if j != k {
        assert r.deps[j] == g.deps[j];
      }
    }
    forall j
      ensures j in r.deps <==> j in g0.deps || j in p + [k]
    {
      assert j in p + [k] <==> j in p || j == k;
    }
    assert r.depsOf.Keys == g0.depsOf.Keys;
  }

  /** One read beyond the cap of a slot already read binds nothing new. */
  lemma FullStepSeen(id: EffectId, depth: nat, p: seq<DepKey>, g: Graph, k: DepKey)
    requires depth > MaxMarkerBits && k in p
    requires Consistent(g) && id in g.depsOf && (forall j :: j in g.depsOf[id] <==> j in p)
    ensures TrackDep(g, id, k, depth) == g
  {
  }

  /** The first read beyond the cap of a slot binds it. */
  lemma FullStepNew(id: EffectId, depth: nat, p: seq<DepKey>, g: Graph, k: DepKey)
    requires depth > MaxMarkerBits && k !in p
    requires Consistent(g) && id in g.depsOf && (forall j :: j in g.depsOf[id] <==> j in p)
    ensures var r := TrackDep(g, id, k, depth);
      && Consistent(r) && (forall j :: j in r.depsOf[id] <==> j in p || j == k)
      && r.deps[k].w == EnsureDep(g, k).deps[k].w && r.deps[k].n == EnsureDep(g, k).deps[k].n
  {
    var g1 := EnsureDep(g, k);
    EnsureDepPreserves(g, k);
    assert id !in g1.deps[k].subs;
    assert TrackDep(g, id, k, depth) == Bind(g1, id, k, g1.deps[k]);
    BindPreserves(g1, id, k, g1.deps[k]);
  }

  lemma FullStep(g0: Graph, id: EffectId, depth: nat, p: seq<DepKey>, g: Graph, k: DepKey)
    requires id in g0.depsOf && depth > MaxMarkerBits
    requires FullRun(g0, id, p, g)
    ensures FullRun(g0, id, p + [k], TrackDep(g, id, k, depth))
  {
    if k in p {
      FullStepSeen(id, depth, p, g, k);
      assert forall j :: j in p + [k] <==> j in p;
    } else {
      FullStepNew(id, depth, p, g, k);
      FullFrame(g0, id, depth, p, g, k);
    }
  }

  lemma {:induction false} FullReads(g0: Graph, id: EffectId, depth: nat, g: Graph, trace: seq<DepKey>)
    requires id in g0.depsOf && depth > MaxMarkerBits
    requires FullRun(g0, id, [], g)
    ensures FullRun(g0, id, trace, TrackAll(g, id, depth, trace))
    decreases |trace|
  {
    if |trace| > 0 {
      var init, last := trace[..|trace| - 1], trace[|trace| - 1];
      assert init + [last] == trace;
      var x := TrackAll(g, id, depth, init);
      assert TrackAll(g, id, depth, trace) == TrackDep(x, id, last, depth);
      FullReads(g0, id, depth, g, init);
      FullStep(g0, id, depth, init, x, last);
    }
  }

  // ---------------------------------------------------------------------
  // the graph side of one run
  // ---------------------------------------------------------------------

  /** What one run of `id` at nesting depth `depth` does to the graph: the
      marker scheme up to `maxMarkerBits`, full cleanup beyond it. */
  function RunGraph(g: Graph, id: EffectId, depth: nat, trace: seq<DepKey>): (r: Graph)
    requires id in g.depsOf
    ensures r.depsOf.Keys == g.depsOf.Keys
    ensures OrderValid(g) ==> OrderValid(r)
  {
    if depth <= MaxMarkerBits then
      FinalizeMarkers(TrackAll(InitMarkers(g, id, depth), id, depth, trace), id, depth)
    else
      TrackAll(Cleanup(g, id), id, depth, trace)
  }

  /** Dynamic dependency tracking: after a run, whichever scheme the depth
      selects, the effect is subscribed to exactly the slots this run read;
      deps of the previous run that were not read again have let it go. */
  lemma RunRetracks(g: Graph, id: EffectId, depth: nat, trace: seq<DepKey>)
    requires Consistent(g) && id in g.depsOf && depth >= 1
    requires depth <= MaxMarkerBits ==> LevelClear(g, depth)
    ensures Retracked(g, id, trace, RunGraph(g, id, depth, trace))
  {
    if depth <= MaxMarkerBits {
      var g1 := InitMarkers(g, id, depth);
      MarkedStart(g, id, depth);
      MarkedReads(g, id, depth, g1, trace);
      MarkedFinish(g, id, depth, trace, TrackAll(g1, id, depth, trace));
    } else {
      FullStart(g, id);
      FullReads(g, id, depth, Cleanup(g, id), trace);
    }
  }

  /** A level no dep carried a bit of before a run carries none after it. */
  lemma RetrackedKeepsClear(g0: Graph, id: EffectId, trace: seq<DepKey>, r: Graph, level: nat)
    requires id in g0.depsOf && Retracked(g0, id, trace, r) && LevelClear(g0, level)
    ensures LevelClear(r, level)
  {
  }
}
