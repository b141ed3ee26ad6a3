/**
 * The subscription set of one observable slot (dep.ts): the effects that
 * depend on it, in insertion order, plus the two generation markers
 * `w` (was tracked) and `n` (newly tracked). In the source each marker is a
 * 32-bit integer used as a bit set with one bit per effect nesting level;
 * the model keeps the set of levels, and the last part of this module shows
 * that the integer operations of the source act on that set as intended for
 * the levels 1..30 at which markers are used.
 */
module Dep {

  type EffectId = nat

  /** A dep: its subscribers in insertion order and the two markers, each
      given as the set of nesting levels whose bit is set (see `Levels`). */
  datatype Dep = Dep(subs: seq<EffectId>, w: set<nat>, n: set<nat>)

  predicate NoDups<T(==)>(s: seq<T>) {
    forall i, j | 0 <= i < j < |s| :: s[i] != s[j]
  }

  /** `new Set(xs)`: the first occurrence of each element, in order. */
  function Dedup<T(==,!new)>(xs: seq<T>): (r: seq<T>)
    ensures NoDups(r)
    ensures forall x :: x in r <==> x in xs
    ensures |r| <= |xs|
  {
    if |xs| == 0 then []
    else
      var rest := Dedup(xs[..|xs| - 1]);
      assert forall x :: x in xs <==> x in xs[..|xs| - 1] || x == xs[|xs| - 1] by {
        assert xs == xs[..|xs| - 1] + [xs[|xs| - 1]];
      }
      if xs[|xs| - 1] in rest then rest else rest + [xs[|xs| - 1]]
  }

  /** Collapsing duplicates changes nothing when there are none. */
  lemma {:induction false} DedupOfDistinct<T(!new)>(xs: seq<T>)
    requires NoDups(xs)
    ensures Dedup(xs) == xs
  {
    if |xs| > 0 {
      var init := xs[..|xs| - 1];
      assert NoDups(init);
      DedupOfDistinct(init);
      assert xs[|xs| - 1] !in init;
      assert xs == init + [xs[|xs| - 1]];
    }
  }

  /** `s` without `x` (the element order of the rest is kept). */
  function Remove<T(==,!new)>(s: seq<T>, x: T): (r: seq<T>)
    ensures forall y :: y in r <==> y in s && y != x
    ensures NoDups(s) ==> NoDups(r)
    ensures x !in s ==> r == s
  {
    if |s| == 0 then []
    else
      var rest := Remove(s[1..], x);
      assert forall y :: y in s <==> y == s[0] || y in s[1..];
      assert NoDups(s) ==> NoDups(s[1..]) && s[0] !in s[1..];
      if s[0] == x then rest else [s[0]] + rest
  }

  /** `createDep(effects)`: a fresh dep holding the given effects, both markers zero. */
  function CreateDep(effects: seq<EffectId>): (d: Dep)
    ensures d.w == {} && d.n == {}
    ensures NoDups(d.subs)
    ensures forall e :: e in d.subs <==> e in effects
  {
    Dep(Dedup(effects), {}, {})
  }

  /** `dep.add(e)`: idempotent insertion at the end. */
  function Add(d: Dep, e: EffectId): (r: Dep)
    ensures r.w == d.w && r.n == d.n
    ensures forall x :: x in r.subs <==> x == e || x in d.subs
    ensures NoDups(d.subs) ==> NoDups(r.subs)
    ensures e in d.subs ==> r == d
  {
    if e in d.subs then d else d.(subs := d.subs + [e])
  }

  /** `dep.delete(e)`. */
  function Delete(d: Dep, e: EffectId): (r: Dep)
    ensures r.w == d.w && r.n == d.n
    ensures forall x :: x in r.subs <==> x != e && x in d.subs
    ensures NoDups(d.subs) ==> NoDups(r.subs)
  {
    d.(subs := Remove(d.subs, e))
  }

  /** `wasTracked(dep)` at nesting level `level`. */
  predicate WasTracked(d: Dep, level: nat) {
    level in d.w
  }

  /** `newTracked(dep)` at nesting level `level`. */
  predicate NewTracked(d: Dep, level: nat) {
    level in d.n
  }

  // ---------------------------------------------------------------------
  // the 32-bit encoding of the markers
  // ---------------------------------------------------------------------

  /** The shift count JavaScript uses for `1 << depth`: the low five bits. */
  function ShiftCount(depth: nat): bv5 {
    (depth % 32) as bv5
  }

  /** `trackOpBit` at depth `depth`: JavaScript `1 << depth` on 32-bit integers. */
  function TrackOpBit(depth: nat): bv32 {
    (1 as bv32) << ShiftCount(depth)
  }

  /** `x > 0` for the signed 32-bit integer whose bit pattern is `x`. */
  predicate Int32Positive(x: bv32) {
    x != 0 && x < 0x8000_0000
  }

  /** The marker test of dep.ts: `(marker & trackOpBit) > 0`. */
  predicate MarkerTest(x: bv32, depth: nat) {
    Int32Positive(x & TrackOpBit(depth))
  }

  /** The marker `x` encodes the level set `s`: for the levels 1..30 at which
      markers are used, the marker test succeeds exactly on the members of `s`. */
  predicate Encodes(x: bv32, s: set<nat>) {
    forall j: nat | 1 <= j <= 30 :: j in s <==> MarkerTest(x, j)
  }

  /** One set bit below the sign bit. */
  predicate SingleLowBit(b: bv32) {
    b != 0 && b < 0x8000_0000 && b & (b - 1) == 0
  }

  lemma RoundTrip(x: nat)
    requires x < 32
    ensures (x as bv5) as int == x
  {
  }

  lemma ShiftShape(a: bv5)
    requires 1 <= a <= 30
    ensures SingleLowBit((1 as bv32) << a)
  {
  }

  lemma ShiftDisjoint(a: bv5, b: bv5)
    requires a != b
    ensures ((1 as bv32) << a) & ((1 as bv32) << b) == 0
  {
  }

  lemma BitShape(depth: nat)
    requires 1 <= depth <= 30
    ensures SingleLowBit(TrackOpBit(depth))
  {
    RoundTrip(depth);
    ShiftShape(ShiftCount(depth));
  }

  lemma BitsDisjoint(depth: nat, j: nat)
    requires 1 <= depth <= 30 && 1 <= j <= 30 && j != depth
    ensures TrackOpBit(depth) & TrackOpBit(j) == 0
  {
    RoundTrip(depth);
    RoundTrip(j);
    ShiftDisjoint(ShiftCount(depth), ShiftCount(j));
  }

  lemma OrSame(x: bv32, b: bv32)
    requires SingleLowBit(b)
    ensures Int32Positive((x | b) & b)
  {
  }

  lemma OrOther(x: bv32, b: bv32, c: bv32)
    requires SingleLowBit(b) && SingleLowBit(c) && b & c == 0
    ensures Int32Positive((x | b) & c) <==> Int32Positive(x & c)
  {
  }

  lemma AndNotSame(x: bv32, b: bv32)
    ensures !Int32Positive((x & !b) & b)
  {
  }

  lemma AndNotOther(x: bv32, b: bv32, c: bv32)
    requires b & c == 0
    ensures Int32Positive((x & !b) & c) <==> Int32Positive(x & c)
  {
  }

  lemma SetSame(x: bv32, depth: nat)
    requires 1 <= depth <= 30
    ensures MarkerTest(x | TrackOpBit(depth), depth)
  {
    BitShape(depth);
    OrSame(x, TrackOpBit(depth));
  }

  lemma ClearSame(x: bv32, depth: nat)
    ensures !MarkerTest(x & !TrackOpBit(depth), depth)
  {
    AndNotSame(x, TrackOpBit(depth));
  }

  lemma SetOther(x: bv32, depth: nat, j: nat)
    requires 1 <= depth <= 30 && 1 <= j <= 30 && j != depth
    ensures MarkerTest(x | TrackOpBit(depth), j) <==> MarkerTest(x, j)
  {
    BitShape(depth);
    BitShape(j);
    BitsDisjoint(depth, j);
    OrOther(x, TrackOpBit(depth), TrackOpBit(j));
  }

  lemma ClearOther(x: bv32, depth: nat, j: nat)
    requires 1 <= depth <= 30 && 1 <= j <= 30 && j != depth
    ensures MarkerTest(x & !TrackOpBit(depth), j) <==> MarkerTest(x, j)
  {
    BitsDisjoint(depth, j);
    AndNotOther(x, TrackOpBit(depth), TrackOpBit(j));
  }

  /** `marker |= trackOpBit` adds the level to the set. */
  lemma SetBitAddsLevel(x: bv32, s: set<nat>, depth: nat)
    requires 1 <= depth <= 30 && Encodes(x, s)
    ensures Encodes(x | TrackOpBit(depth), s + {depth})
  {
    forall j: nat | 1 <= j <= 30
      ensures j in s + {depth} <==> MarkerTest(x | TrackOpBit(depth), j)
    {
      if j == depth { SetSame(x, depth); } else { SetOther(x, depth, j); }
    }
  }

  /** The clearing `finalizeDepMarkers` does when a run ends
      (`marker &= ~trackOpBit`) removes the level from the set. */
  lemma ClearBitRemovesLevel(x: bv32, s: set<nat>, depth: nat)
    requires 1 <= depth <= 30 && Encodes(x, s)
    ensures Encodes(x & !TrackOpBit(depth), s - {depth})
  {
    forall j: nat | 1 <= j <= 30
      ensures j in s - {depth} <==> MarkerTest(x & !TrackOpBit(depth), j)
    {
      if j == depth { ClearSame(x, depth); } else { ClearOther(x, depth, j); }
    }
  }

  /** A fresh marker (`0`) encodes the empty set. */
  lemma ZeroEncodesEmpty()
    ensures Encodes(0, {})
  {
    forall j: nat | 1 <= j <= 30 ensures !MarkerTest(0, j) {
      AndNotSame(0, TrackOpBit(j));
    }
  }
}
