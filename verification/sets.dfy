/** Small facts about finite sets of ids. */
module Sets {
  /** The least element of a non-empty set of ids. */
  function Least(ids: set<nat>): (m: nat)
    requires ids != {}
    ensures m in ids && forall i | i in ids :: m <= i
  {
    LeastExists(ids);
    var m :| m in ids && forall i | i in ids :: m <= i; m
  }

  lemma LeastExists(ids: set<nat>)
    requires ids != {}
    ensures exists m :: m in ids && forall i | i in ids :: m <= i
  {
    var w := LeastWitness(ids);
  }

  lemma {:induction false} LeastWitness(ids: set<nat>) returns (m: nat)
    requires ids != {}
    ensures m in ids && forall i | i in ids :: m <= i
    decreases |ids|
  {
    var a :| a in ids;
    var rest := ids - {a};
    if rest == {} {
      m := a;
    } else {
      var b := LeastWitness(rest);
      m := if a < b then a else b;
    }
    forall i | i in ids
      ensures m <= i
    {
      if i != a {
        assert i in rest;
      }
    }
  }

  lemma {:induction false} SubsetSmaller(a: set<nat>, b: set<nat>)
    requires a <= b
    ensures |a| <= |b|
    decreases |a|
  {
    if a != {} {
      var e :| e in a;
      SubsetSmaller(a - {e}, b - {e});
    }
  }

  /** Growing `seen` never grows the part of `k` not yet seen. */
  lemma UnseenShrinks(k: set<nat>, a: set<nat>, b: set<nat>)
    requires a <= b
    ensures |k - b| <= |k - a|
  {
    SubsetSmaller(k - b, k - a);
  }
}
