/**
 * The orders the solver relies on from Rust's ordered collections: a
 * `BTreeMap<u32, _>` is walked in ascending key order, and the frontier
 * `BTreeSet<(distance, vertex)>` hands out its least pair first
 * (`pop_first`), pairs being compared by distance and then by vertex.
 */
module Ordered {

  /** Lexicographic order on (distance, vertex) pairs, as derived by Rust for tuples. */
  predicate LexLeq(a: (nat, nat), b: (nat, nat))
  {
    a.0 < b.0 || (a.0 == b.0 && a.1 <= b.1)
  }

  /** `m` is the pair `pop_first` takes from `s`. */
  predicate IsLeastPair(m: (nat, nat), s: set<(nat, nat)>)
  {
    m in s && forall x :: x in s ==> LexLeq(m, x)
  }

  /** `m` is the key an ascending walk over `s` visits first. */
  predicate IsLeastVertex(m: nat, s: set<nat>)
  {
    m in s && forall x :: x in s ==> m <= x
  }

  /** Every non-empty frontier has a least pair, so `pop_first` always has something to return. */
  lemma {:induction false} LeastPairExists(s: set<(nat, nat)>)
    requires s != {}
    ensures exists m :: IsLeastPair(m, s)
    decreases s
  {
    var z :| z in s;
    var rest := s - {z};
    if rest == {} {
      forall x | x in s ensures LexLeq(z, x) {
        assert x !in rest;
      }
      assert IsLeastPair(z, s);
    } else {
      LeastPairExists(rest);
      var m :| IsLeastPair(m, rest);
      var least := if LexLeq(z, m) then z else m;
      forall x | x in s ensures LexLeq(least, x) {
        if x != z {
          assert x in rest;
        }
      }
      assert IsLeastPair(least, s);
    }
  }

  /** Every non-empty set of vertices has a least one. */
  lemma {:induction false} LeastVertexExists(s: set<nat>)
    requires s != {}
    ensures exists m :: IsLeastVertex(m, s)
    decreases s
  {
    var z :| z in s;
    var rest := s - {z};
    if rest == {} {
      forall x | x in s ensures z <= x {
        assert x !in rest;
      }
      assert IsLeastVertex(z, s);
    } else {
      LeastVertexExists(rest);
      var m :| IsLeastVertex(m, rest);
      var least := if z <= m then z else m;
      forall x | x in s ensures least <= x {
        if x != z {
          assert x in rest;
        }
      }
      assert IsLeastVertex(least, s);
    }
  }

  predicate StrictlyAscending(r: seq<nat>)
  {
    forall i, j :: 0 <= i < j < |r| ==> r[i] < r[j]
  }

  lemma ConsAscending(m: nat, rest: seq<nat>)
    requires StrictlyAscending(rest)
    requires forall j :: 0 <= j < |rest| ==> m < rest[j]
    ensures StrictlyAscending([m] + rest)
  {
    var r := [m] + rest;
    forall i, j | 0 <= i < j < |r| ensures r[i] < r[j] {
      assert r[j] == rest[j - 1];
      if i > 0 {
        assert r[i] == rest[i - 1];
      }
    }
  }

  /** The keys of a `BTreeMap` in the order its iterator yields them: each once, ascending. */
  function SortedKeys(ks: set<nat>): (r: seq<nat>)
    ensures |r| == |ks|
    ensures StrictlyAscending(r)
    ensures forall i :: 0 <= i < |r| ==> r[i] in ks
    ensures forall k :: k in ks ==> k in r
    decreases ks
  {
    if ks == {} then []
    else
      LeastVertexExists(ks);
      assert forall m1, m2 :: IsLeastVertex(m1, ks) && IsLeastVertex(m2, ks) ==> m1 == m2;
      var m :| IsLeastVertex(m, ks);
      var rest := SortedKeys(ks - {m});
      ConsAscending(m, rest);
      [m] + rest
  }
}
