/** Sizes of finite sets. */
module Counting {

  /** As many keys as positions, and every key found at some position that tells it from the
      others: then every position has a key. */
  lemma {:induction false} Pigeonhole<K(!new)>(keys: set<K>, count: nat, at: (nat, K) -> bool, i: nat)
    requires |keys| == count && i < count
    requires forall k :: k in keys ==> exists j :: 0 <= j < count && at(j, k)
    requires forall j, k, l :: k in keys && l in keys && at(j, k) && at(j, l) ==> k == l
    ensures exists k :: k in keys && at(i, k)
  {
    var taken := TakenPositions(keys, count, at);
    SubsetSize(taken, Positions(count));
    assert i in taken;
  }

  function Positions(n: nat): (s: set<nat>)
    ensures |s| == n && forall j :: j in s <==> 0 <= j < n
  {
    if n == 0 then {} else Positions(n - 1) + {n - 1}
  }

  lemma {:induction false} SubsetSize<T>(a: set<T>, b: set<T>)
    requires a <= b && |a| == |b|
    ensures a == b
  {
    if x :| x in b && x !in a {
      assert a + {x} <= b && |a + {x}| == |a| + 1;
      SubsetCount(a + {x}, b);
      assert false;
    }
  }

  lemma {:induction false} SubsetCount<T>(a: set<T>, b: set<T>)
    requires a <= b
    ensures |a| <= |b|
  {
    if x :| x in a {
      SubsetCount(a - {x}, b - {x});
    }
  }

  /** A set of positions, one for each key. */
  lemma {:induction false} TakenPositions<K(!new)>(keys: set<K>, count: nat, at: (nat, K) -> bool) returns (taken: set<nat>)
    requires forall k :: k in keys ==> exists j :: 0 <= j < count && at(j, k)
    requires forall j, k, l :: k in keys && l in keys && at(j, k) && at(j, l) ==> k == l
    ensures |taken| == |keys|
    ensures forall j :: j in taken ==> j < count && exists k :: k in keys && at(j, k)
    decreases keys
  {
    taken := {};
    if k :| k in keys {
      var rest := TakenPositions(keys - {k}, count, at);
      var j :| 0 <= j < count && at(j, k);
      taken := rest + {j};
    }
  }

  /** In the same case no key is found twice. */
  lemma PigeonholeOnce<K(!new)>(keys: set<K>, count: nat, at: (nat, K) -> bool, k: K, i: nat, j: nat)
    requires |keys| == count && i < count && j < count && k in keys && at(i, k) && at(j, k)
    requires forall k :: k in keys ==> exists j :: 0 <= j < count && at(j, k)
    requires forall j, k, l :: k in keys && l in keys && at(j, k) && at(j, l) ==> k == l
    ensures i == j
  {
    if i != j {
      var elsewhere := (p: nat, l: K) => p != j && at(p, l);
      forall l | l in keys
        ensures exists p :: 0 <= p < count && elsewhere(p, l)
      {
        if l == k {
          assert elsewhere(i, l);
        } else {
          var p :| 0 <= p < count && at(p, l);
          assert elsewhere(p, l);
        }
      }
      var taken := TakenPositions(keys, count, elsewhere);
      SubsetCount(taken, Positions(count) - {j});
      assert false;
    }
  }

  /** A map that takes no value twice has as many keys as values. */
  lemma {:induction false} MapSize<K, V>(m: map<K, V>, values: set<V>)
    requires forall v :: v in values ==> exists k :: k in m && m[k] == v
    requires forall k :: k in m ==> m[k] in values
    requires forall k, l :: k in m && l in m && m[k] == m[l] ==> k == l
    ensures |m| == |values|
    decreases m
  {
    if k :| k in m {
      var rest := m - {k};
      forall v | v in values - {m[k]}
        ensures exists l :: l in rest && rest[l] == v
      {
        var l :| l in m && m[l] == v;
        assert l in rest;
      }
      MapSize(rest, values - {m[k]});
      assert m.Keys == rest.Keys + {k} && |m.Keys| == |m| && |rest.Keys| == |rest|;
    } else {
      assert m == map[] && values == {};
    }
  }

  /** A list without repetition is no longer than the set it is taken from. */
  lemma {:induction false} DistinctFits<T>(s: seq<T>, keys: set<T>)
    requires forall i :: 0 <= i < |s| ==> s[i] in keys
    requires forall i, j :: 0 <= i < j < |s| ==> s[i] != s[j]
    ensures |s| <= |keys|
    decreases s
  {
    if s != [] {
      var n := |s| - 1;
      DistinctFits(s[..n], keys - {s[n]});
    }
  }
}
