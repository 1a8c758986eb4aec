/** Stable sorting by a comparison, and the facts that make a sorted arrangement a
    canonical one.  Python's `sorted` is modelled by `Sort`. */
module Sorting {

  ghost predicate Total<T(!new)>(leq: (T, T) -> bool) {
    forall x, y :: leq(x, y) || leq(y, x)
  }

  ghost predicate Transitive<T(!new)>(leq: (T, T) -> bool) {
    forall x, y, z :: leq(x, y) && leq(y, z) ==> leq(x, z)
  }

  ghost predicate Antisymmetric<T(!new)>(leq: (T, T) -> bool) {
    forall x, y :: leq(x, y) && leq(y, x) ==> x == y
  }

  ghost predicate TotalOrder<T(!new)>(leq: (T, T) -> bool) {
    Total(leq) && Transitive(leq) && Antisymmetric(leq)
  }

  ghost predicate IsSorted<T>(s: seq<T>, leq: (T, T) -> bool) {
    forall i, j :: 0 <= i < j < |s| ==> leq(s[i], s[j])
  }

  function Insert<T>(x: T, s: seq<T>, leq: (T, T) -> bool): seq<T> {
    if s == [] then [x]
    else if leq(x, s[0]) then [x] + s
    else [s[0]] + Insert(x, s[1..], leq)
  }

  function Sort<T>(s: seq<T>, leq: (T, T) -> bool): seq<T> {
    if s == [] then [] else Insert(s[0], Sort(s[1..], leq), leq)
  }

  lemma {:induction false} InsertContents<T>(x: T, s: seq<T>, leq: (T, T) -> bool)
    ensures multiset(Insert(x, s, leq)) == multiset{x} + multiset(s)
  {
    if s != [] {
      assert s == [s[0]] + s[1..];
      if !leq(x, s[0]) {
        InsertContents(x, s[1..], leq);
      }
    }
  }

  /** Sorting rearranges: nothing is lost, added or changed. */
  lemma {:induction false} SortContents<T>(s: seq<T>, leq: (T, T) -> bool)
    ensures multiset(Sort(s, leq)) == multiset(s)
    ensures |Sort(s, leq)| == |s|
  {
    if s != [] {
      SortContents(s[1..], leq);
      InsertContents(s[0], Sort(s[1..], leq), leq);
      assert s == [s[0]] + s[1..];
    }
    assert |multiset(Sort(s, leq))| == |multiset(s)|;
  }

  lemma {:induction false} InsertSorted<T(!new)>(x: T, s: seq<T>, leq: (T, T) -> bool)
    requires Total(leq) && Transitive(leq) && IsSorted(s, leq)
    ensures IsSorted(Insert(x, s, leq), leq)
  {
    if s != [] && !leq(x, s[0]) {
      InsertSorted(x, s[1..], leq);
      InsertContents(x, s[1..], leq);
      var rest := Insert(x, s[1..], leq);
      forall j | 0 <= j < |rest| ensures leq(s[0], rest[j]) {
        assert rest[j] in multiset(rest);
        assert rest[j] == x || rest[j] in s[1..];
      }
    }
  }

  lemma {:induction false} SortSorted<T(!new)>(s: seq<T>, leq: (T, T) -> bool)
    requires Total(leq) && Transitive(leq)
    ensures IsSorted(Sort(s, leq), leq)
  {
    if s != [] {
      SortSorted(s[1..], leq);
      InsertSorted(s[0], Sort(s[1..], leq), leq);
    }
  }

  /** A sorted arrangement of given contents is unique. */
  lemma {:induction false} SortedUnique<T(!new)>(a: seq<T>, b: seq<T>, leq: (T, T) -> bool)
    requires Antisymmetric(leq)
    requires IsSorted(a, leq) && IsSorted(b, leq)
    requires multiset(a) == multiset(b)
    ensures a == b
  {
    assert |multiset(a)| == |multiset(b)|;
    if a != [] {
      assert a == [a[0]] + a[1..] && b == [b[0]] + b[1..];
      assert a[0] == b[0] by {
        assert a[0] in multiset(b) && b[0] in multiset(a);
        var i :| 0 <= i < |b| && b[i] == a[0];
        var j :| 0 <= j < |a| && a[j] == b[0];
        if i != 0 && j != 0 {
          assert leq(b[0], b[i]) && leq(a[0], a[j]);
        }
      }
      assert multiset(a[1..]) == multiset(a) - multiset{a[0]};
      assert multiset(b[1..]) == multiset(b) - multiset{b[0]};
      SortedUnique(a[1..], b[1..], leq);
    }
  }

  /** Two sequences sort alike exactly when they hold the same things equally often. */
  lemma SortDetermined<T(!new)>(a: seq<T>, b: seq<T>, leq: (T, T) -> bool)
    requires TotalOrder(leq)
    ensures Sort(a, leq) == Sort(b, leq) <==> multiset(a) == multiset(b)
  {
    SortContents(a, leq);
    SortContents(b, leq);
    if multiset(a) == multiset(b) {
      SortSorted(a, leq);
      SortSorted(b, leq);
      SortedUnique(Sort(a, leq), Sort(b, leq), leq);
    }
  }

  lemma {:induction false} SortedFixed<T(!new)>(s: seq<T>, leq: (T, T) -> bool)
    requires TotalOrder(leq) && IsSorted(s, leq)
    ensures Sort(s, leq) == s
  {
    SortContents(s, leq);
    SortSorted(s, leq);
    SortedUnique(Sort(s, leq), s, leq);
  }

  // ----- taking one element out -----

  function RemoveAt<T>(s: seq<T>, k: nat): (r: seq<T>)
    requires k < |s|
    ensures |r| == |s| - 1
    ensures forall i :: 0 <= i < |r| ==> r[i] == s[if i < k then i else i + 1]
  {
    s[..k] + s[k+1..]
  }

  lemma RemoveAtContents<T>(s: seq<T>, k: nat)
    requires k < |s|
    ensures multiset(s) == multiset{s[k]} + multiset(RemoveAt(s, k))
  {
    assert s == s[..k] + [s[k]] + s[k+1..];
  }
}
