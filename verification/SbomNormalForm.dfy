/** `_normalize` of scripts/canonicalize_sbom.py: sort every list, at every depth, by the JSON
    text of its (already normalised) items.  It is a complete canonical form for documents
    that differ only in the order of lists. */
module SbomNormalForm {
  import opened Text
  import opened Json
  import opened Sorting

  /** `ensure_ascii=False, separators=(",", ":")` */
  const SORT_STYLE := Style(false, false)

  predicate TextLeq(a: Value, b: Value) {
    LexLeq(Dumps(a, SORT_STYLE), Dumps(b, SORT_STYLE))
  }

  lemma TextLeqTotalOrder()
    ensures TotalOrder(TextLeq)
  {
    TextOrder(TextLeq, SORT_STYLE);
  }

  function Normalize(v: Value): Value
    decreases v
  {
    match v
    case Obj(members) => Obj(map k | k in members :: Normalize(members[k]))
    case Arr(items) => Arr(Sort(NormalizeAll(items), TextLeq))
    case _ => v
  }

  function NormalizeAll(items: seq<Value>): (r: seq<Value>)
    ensures |r| == |items|
    ensures forall i :: 0 <= i < |items| ==> r[i] == Normalize(items[i])
    decreases items
  {
    seq(|items|, i requires 0 <= i < |items| => Normalize(items[i]))
  }

  // ----- what normalising must forget, said without sorting -----

  /** `b` is `a` with the items of some lists, at any depths, put in another order. */
  ghost predicate Reordered(a: Value, b: Value)
    decreases a
  {
    match a
    case Obj(members) =>
      b.Obj? && b.members.Keys == members.Keys &&
      forall k :: k in members ==> Reordered(members[k], b.members[k])
    case Arr(items) => b.Arr? && PairedOff(items, b.items)
    case _ => a == b
  }

  /** The two lists can be crossed out against each other, one item at a time. */
  ghost predicate PairedOff(xs: seq<Value>, ys: seq<Value>)
    decreases xs
  {
    if xs == [] then ys == []
    else exists k :: 0 <= k < |ys| && Reordered(xs[0], ys[k]) && PairedOff(xs[1..], RemoveAt(ys, k))
  }

  lemma PairedStep(xs: seq<Value>, ys: seq<Value>) returns (k: nat)
    requires xs != [] && PairedOff(xs, ys)
    ensures k < |ys| && Reordered(xs[0], ys[k]) && PairedOff(xs[1..], RemoveAt(ys, k))
  {
    k :| 0 <= k < |ys| && Reordered(xs[0], ys[k]) && PairedOff(xs[1..], RemoveAt(ys, k));
  }

  lemma PairedMore(xs: seq<Value>, ys: seq<Value>, k: nat)
    requires xs != [] && k < |ys| && Reordered(xs[0], ys[k]) && PairedOff(xs[1..], RemoveAt(ys, k))
    ensures PairedOff(xs, ys)
  {
  }

  lemma NormalizeAllSkip(ys: seq<Value>, k: nat)
    requires k < |ys|
    ensures NormalizeAll(ys)[k] == Normalize(ys[k])
    ensures RemoveAt(NormalizeAll(ys), k) == NormalizeAll(RemoveAt(ys, k))
  {
    hide *;
    assert RemoveAt(NormalizeAll(ys), k) == NormalizeAll(RemoveAt(ys, k));
  }

  lemma NormalizeAllRemove(ys: seq<Value>, k: nat)
    requires k < |ys|
    ensures multiset(NormalizeAll(ys)) == multiset{Normalize(ys[k])} + multiset(NormalizeAll(RemoveAt(ys, k)))
  {
    hide *;
    NormalizeAllSkip(ys, k);
    RemoveAtContents(NormalizeAll(ys), k);
  }

  lemma NormalizeAllFirst(xs: seq<Value>)
    requires xs != []
    ensures multiset(NormalizeAll(xs)) == multiset{Normalize(xs[0])} + multiset(NormalizeAll(xs[1..]))
  {
    assert RemoveAt(xs, 0) == xs[1..];
    NormalizeAllRemove(xs, 0);
  }

  lemma {:induction false} ReorderedNormalizes(a: Value, b: Value)
    requires Reordered(a, b)
    ensures Normalize(a) == Normalize(b)
    decreases a
  {
    match a
    case Obj(members) =>
      forall k | k in members ensures Normalize(members[k]) == Normalize(b.members[k]) {
        ReorderedNormalizes(members[k], b.members[k]);
      }
    case Arr(items) =>
      PairedContents(items, b.items);
      TextLeqTotalOrder();
      SortDetermined(NormalizeAll(items), NormalizeAll(b.items), TextLeq);
    case _ =>
  }

  lemma {:induction false} PairedContents(xs: seq<Value>, ys: seq<Value>)
    requires PairedOff(xs, ys)
    ensures multiset(NormalizeAll(xs)) == multiset(NormalizeAll(ys))
    decreases xs
  {
    if xs != [] {
      hide *;
      var k := PairedStep(xs, ys);
      ReorderedNormalizes(xs[0], ys[k]);
      PairedContents(xs[1..], RemoveAt(ys, k));
      NormalizeAllFirst(xs);
      NormalizeAllRemove(ys, k);
    }
  }

  lemma {:induction false} NormalizesReordered(a: Value, b: Value)
    requires Normalize(a) == Normalize(b)
    ensures Reordered(a, b)
    decreases a
  {
    match a
    case Obj(members) =>
      var na, nb := Normalize(a).members, Normalize(b).members;
      assert members.Keys == na.Keys && b.members.Keys == nb.Keys;
      forall k | k in members ensures Reordered(members[k], b.members[k]) {
        assert na[k] == nb[k];
        NormalizesReordered(members[k], b.members[k]);
      }
    case Arr(items) =>
      TextLeqTotalOrder();
      SortDetermined(NormalizeAll(items), NormalizeAll(b.items), TextLeq);
      ContentsPaired(items, b.items);
    case _ =>
  }

  lemma {:induction false} ContentsPaired(xs: seq<Value>, ys: seq<Value>)
    requires multiset(NormalizeAll(xs)) == multiset(NormalizeAll(ys))
    ensures PairedOff(xs, ys)
    decreases xs
  {
    assert |multiset(NormalizeAll(xs))| == |multiset(NormalizeAll(ys))|;
    if xs != [] {
      NormalizeAllFirst(xs);
      assert Normalize(xs[0]) in multiset(NormalizeAll(ys));
      assert Normalize(xs[0]) in NormalizeAll(ys);
      var k :| 0 <= k < |ys| && NormalizeAll(ys)[k] == Normalize(xs[0]);
      NormalizeAllRemove(ys, k);
      NormalizesReordered(xs[0], ys[k]);
      assert multiset(NormalizeAll(xs[1..])) == multiset(NormalizeAll(xs)) - multiset{Normalize(xs[0])};
      assert multiset(NormalizeAll(RemoveAt(ys, k))) == multiset(NormalizeAll(ys)) - multiset{Normalize(xs[0])};
      ContentsPaired(xs[1..], RemoveAt(ys, k));
      PairedMore(xs, ys, k);
    }
  }

  /** Two documents normalise alike exactly when one is the other with lists reordered. */
  lemma NormalizeComplete(a: Value, b: Value)
    ensures Normalize(a) == Normalize(b) <==> Reordered(a, b)
  {
    if Normalize(a) == Normalize(b) {
      NormalizesReordered(a, b);
    }
    if Reordered(a, b) {
      ReorderedNormalizes(a, b);
    }
  }

  lemma {:induction false} NormalizeIdempotent(v: Value)
    ensures Normalize(Normalize(v)) == Normalize(v)
    decreases v
  {
    match v
    case Obj(members) =>
      forall k | k in members ensures Normalize(Normalize(members[k])) == Normalize(members[k]) {
        NormalizeIdempotent(members[k]);
      }
    case Arr(items) =>
      var ns := NormalizeAll(items);
      var sorted := Sort(ns, TextLeq);
      SortContents(ns, TextLeq);
      TextLeqTotalOrder();
      SortSorted(ns, TextLeq);
      forall i | 0 <= i < |sorted| ensures Normalize(sorted[i]) == sorted[i] {
        assert sorted[i] in multiset(sorted);
        assert sorted[i] in ns;
        var j :| 0 <= j < |ns| && ns[j] == sorted[i];
        NormalizeIdempotent(items[j]);
      }
      assert NormalizeAll(sorted) == sorted;
      SortedFixed(sorted, TextLeq);
    case _ =>
  }

  /** A normalised document is a reordering of the document it came from. */
  lemma NormalizeReorders(v: Value)
    ensures Reordered(v, Normalize(v))
  {
    NormalizeIdempotent(v);
    NormalizeComplete(v, Normalize(v));
  }
}
