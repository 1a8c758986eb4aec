/** Normalising a part of a contract twice: exactly when that changes nothing. */
module ContractIdempotence {
  import opened Text
  import opened Json
  import opened Sorting
  import opened ContractReferences
  import opened ContractNormalForm
  import opened ContractShuffle

  lemma {:induction false} PruneIdempotent(v: Value)
    ensures Prune(Prune(v)) == Prune(v)
    decreases v, 1
  {
    match v
    case Obj(_) =>
      var once := PruneMembers(v);
      forall k | k in once ensures Ordered(k, Prune(once[k])) == once[k] {
        PruneMemberIdempotent(v, k);
      }
      assert PruneMembers(Obj(once)) == once by {
        hide Prune, Ordered, PruneMembers;
        assert PruneMembers(Obj(once)).Keys == once.Keys;
      }
    case Arr(items) =>
      forall i | 0 <= i < |items| ensures Prune(Prune(items[i])) == Prune(items[i]) {
        PruneIdempotent(items[i]);
      }
      assert PruneAll(PruneAll(items)) == PruneAll(items);
    case _ =>
  }

  lemma {:induction false} PruneMemberIdempotent(v: Value, k: string)
    requires v.Obj? && k in v.members
    ensures Ordered(k, Prune(Ordered(k, Prune(v.members[k])))) == Ordered(k, Prune(v.members[k]))
    decreases v, 0
  {
    var x := v.members[k];
    PruneIdempotent(x);
    if IsUnordered(k) && x.Arr? {
      var ns := PruneAll(x.items);
      var sorted := Sort(ns, TextLeq);
      SortContents(ns, TextLeq);
      TextLeqTotalOrder();
      SortSorted(ns, TextLeq);
      forall i | 0 <= i < |sorted| ensures Prune(sorted[i]) == sorted[i] {
        assert sorted[i] in multiset(sorted);
        assert sorted[i] in ns;
        var j :| 0 <= j < |ns| && ns[j] == sorted[i];
        PruneIdempotent(x.items[j]);
      }
      assert PruneAll(sorted) == sorted;
      SortedFixed(sorted, TextLeq);
    }
  }

  // ----- when dropping documentation leaves a lone reference -----

  /** An object that keeps nothing but a `$ref`. */
  predicate IsHalfRef(v: Value) {
    v.Obj? && v.members.Keys - DOC_ONLY_KEYS == {"$ref"}
  }

  /** No object outside documentation keeps nothing but a `$ref`. */
  predicate NoHalfRef(v: Value) {
    !IsHalfRef(v) &&
    match v
    case Obj(members) => forall k :: k in members && k !in DOC_ONLY_KEYS ==> NoHalfRef(members[k])
    case Arr(items) => forall i :: 0 <= i < |items| ==> NoHalfRef(items[i])
    case _ => true
  }

  lemma {:induction false} PruneResolvedExactly(v: Value)
    ensures Resolved(Prune(v)) <==> NoHalfRef(v)
    decreases v
  {
    match v
    case Obj(members) =>
      forall k | k in members && k !in DOC_ONLY_KEYS
        ensures Resolved(Ordered(k, Prune(members[k]))) <==> NoHalfRef(members[k])
      {
        PruneResolvedExactly(members[k]);
        OrderedResolved(k, Prune(members[k]));
      }
      MembersResolved(v);
    case Arr(items) =>
      forall i | 0 <= i < |items| ensures Resolved(PruneAll(items)[i]) <==> NoHalfRef(items[i]) {
        PruneResolvedExactly(items[i]);
      }
    case _ =>
  }

  lemma MembersResolved(v: Value)
    requires v.Obj?
    requires forall k :: k in v.members && k !in DOC_ONLY_KEYS ==>
      (Resolved(Ordered(k, Prune(v.members[k]))) <==> NoHalfRef(v.members[k]))
    ensures Resolved(Prune(v)) <==> NoHalfRef(v)
  {
    var r := PruneMembers(v);
    hide Ordered, DOC_ONLY_KEYS, PruneMembers;
    assert Prune(v) == Obj(r);
    assert forall k :: k in r ==> Resolved(r[k]) == NoHalfRef(v.members[k]);
  }

  lemma OrderedResolved(k: string, v: Value)
    ensures Resolved(Ordered(k, v)) <==> Resolved(v)
  {
    if IsUnordered(k) && v.Arr? {
      var sorted := Sort(v.items, TextLeq);
      SortContents(v.items, TextLeq);
      hide Sort;
      assert forall x :: x in sorted <==> x in v.items by {
        assert forall x :: x in sorted <==> x in multiset(sorted);
        assert forall x :: x in v.items <==> x in multiset(v.items);
      }
      ResolvedItems(sorted);
      ResolvedItems(v.items);
    }
  }

  lemma ResolvedItems(items: seq<Value>)
    ensures Resolved(Arr(items)) <==> forall x :: x in items ==> Resolved(x)
  {
    assert forall i :: 0 <= i < |items| ==> items[i] in items;
    assert Arr(items).items == items;
  }

  /** No such object is reached from `v`, in it or in what its references lead to. */
  predicate NoHalfRefFrom(v: Value, document: Value, fuel: nat)
    decreases fuel, v
  {
    if IsLoneRef(v) then
      var target := RefTarget(v, document);
      fuel > 0 && target.Some? ==> NoHalfRefFrom(target.value, document, fuel - 1)
    else
      !IsHalfRef(v) &&
      match v
      case Obj(members) => forall k :: k in members && k !in DOC_ONLY_KEYS ==> NoHalfRefFrom(members[k], document, fuel)
      case Arr(items) => forall i :: 0 <= i < |items| ==> NoHalfRefFrom(items[i], document, fuel)
      case _ => true
  }

  lemma {:induction false} HalfRefReached(v: Value, document: Value, fuel: nat)
    requires Resolve(v, document, fuel).Some?
    ensures NoHalfRef(Resolve(v, document, fuel).value) <==> NoHalfRefFrom(v, document, fuel)
    decreases fuel, v
  {
    hide Resolve, ResolveMembers, ResolveItems, RefTarget, DOC_ONLY_KEYS;
    if IsLoneRef(v) {
      ResolveReference(v, document, fuel);
      HalfRefReached(RefTarget(v, document).value, document, fuel - 1);
    } else if v.Obj? {
      ResolveObject(v, document, fuel);
      forall k | k in v.members
        ensures NoHalfRef(Resolve(v.members[k], document, fuel).value) <==> NoHalfRefFrom(v.members[k], document, fuel)
      {
        HalfRefReached(v.members[k], document, fuel);
      }
      HalfRefMembers(v, document, fuel);
    } else if v.Arr? {
      ResolveArray(v, document, fuel);
      forall i | 0 <= i < |v.items|
        ensures NoHalfRef(Resolve(v.items[i], document, fuel).value) <==> NoHalfRefFrom(v.items[i], document, fuel)
      {
        HalfRefReached(v.items[i], document, fuel);
      }
      HalfRefItems(v, document, fuel);
    } else {
      ResolveScalar(v, document, fuel);
    }
  }

  lemma HalfRefMembers(v: Value, document: Value, fuel: nat)
    requires v.Obj? && !IsLoneRef(v) && ResolveMembers(v, document, fuel).Some?
    requires forall k :: k in v.members ==>
      (NoHalfRef(Resolve(v.members[k], document, fuel).value) <==> NoHalfRefFrom(v.members[k], document, fuel))
    ensures NoHalfRef(Obj(ResolveMembers(v, document, fuel).value)) <==> NoHalfRefFrom(v, document, fuel)
  {
    hide Resolve, ResolveMembers, IsLoneRef, DOC_ONLY_KEYS;
    var r := ResolveMembers(v, document, fuel).value;
    assert forall k :: k in r ==> NoHalfRef(r[k]) == NoHalfRefFrom(v.members[k], document, fuel);
  }

  lemma HalfRefItems(v: Value, document: Value, fuel: nat)
    requires v.Arr? && ResolveItems(v.items, document, fuel).Some?
    requires forall i :: 0 <= i < |v.items| ==>
      (NoHalfRef(Resolve(v.items[i], document, fuel).value) <==> NoHalfRefFrom(v.items[i], document, fuel))
    ensures NoHalfRef(Arr(ResolveItems(v.items, document, fuel).value)) <==> NoHalfRefFrom(v, document, fuel)
  {
    hide Resolve, ResolveItems, DOC_ONLY_KEYS;
    var r := ResolveItems(v.items, document, fuel).value;
    assert forall i :: 0 <= i < |r| ==> NoHalfRef(r[i]) == NoHalfRefFrom(v.items[i], document, fuel);
  }

  /** A lone reference is left exactly if an object that keeps nothing but a `$ref` is reached. */
  lemma LeftOverExactly(v: Value, document: Value, fuel: nat)
    requires Normal(v, document, fuel).Some?
    ensures Resolved(Normal(v, document, fuel).value) <==> NoHalfRefFrom(v, document, fuel)
  {
    hide Resolve, Prune;
    HalfRefReached(v, document, fuel);
    PruneResolvedExactly(Resolve(v, document, fuel).value);
  }

  /** Normalising again changes nothing if no such object is reached. */
  lemma NormalTwice(v: Value, document: Value, fuel: nat, again: nat)
    requires Normal(v, document, fuel).Some? && NoHalfRefFrom(v, document, fuel)
    ensures Normal(Normal(v, document, fuel).value, document, again) == Normal(v, document, fuel)
  {
    hide Resolve, Resolved, Prune, NoHalfRefFrom;
    LeftOverExactly(v, document, fuel);
    ResolvedStays(Normal(v, document, fuel).value, document, again);
    PruneIdempotent(Resolve(v, document, fuel).value);
  }

  // ----- what left-over references have to be like -----

  /** The reference leads to nothing but itself with documentation. */
  ghost predicate LeadsToItself(r: Value, document: Value, fuel: nat)
    requires IsLoneRef(r)
  {
    var x := Resolve(r, document, fuel);
    assert "$ref" in r.members.Keys;
    x.Some? && IsHalfRef(x.value) &&
    (assert "$ref" in x.value.members.Keys - DOC_ONLY_KEYS; Prune(x.value.members["$ref"]) == r.members["$ref"])
  }

  /** Every left-over reference leads to itself; in an unordered list the items may also normalise to
      one another. */
  ghost predicate Settles(w: Value, document: Value, fuel: nat)
    decreases w, 1
  {
    if IsLoneRef(w) then LeadsToItself(w, document, fuel)
    else
      match w
      case Obj(members) => forall k :: k in members ==> SettlesAt(k, w, document, fuel)
      case Arr(items) => forall i :: 0 <= i < |items| ==> Settles(items[i], document, fuel)
      case _ => true
  }

  ghost predicate SettlesAt(k: string, w: Value, document: Value, fuel: nat)
    requires w.Obj? && k in w.members
    decreases w, 0
  {
    var x := w.members[k];
    if IsUnordered(k) && x.Arr? then Rearranged(x.items, document, fuel) else Settles(x, document, fuel)
  }

  ghost predicate Rearranged(items: seq<Value>, document: Value, fuel: nat) {
    var r := ResolveItems(items, document, fuel);
    r.Some? && multiset(PruneAll(r.value)) == multiset(items)
  }

  ghost predicate Stable(w: Value, document: Value, fuel: nat) {
    Normal(w, document, fuel) == Some(w)
  }

  lemma ReferenceSettles(r: Value, document: Value, fuel: nat)
    requires IsLoneRef(r)
    ensures Stable(r, document, fuel) <==> LeadsToItself(r, document, fuel)
  {
    var x := Resolve(r, document, fuel);
    hide Resolve, DOC_ONLY_KEYS;
    assert "$ref" in r.members.Keys;
    DollarRefKept();
    if x.Some? && x.value.Obj? {
      var p := PruneMembers(x.value);
      assert Prune(x.value) == Obj(p);
      hide PruneMembers;
      if p.Keys == {"$ref"} {
        assert "$ref" in p.Keys && "$ref" in x.value.members.Keys;
        PlainKey(Prune(x.value.members["$ref"]));
        assert p == map["$ref" := Prune(x.value.members["$ref"])];
        assert r.members == map["$ref" := r.members["$ref"]];
      }
    }
  }

  lemma DollarRefKept()
    ensures "$ref" !in DOC_ONLY_KEYS
  {
  }

  lemma PlainKey(v: Value)
    ensures Ordered("$ref", v) == v
  {
  }

  lemma {:induction false} SettlesExactly(w: Value, document: Value, fuel: nat)
    requires Prune(w) == w
    ensures Stable(w, document, fuel) <==> Settles(w, document, fuel)
    decreases w
  {
    hide Resolve, ResolveMembers, ResolveItems;
    if IsLoneRef(w) {
      ReferenceSettles(w, document, fuel);
    } else if w.Obj? {
      PrunedObject(w);
      forall k | k in w.members
        ensures StableAt(k, w, document, fuel) <==> SettlesAt(k, w, document, fuel)
      {
        if IsUnordered(k) && w.members[k].Arr? {
          ListStable(k, w, document, fuel);
        } else {
          PrunedMember(k, w);
          SettlesExactly(w.members[k], document, fuel);
          MemberStable(k, w, document, fuel);
        }
      }
      ObjectStable(w, document, fuel);
    } else if w.Arr? {
      forall i | 0 <= i < |w.items|
        ensures Stable(w.items[i], document, fuel) <==> Settles(w.items[i], document, fuel)
      {
        assert PruneAll(w.items)[i] == w.items[i];
        SettlesExactly(w.items[i], document, fuel);
      }
      ArrayStable(w, document, fuel);
    } else {
      ResolveScalar(w, document, fuel);
    }
  }

  /** A member comes back as it was. */
  ghost predicate StableAt(k: string, w: Value, document: Value, fuel: nat)
    requires w.Obj? && k in w.members
  {
    var x := Resolve(w.members[k], document, fuel);
    x.Some? && Ordered(k, Prune(x.value)) == w.members[k]
  }

  lemma PrunedObject(w: Value)
    requires w.Obj? && Prune(w) == w
    ensures w.members.Keys !! DOC_ONLY_KEYS && PruneMembers(w) == w.members
    ensures forall k :: k in w.members ==> Ordered(k, Prune(w.members[k])) == w.members[k]
  {
    hide DOC_ONLY_KEYS, Ordered;
    assert Prune(w) == Obj(PruneMembers(w));
    hide Prune, PruneMembers;
    assert PruneMembers(w).Keys == w.members.Keys - DOC_ONLY_KEYS;
  }

  lemma PrunedMember(k: string, w: Value)
    requires w.Obj? && k in w.members && Ordered(k, Prune(w.members[k])) == w.members[k]
    requires !(IsUnordered(k) && w.members[k].Arr?)
    ensures Prune(w.members[k]) == w.members[k]
  {
  }

  lemma MemberStable(k: string, w: Value, document: Value, fuel: nat)
    requires w.Obj? && k in w.members && !(IsUnordered(k) && w.members[k].Arr?)
    ensures StableAt(k, w, document, fuel) <==> Stable(w.members[k], document, fuel)
  {
    hide Resolve, Prune;
  }

  lemma ListStable(k: string, w: Value, document: Value, fuel: nat)
    requires w.Obj? && k in w.members && IsUnordered(k) && w.members[k].Arr?
    requires Ordered(k, Prune(w.members[k])) == w.members[k]
    ensures StableAt(k, w, document, fuel) <==> Rearranged(w.members[k].items, document, fuel)
  {
    var items := w.members[k].items;
    ResolveArray(w.members[k], document, fuel);
    hide Resolve, ResolveItems;
    var r := ResolveItems(items, document, fuel);
    var once := PruneAll(items);
    assert items == Sort(once, TextLeq);
    TextLeqTotalOrder();
    SortSorted(once, TextLeq);
    SortedFixed(items, TextLeq);
    if r.Some? {
      SortDetermined(PruneAll(r.value), items, TextLeq);
    }
  }

  lemma ObjectStable(w: Value, document: Value, fuel: nat)
    requires w.Obj? && !IsLoneRef(w) && w.members.Keys !! DOC_ONLY_KEYS
    ensures Stable(w, document, fuel) <==> forall k :: k in w.members ==> StableAt(k, w, document, fuel)
  {
    ResolveObject(w, document, fuel);
    hide Resolve, ResolveMembers, DOC_ONLY_KEYS, Ordered, IsLoneRef;
    var r := ResolveMembers(w, document, fuel);
    if r.Some? {
      var x := Obj(r.value);
      assert Prune(x) == Obj(PruneMembers(x));
      hide Prune, PruneMembers;
      assert PruneMembers(x).Keys == w.members.Keys;
      forall k | k in w.members ensures StableAt(k, w, document, fuel) <==> PruneMembers(x)[k] == w.members[k] {
      }
      if forall k :: k in w.members ==> StableAt(k, w, document, fuel) {
        assert PruneMembers(x) == w.members;
      }
    }
  }

  lemma ArrayStable(w: Value, document: Value, fuel: nat)
    requires w.Arr?
    ensures Stable(w, document, fuel) <==> forall i :: 0 <= i < |w.items| ==> Stable(w.items[i], document, fuel)
  {
    ResolveArray(w, document, fuel);
    hide Resolve, ResolveItems;
    var r := ResolveItems(w.items, document, fuel);
    if r.Some? {
      assert Prune(Arr(r.value)) == Arr(PruneAll(r.value));
      hide Prune, PruneAll;
      forall i | 0 <= i < |w.items| ensures Stable(w.items[i], document, fuel) <==> PruneAll(r.value)[i] == w.items[i] {
      }
      if forall i :: 0 <= i < |w.items| ==> Stable(w.items[i], document, fuel) {
        assert PruneAll(r.value) == w.items;
      }
    }
  }

  // ----- the same, said of the part before it is normalised -----

  /** The items from which an object that keeps nothing but a `$ref` is reached. */
  function LeftOver(items: seq<Value>, document: Value, fuel: nat): seq<Value> {
    if items == [] then []
    else
      var n := |items| - 1;
      LeftOver(items[..n], document, fuel) + if NoHalfRefFrom(items[n], document, fuel) then [] else [items[n]]
  }

  /** Every reference that is left over from what is reached from `v` leads to itself.  In a list without
      order the items with left-over references, and only they, may instead normalise to one another. */
  ghost predicate SettlesFrom(v: Value, document: Value, fuel: nat, again: nat, loose: bool)
    decreases fuel, v
  {
    if IsLoneRef(v) then
      var target := RefTarget(v, document);
      fuel > 0 && target.Some? ==> SettlesFrom(target.value, document, fuel - 1, again, loose)
    else if IsHalfRef(v) then
      var left := Normal(v, document, fuel);
      left.Some? && IsLoneRef(left.value) ==> LeadsToItself(left.value, document, again)
    else
      match v
      case Obj(members) =>
        forall k :: k in members && k !in DOC_ONLY_KEYS ==> SettlesFrom(members[k], document, fuel, again, IsUnordered(k))
      case Arr(items) =>
        if loose then
          var left := ResolveItems(LeftOver(items, document, fuel), document, fuel);
          left.Some? ==> Rearranged(PruneAll(left.value), document, again)
        else forall i :: 0 <= i < |items| ==> SettlesFrom(items[i], document, fuel, again, false)
      case _ => true
  }

  ghost predicate SettlesKept(p: Value, document: Value, fuel: nat, loose: bool) {
    if loose && p.Arr? then Rearranged(p.items, document, fuel) else Settles(p, document, fuel)
  }

  /** Sorting a list does not change whether it normalises to a rearrangement of itself. */
  lemma RearrangedSorted(items: seq<Value>, document: Value, fuel: nat)
    ensures Rearranged(Sort(items, TextLeq), document, fuel) <==> Rearranged(items, document, fuel)
  {
    var sorted := Sort(items, TextLeq);
    SortContents(items, TextLeq);
    hide Sort, ResolveItems, PruneAll;
    if ResolveItems(sorted, document, fuel).Some? {
      ResolveRearranged(sorted, items, document, fuel);
    } else if ResolveItems(items, document, fuel).Some? {
      ResolveRearranged(items, sorted, document, fuel);
    }
  }

  lemma {:induction false} ResolveRearranged(xs: seq<Value>, ys: seq<Value>, document: Value, fuel: nat)
    requires multiset(xs) == multiset(ys) && ResolveItems(xs, document, fuel).Some?
    ensures ResolveItems(ys, document, fuel).Some?
    ensures multiset(PruneAll(ResolveItems(xs, document, fuel).value)) == multiset(PruneAll(ResolveItems(ys, document, fuel).value))
    decreases |xs|
  {
    assert |multiset(xs)| == |multiset(ys)|;
    hide *;
    if xs == [] {
      assert xs == ys;
    } else {
      assert xs[0] in multiset(ys);
      var k :| 0 <= k < |ys| && ys[k] == xs[0];
      RemoveAtContents(ys, k);
      RemoveAtContents(xs, 0);
      assert multiset(RemoveAt(xs, 0)) == multiset(xs) - multiset{xs[0]};
      assert multiset(RemoveAt(ys, k)) == multiset(ys) - multiset{xs[0]};
      ResolveItemsRemove(xs, 0, document, fuel);
      ResolveItemsRemove(ys, k, document, fuel);
      ResolveRearranged(RemoveAt(xs, 0), RemoveAt(ys, k), document, fuel);
      PruneAllRemove(ResolveItems(xs, document, fuel).value, 0);
      PruneAllRemove(ResolveItems(ys, document, fuel).value, k);
    }
  }

  /** An item that normalises to itself drops out. */
  lemma StableDropsOut(items: seq<Value>, k: nat, document: Value, fuel: nat)
    requires k < |items| && Stable(items[k], document, fuel)
    ensures Rearranged(items, document, fuel) <==> Rearranged(RemoveAt(items, k), document, fuel)
  {
    var x := Resolve(items[k], document, fuel).value;
    var rest := RemoveAt(items, k);
    var r, s := ResolveItems(items, document, fuel), ResolveItems(rest, document, fuel);
    assert Rearranged(items, document, fuel) <==> r.Some? && multiset(PruneAll(r.value)) == multiset(items);
    assert Rearranged(rest, document, fuel) <==> s.Some? && multiset(PruneAll(s.value)) == multiset(rest);
    assert Resolve(items[k], document, fuel).Some? && Prune(x) == items[k];
    hide *;
    ResolveItemsRemove(items, k, document, fuel);
    RemoveAtContents(items, k);
    if r.Some? {
      PruneAllRemove(r.value, k);
      assert multiset(PruneAll(r.value)) == multiset(PruneAll(s.value)) + multiset{items[k]};
      assert multiset(items) == multiset(rest) + multiset{items[k]};
      SameRest(multiset(PruneAll(s.value)), multiset(rest), items[k]);
    }
  }

  lemma SameRest(a: multiset<Value>, b: multiset<Value>, x: Value)
    ensures a + multiset{x} == b + multiset{x} <==> a == b
  {
    assert a + multiset{x} - multiset{x} == a && b + multiset{x} - multiset{x} == b;
  }

  /** The normal forms of the items of a list. */
  function Forms(items: seq<Value>, document: Value, fuel: nat): (r: seq<Value>)
    requires ResolveItems(items, document, fuel).Some?
    ensures |r| == |items|
    ensures forall i :: 0 <= i < |items| ==> r[i] == Prune(Resolve(items[i], document, fuel).value)
  {
    PruneAll(ResolveItems(items, document, fuel).value)
  }

  lemma {:induction false} LeftOverResolves(items: seq<Value>, document: Value, fuel: nat)
    requires ResolveItems(items, document, fuel).Some?
    ensures ResolveItems(LeftOver(items, document, fuel), document, fuel).Some?
  {
    hide Resolve, NoHalfRefFrom;
    if items != [] {
      LeftOverResolves(items[..|items| - 1], document, fuel);
    }
  }

  /** So only the items with left-over references have to be looked at. */
  lemma {:induction false} OnlyLeftOver(items: seq<Value>, back: seq<Value>, document: Value, fuel: nat, again: nat)
    requires ResolveItems(items, document, fuel).Some?
    ensures ResolveItems(LeftOver(items, document, fuel), document, fuel).Some?
    ensures Rearranged(Forms(items, document, fuel) + back, document, again) <==>
            Rearranged(Forms(LeftOver(items, document, fuel), document, fuel) + back, document, again)
    decreases |items|
  {
    hide Resolve, ResolveItems, Prune, PruneAll, Rearranged, NoHalfRefFrom, Forms;
    LeftOverResolves(items, document, fuel);
    if items != [] {
      var n := |items| - 1;
      var front := items[..n];
      assert ResolveItems(front, document, fuel).Some?;
      var p := Prune(Resolve(items[n], document, fuel).value);
      assert Forms(items, document, fuel) == Forms(front, document, fuel) + [p];
      if NoHalfRefFrom(items[n], document, fuel) {
        NormalTwice(items[n], document, fuel, again);
        var forms := Forms(items, document, fuel) + back;
        assert RemoveAt(forms, n) == Forms(front, document, fuel) + back;
        StableDropsOut(forms, n, document, again);
        OnlyLeftOver(front, back, document, fuel, again);
        assert LeftOver(items, document, fuel) == LeftOver(front, document, fuel);
      } else {
        OnlyLeftOver(front, [p] + back, document, fuel, again);
        var left := LeftOver(front, document, fuel);
        assert LeftOver(items, document, fuel) == left + [items[n]];
        assert Forms(left + [items[n]], document, fuel) == Forms(left, document, fuel) + [p];
        assert Forms(front, document, fuel) + ([p] + back) == Forms(items, document, fuel) + back;
        assert Forms(left, document, fuel) + ([p] + back) == Forms(left + [items[n]], document, fuel) + back;
      }
    }
  }

  lemma {:induction false} SettlesReached(v: Value, document: Value, fuel: nat, again: nat, loose: bool)
    requires Resolve(v, document, fuel).Some?
    ensures SettlesFrom(v, document, fuel, again, loose) <==>
            SettlesKept(Prune(Resolve(v, document, fuel).value), document, again, loose)
    decreases fuel, v
  {
    hide Resolve, ResolveMembers, ResolveItems, RefTarget, DOC_ONLY_KEYS, Settles, Rearranged, LeadsToItself, IsUnordered, Prune;
    if IsLoneRef(v) {
      ResolveReference(v, document, fuel);
      SettlesReached(RefTarget(v, document).value, document, fuel - 1, again, loose);
    } else if v.Obj? && IsHalfRef(v) {
      ResolveObject(v, document, fuel);
      HalfRefLeaves(Resolve(v, document, fuel).value, document, again);
    } else if v.Obj? {
      ResolveObject(v, document, fuel);
      forall k | k in v.members
        ensures SettlesFrom(v.members[k], document, fuel, again, IsUnordered(k)) <==>
                SettlesKept(Prune(Resolve(v.members[k], document, fuel).value), document, again, IsUnordered(k))
      {
        SettlesReached(v.members[k], document, fuel, again, IsUnordered(k));
      }
      var x := Resolve(v, document, fuel).value;
      MembersSettle(x, document, again);
      assert forall k :: k in v.members ==> x.members[k] == Resolve(v.members[k], document, fuel).value;
    } else if v.Arr? {
      ResolveArray(v, document, fuel);
      var r := ResolveItems(v.items, document, fuel).value;
      PruneArray(r);
      if loose {
        OnlyLeftOver(v.items, [], document, fuel, again);
        assert forall s: seq<Value> :: s + [] == s;
      } else {
        forall i | 0 <= i < |v.items|
          ensures SettlesFrom(v.items[i], document, fuel, again, false) <==> Settles(Prune(r[i]), document, again)
        {
          SettlesReached(v.items[i], document, fuel, again, false);
        }
        ItemsSettle(r, document, again);
      }
    } else {
      ResolveScalar(v, document, fuel);
      ScalarSettles(v, document, again);
    }
  }

  lemma HalfRefLeaves(x: Value, document: Value, again: nat)
    requires IsHalfRef(x)
    ensures IsLoneRef(Prune(x)) && (Settles(Prune(x), document, again) <==> LeadsToItself(Prune(x), document, again))
  {
    assert Prune(x) == Obj(PruneMembers(x));
    hide LeadsToItself, PruneMembers, DOC_ONLY_KEYS;
  }

  lemma ScalarSettles(v: Value, document: Value, again: nat)
    requires !v.Obj? && !v.Arr?
    ensures Prune(v) == v && Settles(v, document, again)
  {
  }

  lemma ItemsSettle(items: seq<Value>, document: Value, again: nat)
    ensures Settles(Arr(PruneAll(items)), document, again) <==>
            forall i :: 0 <= i < |items| ==> Settles(Prune(items[i]), document, again)
  {
    hide PruneAll, Prune, Rearranged, LeadsToItself;
    var ps := PruneAll(items);
    assert forall i :: 0 <= i < |items| ==> Settles(ps[i], document, again) == Settles(Prune(items[i]), document, again);
  }

  lemma MembersSettle(x: Value, document: Value, again: nat)
    requires x.Obj? && !IsHalfRef(x)
    ensures Prune(x).Obj?
    ensures Settles(Prune(x), document, again) <==>
            forall k :: k in x.members && k !in DOC_ONLY_KEYS ==>
              SettlesKept(Prune(x.members[k]), document, again, IsUnordered(k))
  {
    var p := PruneMembers(x);
    assert Prune(x) == Obj(p);
    hide PruneMembers, DOC_ONLY_KEYS, Ordered, IsUnordered, Rearranged, LeadsToItself, SettlesKept, SettlesAt;
    forall k | k in p
      ensures SettlesAt(k, Obj(p), document, again) <==> SettlesKept(Prune(x.members[k]), document, again, IsUnordered(k))
    {
      MemberSettles(k, Obj(p), Prune(x.members[k]), document, again);
    }
    hide Prune;
  }

  lemma MemberSettles(k: string, w: Value, p: Value, document: Value, again: nat)
    requires w.Obj? && k in w.members && w.members[k] == Ordered(k, p)
    ensures SettlesAt(k, w, document, again) <==> SettlesKept(p, document, again, IsUnordered(k))
  {
    if IsUnordered(k) && p.Arr? {
      RearrangedSorted(p.items, document, again);
    }
    hide Settles, Rearranged, Sort;
  }

  /** Normalising twice changes nothing exactly if every reference that dropping documentation leaves
      behind leads to itself, or the items of an unordered list normalise to one another. */
  lemma NormalTwiceExactly(v: Value, document: Value, fuel: nat, again: nat)
    requires Normal(v, document, fuel).Some?
    ensures Normal(Normal(v, document, fuel).value, document, again) == Normal(v, document, fuel) <==>
            SettlesFrom(v, document, fuel, again, false)
  {
    hide Resolve, Prune, Settles, SettlesFrom;
    PruneIdempotent(Resolve(v, document, fuel).value);
    SettlesExactly(Normal(v, document, fuel).value, document, again);
    SettlesReached(v, document, fuel, again, false);
  }
}
