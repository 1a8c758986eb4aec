/** Reordering the `required` and `enum` lists of a contract, in the part that is normalised and in
    the document that its references lead into. */
module ContractShuffle {
  import opened Text
  import opened Json
  import opened Sorting
  import opened JsonPointer
  import opened ContractReferences
  import opened ContractNormalForm

  /** Only lists under `required` and `enum` are put in another order, at any depth. */
  ghost predicate Shuffled(a: Value, b: Value) {
    Alike(a, b, false)
  }

  /** The same for a value of which it is known whether a list has an order there. */
  ghost predicate Near(a: Value, b: Value, loose: bool) {
    if loose && a.Arr? && b.Arr? then PairedOff(a.items, b.items, false) else Shuffled(a, b)
  }

  /** The reference leads to a list that sits under an unordered key: it takes the list away from
      the key that says its order means nothing. */
  predicate LeadsToUnordered(r: Value, document: Value)
    requires IsLoneRef(r)
  {
    var target := RefTarget(r, document);
    target.Some? && target.value.Arr? && IsUnordered(LastKey(r))
  }

  function LastKey(r: Value): string
    requires IsLoneRef(r)
  {
    assert "$ref" in r.members.Keys;
    if !r.members["$ref"].Str? then ""
    else
      var keys := Keys(r.members["$ref"].s);
      if keys.None? || keys.value == [] then "" else keys.value[|keys.value| - 1]
  }

  /** All items normalise alike, so that their order cannot show. */
  predicate Uniform(items: seq<Value>, document: Value, fuel: nat) {
    forall i, j :: 0 <= i < |items| && 0 <= j < |items| ==> Normal(items[i], document, fuel) == Normal(items[j], document, fuel)
  }

  /** Every reference reached from `v`, outside documentation, that leads to an unordered list stands where order does not
      matter either, or leads to a list of items that all normalise alike.  `loose` says that a list
      in the place of `v` has no order. */
  predicate Tame(v: Value, document: Value, fuel: nat, loose: bool)
    decreases fuel, v
  {
    if IsLoneRef(v) then
      var target := RefTarget(v, document);
      fuel > 0 && target.Some? ==>
        if !loose && LeadsToUnordered(v, document)
        then Uniform(target.value.items, document, fuel - 1) && Tame(target.value, document, fuel - 1, true)
        else Tame(target.value, document, fuel - 1, loose)
    else
      match v
      case Obj(members) =>
        forall k :: k in members && k !in DOC_ONLY_KEYS ==> Tame(members[k], document, fuel, IsUnordered(k))
      case Arr(items) => forall i :: 0 <= i < |items| ==> Tame(items[i], document, fuel, false)
      case _ => true
  }

  lemma TameReference(v: Value, document: Value, fuel: nat, loose: bool)
    requires IsLoneRef(v) && Tame(v, document, fuel, loose) && fuel > 0 && RefTarget(v, document).Some?
    ensures var target := RefTarget(v, document).value;
            if !loose && LeadsToUnordered(v, document)
            then target.Arr? && Uniform(target.items, document, fuel - 1) && Tame(target, document, fuel - 1, true)
            else Tame(target, document, fuel - 1, loose)
  {
  }

  lemma TameMember(v: Value, document: Value, fuel: nat, loose: bool, k: string)
    requires v.Obj? && !IsLoneRef(v) && k in v.members && k !in DOC_ONLY_KEYS && Tame(v, document, fuel, loose)
    ensures Tame(v.members[k], document, fuel, IsUnordered(k))
  {
    hide LeadsToUnordered, Uniform, IsUnordered, DOC_ONLY_KEYS;
  }

  lemma TameItems(v: Value, document: Value, fuel: nat, loose: bool)
    requires v.Arr? && Tame(v, document, fuel, loose)
    ensures forall i :: 0 <= i < |v.items| ==> Tame(v.items[i], document, fuel, false)
  {
    hide LeadsToUnordered, Uniform;
  }

  // ----- following a path in shuffled documents -----

  lemma AlikeMember(a: Value, b: Value, k: string)
    requires Shuffled(a, b) && a.Obj? && (k in a.members || (b.Obj? && k in b.members))
    ensures b.Obj? && k in b.members && k in a.members && Near(a.members[k], b.members[k], IsUnordered(k))
  {
    assert !Skipped(k, false);
    assert k in a.members ==> AlikeAt(k, a, b, false);
  }

  /** Along the same path lie near values, where the last key says whether a list has an order. */
  lemma {:induction false} ValueAtNear(a: Value, b: Value, path: seq<string>)
    requires Shuffled(a, b) && path != []
    ensures ValueAt(a, path).Some? <==> ValueAt(b, path).Some?
    ensures ValueAt(a, path).Some? ==> Near(ValueAt(a, path).value, ValueAt(b, path).value, IsUnordered(path[|path| - 1]))
    decreases path
  {
    var k := path[0];
    StepsOn(a, path);
    StepsOn(b, path);
    if Member(a, k).Some? || Member(b, k).Some? {
      AlikeMember(a, b, k);
      var x, y := a.members[k], b.members[k];
      if |path| == 1 {
        assert path[1..] == [];
      } else if x.Arr? || y.Arr? {
        NearLists(x, y, IsUnordered(k));
      } else {
        ValueAtNear(x, y, path[1..]);
      }
    }
  }

  lemma NearLists(x: Value, y: Value, loose: bool)
    requires Near(x, y, loose)
    ensures x.Arr? <==> y.Arr?
  {
  }

  lemma LoneRefShuffled(a: Value, b: Value)
    requires Shuffled(a, b)
    ensures IsLoneRef(a) <==> IsLoneRef(b)
    ensures IsLoneRef(a) && a.members["$ref"].Str? ==> b.members["$ref"] == a.members["$ref"]
    ensures IsLoneRef(a) && !a.members["$ref"].Str? ==> !b.members["$ref"].Str?
  {
    if a.Obj? {
      assert forall k :: !Skipped(k, false);
      assert a.members.Keys == b.members.Keys;
      if "$ref" in a.members {
        AlikeMember(a, b, "$ref");
      }
    }
  }

  lemma TargetNear(a: Value, b: Value, da: Value, db: Value)
    requires Shuffled(a, b) && Shuffled(da, db) && IsLoneRef(a) && IsLoneRef(b)
    ensures RefTarget(a, da).Some? <==> RefTarget(b, db).Some?
    ensures RefTarget(a, da).Some? ==> Near(RefTarget(a, da).value, RefTarget(b, db).value, LeadsToUnordered(a, da))
  {
    LoneRefShuffled(a, b);
    hide Alike, PairedOff, ValueAt, Shuffled;
    if a.members["$ref"].Str? {
      var keys := Keys(a.members["$ref"].s);
      if keys.Some? && keys.value != [] {
        ValueAtNear(da, db, keys.value);
        if RefTarget(a, da).Some? {
          NearLists(RefTarget(a, da).value, RefTarget(b, db).value, IsUnordered(LastKey(a)));
        }
      } else if keys.Some? {
        Arrived(da);
        Arrived(db);
      }
    }
  }

  lemma Loosen(x: Value, y: Value, narrow: bool, wide: bool)
    requires Near(x, y, narrow) && (narrow ==> wide)
    ensures Near(x, y, wide)
  {
    if !narrow && wide && x.Arr? && y.Arr? {
      PairedInPlace(x.items, y.items);
    }
  }

  lemma {:induction false} PairedInPlace(xs: seq<Value>, ys: seq<Value>)
    requires |xs| == |ys| && forall i :: 0 <= i < |xs| ==> Alike(xs[i], ys[i], false)
    ensures PairedOff(xs, ys, false)
    decreases xs
  {
    if xs != [] {
      hide Alike;
      assert RemoveAt(ys, 0) == ys[1..];
      PairedInPlace(xs[1..], ys[1..]);
      PairedMore(xs, ys, 0, false);
    }
  }

  // ----- what near values resolve to normalises alike -----

  ghost predicate SameForm(x: Value, y: Value, loose: bool) {
    if loose && x.Arr? && y.Arr? then multiset(PruneAll(x.items)) == multiset(PruneAll(y.items)) else Prune(x) == Prune(y)
  }

  /** Both or neither resolve; if it is tame, to the same form. */
  ghost predicate SameOutcome(x: Option<Value>, y: Option<Value>, loose: bool, tame: bool) {
    (x.Some? <==> y.Some?) && (tame && x.Some? ==> SameForm(x.value, y.value, loose))
  }

  lemma {:induction false} ResolveNear(a: Value, b: Value, da: Value, db: Value, fuel: nat, loose: bool)
    requires Near(a, b, loose) && Shuffled(da, db)
    ensures SameOutcome(Resolve(a, da, fuel), Resolve(b, db, fuel), loose, Tame(a, da, fuel, loose))
    decreases fuel, a, 2
  {
    hide *;
    NearKinds(a, b, loose);
    if IsLoneRef(a) {
      ReferenceNear(a, b, da, db, fuel, loose);
    } else if a.Obj? {
      MembersNear(a, b, da, db, fuel, loose);
    } else if a.Arr? {
      ItemsNear(a, b, da, db, fuel, loose);
    } else {
      ScalarNear(a, b, da, db, fuel, loose);
    }
  }

  lemma NearKinds(a: Value, b: Value, loose: bool)
    requires Near(a, b, loose)
    ensures !a.Arr? ==> Shuffled(a, b)
    ensures (IsLoneRef(a) <==> IsLoneRef(b)) && (IsLoneRef(a) ==> a.Obj?) && (a.Arr? ==> !IsLoneRef(a))
  {
    if !a.Arr? {
      LoneRefShuffled(a, b);
    }
  }

  lemma ScalarNear(a: Value, b: Value, da: Value, db: Value, fuel: nat, loose: bool)
    requires !a.Obj? && !a.Arr? && Shuffled(a, b)
    ensures SameOutcome(Resolve(a, da, fuel), Resolve(b, db, fuel), loose, Tame(a, da, fuel, loose))
  {
    ResolveScalar(a, da, fuel);
    ResolveScalar(b, db, fuel);
    hide Resolve;
  }

  lemma {:induction false} ReferenceNear(a: Value, b: Value, da: Value, db: Value, fuel: nat, loose: bool)
    requires IsLoneRef(a) && IsLoneRef(b) && Shuffled(a, b) && Shuffled(da, db)
    ensures SameOutcome(Resolve(a, da, fuel), Resolve(b, db, fuel), loose, Tame(a, da, fuel, loose))
    decreases fuel, a, 1
  {
    hide *;
    TargetNear(a, b, da, db);
    ResolveReference(a, da, fuel);
    ResolveReference(b, db, fuel);
    if fuel > 0 && RefTarget(a, da).Some? {
      var x, y := RefTarget(a, da).value, RefTarget(b, db).value;
      if Tame(a, da, fuel, loose) { TameReference(a, da, fuel, loose); }
      if !loose && LeadsToUnordered(a, da) {
        ResolveNear(x, y, da, db, fuel - 1, true);
        UniformNear(x, da, fuel - 1, Resolve(y, db, fuel - 1), Tame(a, da, fuel, loose), Tame(x, da, fuel - 1, true));
      } else {
        Loosen(x, y, LeadsToUnordered(a, da), loose);
        ResolveNear(x, y, da, db, fuel - 1, loose);
        Weaken(Resolve(x, da, fuel - 1), Resolve(y, db, fuel - 1), loose, Tame(x, da, fuel - 1, loose), Tame(a, da, fuel, loose));
      }
    } else {
      BothFail(loose, Tame(a, da, fuel, loose));
    }
  }

  lemma BothFail(loose: bool, tame: bool)
    ensures SameOutcome(None, None, loose, tame)
  {
  }

  lemma Weaken(x: Option<Value>, y: Option<Value>, loose: bool, tame: bool, more: bool)
    requires SameOutcome(x, y, loose, tame) && (more ==> tame)
    ensures SameOutcome(x, y, loose, more)
  {
  }

  /** Rearranging items that all normalise alike does not show. */
  lemma UniformNear(x: Value, da: Value, fuel: nat, y: Option<Value>, more: bool, tame: bool)
    requires SameOutcome(Resolve(x, da, fuel), y, true, tame)
    requires more ==> tame && x.Arr? && Uniform(x.items, da, fuel)
    ensures SameOutcome(Resolve(x, da, fuel), y, false, more)
  {
    hide Resolve, ResolveItems, Prune, PruneAll, Uniform;
    if more && y.Some? && y.value.Arr? {
      ResolveArray(x, da, fuel);
      var rs := ResolveItems(x.items, da, fuel).value;
      var xs, ys := PruneAll(rs), PruneAll(y.value.items);
      forall i, j | 0 <= i < |xs| && 0 <= j < |xs| ensures xs[i] == xs[j] {
        UniformAt(x.items, da, fuel, i, j);
      }
      SameWhenUniform(xs, ys);
      PruneLists(rs, y.value.items);
    }
  }

  lemma UniformAt(items: seq<Value>, da: Value, fuel: nat, i: nat, j: nat)
    requires Uniform(items, da, fuel) && i < |items| && j < |items| && ResolveItems(items, da, fuel).Some?
    ensures Prune(Resolve(items[i], da, fuel).value) == Prune(Resolve(items[j], da, fuel).value)
  {
    hide Resolve, Prune;
    assert Normal(items[i], da, fuel) == Normal(items[j], da, fuel);
  }

  lemma SameWhenUniform(xs: seq<Value>, ys: seq<Value>)
    requires multiset(xs) == multiset(ys)
    requires forall i, j :: 0 <= i < |xs| && 0 <= j < |xs| ==> xs[i] == xs[j]
    ensures xs == ys
  {
    assert |xs| == |multiset(xs)| == |multiset(ys)| == |ys|;
    forall i | 0 <= i < |xs| ensures xs[i] == ys[i] {
      assert ys[i] in multiset(ys);
      var j :| 0 <= j < |xs| && xs[j] == ys[i];
    }
  }

  lemma PruneLists(xs: seq<Value>, ys: seq<Value>)
    requires PruneAll(xs) == PruneAll(ys)
    ensures Prune(Arr(xs)) == Prune(Arr(ys))
  {
  }

  lemma {:induction false} MembersNear(a: Value, b: Value, da: Value, db: Value, fuel: nat, loose: bool)
    requires a.Obj? && !IsLoneRef(a) && !IsLoneRef(b) && Shuffled(a, b) && Shuffled(da, db)
    ensures SameOutcome(Resolve(a, da, fuel), Resolve(b, db, fuel), loose, Tame(a, da, fuel, loose))
    decreases fuel, a, 1
  {
    SameKeys(a, b);
    hide *;
    var tame := Tame(a, da, fuel, loose);
    forall k | k in a.members
      ensures SameOutcome(Resolve(a.members[k], da, fuel), Resolve(b.members[k], db, fuel), IsUnordered(k), tame && k !in DOC_ONLY_KEYS)
    {
      AlikeMember(a, b, k);
      if tame && k !in DOC_ONLY_KEYS { TameMember(a, da, fuel, loose, k); }
      ResolveNear(a.members[k], b.members[k], da, db, fuel, IsUnordered(k));
      Weaken(Resolve(a.members[k], da, fuel), Resolve(b.members[k], db, fuel), IsUnordered(k),
             Tame(a.members[k], da, fuel, IsUnordered(k)), tame && k !in DOC_ONLY_KEYS);
    }
    MembersTogether(a, b, da, db, fuel, loose, tame);
  }

  lemma SameKeys(a: Value, b: Value)
    requires a.Obj? && Shuffled(a, b)
    ensures b.Obj? && a.members.Keys == b.members.Keys
  {
    assert forall k :: !Skipped(k, false);
  }

  lemma MembersTogether(a: Value, b: Value, da: Value, db: Value, fuel: nat, loose: bool, tame: bool)
    requires a.Obj? && b.Obj? && a.members.Keys == b.members.Keys && !IsLoneRef(a) && !IsLoneRef(b)
    requires forall k :: k in a.members ==>
      SameOutcome(Resolve(a.members[k], da, fuel), Resolve(b.members[k], db, fuel), IsUnordered(k), tame && k !in DOC_ONLY_KEYS)
    ensures SameOutcome(Resolve(a, da, fuel), Resolve(b, db, fuel), loose, tame)
  {
    hide Resolve, ResolveMembers, IsLoneRef, SameForm, IsUnordered, DOC_ONLY_KEYS;
    ResolveObject(a, da, fuel);
    ResolveObject(b, db, fuel);
    var x, y := ResolveMembers(a, da, fuel), ResolveMembers(b, db, fuel);
    assert x.Some? <==> y.Some?;
    if tame && x.Some? {
      forall k | k in x.value && k !in DOC_ONLY_KEYS
        ensures SameForm(x.value[k], y.value[k], IsUnordered(k))
      {
        assert SameOutcome(Resolve(a.members[k], da, fuel), Resolve(b.members[k], db, fuel), IsUnordered(k), tame && k !in DOC_ONLY_KEYS);
      }
      ObjectsSameForm(Obj(x.value), Obj(y.value), loose);
    }
  }

  lemma ObjectsSameForm(a: Value, b: Value, loose: bool)
    requires a.Obj? && b.Obj? && a.members.Keys == b.members.Keys
    requires forall k :: k in a.members && k !in DOC_ONLY_KEYS ==> SameForm(a.members[k], b.members[k], IsUnordered(k))
    ensures SameForm(a, b, loose)
  {
    hide IsUnordered, SameForm, Prune, Ordered, DOC_ONLY_KEYS;
    forall k | k in a.members && k !in DOC_ONLY_KEYS
      ensures Ordered(k, Prune(a.members[k])) == Ordered(k, Prune(b.members[k]))
    {
      SameOrdered(k, a.members[k], b.members[k]);
    }
    SamePruned(a, b);
    SameObjects(a, b, loose);
  }

  lemma SameObjects(a: Value, b: Value, loose: bool)
    requires a.Obj? && b.Obj? && PruneMembers(a) == PruneMembers(b)
    ensures SameForm(a, b, loose)
  {
    hide PruneMembers;
  }

  lemma SameOrdered(k: string, x: Value, y: Value)
    requires SameForm(x, y, IsUnordered(k))
    ensures Ordered(k, Prune(x)) == Ordered(k, Prune(y))
  {
    hide PruneAll, IsUnordered;
    if IsUnordered(k) && x.Arr? && y.Arr? {
      TextLeqTotalOrder();
      SortDetermined(PruneAll(x.items), PruneAll(y.items), TextLeq);
    }
  }

  lemma {:induction false} ItemsNear(a: Value, b: Value, da: Value, db: Value, fuel: nat, loose: bool)
    requires a.Arr? && Near(a, b, loose) && Shuffled(da, db)
    ensures SameOutcome(Resolve(a, da, fuel), Resolve(b, db, fuel), loose, Tame(a, da, fuel, loose))
    decreases fuel, a, 1
  {
    NearLists(a, b, loose);
    hide Resolve, ResolveItems, Tame, PairedOff, Prune, PruneAll;
    var tame := Tame(a, da, fuel, loose);
    if tame { TameItems(a, da, fuel, loose); }
    ResolveArray(a, da, fuel);
    ResolveArray(b, db, fuel);
    var x, y := ResolveItems(a.items, da, fuel), ResolveItems(b.items, db, fuel);
    if loose {
      PairedResolve(a.items, b.items, da, db, fuel, tame);
    } else {
      forall i | 0 <= i < |a.items|
        ensures SameOutcome(Resolve(a.items[i], da, fuel), Resolve(b.items[i], db, fuel), false, tame)
      {
        ResolveNear(a.items[i], b.items[i], da, db, fuel, false);
      }
      if tame && x.Some? {
        assert PruneAll(x.value) == PruneAll(y.value);
        PruneLists(x.value, y.value);
      }
    }
  }

  lemma {:induction false} PairedResolve(xs: seq<Value>, ys: seq<Value>, da: Value, db: Value, fuel: nat, tame: bool)
    requires PairedOff(xs, ys, false) && Shuffled(da, db)
    requires tame ==> forall i :: 0 <= i < |xs| ==> Tame(xs[i], da, fuel, false)
    ensures ResolveItems(xs, da, fuel).Some? <==> ResolveItems(ys, db, fuel).Some?
    ensures tame && ResolveItems(xs, da, fuel).Some? ==>
            multiset(PruneAll(ResolveItems(xs, da, fuel).value)) == multiset(PruneAll(ResolveItems(ys, db, fuel).value))
    decreases fuel, xs
  {
    hide *;
    if xs == [] {
      NothingPaired(xs, ys);
    } else {
      var k := PairedStep(xs, ys, false);
      NearItems(xs[0], ys[k]);
      ResolveNear(xs[0], ys[k], da, db, fuel, false);
      FormsAgree(Resolve(xs[0], da, fuel), Resolve(ys[k], db, fuel), Tame(xs[0], da, fuel, false));
      PairedResolve(xs[1..], RemoveAt(ys, k), da, db, fuel, tame);
      assert RemoveAt(xs, 0) == xs[1..];
      ResolveItemsRemove(xs, 0, da, fuel);
      ResolveItemsRemove(ys, k, db, fuel);
      if ResolveItems(xs, da, fuel).Some? {
        PruneAllRemove(ResolveItems(xs, da, fuel).value, 0);
        PruneAllRemove(ResolveItems(ys, db, fuel).value, k);
      }
    }
  }

  lemma NothingPaired(xs: seq<Value>, ys: seq<Value>)
    requires xs == []
    ensures PairedOff(xs, ys, false) <==> ys == []
  {
  }

  lemma NearItems(x: Value, y: Value)
    requires Alike(x, y, false)
    ensures Near(x, y, false)
  {
  }

  lemma FormsAgree(x: Option<Value>, y: Option<Value>, tame: bool)
    requires SameOutcome(x, y, false, tame)
    ensures (x.Some? <==> y.Some?) && (tame && x.Some? ==> Prune(x.value) == Prune(y.value))
  {
  }

  lemma ResolveItemsRemove(ys: seq<Value>, k: nat, document: Value, fuel: nat)
    requires k < |ys|
    ensures ResolveItems(ys, document, fuel).Some? <==>
            Resolve(ys[k], document, fuel).Some? && ResolveItems(RemoveAt(ys, k), document, fuel).Some?
    ensures ResolveItems(ys, document, fuel).Some? ==>
            && ResolveItems(ys, document, fuel).value[k] == Resolve(ys[k], document, fuel).value
            && RemoveAt(ResolveItems(ys, document, fuel).value, k) == ResolveItems(RemoveAt(ys, k), document, fuel).value
  {
    hide *;
    var rest := RemoveAt(ys, k);
    forall i | 0 <= i < |ys| && i != k
      ensures exists j :: 0 <= j < |rest| && rest[j] == ys[i]
    {
      assert rest[if i < k then i else i - 1] == ys[i];
    }
    if ResolveItems(ys, document, fuel).Some? {
      assert RemoveAt(ResolveItems(ys, document, fuel).value, k) == ResolveItems(rest, document, fuel).value;
    }
  }

  // ----- the order of unordered lists does not show -----

  /** Reordering `required` and `enum` lists at any depth, in the part and in the document, changes
      neither the normal form nor whether there is one, provided that every reference reached from
      the part is tame. */
  lemma ShuffleInvariant(a: Value, b: Value, da: Value, db: Value, fuel: nat)
    requires Shuffled(a, b) && Shuffled(da, db) && Tame(a, da, fuel, false)
    ensures Normal(a, da, fuel) == Normal(b, db, fuel)
  {
    hide Shuffled, Tame, Resolve, Prune;
    ResolveNear(a, b, da, db, fuel, false);
  }
}
