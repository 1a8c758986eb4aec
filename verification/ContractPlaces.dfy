/** What `resolve_ref` and `normalize` of scripts/check_contract.py keep, drop and follow, member by
    member and place by place, with every key written out. */
module ContractPlaces {
  import opened Text
  import opened Json
  import opened JsonPaths
  import opened JsonPointer
  import opened Sorting
  import opened ContractReferences
  import opened ContractNormalForm

  /** The keys that only document. */
  predicate Documents(key: string) {
    || key == "description" || key == "summary" || key == "title" || key == "example" || key == "examples"
    || key == "operationId" || key == "tags" || key == "externalDocs"
  }

  /** The keys under which a list has no order. */
  predicate LosesOrder(key: string) {
    key == "required" || key == "enum"
  }

  /** Two members say the same in a normal form. */
  ghost predicate SameMember(key: string, x: Value, y: Value) {
    if LosesOrder(key) && x.Arr? && y.Arr?
    then multiset(PruneAll(x.items)) == multiset(PruneAll(y.items))
    else Prune(x) == Prune(y)
  }

  lemma SameMemberExactly(key: string, x: Value, y: Value)
    ensures Ordered(key, Prune(x)) == Ordered(key, Prune(y)) <==> SameMember(key, x, y)
  {
    if LosesOrder(key) && x.Arr? && y.Arr? {
      TextLeqTotalOrder();
      SortDetermined(PruneAll(x.items), PruneAll(y.items), TextLeq);
    } else if LosesOrder(key) && Prune(x) != Prune(y) {
      assert Prune(x).Arr? <==> x.Arr?;
      assert Prune(y).Arr? <==> y.Arr?;
    }
  }

  /** Objects normalise alike exactly if they have the same keys outside the eight that document, with
      members that say the same; lists lose their order under `required` and `enum` and nowhere else. */
  lemma ObjectsExactly(a: Value, b: Value)
    requires a.Obj? && b.Obj?
    ensures Prune(a) == Prune(b) <==>
            forall k :: !Documents(k) ==>
              && (k in a.members <==> k in b.members)
              && (k in a.members ==> SameMember(k, a.members[k], b.members[k]))
  {
    assert Prune(a) == Obj(PruneMembers(a)) && Prune(b) == Obj(PruneMembers(b));
    hide *;
    forall k | !Documents(k) ensures SameAt(k, a, b) <==> SamePrunedAt(k, a, b) {
      SameAtExactly(k, a, b);
    }
    PrunedExactly(a, b);
    forall k ensures SameAt(k, a, b) <==>
      (k in a.members <==> k in b.members) && (k in a.members ==> SameMember(k, a.members[k], b.members[k]))
    {
      SameAtMeans(k, a, b);
    }
  }

  ghost predicate SameAt(k: string, a: Value, b: Value)
    requires a.Obj? && b.Obj?
  {
    (k in a.members <==> k in b.members) && (k in a.members ==> SameMember(k, a.members[k], b.members[k]))
  }

  lemma SameAtMeans(k: string, a: Value, b: Value)
    requires a.Obj? && b.Obj?
    ensures SameAt(k, a, b) <==>
            (k in a.members <==> k in b.members) && (k in a.members ==> SameMember(k, a.members[k], b.members[k]))
  {
    hide SameMember;
  }

  ghost predicate SamePrunedAt(k: string, a: Value, b: Value)
    requires a.Obj? && b.Obj?
  {
    var p, q := PruneMembers(a), PruneMembers(b);
    (k in p <==> k in q) && (k in p ==> p[k] == q[k])
  }

  lemma SameAtExactly(k: string, a: Value, b: Value)
    requires a.Obj? && b.Obj? && !Documents(k)
    ensures SameAt(k, a, b) <==> SamePrunedAt(k, a, b)
  {
    KeysWrittenOut();
    hide Prune, PruneMembers, DOC_ONLY_KEYS, Documents, SameMember, Ordered;
    if k in a.members && k in b.members {
      SameMemberExactly(k, a.members[k], b.members[k]);
    }
  }

  /** What is pruned has no documentation, so only the other keys have to agree. */
  lemma PrunedExactly(a: Value, b: Value)
    requires a.Obj? && b.Obj?
    ensures PruneMembers(a) == PruneMembers(b) <==> forall k :: !Documents(k) ==> SamePrunedAt(k, a, b)
  {
    KeysWrittenOut();
    var p, q := PruneMembers(a), PruneMembers(b);
    hide Prune, PruneMembers, DOC_ONLY_KEYS, Documents;
    if forall k :: !Documents(k) ==> SamePrunedAt(k, a, b) {
      forall k ensures k in p <==> k in q {
        assert Documents(k) || SamePrunedAt(k, a, b);
      }
      assert p.Keys == q.Keys;
      forall k | k in p ensures p[k] == q[k] {
        assert SamePrunedAt(k, a, b);
      }
    }
  }

  lemma KeysWrittenOut()
    ensures forall k :: k in DOC_ONLY_KEYS <==> Documents(k)
  {
  }

  /** The same of two parts of contracts, once their references are resolved. */
  lemma PartsExactly(a: Value, da: Value, b: Value, db: Value, fuel: nat)
    requires Resolve(a, da, fuel).Some? && Resolve(b, db, fuel).Some?
    requires Resolve(a, da, fuel).value.Obj? && Resolve(b, db, fuel).value.Obj?
    ensures var x, y := Resolve(a, da, fuel).value.members, Resolve(b, db, fuel).value.members;
            Normal(a, da, fuel) == Normal(b, db, fuel) <==>
            forall k :: !Documents(k) ==> (k in x <==> k in y) && (k in x ==> SameMember(k, x[k], y[k]))
  {
    hide Resolve, Prune, Documents, SameMember;
    ObjectsExactly(Resolve(a, da, fuel).value, Resolve(b, db, fuel).value);
  }

  /** Documentation is free: adding, dropping or changing one of the eight members changes nothing. */
  lemma DocumentationIsFree(a: Value, k: string, x: Value)
    requires a.Obj? && Documents(k)
    ensures Prune(Obj(a.members[k := x])) == Prune(a) == Prune(Obj(a.members - {k}))
  {
    var b, c := Obj(a.members[k := x]), Obj(a.members - {k});
    forall j | !Documents(j) && j in a.members
      ensures SameMember(j, a.members[j], b.members[j]) && SameMember(j, a.members[j], c.members[j])
    {
    }
    hide Prune, Documents, SameMember;
    ObjectsExactly(a, b);
    ObjectsExactly(a, c);
  }

  /** Lists normalise alike exactly if their items do, one by one. */
  lemma ListsExactly(xs: seq<Value>, ys: seq<Value>)
    ensures Prune(Arr(xs)) == Prune(Arr(ys)) <==> |xs| == |ys| && forall i :: 0 <= i < |xs| ==> Prune(xs[i]) == Prune(ys[i])
  {
    PruneArray(xs);
    PruneArray(ys);
    var p, q := PruneAll(xs), PruneAll(ys);
    hide Prune, PruneAll;
    if p == q {
      forall i | 0 <= i < |xs| ensures Prune(xs[i]) == Prune(ys[i]) {
        assert p[i] == q[i];
      }
    }
  }

  /** A scalar normalises to itself, and kinds are never mixed up. */
  lemma KindsKept(x: Value)
    ensures Prune(x).Obj? <==> x.Obj?
    ensures Prune(x).Arr? <==> x.Arr?
    ensures !x.Obj? && !x.Arr? ==> Prune(x) == x
  {
  }

  /** The lists under `required` and `enum` come out sorted by the text of their items, with blanks
      behind separators and without escapes for other alphabets; nothing is lost or added. */
  lemma UnorderedSorted(a: Value, k: string)
    requires a.Obj? && LosesOrder(k) && k in a.members && a.members[k].Arr?
    ensures Prune(a).Obj? && k in Prune(a).members && Prune(a).members[k].Arr?
    ensures var items := Prune(a).members[k].items;
            && multiset(items) == multiset(PruneAll(a.members[k].items))
            && forall i, j :: 0 <= i < j < |items| ==> LexLeq(Dumps(items[i], Style(false, true)), Dumps(items[j], Style(false, true)))
  {
    PruneArray(a.members[k].items);
    SortedByText(PruneAll(a.members[k].items));
    KeysWrittenOut();
    assert !Documents(k);
    assert Prune(a) == Obj(PruneMembers(a));
    hide Prune, LexLeq, Dumps, PruneAll, PruneMembers, Sort, DOC_ONLY_KEYS, Documents;
    assert PruneMembers(a)[k] == Ordered(k, Prune(a.members[k]));
  }

  lemma SortedByText(items: seq<Value>)
    ensures var s := Sort(items, TextLeq);
            && multiset(s) == multiset(items)
            && forall i, j :: 0 <= i < j < |s| ==> LexLeq(Dumps(s[i], Style(false, true)), Dumps(s[j], Style(false, true)))
  {
    TextLeqTotalOrder();
    SortSorted(items, TextLeq);
    SortContents(items, TextLeq);
    var s := Sort(items, TextLeq);
    hide Sort, LexLeq, Dumps;
    forall i, j | 0 <= i < j < |s| ensures LexLeq(Dumps(s[i], Style(false, true)), Dumps(s[j], Style(false, true))) {
      assert TextLeq(s[i], s[j]);
    }
  }

  // ----- references -----

  /** An object with `$ref` and nothing else. */
  predicate IsReference(v: Value) {
    v.Obj? && "$ref" in v.members && forall k :: k in v.members ==> k == "$ref"
  }

  lemma ReferenceWrittenOut(v: Value)
    ensures IsLoneRef(v) <==> IsReference(v)
  {
    if IsLoneRef(v) {
      assert "$ref" in v.members.Keys;
      assert forall k :: k in v.members ==> k in v.members.Keys;
    }
    if IsReference(v) {
      assert v.members.Keys == {"$ref"};
    }
  }

  /** Following a reference to a place in the document is resolving what stands there; a reference to
      anything else fails. */
  lemma FollowsPointer(document: Value, path: seq<string>, fuel: nat)
    requires path != []
    ensures Resolve(Obj(map["$ref" := Str(Pointer(path))]), document, fuel + 1) ==
            var target := ValueAt(document, path); if target.None? then None else Resolve(target.value, document, fuel)
  {
    var v := Obj(map["$ref" := Str(Pointer(path))]);
    ReferenceWrittenOut(v);
    PointerLeadsThere(document, path);
    hide Pointer, ValueAt, Target;
    ResolveReference(v, document, fuel + 1);
  }

  /** Only texts and only local ones are followed. */
  lemma FollowsLocalOnly(v: Value, document: Value, fuel: nat)
    requires IsReference(v) && Resolve(v, document, fuel).Some?
    ensures v.members["$ref"].Str? && |v.members["$ref"].s| >= 2 && v.members["$ref"].s[0] == '#' && v.members["$ref"].s[1] == '/'
  {
    ReferenceWrittenOut(v);
    ResolveReference(v, document, fuel);
    var s := v.members["$ref"].s;
    assert StartsWith(s, "#/");
    assert s[..2] == "#/";
    assert s[0] == s[..2][0] && s[1] == s[..2][1];
  }

  /** No object on the way to a place, that at the place itself not counted, is a lone reference. */
  predicate Passable(v: Value, path: Path) {
    path == [] ||
    (!IsReference(v) &&
     match path[0]
     case Key(k) => v.Obj? && k in v.members ==> Passable(v.members[k], path[1..])
     case Index(i) => v.Arr? && i < |v.items| ==> Passable(v.items[i], path[1..]))
  }

  /** Place by place: what stands at a place of the result is what stood there, resolved. */
  lemma {:induction false} ResolveByPlace(v: Value, document: Value, fuel: nat, path: Path)
    requires Resolve(v, document, fuel).Some? && Passable(v, path)
    ensures At(Resolve(v, document, fuel).value, path) ==
            var x := At(v, path); if x.None? then None else Resolve(x.value, document, fuel)
    decreases |path|
  {
    if path != [] {
      ReferenceWrittenOut(v);
      hide Resolve, ResolveMembers, ResolveItems;
      if v.Obj? {
        ResolveObject(v, document, fuel);
        if path[0].Key? && path[0].name in v.members {
          ResolveByPlace(v.members[path[0].name], document, fuel, path[1..]);
        }
      } else if v.Arr? {
        ResolveArray(v, document, fuel);
        if path[0].Index? && path[0].position < |v.items| {
          ResolveByPlace(v.items[path[0].position], document, fuel, path[1..]);
        }
      } else {
        ResolveScalar(v, document, fuel);
      }
    }
  }

  /** A value without lone references is returned as it is. */
  lemma {:induction false} NothingToFollow(v: Value, document: Value, fuel: nat)
    requires forall path :: At(v, path).Some? ==> !IsReference(At(v, path).value)
    ensures Resolve(v, document, fuel) == Some(v)
    decreases v
  {
    assert At(v, []) == Some(v);
    ReferenceWrittenOut(v);
    match v
    case Obj(members) =>
      forall k | k in members ensures Resolve(members[k], document, fuel) == Some(members[k]) {
        forall path | At(members[k], path).Some? ensures !IsReference(At(members[k], path).value) {
          AtKey(v, k, path);
        }
        NothingToFollow(members[k], document, fuel);
      }
      hide Resolve, ResolveMembers;
      ResolveObject(v, document, fuel);
      assert ResolveMembers(v, document, fuel).value == members;
    case Arr(items) =>
      forall i | 0 <= i < |items| ensures Resolve(items[i], document, fuel) == Some(items[i]) {
        forall path | At(items[i], path).Some? ensures !IsReference(At(items[i], path).value) {
          AtIndex(v, i, path);
        }
        NothingToFollow(items[i], document, fuel);
      }
      hide Resolve, ResolveItems;
      ResolveArray(v, document, fuel);
      assert ResolveItems(items, document, fuel).value == items;
    case _ =>
  }
}
