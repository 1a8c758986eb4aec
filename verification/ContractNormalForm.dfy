/** `normalize` of scripts/check_contract.py: resolve references, drop what only documents, and
    sort the lists whose order means nothing.  Two parts of a contract are compared by it. */
module ContractNormalForm {
  import opened Text
  import opened Json
  import opened Sorting
  import opened ContractReferences

  const DOC_ONLY_KEYS: set<string> :=
    {"description", "summary", "title", "example", "examples", "operationId", "tags", "externalDocs"}

  /** The keys under which a list has no order. */
  predicate IsUnordered(key: string) {
    key == "required" || key == "enum"
  }

  /** `ensure_ascii=False` with the default separators. */
  const SORT_STYLE := Style(false, true)

  predicate TextLeq(a: Value, b: Value) {
    LexLeq(Dumps(a, SORT_STYLE), Dumps(b, SORT_STYLE))
  }

  lemma TextLeqTotalOrder()
    ensures TotalOrder(TextLeq)
  {
    TextOrder(TextLeq, SORT_STYLE);
  }

  /** A value as it is kept in a place where the order of a list matters, or does not. */
  function Kept(v: Value, loose: bool): Value {
    if loose && v.Arr? then Arr(Sort(v.items, TextLeq)) else v
  }

  function Ordered(key: string, v: Value): Value {
    Kept(v, IsUnordered(key))
  }

  /** Normalising a value whose references are resolved. */
  function Prune(v: Value): Value
    decreases v, 1
  {
    match v
    case Obj(_) => Obj(PruneMembers(v))
    case Arr(items) => Arr(PruneAll(items))
    case _ => v
  }

  function PruneMembers(v: Value): (r: map<string, Value>)
    requires v.Obj?
    ensures r.Keys == v.members.Keys - DOC_ONLY_KEYS
    ensures forall k :: k in r ==> r[k] == Ordered(k, Prune(v.members[k]))
    decreases v, 0
  {
    map k | k in v.members && k !in DOC_ONLY_KEYS :: Ordered(k, Prune(v.members[k]))
  }

  function PruneAll(items: seq<Value>): (r: seq<Value>)
    ensures |r| == |items|
    ensures forall i :: 0 <= i < |items| ==> r[i] == Prune(items[i])
    decreases items
  {
    seq(|items|, i requires 0 <= i < |items| => Prune(items[i]))
  }

  lemma PruneArray(items: seq<Value>)
    ensures Prune(Arr(items)) == Arr(PruneAll(items))
  {
  }

  /** What `normalize` returns. */
  function Normal(v: Value, document: Value, fuel: nat): Option<Value> {
    var r := Resolve(v, document, fuel);
    if r.None? then None else Some(Prune(r.value))
  }

  // ----- the code: every level resolves again -----

  /** The code calls itself on parts of what it has resolved, so a second call finds no reference. */
  method Normalize(v: Value, document: Value, fuel: nat) returns (r: Option<Value>)
    ensures r == Normal(v, document, fuel)
    decreases if Resolved(v) then 0 else 1, v
  {
    var resolved := Resolve(v, document, fuel);
    if resolved.None? {
      return None;
    }
    ResolveLeavesNone(v, document, fuel);
    if Resolved(v) {
      ResolvedStays(v, document, fuel);
    }
    match resolved.value
    case Obj(members) =>
      var result := NormalizeMembers(resolved.value, document, fuel, v);
      return Some(Obj(result));
    case Arr(items) =>
      var result := NormalizeItems(resolved.value, document, fuel, v);
      return Some(Arr(result));
    case _ =>
      return resolved;
  }

  ghost predicate PartOf(w: Value, v: Value) {
    Resolved(w) && (Resolved(v) ==> w == v)
  }

  lemma ResolvedNormal(v: Value, document: Value, fuel: nat)
    requires Resolved(v)
    ensures Normal(v, document, fuel) == Some(Prune(v))
  {
    ResolvedStays(v, document, fuel);
  }

  method NormalizeMembers(w: Value, document: Value, fuel: nat, ghost v: Value) returns (result: map<string, Value>)
    requires w.Obj? && PartOf(w, v)
    ensures result == PruneMembers(w)
    decreases if Resolved(v) then 0 else 1, v, 0
  {
    hide Normal, Prune, PruneMembers, IsLoneRef, DOC_ONLY_KEYS;
    result := map[];
    var todo := w.members.Keys;
    while todo != {}
      invariant todo <= w.members.Keys
      invariant result.Keys == w.members.Keys - todo - DOC_ONLY_KEYS
      invariant forall k :: k in result ==> result[k] == Prune(w.members[k])
      decreases todo
    {
      var k :| k in todo;
      todo := todo - {k};
      if k !in DOC_ONLY_KEYS {
        var item := Normalize(w.members[k], document, fuel);
        ResolvedNormal(w.members[k], document, fuel);
        result := result[k := item.value];
      }
    }
    result := SortUnordered(result);
  }

  /** The two keys whose lists have no order. */
  method SortUnordered(members: map<string, Value>) returns (result: map<string, Value>)
    ensures result.Keys == members.Keys
    ensures forall k :: k in members ==> result[k] == Ordered(k, members[k])
  {
    hide Sort;
    result := members;
    if "required" in result && result["required"].Arr? {
      result := result["required" := Arr(Sort(result["required"].items, TextLeq))];
    }
    if "enum" in result && result["enum"].Arr? {
      result := result["enum" := Arr(Sort(result["enum"].items, TextLeq))];
    }
  }

  method NormalizeItems(w: Value, document: Value, fuel: nat, ghost v: Value) returns (result: seq<Value>)
    requires w.Arr? && PartOf(w, v)
    ensures result == PruneAll(w.items)
    decreases if Resolved(v) then 0 else 1, v, 0
  {
    result := [];
    for i := 0 to |w.items|
      invariant |result| == i && forall j :: 0 <= j < i ==> result[j] == Prune(w.items[j])
    {
      var item := Normalize(w.items[i], document, fuel);
      ResolvedStays(w.items[i], document, fuel);
      result := result + [item.value];
    }
  }

  // ----- what normalising forgets, said without sorting -----

  /** `b` is `a` with lists under unordered keys put in another order; and, if documentation is
      skipped, with other documentation. */
  ghost predicate Alike(a: Value, b: Value, skip: bool)
    decreases a
  {
    match a
    case Obj(_) => b.Obj? && AlikeKeys(a, b, skip) && forall k :: k in a.members && !Skipped(k, skip) ==> AlikeAt(k, a, b, skip)
    case Arr(items) => b.Arr? && |b.items| == |items| && forall i :: 0 <= i < |items| ==> Alike(items[i], b.items[i], skip)
    case _ => a == b
  }

  predicate Skipped(key: string, skip: bool) {
    skip && key in DOC_ONLY_KEYS
  }

  ghost predicate AlikeKeys(a: Value, b: Value, skip: bool)
    requires a.Obj? && b.Obj?
  {
    forall k :: !Skipped(k, skip) ==> (k in a.members <==> k in b.members)
  }

  ghost predicate AlikeAt(k: string, a: Value, b: Value, skip: bool)
    requires a.Obj? && b.Obj? && k in a.members && k in b.members
    decreases a, 0
  {
    var x, y := a.members[k], b.members[k];
    if IsUnordered(k) && x.Arr? && y.Arr? then PairedOff(x.items, y.items, skip) else Alike(x, y, skip)
  }

  /** The two lists can be crossed out against each other, one item at a time. */
  ghost predicate PairedOff(xs: seq<Value>, ys: seq<Value>, skip: bool)
    decreases xs
  {
    if xs == [] then ys == []
    else exists k :: 0 <= k < |ys| && Alike(xs[0], ys[k], skip) && PairedOff(xs[1..], RemoveAt(ys, k), skip)
  }

  lemma PairedStep(xs: seq<Value>, ys: seq<Value>, skip: bool) returns (k: nat)
    requires xs != [] && PairedOff(xs, ys, skip)
    ensures k < |ys| && Alike(xs[0], ys[k], skip) && PairedOff(xs[1..], RemoveAt(ys, k), skip)
  {
    k :| 0 <= k < |ys| && Alike(xs[0], ys[k], skip) && PairedOff(xs[1..], RemoveAt(ys, k), skip);
  }

  lemma PairedMore(xs: seq<Value>, ys: seq<Value>, k: nat, skip: bool)
    requires xs != [] && k < |ys| && Alike(xs[0], ys[k], skip) && PairedOff(xs[1..], RemoveAt(ys, k), skip)
    ensures PairedOff(xs, ys, skip)
  {
  }

  lemma PruneAllRemove(ys: seq<Value>, k: nat)
    requires k < |ys|
    ensures multiset(PruneAll(ys)) == multiset{Prune(ys[k])} + multiset(PruneAll(RemoveAt(ys, k)))
  {
    hide *;
    assert RemoveAt(PruneAll(ys), k) == PruneAll(RemoveAt(ys, k));
    RemoveAtContents(PruneAll(ys), k);
  }

  lemma PruneAllFirst(xs: seq<Value>)
    requires xs != []
    ensures multiset(PruneAll(xs)) == multiset{Prune(xs[0])} + multiset(PruneAll(xs[1..]))
  {
    assert RemoveAt(xs, 0) == xs[1..];
    hide *;
    PruneAllRemove(xs, 0);
  }

  // ----- alike values have one normal form -----

  lemma {:induction false} AlikePrunes(a: Value, b: Value)
    requires Alike(a, b, true)
    ensures Prune(a) == Prune(b)
    decreases a, 1
  {
    match a
    case Obj(_) =>
      forall k | k in a.members && k !in DOC_ONLY_KEYS
        ensures k in b.members && Ordered(k, Prune(a.members[k])) == Ordered(k, Prune(b.members[k]))
      {
        AlikeMemberPrunes(k, a, b);
      }
      SamePruned(a, b);
    case Arr(items) =>
      forall i | 0 <= i < |items| ensures Prune(items[i]) == Prune(b.items[i]) {
        AlikePrunes(items[i], b.items[i]);
      }
      assert PruneAll(items) == PruneAll(b.items);
    case _ =>
  }

  lemma SamePruned(a: Value, b: Value)
    requires a.Obj? && b.Obj? && AlikeKeys(a, b, true)
    requires forall k :: k in a.members && k !in DOC_ONLY_KEYS ==>
      k in b.members && Ordered(k, Prune(a.members[k])) == Ordered(k, Prune(b.members[k]))
    ensures PruneMembers(a) == PruneMembers(b)
  {
    hide Prune, Ordered, PruneMembers, DOC_ONLY_KEYS;
    assert PruneMembers(a).Keys == PruneMembers(b).Keys;
  }

  lemma {:induction false} AlikeMemberPrunes(k: string, a: Value, b: Value)
    requires a.Obj? && b.Obj? && k in a.members && k in b.members && AlikeAt(k, a, b, true)
    ensures Ordered(k, Prune(a.members[k])) == Ordered(k, Prune(b.members[k]))
    decreases a, 0
  {
    var x, y := a.members[k], b.members[k];
    if IsUnordered(k) && x.Arr? && y.Arr? {
      PairedContents(x.items, y.items);
      TextLeqTotalOrder();
      SortDetermined(PruneAll(x.items), PruneAll(y.items), TextLeq);
    } else {
      AlikePrunes(x, y);
    }
  }

  lemma {:induction false} PairedContents(xs: seq<Value>, ys: seq<Value>)
    requires PairedOff(xs, ys, true)
    ensures multiset(PruneAll(xs)) == multiset(PruneAll(ys))
    decreases xs
  {
    if xs != [] {
      hide *;
      var k := PairedStep(xs, ys, true);
      AlikePrunes(xs[0], ys[k]);
      PairedContents(xs[1..], RemoveAt(ys, k));
      PruneAllFirst(xs);
      PruneAllRemove(ys, k);
    }
  }

  // ----- values with one normal form are alike -----

  lemma {:induction false} PrunesAlike(a: Value, b: Value)
    requires Prune(a) == Prune(b)
    ensures Alike(a, b, true)
    decreases a, 1
  {
    match a
    case Obj(_) =>
      SamePrunedKeys(a, b);
      forall k | k in a.members && !Skipped(k, true)
        ensures AlikeAt(k, a, b, true)
      {
        assert PruneMembers(a)[k] == PruneMembers(b)[k];
        PrunesMemberAlike(k, a, b);
      }
    case Arr(items) =>
      forall i | 0 <= i < |items| ensures Alike(items[i], b.items[i], true) {
        assert PruneAll(items)[i] == PruneAll(b.items)[i];
        PrunesAlike(items[i], b.items[i]);
      }
    case _ =>
  }

  lemma SamePrunedKeys(a: Value, b: Value)
    requires a.Obj? && b.Obj? && PruneMembers(a) == PruneMembers(b)
    ensures AlikeKeys(a, b, true)
  {
    hide Prune, Ordered, PruneMembers, DOC_ONLY_KEYS;
    forall k | !Skipped(k, true)
      ensures k in a.members <==> k in b.members
    {
      assert k in PruneMembers(a).Keys <==> k in PruneMembers(b).Keys;
    }
  }

  lemma {:induction false} PrunesMemberAlike(k: string, a: Value, b: Value)
    requires a.Obj? && b.Obj? && k in a.members && k in b.members
    requires Ordered(k, Prune(a.members[k])) == Ordered(k, Prune(b.members[k]))
    ensures AlikeAt(k, a, b, true)
    decreases a, 0
  {
    var x, y := a.members[k], b.members[k];
    if IsUnordered(k) && x.Arr? && y.Arr? {
      TextLeqTotalOrder();
      SortDetermined(PruneAll(x.items), PruneAll(y.items), TextLeq);
      ContentsPaired(x.items, y.items);
    } else {
      PrunesAlike(x, y);
    }
  }

  lemma {:induction false} ContentsPaired(xs: seq<Value>, ys: seq<Value>)
    requires multiset(PruneAll(xs)) == multiset(PruneAll(ys))
    ensures PairedOff(xs, ys, true)
    decreases xs
  {
    assert |multiset(PruneAll(xs))| == |multiset(PruneAll(ys))|;
    if xs != [] {
      hide *;
      PruneAllFirst(xs);
      assert Prune(xs[0]) in multiset(PruneAll(ys));
      var k :| 0 <= k < |ys| && PruneAll(ys)[k] == Prune(xs[0]);
      PruneAllRemove(ys, k);
      PrunesAlike(xs[0], ys[k]);
      assert multiset(PruneAll(xs[1..])) == multiset(PruneAll(xs)) - multiset{Prune(xs[0])};
      assert multiset(PruneAll(RemoveAt(ys, k))) == multiset(PruneAll(ys)) - multiset{Prune(xs[0])};
      ContentsPaired(xs[1..], RemoveAt(ys, k));
      PairedMore(xs, ys, k, true);
    }
  }

  lemma PruneComplete(x: Value, y: Value)
    ensures Prune(x) == Prune(y) <==> Alike(x, y, true)
  {
    hide *;
    if Prune(x) == Prune(y) {
      PrunesAlike(x, y);
    }
    if Alike(x, y, true) {
      AlikePrunes(x, y);
    }
  }

  /** Two parts of contracts, each with its own document, normalise alike exactly when what they
      resolve to differs only in documentation and in the order of unordered lists. */
  lemma NormalComplete(a: Value, da: Value, b: Value, db: Value, fuel: nat)
    requires Resolve(a, da, fuel).Some? && Resolve(b, db, fuel).Some?
    ensures Normal(a, da, fuel) == Normal(b, db, fuel) <==>
            Alike(Resolve(a, da, fuel).value, Resolve(b, db, fuel).value, true)
  {
    hide Resolve, Prune, Alike;
    PruneComplete(Resolve(a, da, fuel).value, Resolve(b, db, fuel).value);
  }
}
