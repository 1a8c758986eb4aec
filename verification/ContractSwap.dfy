/** Two items of one unordered list of a document change places: what references then lead to, and
    what stays as it was. */
module ContractSwap {
  import opened Text
  import opened Json
  import opened Sorting
  import opened JsonPointer
  import opened ContractReferences
  import opened ContractNormalForm
  import opened ContractShuffle

  /** The document with another value at a path. */
  function PutAt(v: Value, path: seq<string>, new_: Value): Value {
    if path == [] then new_
    else if Member(v, path[0]).None? then v
    else Obj(v.members[path[0] := PutAt(v.members[path[0]], path[1..], new_)])
  }

  lemma PutNothing(v: Value, new_: Value)
    ensures PutAt(v, [], new_) == new_
  {
  }

  lemma {:induction false} PutThere(v: Value, path: seq<string>, new_: Value)
    requires ValueAt(v, path).Some?
    ensures ValueAt(PutAt(v, path, new_), path) == Some(new_)
  {
    if path != [] {
      PutThere(v.members[path[0]], path[1..], new_);
    }
  }

  /** A path that does not lead towards the list finds what it found before. */
  lemma {:induction false} PutElsewhere(v: Value, path: seq<string>, new_: Value, other: seq<string>)
    requires ValueAt(v, path).Some? && ValueAt(v, path).value.Arr? && new_.Arr? && !(other <= path)
    ensures ValueAt(PutAt(v, path, new_), other) == ValueAt(v, other)
    decreases path
  {
    if path != [] && other[0] == path[0] {
      assert other == [other[0]] + other[1..] && path == [path[0]] + path[1..];
      PutElsewhere(v.members[path[0]], path[1..], new_, other[1..]);
    }
  }

  /** A path that leads towards the list finds a value with the list in it. */
  lemma {:induction false} PutInside(v: Value, path: seq<string>, new_: Value, prefix: seq<string>)
    requires ValueAt(v, path).Some? && prefix <= path
    ensures ValueAt(v, prefix).Some? && ValueAt(ValueAt(v, prefix).value, path[|prefix|..]) == ValueAt(v, path)
    ensures ValueAt(PutAt(v, path, new_), prefix) == Some(PutAt(ValueAt(v, prefix).value, path[|prefix|..], new_))
    decreases path
  {
    if prefix == [] {
      assert path[|prefix|..] == path;
    } else {
      PutInside(v.members[path[0]], path[1..], new_, prefix[1..]);
      assert path[1..][|prefix[1..]|..] == path[|prefix|..];
    }
  }

  lemma {:induction false} AlikeSelf(v: Value)
    ensures Alike(v, v, false)
    decreases v, 1
  {
    match v
    case Obj(members) =>
      forall k | k in members ensures AlikeAt(k, v, v, false) {
        AlikeSelfAt(k, v);
      }
    case Arr(items) =>
      forall i | 0 <= i < |items| ensures Alike(items[i], items[i], false) {
        AlikeSelf(items[i]);
      }
    case _ =>
  }

  lemma {:induction false} AlikeSelfAt(k: string, v: Value)
    requires v.Obj? && k in v.members
    ensures AlikeAt(k, v, v, false)
    decreases v, 0
  {
    AlikeSelf(v.members[k]);
    if IsUnordered(k) && v.members[k].Arr? {
      PairedInPlace(v.members[k].items, v.members[k].items);
    }
  }

  lemma {:induction false} SamePaired(xs: seq<Value>, ys: seq<Value>)
    requires multiset(xs) == multiset(ys)
    ensures PairedOff(xs, ys, false)
    decreases xs
  {
    assert |multiset(xs)| == |multiset(ys)|;
    if xs != [] {
      assert xs == [xs[0]] + xs[1..];
      assert xs[0] in multiset(ys);
      var k :| 0 <= k < |ys| && ys[k] == xs[0];
      hide Alike;
      AlikeSelf(xs[0]);
      RemoveAtContents(ys, k);
      assert multiset(xs[1..]) == multiset(xs) - multiset{xs[0]};
      SamePaired(xs[1..], RemoveAt(ys, k));
      PairedMore(xs, ys, k, false);
    }
  }

  /** Rearranging one unordered list is a shuffle of the document. */
  lemma {:induction false} PutShuffled(v: Value, path: seq<string>, items: seq<Value>, other: seq<Value>)
    requires path != [] && IsUnordered(path[|path| - 1]) && ValueAt(v, path) == Some(Arr(items))
    requires multiset(items) == multiset(other)
    ensures Shuffled(v, PutAt(v, path, Arr(other)))
    decreases path
  {
    var k, w := path[0], PutAt(v, path, Arr(other));
    if |path| == 1 {
      assert path[1..] == [];
      SamePaired(items, other);
      PutNothing(v.members[k], Arr(other));
      assert v.members[k] == Arr(items) && w.members[k] == Arr(other);
      assert Near(v.members[k], w.members[k], IsUnordered(k));
    } else {
      PutShuffled(v.members[k], path[1..], items, other);
      assert Near(v.members[k], w.members[k], IsUnordered(k)) by {
        StepsOn(v.members[k], path[1..]);
      }
    }
    hide Alike, PairedOff, ValueAt;
    PutMember(v, w, k);
  }

  lemma PutMember(v: Value, w: Value, k: string)
    requires v.Obj? && k in v.members && w.Obj? && k in w.members && w.members == v.members[k := w.members[k]]
    requires Near(v.members[k], w.members[k], IsUnordered(k))
    ensures Shuffled(v, w)
  {
    hide PairedOff, IsUnordered;
    forall l | l in v.members ensures AlikeAt(l, v, w, false) {
      if l != k {
        AlikeSelfAt(l, v);
      }
    }
    assert AlikeKeys(v, w, false);
  }

  /** What lies inside a value that resolves, resolves. */
  lemma {:induction false} InsideResolves(t: Value, document: Value, fuel: nat, path: seq<string>)
    requires Resolve(t, document, fuel).Some? && ValueAt(t, path).Some? && ValueAt(t, path).value.Arr?
    ensures Resolve(ValueAt(t, path).value, document, fuel).Some?
    decreases path
  {
    if path != [] {
      StepsOn(t, path);
      var k := path[0];
      NotLone(t, document, fuel, path);
      ResolveObject(t, document, fuel);
      hide Resolve, ResolveMembers;
      InsideResolves(t.members[k], document, fuel, path[1..]);
    }
  }

  lemma NotLone(t: Value, document: Value, fuel: nat, path: seq<string>)
    requires Resolve(t, document, fuel).Some? && path != [] && ValueAt(t, path).Some? && ValueAt(t, path).value.Arr?
    ensures !IsLoneRef(t)
  {
    if IsLoneRef(t) {
      ResolveReference(t, document, fuel);
    }
  }

  // ----- the two items -----

  function Swap<T>(s: seq<T>, i: nat, j: nat): seq<T>
    requires i < j < |s|
  {
    s[i := s[j]][j := s[i]]
  }

  lemma SwapContents<T>(s: seq<T>, i: nat, j: nat)
    requires i < j < |s|
    ensures multiset(Swap(s, i, j)) == multiset(s) && |Swap(s, i, j)| == |s|
  {
  }

  /** An unordered list of a document that resolves, with the least bound for which it does, and two
      items that normalise differently. */
  datatype Site = Site(document: Value, path: seq<string>, items: seq<Value>, i: nat, j: nat, fuel: nat) {
    ghost predicate Valid() {
      && path != [] && IsUnordered(path[|path| - 1]) && ValueAt(document, path) == Some(Arr(items)) && i < j < |items|
      && ResolveItems(items, document, fuel).Some? && (fuel > 0 ==> ResolveItems(items, document, fuel - 1).None?)
      && Normal(items[i], document, fuel) != Normal(items[j], document, fuel)
    }

    /** The items in their new order. */
    function Swapped(): seq<Value>
      requires i < j < |items|
    {
      Swap(items, i, j)
    }

    /** The document with the two items in each other's place. */
    function Other(): Value
      requires i < j < |items|
    {
      PutAt(document, path, Arr(Swapped()))
    }

    /** What the items normalise to. */
    ghost function Forms(): (forms: seq<Value>)
      requires Valid()
      ensures |forms| == |items|
    {
      PruneAll(ResolveItems(items, document, fuel).value)
    }
  }

  lemma SiteBounds(c: Site)
    requires c.Valid()
    ensures c.path != [] && c.i < c.j < |c.items| && ResolveItems(c.items, c.document, c.fuel).Some?
  {
  }

  lemma OtherShuffled(c: Site)
    requires c.Valid()
    ensures Shuffled(c.document, c.Other())
  {
    SwapContents(c.items, c.i, c.j);
    hide ValueAt, Swap;
    PutShuffled(c.document, c.path, c.items, c.Swapped());
  }

  /** Nothing that resolves with less leads to the list. */
  lemma LeadsAway(c: Site, fuel: nat, keys: seq<string>)
    requires c.Valid() && fuel < c.fuel && ValueAt(c.document, keys).Some?
    requires Resolve(ValueAt(c.document, keys).value, c.document, fuel).Some?
    ensures !(keys <= c.path)
  {
    hide *;
    SiteLeast(c);
    if keys <= c.path {
      PutInside(c.document, c.path, Arr(c.items), keys);
      InsideResolves(ValueAt(c.document, keys).value, c.document, fuel, c.path[|keys|..]);
      ResolveMore(Arr(c.items), c.document, fuel, c.fuel - 1);
    }
  }

  lemma SiteLeast(c: Site)
    requires c.Valid() && c.fuel > 0
    ensures Resolve(Arr(c.items), c.document, c.fuel - 1).None? && ValueAt(c.document, c.path) == Some(Arr(c.items))
  {
    ResolveArray(Arr(c.items), c.document, c.fuel - 1);
    hide Resolve, ResolveItems, ValueAt;
  }

  /** Whatever resolves within the bound resolves to the same in the other document. */
  lemma {:induction false} SameElsewhere(c: Site, x: Value, fuel: nat)
    requires c.Valid() && fuel <= c.fuel && Resolve(x, c.document, fuel).Some?
    ensures Resolve(x, c.Other(), fuel) == Resolve(x, c.document, fuel)
    decreases fuel, x
  {
    hide Site.Valid, Site.Other, ResolveMembers, ResolveItems, Resolve, ValueAt;
    SiteBounds(c);
    if IsLoneRef(x) {
      ResolveReference(x, c.document, fuel);
      ResolveReference(x, c.Other(), fuel);
      SameTarget(c, x, fuel);
      SameElsewhere(c, RefTarget(x, c.document).value, fuel - 1);
    } else if x.Obj? {
      ResolveObject(x, c.document, fuel);
      ResolveObject(x, c.Other(), fuel);
      forall k | k in x.members ensures Resolve(x.members[k], c.Other(), fuel) == Resolve(x.members[k], c.document, fuel) {
        SameElsewhere(c, x.members[k], fuel);
      }
      assert ResolveMembers(x, c.Other(), fuel).value == ResolveMembers(x, c.document, fuel).value;
    } else if x.Arr? {
      ResolveArray(x, c.document, fuel);
      ResolveArray(x, c.Other(), fuel);
      forall k | 0 <= k < |x.items| ensures Resolve(x.items[k], c.Other(), fuel) == Resolve(x.items[k], c.document, fuel) {
        SameElsewhere(c, x.items[k], fuel);
      }
      assert ResolveItems(x.items, c.Other(), fuel).value == ResolveItems(x.items, c.document, fuel).value;
    } else {
      ResolveScalar(x, c.document, fuel);
      ResolveScalar(x, c.Other(), fuel);
    }
  }

  lemma SameTarget(c: Site, x: Value, fuel: nat)
    requires c.Valid() && fuel <= c.fuel && IsLoneRef(x) && fuel > 0 && RefTarget(x, c.document).Some?
    requires Resolve(RefTarget(x, c.document).value, c.document, fuel - 1).Some?
    ensures RefTarget(x, c.Other()) == RefTarget(x, c.document)
  {
    hide Resolve, ValueAt;
    var keys := Keys(x.members["$ref"].s).value;
    LeadsAway(c, fuel - 1, keys);
    PutElsewhere(c.document, c.path, Arr(c.Swapped()), keys);
  }

  /** The items resolve to the same in both documents, with whatever bound suffices. */
  lemma ItemElsewhere(c: Site, k: nat, fuel: nat)
    requires c.Valid() && k < |c.items| && fuel >= c.fuel
    ensures Resolve(c.items[k], c.document, fuel) == Some(ResolveItems(c.items, c.document, c.fuel).value[k])
    ensures Resolve(c.items[k], c.Other(), fuel) == Some(ResolveItems(c.items, c.document, c.fuel).value[k])
  {
    hide Resolve, ResolveItems, Site.Other;
    SameElsewhere(c, c.items[k], c.fuel);
    ResolveMore(c.items[k], c.document, c.fuel, fuel);
    ResolveMore(c.items[k], c.Other(), c.fuel, fuel);
  }

  /** The list and its rearrangement, resolved and normalised. */
  lemma ListForms(c: Site, fuel: nat)
    requires c.Valid() && fuel >= c.fuel
    ensures Normal(Arr(c.items), c.document, fuel) == Some(Arr(c.Forms()))
    ensures Normal(Arr(c.Swapped()), c.Other(), fuel) == Some(Arr(Swap(c.Forms(), c.i, c.j)))
  {
    hide Resolve, ResolveItems, Site.Other, Prune, PruneAll, Site.Valid;
    SiteBounds(c);
    ResolveArray(Arr(c.items), c.document, fuel);
    ResolveArray(Arr(c.Swapped()), c.Other(), fuel);
    var rs := ResolveItems(c.items, c.document, c.fuel).value;
    forall k | 0 <= k < |c.items|
      ensures Resolve(c.items[k], c.document, fuel) == Some(rs[k]) && Resolve(c.items[k], c.Other(), fuel) == Some(rs[k])
    {
      ItemElsewhere(c, k, fuel);
    }
    SwappedAt(c.items, c.i, c.j);
    assert ResolveItems(c.items, c.document, fuel).value == rs;
    assert ResolveItems(c.Swapped(), c.Other(), fuel).value == Swap(rs, c.i, c.j);
    assert PruneAll(Swap(rs, c.i, c.j)) == Swap(PruneAll(rs), c.i, c.j);
    PruneArray(rs);
    PruneArray(Swap(rs, c.i, c.j));
  }

  lemma SwappedAt<T>(s: seq<T>, i: nat, j: nat)
    requires i < j < |s|
    ensures |Swap(s, i, j)| == |s|
    ensures forall k :: 0 <= k < |s| ==> Swap(s, i, j)[k] == s[if k == i then j else if k == j then i else k]
  {
  }

  /** The two items really show. */
  lemma FormsDiffer(c: Site)
    requires c.Valid()
    ensures Swap(c.Forms(), c.i, c.j) != c.Forms()
  {
    hide Resolve, Prune;
    assert c.Forms()[c.i] != c.Forms()[c.j];
  }
}
