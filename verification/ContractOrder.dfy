/** When the order of an unordered list shows after all: exactly when some reference that is not
    tame is reached.  The proof counts how often the normal form of the list occurs in the normal
    form of the whole; swapping two items makes it occur less often. */
module ContractOrder {
  import opened Text
  import opened Json
  import opened Sorting
  import opened JsonPointer
  import opened ContractReferences
  import opened ContractNormalForm
  import opened ContractShuffle
  import opened ContractSwap

  // ----- counting parts of a value -----

  /** How many parts of `v`, itself included, equal the pattern; without a pattern, how many parts. */
  function Tally(v: Value, pattern: Option<Value>): nat
    decreases v, 1, 0
  {
    (if pattern.None? || v == pattern.value then 1 else 0) +
    match v
    case Obj(members) => TallyKeys(v, SortedKeys(members.Keys), pattern)
    case Arr(items) => TallyItems(items, pattern)
    case _ => 0
  }

  function TallyItems(items: seq<Value>, pattern: Option<Value>): nat
    decreases items
  {
    if items == [] then 0 else Tally(items[0], pattern) + TallyItems(items[1..], pattern)
  }

  function TallyKeys(v: Value, keys: seq<string>, pattern: Option<Value>): nat
    requires v.Obj? && forall k :: k in keys ==> k in v.members
    decreases v, 0, |keys|
  {
    if keys == [] then 0 else Tally(v.members[keys[0]], pattern) + TallyKeys(v, keys[1..], pattern)
  }

  lemma {:induction false} TallyRemove(ys: seq<Value>, k: nat, pattern: Option<Value>)
    requires k < |ys|
    ensures TallyItems(ys, pattern) == Tally(ys[k], pattern) + TallyItems(RemoveAt(ys, k), pattern)
    decreases ys
  {
    if k == 0 {
      assert RemoveAt(ys, 0) == ys[1..];
    } else {
      hide Tally;
      TallyRemove(ys[1..], k - 1, pattern);
      assert RemoveAt(ys, k)[0] == ys[0] && RemoveAt(ys, k)[1..] == RemoveAt(ys[1..], k - 1);
    }
  }

  /** Rearranging a list keeps the count of its parts. */
  lemma {:induction false} TallyRearranged(xs: seq<Value>, ys: seq<Value>, pattern: Option<Value>)
    requires multiset(xs) == multiset(ys)
    ensures TallyItems(xs, pattern) == TallyItems(ys, pattern)
    decreases |xs|
  {
    assert |multiset(xs)| == |multiset(ys)|;
    if xs != [] {
      hide *;
      assert xs[0] in multiset(ys);
      var k :| 0 <= k < |ys| && ys[k] == xs[0];
      RemoveAtContents(ys, k);
      RemoveAtContents(xs, 0);
      assert multiset(RemoveAt(xs, 0)) == multiset(xs) - multiset{xs[0]};
      assert multiset(RemoveAt(ys, k)) == multiset(ys) - multiset{xs[0]};
      TallyRearranged(RemoveAt(xs, 0), RemoveAt(ys, k), pattern);
      TallyRemove(xs, 0, pattern);
      TallyRemove(ys, k, pattern);
    }
  }

  // ----- fewer occurrences -----

  /** `y` holds the pattern less often than `x`, and is no smaller than the pattern. */
  ghost predicate Fewer(x: Value, y: Value, pattern: Value) {
    Tally(x, Some(pattern)) > Tally(y, Some(pattern)) && Tally(y, None) >= Tally(pattern, None)
  }

  ghost predicate Evolved(x: Value, y: Value, pattern: Value) {
    x == y || Fewer(x, y, pattern)
  }

  ghost predicate FewerItems(xs: seq<Value>, ys: seq<Value>, pattern: Value) {
    TallyItems(xs, Some(pattern)) > TallyItems(ys, Some(pattern)) && TallyItems(ys, None) >= Tally(pattern, None)
  }

  lemma {:induction false} ItemsEvolve(xs: seq<Value>, ys: seq<Value>, pattern: Value)
    requires |xs| == |ys| && forall i :: 0 <= i < |xs| ==> Evolved(xs[i], ys[i], pattern)
    ensures xs == ys || FewerItems(xs, ys, pattern)
    decreases xs
  {
    if xs != [] {
      hide Tally;
      ItemsEvolve(xs[1..], ys[1..], pattern);
      assert xs == [xs[0]] + xs[1..] && ys == [ys[0]] + ys[1..];
    }
  }

  /** A list with a changed item is larger than the pattern, so it is not the pattern. */
  lemma ListFewer(xs: seq<Value>, ys: seq<Value>, pattern: Value)
    requires FewerItems(xs, ys, pattern)
    ensures Fewer(Arr(xs), Arr(ys), pattern)
  {
    hide TallyItems;
  }

  ghost predicate FewerKeys(a: Value, b: Value, keys: seq<string>, pattern: Value)
    requires a.Obj? && b.Obj? && forall k :: k in keys ==> k in a.members && k in b.members
  {
    TallyKeys(a, keys, Some(pattern)) > TallyKeys(b, keys, Some(pattern)) && TallyKeys(b, keys, None) >= Tally(pattern, None)
  }

  lemma {:induction false} KeysEvolve(a: Value, b: Value, keys: seq<string>, pattern: Value)
    requires a.Obj? && b.Obj? && forall k :: k in keys ==> k in a.members && k in b.members
    requires forall k :: k in keys ==> Evolved(a.members[k], b.members[k], pattern)
    ensures (forall k :: k in keys ==> a.members[k] == b.members[k]) || FewerKeys(a, b, keys, pattern)
    ensures (forall k :: k in keys ==> a.members[k] == b.members[k]) ==>
            TallyKeys(a, keys, Some(pattern)) == TallyKeys(b, keys, Some(pattern))
    decreases |keys|
  {
    if keys != [] {
      hide Tally;
      KeysEvolve(a, b, keys[1..], pattern);
      assert forall k :: k in keys <==> k == keys[0] || k in keys[1..];
    }
  }

  lemma ObjectsEvolve(a: Value, b: Value, pattern: Value)
    requires a.Obj? && b.Obj? && a.members.Keys == b.members.Keys && pattern.Arr?
    requires forall k :: k in a.members ==> Evolved(a.members[k], b.members[k], pattern)
    ensures Evolved(a, b, pattern)
  {
    hide TallyKeys, TallyItems, Evolved, Fewer;
    var keys := SortedKeys(a.members.Keys);
    KeysEvolve(a, b, keys, pattern);
    if forall k :: k in keys ==> a.members[k] == b.members[k] {
      assert a.members == b.members;
      SameEvolved(a, pattern);
    } else {
      KeysFewer(a, b, pattern);
    }
  }

  lemma SameEvolved(a: Value, pattern: Value)
    ensures Evolved(a, a, pattern)
  {
  }

  lemma KeysFewer(a: Value, b: Value, pattern: Value)
    requires a.Obj? && b.Obj? && a.members.Keys == b.members.Keys && pattern.Arr?
    requires FewerKeys(a, b, SortedKeys(a.members.Keys), pattern)
    ensures Evolved(a, b, pattern)
  {
    hide TallyKeys, TallyItems;
  }

  lemma ListsEvolve(xs: seq<Value>, ys: seq<Value>, pattern: Value, loose: bool)
    requires |xs| == |ys| && forall i :: 0 <= i < |xs| ==> Evolved(xs[i], ys[i], pattern)
    ensures Evolved(Kept(Arr(xs), loose), Kept(Arr(ys), loose), pattern)
    ensures xs != ys ==> Fewer(Kept(Arr(xs), loose), Kept(Arr(ys), loose), pattern)
  {
    hide Tally, TallyItems, Evolved, Fewer;
    ItemsEvolve(xs, ys, pattern);
    SameEvolved(Kept(Arr(xs), loose), pattern);
    if xs != ys {
      if loose {
        SortedFewer(xs, ys, pattern);
        ListFewer(Sort(xs, TextLeq), Sort(ys, TextLeq), pattern);
      } else {
        ListFewer(xs, ys, pattern);
      }
      FewerEvolved(Kept(Arr(xs), loose), Kept(Arr(ys), loose), pattern);
    }
  }

  lemma FewerEvolved(x: Value, y: Value, pattern: Value)
    requires Fewer(x, y, pattern)
    ensures Evolved(x, y, pattern) && x != y
  {
    hide Tally;
  }

  lemma SortedFewer(xs: seq<Value>, ys: seq<Value>, pattern: Value)
    requires FewerItems(xs, ys, pattern)
    ensures FewerItems(Sort(xs, TextLeq), Sort(ys, TextLeq), pattern)
  {
    SortContents(xs, TextLeq);
    SortContents(ys, TextLeq);
    hide Sort, Tally, TallyItems;
    TallyRearranged(xs, Sort(xs, TextLeq), Some(pattern));
    TallyRearranged(ys, Sort(ys, TextLeq), Some(pattern));
    TallyRearranged(ys, Sort(ys, TextLeq), None);
  }

  /** The list itself, once its items have changed places. */
  lemma SwapFewer(forms: seq<Value>, i: nat, j: nat)
    requires i < j < |forms| && Swap(forms, i, j) != forms
    ensures Fewer(Arr(forms), Arr(Swap(forms, i, j)), Arr(forms))
  {
    SwapContents(forms, i, j);
    TallyRearranged(forms, Swap(forms, i, j), Some(Arr(forms)));
    TallyRearranged(forms, Swap(forms, i, j), None);
    hide TallyItems, Swap;
  }

  // ----- where a reference takes the list out of its place -----

  function KeysOf(r: Value): Option<seq<string>>
    requires IsLoneRef(r)
  {
    assert "$ref" in r.members.Keys;
    if r.members["$ref"].Str? then Keys(r.members["$ref"].s) else None
  }

  /** A reference to the list is reached from `v`, outside documentation, in a place where order
      matters. */
  ghost predicate Uses(c: Site, v: Value, fuel: nat, loose: bool)
    decreases fuel, v
  {
    if IsLoneRef(v) then
      var target := RefTarget(v, c.document);
      fuel > 0 && target.Some? && ((!loose && KeysOf(v) == Some(c.path)) || Uses(c, target.value, fuel - 1, loose))
    else
      match v
      case Obj(members) => exists k :: k in members && k !in DOC_ONLY_KEYS && Uses(c, members[k], fuel, IsUnordered(k))
      case Arr(items) => exists k :: 0 <= k < |items| && Uses(c, items[k], fuel, false)
      case _ => false
  }

  lemma UsesReference(c: Site, v: Value, fuel: nat, loose: bool)
    requires IsLoneRef(v)
    ensures Uses(c, v, fuel, loose) <==>
            fuel > 0 && RefTarget(v, c.document).Some? &&
            ((!loose && KeysOf(v) == Some(c.path)) || Uses(c, RefTarget(v, c.document).value, fuel - 1, loose))
  {
  }

  lemma UsesItem(c: Site, v: Value, fuel: nat, loose: bool) returns (k: nat)
    requires v.Arr? && Uses(c, v, fuel, loose)
    ensures k < |v.items| && Uses(c, v.items[k], fuel, false)
  {
    k :| 0 <= k < |v.items| && Uses(c, v.items[k], fuel, false);
  }

  lemma UsesMember(c: Site, v: Value, fuel: nat, loose: bool) returns (k: string)
    requires v.Obj? && !IsLoneRef(v) && Uses(c, v, fuel, loose)
    ensures k in v.members && k !in DOC_ONLY_KEYS && Uses(c, v.members[k], fuel, IsUnordered(k))
  {
    k :| k in v.members && k !in DOC_ONLY_KEYS && Uses(c, v.members[k], fuel, IsUnordered(k));
  }

  /** Nothing that resolves within the bound of the list uses it. */
  lemma {:induction false} NoUseWithin(c: Site, x: Value, fuel: nat, loose: bool)
    requires c.Valid() && fuel <= c.fuel && Resolve(x, c.document, fuel).Some?
    ensures !Uses(c, x, fuel, loose)
    decreases fuel, x
  {
    hide *;
    if Uses(c, x, fuel, loose) {
      if IsLoneRef(x) {
        UsesReference(c, x, fuel, loose);
        ResolveReference(x, c.document, fuel);
        NotThatPath(c, x, fuel);
        NoUseWithin(c, RefTarget(x, c.document).value, fuel - 1, loose);
      } else if x.Obj? {
        var k := UsesMember(c, x, fuel, loose);
        ResolveObject(x, c.document, fuel);
        NoUseWithin(c, x.members[k], fuel, IsUnordered(k));
      } else if x.Arr? {
        var k := UsesItem(c, x, fuel, loose);
        ResolveArray(x, c.document, fuel);
        NoUseWithin(c, x.items[k], fuel, false);
      } else {
        ScalarUsesNothing(c, x, fuel, loose);
      }
    }
  }

  lemma ScalarUsesNothing(c: Site, x: Value, fuel: nat, loose: bool)
    requires !x.Obj? && !x.Arr?
    ensures !Uses(c, x, fuel, loose)
  {
  }

  lemma NotThatPath(c: Site, x: Value, fuel: nat)
    requires c.Valid() && 0 < fuel <= c.fuel && IsLoneRef(x) && RefTarget(x, c.document).Some?
    requires Resolve(RefTarget(x, c.document).value, c.document, fuel - 1).Some?
    ensures KeysOf(x) != Some(c.path)
  {
    hide Resolve, ValueAt, Site.Valid;
    LeadsAway(c, fuel - 1, Keys(x.members["$ref"].s).value);
  }

  /** A larger bound uncovers no further use. */
  lemma {:induction false} UsesMore(c: Site, x: Value, fuel: nat, more: nat, loose: bool)
    requires fuel <= more && Resolve(x, c.document, fuel).Some? && Uses(c, x, more, loose)
    ensures Uses(c, x, fuel, loose)
    decreases fuel, x
  {
    hide Resolve;
    if IsLoneRef(x) {
      UsesReference(c, x, more, loose);
      UsesReference(c, x, fuel, loose);
      ResolveReference(x, c.document, fuel);
      hide Uses;
      if !(!loose && KeysOf(x) == Some(c.path)) {
        UsesMore(c, RefTarget(x, c.document).value, fuel - 1, more - 1, loose);
      }
    } else if x.Obj? {
      var k := UsesMember(c, x, more, loose);
      ResolveObject(x, c.document, fuel);
      UsesMore(c, x.members[k], fuel, more, IsUnordered(k));
    } else if x.Arr? {
      var k := UsesItem(c, x, more, loose);
      ResolveArray(x, c.document, fuel);
      UsesMore(c, x.items[k], fuel, more, false);
    }
  }

  lemma ListUsesNothing(c: Site, fuel: nat, loose: bool)
    requires c.Valid() && fuel >= c.fuel
    ensures !Uses(c, Arr(c.items), fuel, loose)
  {
    hide *;
    if Uses(c, Arr(c.items), fuel, loose) {
      SiteBounds(c);
      var k := UsesItem(c, Arr(c.items), fuel, loose);
      UsesMore(c, c.items[k], c.fuel, fuel, false);
      NoUseWithin(c, c.items[k], c.fuel, false);
    }
  }

  // ----- the swap shows -----

  /** How a value of the document and its counterpart in the other document are related: they are the
      same, or the list lies inside, at `rest`, in a place where its order does not matter. */
  ghost predicate Moved(c: Site, v: Value, w: Value, rest: Option<seq<string>>, loose: bool)
    requires c.i < c.j < |c.items|
  {
    if rest.None? then w == v
    else
      && ValueAt(v, rest.value) == Some(Arr(c.items)) && w == PutAt(v, rest.value, Arr(c.Swapped()))
      && if rest.value == [] then loose else IsUnordered(rest.value[|rest.value| - 1])
  }

  lemma MovedNear(c: Site, v: Value, w: Value, rest: Option<seq<string>>, loose: bool)
    requires c.Valid() && Moved(c, v, w, rest, loose)
    ensures Near(v, w, loose)
  {
    SwapContents(c.items, c.i, c.j);
    hide Swap;
    if rest.None? {
      AlikeSelf(v);
      Loosen(v, w, false, loose);
    } else if rest.value == [] {
      SamePaired(c.items, c.Swapped());
    } else {
      PutShuffled(v, rest.value, c.items, c.Swapped());
      Loosen(v, w, false, loose);
    }
  }

  lemma MovedResolves(c: Site, v: Value, w: Value, rest: Option<seq<string>>, fuel: nat, loose: bool)
    requires c.Valid() && Moved(c, v, w, rest, loose) && Resolve(v, c.document, fuel).Some?
    ensures Resolve(w, c.Other(), fuel).Some?
  {
    hide Resolve, Site.Other, Moved, Near, Shuffled, Tame, SameForm;
    MovedNear(c, v, w, rest, loose);
    OtherShuffled(c);
    ResolveNear(v, w, c.document, c.Other(), fuel, loose);
  }

  /** Both resolve; what the second is kept as has evolved from what the first is kept as, and differs
      from it if the list is used. */
  ghost predicate Shows(c: Site, v: Value, w: Value, fuel: nat, loose: bool)
    requires c.Valid()
  {
    ShowsIn(c, Resolve(v, c.document, fuel), Resolve(w, c.Other(), fuel), loose, Uses(c, v, fuel, loose))
  }

  ghost predicate ShowsIn(c: Site, x: Option<Value>, y: Option<Value>, loose: bool, uses: bool)
    requires c.Valid()
  {
    && x.Some? && y.Some?
    && Evolved(Kept(Prune(x.value), loose), Kept(Prune(y.value), loose), Arr(c.Forms()))
    && (uses ==> Kept(Prune(x.value), loose) != Kept(Prune(y.value), loose))
  }

  lemma {:induction false} Evolve(c: Site, v: Value, w: Value, rest: Option<seq<string>>, fuel: nat, loose: bool)
    requires c.Valid() && Moved(c, v, w, rest, loose) && Resolve(v, c.document, fuel).Some?
    ensures Shows(c, v, w, fuel, loose)
    decreases fuel, v, 1
  {
    hide *;
    SiteBounds(c);
    MovedResolves(c, v, w, rest, fuel, loose);
    if IsLoneRef(v) {
      EvolveReference(c, v, w, rest, fuel, loose);
    } else if v.Obj? {
      EvolveObject(c, v, w, rest, fuel, loose);
    } else if v.Arr? {
      EvolveArray(c, v, w, rest, fuel, loose);
    } else {
      EvolveScalar(c, v, w, rest, fuel, loose);
    }
  }

  lemma EvolveScalar(c: Site, v: Value, w: Value, rest: Option<seq<string>>, fuel: nat, loose: bool)
    requires c.Valid() && !v.Obj? && !v.Arr? && Moved(c, v, w, rest, loose)
    requires Resolve(v, c.document, fuel).Some? && Resolve(w, c.Other(), fuel).Some?
    ensures Shows(c, v, w, fuel, loose)
  {
    ResolveScalar(v, c.document, fuel);
    ResolveScalar(v, c.Other(), fuel);
    ScalarUsesNothing(c, v, fuel, loose);
    hide Resolve, Uses, Site.Valid, Site.Other, Site.Forms;
  }

  // References.

  lemma LoneStays(c: Site, v: Value, w: Value, rest: Option<seq<string>>, fuel: nat, loose: bool)
    requires c.Valid() && IsLoneRef(v) && Moved(c, v, w, rest, loose) && Resolve(v, c.document, fuel).Some?
    ensures w == v
  {
    hide Resolve, Site.Valid;
    SiteBounds(c);
    if rest.Some? && rest.value != [] {
      NotLone(v, c.document, fuel, rest.value);
    }
  }

  lemma TargetMoves(c: Site, v: Value, loose: bool) returns (rest: Option<seq<string>>)
    requires c.Valid() && IsLoneRef(v) && RefTarget(v, c.document).Some? && (KeysOf(v) == Some(c.path) ==> loose)
    ensures RefTarget(v, c.Other()).Some? && Moved(c, RefTarget(v, c.document).value, RefTarget(v, c.Other()).value, rest, loose)
  {
    var keys := KeysOf(v).value;
    if keys <= c.path {
      PutInside(c.document, c.path, Arr(c.Swapped()), keys);
      rest := Some(c.path[|keys|..]);
      if keys == c.path {
        assert rest.value == [];
      } else {
        assert rest.value[|rest.value| - 1] == c.path[|c.path| - 1];
      }
    } else {
      PutElsewhere(c.document, c.path, Arr(c.Swapped()), keys);
      rest := None;
    }
  }

  lemma {:induction false} EvolveReference(c: Site, v: Value, w: Value, rest: Option<seq<string>>, fuel: nat, loose: bool)
    requires c.Valid() && IsLoneRef(v) && Moved(c, v, w, rest, loose)
    requires Resolve(v, c.document, fuel).Some? && Resolve(w, c.Other(), fuel).Some?
    ensures Shows(c, v, w, fuel, loose)
    decreases fuel, v, 0
  {
    hide *;
    SiteBounds(c);
    LoneStays(c, v, w, rest, fuel, loose);
    ResolveReference(v, c.document, fuel);
    ResolveReference(v, c.Other(), fuel);
    if !loose && KeysOf(v) == Some(c.path) {
      DirectUse(c, v, fuel);
    } else {
      var inner := TargetMoves(c, v, loose);
      var t, u := RefTarget(v, c.document).value, RefTarget(v, c.Other()).value;
      Evolve(c, t, u, inner, fuel - 1, loose);
      ShowsThrough(c, v, t, u, fuel, loose);
    }
  }

  lemma ShowsThrough(c: Site, v: Value, t: Value, u: Value, fuel: nat, loose: bool)
    requires c.Valid() && IsLoneRef(v) && fuel > 0 && RefTarget(v, c.document) == Some(t) && (loose || KeysOf(v) != Some(c.path))
    requires Resolve(v, c.document, fuel) == Resolve(t, c.document, fuel - 1)
    requires Resolve(v, c.Other(), fuel) == Resolve(u, c.Other(), fuel - 1)
    requires Shows(c, t, u, fuel - 1, loose)
    ensures Shows(c, v, v, fuel, loose)
  {
    hide Resolve, Uses, Site.Valid, Site.Other, Site.Forms, ShowsIn, KeysOf, RefTarget, IsLoneRef;
    UsesReference(c, v, fuel, loose);
  }

  /** A reference straight to the list, where order matters. */
  lemma DirectUse(c: Site, v: Value, fuel: nat)
    requires c.Valid() && IsLoneRef(v) && KeysOf(v) == Some(c.path)
    requires Resolve(v, c.document, fuel).Some? && Resolve(v, c.Other(), fuel).Some?
    ensures Shows(c, v, v, fuel, false)
  {
    hide *;
    SiteBounds(c);
    DirectTargets(c, v);
    ResolveReference(v, c.document, fuel);
    ResolveReference(v, c.Other(), fuel);
    EnoughForList(c, fuel - 1);
    ListForms(c, fuel - 1);
    FormsDiffer(c);
    SwapFewer(c.Forms(), c.i, c.j);
    DirectShows(c, v, fuel);
  }

  lemma DirectTargets(c: Site, v: Value)
    requires c.Valid() && IsLoneRef(v) && KeysOf(v) == Some(c.path)
    ensures RefTarget(v, c.document) == Some(Arr(c.items)) && RefTarget(v, c.Other()) == Some(Arr(c.Swapped()))
  {
    PutThere(c.document, c.path, Arr(c.Swapped()));
    hide ValueAt, Swap, Resolve, ResolveItems;
  }

  lemma EnoughForList(c: Site, fuel: nat)
    requires c.Valid() && Resolve(Arr(c.items), c.document, fuel).Some?
    ensures fuel >= c.fuel
  {
    hide *;
    if fuel < c.fuel {
      SiteLeast(c);
      ResolveMore(Arr(c.items), c.document, fuel, c.fuel - 1);
    }
  }

  lemma DirectShows(c: Site, v: Value, fuel: nat)
    requires c.Valid() && Resolve(v, c.document, fuel).Some? && Resolve(v, c.Other(), fuel).Some? && fuel > 0
    requires Resolve(v, c.document, fuel) == Resolve(Arr(c.items), c.document, fuel - 1)
    requires Resolve(v, c.Other(), fuel) == Resolve(Arr(c.Swapped()), c.Other(), fuel - 1)
    requires Normal(Arr(c.items), c.document, fuel - 1) == Some(Arr(c.Forms()))
    requires Normal(Arr(c.Swapped()), c.Other(), fuel - 1) == Some(Arr(Swap(c.Forms(), c.i, c.j)))
    requires Fewer(Arr(c.Forms()), Arr(Swap(c.Forms(), c.i, c.j)), Arr(c.Forms()))
    ensures Shows(c, v, v, fuel, false)
  {
    FewerEvolved(Arr(c.Forms()), Arr(Swap(c.Forms(), c.i, c.j)), Arr(c.Forms()));
    hide Resolve, Uses, Site.Valid, Site.Other, Site.Forms, Evolved, Prune, Swap, Fewer;
  }

  // Lists.

  lemma {:induction false} EvolveArray(c: Site, v: Value, w: Value, rest: Option<seq<string>>, fuel: nat, loose: bool)
    requires c.Valid() && v.Arr? && Moved(c, v, w, rest, loose)
    requires Resolve(v, c.document, fuel).Some? && Resolve(w, c.Other(), fuel).Some?
    ensures Shows(c, v, w, fuel, loose)
    decreases fuel, v, 0
  {
    hide *;
    SiteBounds(c);
    if rest.None? {
      MovedNot(c, v, w, loose);
      ResolveArray(v, c.document, fuel);
      ResolveArray(v, c.Other(), fuel);
      forall k | 0 <= k < |v.items|
        ensures Shows(c, v.items[k], v.items[k], fuel, false)
      {
        NotMoved(c, v.items[k], false);
        Evolve(c, v.items[k], v.items[k], None, fuel, false);
      }
      ItemsShow(c, v, fuel, loose);
    } else {
      MovedList(c, v, w, rest, loose);
      EnoughForList(c, fuel);
      ListForms(c, fuel);
      ListUsesNothing(c, fuel, true);
      ListHides(c, fuel);
    }
  }

  lemma MovedNot(c: Site, v: Value, w: Value, loose: bool)
    requires c.i < c.j < |c.items| && Moved(c, v, w, None, loose)
    ensures v == w
  {
  }

  lemma NotMoved(c: Site, v: Value, loose: bool)
    requires c.i < c.j < |c.items|
    ensures Moved(c, v, v, None, loose)
  {
  }

  lemma MovedList(c: Site, v: Value, w: Value, rest: Option<seq<string>>, loose: bool)
    requires c.i < c.j < |c.items| && v.Arr? && rest.Some? && Moved(c, v, w, rest, loose)
    ensures v == Arr(c.items) && w == Arr(c.Swapped()) && loose
  {
    hide Swap;
  }

  lemma ItemsShow(c: Site, v: Value, fuel: nat, loose: bool)
    requires c.Valid() && v.Arr? && Resolve(v, c.document, fuel).Some? && Resolve(v, c.Other(), fuel).Some?
    requires forall k :: 0 <= k < |v.items| ==> Shows(c, v.items[k], v.items[k], fuel, false)
    ensures Shows(c, v, v, fuel, loose)
  {
    ResolveArray(v, c.document, fuel);
    ResolveArray(v, c.Other(), fuel);
    hide Resolve, ResolveItems, Site.Valid, Site.Other, Site.Forms, Evolved, Prune, PruneAll, Uses, Kept, Fewer;
    var rs, os := ResolveItems(v.items, c.document, fuel).value, ResolveItems(v.items, c.Other(), fuel).value;
    var xs, ys := PruneAll(rs), PruneAll(os);
    var pattern := Arr(c.Forms());
    forall k | 0 <= k < |xs| ensures Evolved(xs[k], ys[k], pattern) && (Uses(c, v.items[k], fuel, false) ==> xs[k] != ys[k]) {
      assert Shows(c, v.items[k], v.items[k], fuel, false);
      KeptAsIs(xs[k]);
      KeptAsIs(ys[k]);
    }
    PruneArray(rs);
    PruneArray(os);
    ListsEvolve(xs, ys, pattern, loose);
    if Uses(c, v, fuel, loose) {
      var k := UsesItem(c, v, fuel, loose);
      assert xs[k] != ys[k];
      FewerEvolved(Kept(Arr(xs), loose), Kept(Arr(ys), loose), pattern);
    }
  }

  lemma KeptAsIs(v: Value)
    ensures Kept(v, false) == v
  {
  }

  lemma ListHides(c: Site, fuel: nat)
    requires c.Valid() && Resolve(Arr(c.items), c.document, fuel).Some? && Resolve(Arr(c.Swapped()), c.Other(), fuel).Some?
    requires Normal(Arr(c.items), c.document, fuel) == Some(Arr(c.Forms()))
    requires Normal(Arr(c.Swapped()), c.Other(), fuel) == Some(Arr(Swap(c.Forms(), c.i, c.j)))
    requires !Uses(c, Arr(c.items), fuel, true)
    ensures Shows(c, Arr(c.items), Arr(c.Swapped()), fuel, true)
  {
    SwapContents(c.Forms(), c.i, c.j);
    TextLeqTotalOrder();
    SortDetermined(c.Forms(), Swap(c.Forms(), c.i, c.j), TextLeq);
    hide Resolve, Uses, Site.Valid, Site.Other, Site.Forms, Site.Swapped, Prune, Swap, Fewer, Sort;
  }

  // Objects.

  lemma {:induction false} EvolveObject(c: Site, v: Value, w: Value, rest: Option<seq<string>>, fuel: nat, loose: bool)
    requires c.Valid() && v.Obj? && !IsLoneRef(v) && Moved(c, v, w, rest, loose)
    requires Resolve(v, c.document, fuel).Some? && Resolve(w, c.Other(), fuel).Some?
    ensures Shows(c, v, w, fuel, loose)
    decreases fuel, v, 0
  {
    hide *;
    SiteBounds(c);
    MovedObject(c, v, w, rest, loose);
    ResolveObject(v, c.document, fuel);
    ResolveObject(w, c.Other(), fuel);
    forall k | k in v.members
      ensures Shows(c, v.members[k], w.members[k], fuel, IsUnordered(k))
    {
      var inner := MovedMember(c, v, w, rest, loose, k);
      Evolve(c, v.members[k], w.members[k], inner, fuel, IsUnordered(k));
    }
    MembersShow(c, v, w, fuel, loose);
  }

  lemma MovedObject(c: Site, v: Value, w: Value, rest: Option<seq<string>>, loose: bool)
    requires c.i < c.j < |c.items| && v.Obj? && !IsLoneRef(v) && Moved(c, v, w, rest, loose)
    ensures w.Obj? && w.members.Keys == v.members.Keys && !IsLoneRef(w)
  {
  }

  lemma MovedMember(c: Site, v: Value, w: Value, rest: Option<seq<string>>, loose: bool, k: string) returns (inner: Option<seq<string>>)
    requires c.i < c.j < |c.items| && v.Obj? && w.Obj? && k in v.members && k in w.members && Moved(c, v, w, rest, loose)
    ensures Moved(c, v.members[k], w.members[k], inner, IsUnordered(k))
  {
    hide Swap;
    inner := None;
    if rest.Some? && rest.value[0] == k {
      StepsOn(v, rest.value);
      inner := Some(rest.value[1..]);
      assert inner.value != [] ==> inner.value[|inner.value| - 1] == rest.value[|rest.value| - 1];
    }
  }

  lemma MembersShow(c: Site, v: Value, w: Value, fuel: nat, loose: bool)
    requires c.Valid() && v.Obj? && w.Obj? && v.members.Keys == w.members.Keys && !IsLoneRef(v) && !IsLoneRef(w)
    requires Resolve(v, c.document, fuel).Some? && Resolve(w, c.Other(), fuel).Some?
    requires forall k :: k in v.members ==> Shows(c, v.members[k], w.members[k], fuel, IsUnordered(k))
    ensures Shows(c, v, w, fuel, loose)
  {
    ResolveObject(v, c.document, fuel);
    ResolveObject(w, c.Other(), fuel);
    hide Resolve, ResolveMembers, Site.Valid, Site.Other, Site.Forms, Evolved, Prune, PruneMembers, Uses, Fewer, IsLoneRef, DOC_ONLY_KEYS,
      Kept, IsUnordered;
    var x, y := Resolve(v, c.document, fuel).value, Resolve(w, c.Other(), fuel).value;
    var a, b := PruneMembers(x), PruneMembers(y);
    assert a.Keys == b.Keys;
    forall k | k in a
      ensures Evolved(a[k], b[k], Arr(c.Forms())) && (Uses(c, v.members[k], fuel, IsUnordered(k)) ==> a[k] != b[k])
    {
      assert Shows(c, v.members[k], w.members[k], fuel, IsUnordered(k));
    }
    ObjectsEvolve(Obj(a), Obj(b), Arr(c.Forms()));
    PruneObject(x);
    PruneObject(y);
    KeptObject(a, loose);
    KeptObject(b, loose);
    if Uses(c, v, fuel, loose) {
      var k := UsesMember(c, v, fuel, loose);
      assert a[k] != b[k];
    }
  }

  lemma PruneObject(v: Value)
    requires v.Obj?
    ensures Prune(v) == Obj(PruneMembers(v))
  {
  }

  lemma KeptObject(members: map<string, Value>, loose: bool)
    ensures Kept(Obj(members), loose) == Obj(members)
  {
  }

  // ----- the exact condition -----

  /** If `v` is not tame, it uses some list whose items do not all normalise alike. */
  lemma {:induction false} UntameUses(v: Value, document: Value, fuel: nat, loose: bool) returns (c: Site)
    requires Resolve(v, document, fuel).Some? && !Tame(v, document, fuel, loose)
    ensures c.Valid() && c.document == document && Uses(c, v, fuel, loose)
    decreases fuel, v
  {
    hide Resolve, ResolveItems, Site.Valid, LeadsToUnordered, Uniform, IsUnordered, DOC_ONLY_KEYS, RefTarget, IsLoneRef, KeysOf;
    if IsLoneRef(v) {
      ResolveReference(v, document, fuel);
      var t := RefTarget(v, document).value;
      if !loose && LeadsToUnordered(v, document) {
        LeadsToList(v, document);
        if !Uniform(t.items, document, fuel - 1) {
          c := SiteOf(v, document, fuel);
        } else {
          c := UntameUses(t, document, fuel - 1, true);
          hide Uses;
          ListUsesEither(c, t, fuel - 1);
        }
      } else {
        c := UntameUses(t, document, fuel - 1, loose);
      }
      UsesReference(c, v, fuel, loose);
    } else if v.Obj? {
      ResolveObject(v, document, fuel);
      var k :| k in v.members && k !in DOC_ONLY_KEYS && !Tame(v.members[k], document, fuel, IsUnordered(k));
      c := UntameUses(v.members[k], document, fuel, IsUnordered(k));
    } else {
      ResolveArray(v, document, fuel);
      var k :| 0 <= k < |v.items| && !Tame(v.items[k], document, fuel, false);
      c := UntameUses(v.items[k], document, fuel, false);
    }
  }

  lemma LeadsToList(v: Value, document: Value)
    requires IsLoneRef(v) && LeadsToUnordered(v, document)
    ensures RefTarget(v, document).Some? && RefTarget(v, document).value.Arr?
  {
  }

  lemma ListUsesEither(c: Site, t: Value, fuel: nat)
    requires t.Arr? && Uses(c, t, fuel, true)
    ensures Uses(c, t, fuel, false)
  {
  }

  /** The list that a reference leads to, with two items that normalise differently. */
  lemma SiteOf(v: Value, document: Value, fuel: nat) returns (c: Site)
    requires IsLoneRef(v) && LeadsToUnordered(v, document) && fuel > 0 && RefTarget(v, document).value.Arr?
    requires Resolve(RefTarget(v, document).value, document, fuel - 1).Some?
    requires !Uniform(RefTarget(v, document).value.items, document, fuel - 1)
    ensures c.Valid() && c.document == document && KeysOf(v) == Some(c.path)
  {
    hide *;
    LeadingPath(v, document);
    var list := RefTarget(v, document).value;
    var i, j := DifferentItems(list.items, document, fuel - 1);
    var least := LeastFuel(list, document, fuel - 1);
    LeastIsLeast(list, document, fuel - 1, fuel - 1);
    LeastBound(list, document, fuel - 1);
    ResolveArray(list, document, least);
    NormalMore(list.items, document, least, fuel - 1, i);
    NormalMore(list.items, document, least, fuel - 1, j);
    if least > 0 {
      ResolveArray(list, document, least - 1);
    }
    c := Site(document, KeysOf(v).value, list.items, i, j, least);
    MakeSite(c);
  }

  lemma MakeSite(c: Site)
    requires c.path != [] && IsUnordered(c.path[|c.path| - 1]) && ValueAt(c.document, c.path) == Some(Arr(c.items))
    requires c.i < c.j < |c.items| && ResolveItems(c.items, c.document, c.fuel).Some?
    requires c.fuel > 0 ==> ResolveItems(c.items, c.document, c.fuel - 1).None?
    requires Normal(c.items[c.i], c.document, c.fuel) != Normal(c.items[c.j], c.document, c.fuel)
    ensures c.Valid()
  {
    hide ValueAt, ResolveItems, Normal;
  }

  lemma LeadingPath(v: Value, document: Value)
    requires IsLoneRef(v) && LeadsToUnordered(v, document)
    ensures KeysOf(v).Some? && KeysOf(v).value != [] && RefTarget(v, document).Some?
    ensures IsUnordered(KeysOf(v).value[|KeysOf(v).value| - 1]) && ValueAt(document, KeysOf(v).value) == RefTarget(v, document)
  {
    hide ValueAt, Keys;
    assert !IsUnordered("");
  }

  lemma DifferentItems(items: seq<Value>, document: Value, fuel: nat) returns (i: nat, j: nat)
    requires !Uniform(items, document, fuel)
    ensures i < j < |items| && Normal(items[i], document, fuel) != Normal(items[j], document, fuel)
  {
    hide Normal;
    i, j :| 0 <= i < |items| && 0 <= j < |items| && Normal(items[i], document, fuel) != Normal(items[j], document, fuel);
    if j < i {
      i, j := j, i;
    }
  }

  lemma LeastBound(list: Value, document: Value, fuel: nat)
    requires Resolve(list, document, fuel).Some?
    ensures var least := LeastFuel(list, document, fuel); least > 0 ==> Resolve(list, document, least - 1).None?
  {
    hide Resolve;
    var p := (f: nat) => Resolve(list, document, f).Some?;
    var least := Least(p, fuel);
    assert least > 0 ==> !p(least - 1);
  }

  lemma NormalMore(items: seq<Value>, document: Value, least: nat, fuel: nat, k: nat)
    requires k < |items| && least <= fuel && ResolveItems(items, document, least).Some?
    ensures Normal(items[k], document, least) == Normal(items[k], document, fuel)
  {
    hide Resolve, ResolveItems, Prune;
    ResolveMore(items[k], document, least, fuel);
  }

  /** If `a` is not tame, some reordering of the document shows. */
  lemma UntameShows(a: Value, document: Value, fuel: nat) returns (other: Value)
    requires Resolve(a, document, fuel).Some? && !Tame(a, document, fuel, false)
    ensures Shuffled(document, other) && Normal(a, other, fuel) != Normal(a, document, fuel)
  {
    hide *;
    var c := UntameUses(a, document, fuel, false);
    SiteBounds(c);
    other := c.Other();
    OtherShuffled(c);
    NotMoved(c, a, false);
    Evolve(c, a, a, None, fuel, false);
    ShowsInNormal(c, a, fuel);
  }

  lemma ShowsInNormal(c: Site, a: Value, fuel: nat)
    requires c.Valid() && Shows(c, a, a, fuel, false) && Uses(c, a, fuel, false)
    ensures Normal(a, c.Other(), fuel) != Normal(a, c.document, fuel)
  {
    hide Resolve, Uses, Site.Valid, Site.Other, Site.Forms, Evolved, Prune;
  }

  /** The normal form is blind to the order of all `required` and `enum` lists of the document exactly
      if every reference reached is tame. */
  lemma ShuffleExactly(a: Value, document: Value, fuel: nat)
    requires Resolve(a, document, fuel).Some?
    ensures (forall other :: Shuffled(document, other) ==> Normal(a, other, fuel) == Normal(a, document, fuel)) <==>
            Tame(a, document, fuel, false)
  {
    hide *;
    if Tame(a, document, fuel, false) {
      BlindToOrder(a);
      forall other | Shuffled(document, other) ensures Normal(a, other, fuel) == Normal(a, document, fuel) {
        ShuffleInvariant(a, a, document, other, fuel);
      }
    } else {
      var other := UntameShows(a, document, fuel);
    }
  }

  lemma BlindToOrder(a: Value)
    ensures Shuffled(a, a)
  {
    AlikeSelf(a);
  }
}
