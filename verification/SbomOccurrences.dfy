/** How often references occur in a document.  A set of references does not tell a generated name from
    a literal one that reads the same; their number does. */
module SbomOccurrences {
  import opened Json
  import opened Sorting
  import opened SbomNormalForm
  import opened SbomReferences

  /** The number of places that `rewrite` looks at and that hold one of the given strings. */
  function Occurs(v: Value, key: string, wanted: set<string>): nat
    decreases v, 1, 0
  {
    match v
    case Obj(members) => OccursKeys(v, SortedKeys(members.Keys), wanted)
    case Arr(items) => OccursAll(items, key, wanted)
    case Str(s) => if key in REFERENCE_KEYS && s in wanted then 1 else 0
    case _ => 0
  }

  function OccursAll(items: seq<Value>, key: string, wanted: set<string>): nat
    decreases items
  {
    if items == [] then 0 else Occurs(items[0], key, wanted) + OccursAll(items[1..], key, wanted)
  }

  function OccursKeys(v: Value, keys: seq<string>, wanted: set<string>): nat
    requires v.Obj? && forall k :: k in keys ==> k in v.members
    decreases v, 0, |keys|
  {
    if keys == [] then 0 else Occurs(v.members[keys[0]], keys[0], wanted) + OccursKeys(v, keys[1..], wanted)
  }

  // ----- reordering keeps the number -----

  lemma {:induction false} OccursReordered(a: Value, b: Value, key: string, wanted: set<string>)
    requires Reordered(a, b)
    ensures Occurs(a, key, wanted) == Occurs(b, key, wanted)
    decreases a, 1, 0
  {
    match a
    case Obj(members) => OccursReorderedKeys(a, b, SortedKeys(members.Keys), wanted);
    case Arr(items) => OccursPaired(items, b.items, key, wanted);
    case _ =>
  }

  lemma {:induction false} OccursReorderedKeys(a: Value, b: Value, keys: seq<string>, wanted: set<string>)
    requires a.Obj? && b.Obj? && forall k :: k in keys ==> k in a.members && k in b.members && Reordered(a.members[k], b.members[k])
    ensures OccursKeys(a, keys, wanted) == OccursKeys(b, keys, wanted)
    decreases a, 0, |keys|
  {
    if keys != [] {
      assert keys[0] in keys && forall k :: k in keys[1..] ==> k in keys;
      hide Reordered, Occurs;
      OccursReordered(a.members[keys[0]], b.members[keys[0]], keys[0], wanted);
      OccursReorderedKeys(a, b, keys[1..], wanted);
    }
  }

  lemma {:induction false} OccursRemove(ys: seq<Value>, k: nat, key: string, wanted: set<string>)
    requires k < |ys|
    ensures OccursAll(ys, key, wanted) == Occurs(ys[k], key, wanted) + OccursAll(RemoveAt(ys, k), key, wanted)
    decreases ys
  {
    if k == 0 {
      assert RemoveAt(ys, 0) == ys[1..];
    } else {
      hide Occurs;
      OccursRemove(ys[1..], k - 1, key, wanted);
      assert RemoveAt(ys, k)[0] == ys[0] && RemoveAt(ys, k)[1..] == RemoveAt(ys[1..], k - 1);
    }
  }

  lemma {:induction false} OccursPaired(xs: seq<Value>, ys: seq<Value>, key: string, wanted: set<string>)
    requires PairedOff(xs, ys)
    ensures OccursAll(xs, key, wanted) == OccursAll(ys, key, wanted)
    decreases xs
  {
    if xs != [] {
      hide Occurs, Reordered, RemoveAt;
      var k := PairedStep(xs, ys);
      OccursReordered(xs[0], ys[k], key, wanted);
      OccursPaired(xs[1..], RemoveAt(ys, k), key, wanted);
      OccursRemove(ys, k, key, wanted);
    }
  }

  // ----- substitution -----

  /** The places that hold a wanted string after a substitution are those whose image is wanted. */
  ghost predicate Selects(refs: set<string>, m: map<string, string>, before: set<string>, after: set<string>) {
    forall s :: s in refs ==> (s in before <==> Image(m, s) in after)
  }

  lemma {:induction false} OccursSubstituted(v: Value, key: string, m: map<string, string>, before: set<string>, after: set<string>)
    requires Selects(References(v, key), m, before, after)
    ensures Occurs(Substitute(v, key, m), key, after) == Occurs(v, key, before)
    decreases v, 1, 0
  {
    match v
    case Obj(members) =>
      var w := Substitute(v, key, m);
      assert w.members.Keys == members.Keys;
      forall k | k in members ensures w.members[k] == Substitute(members[k], k, m) && Selects(References(members[k], k), m, before, after) {
        ReferencesOfMember(v, k, key);
      }
      OccursSubstitutedKeys(v, w, SortedKeys(members.Keys), m, before, after);
    case Arr(items) => OccursSubstitutedAll(items, key, m, before, after);
    case _ =>
  }

  lemma {:induction false} OccursSubstitutedKeys(v: Value, w: Value, keys: seq<string>, m: map<string, string>,
                                                 before: set<string>, after: set<string>)
    requires v.Obj? && w.Obj?
    requires forall k :: k in keys ==>
               && k in v.members && k in w.members && w.members[k] == Substitute(v.members[k], k, m)
               && Selects(References(v.members[k], k), m, before, after)
    ensures OccursKeys(w, keys, after) == OccursKeys(v, keys, before)
    decreases v, 0, |keys|
  {
    if keys != [] {
      assert keys[0] in keys && forall k :: k in keys[1..] ==> k in keys;
      hide Occurs, Substitute, References, Selects;
      OccursSubstituted(v.members[keys[0]], keys[0], m, before, after);
      OccursSubstitutedKeys(v, w, keys[1..], m, before, after);
    }
  }

  lemma {:induction false} OccursSubstitutedAll(items: seq<Value>, key: string, m: map<string, string>,
                                                before: set<string>, after: set<string>)
    requires Selects(ReferencesAll(items, key), m, before, after)
    ensures OccursAll(SubstituteAll(items, key, m), key, after) == OccursAll(items, key, before)
    decreases items
  {
    if items != [] {
      assert ReferencesAll(items, key) == References(items[0], key) + ReferencesAll(items[1..], key);
      hide Occurs, Substitute, References, ReferencesAll;
      OccursSubstituted(items[0], key, m, before, after);
      OccursSubstitutedAll(items[1..], key, m, before, after);
      assert SubstituteAll(items, key, m)[1..] == SubstituteAll(items[1..], key, m);
    }
  }

  // ----- more wanted strings -----

  /** More wanted strings occur at least as often, and more often if one of the new ones is there. */
  lemma {:induction false} OccursMore(v: Value, key: string, some: set<string>, more: set<string>)
    requires some <= more
    ensures Occurs(v, key, some) <= Occurs(v, key, more)
    ensures (exists s :: s in References(v, key) && s in more - some) ==> Occurs(v, key, some) < Occurs(v, key, more)
    decreases v, 1, 0
  {
    match v
    case Obj(members) =>
      var keys := SortedKeys(members.Keys);
      assert Occurs(v, key, some) == OccursKeys(v, keys, some) && Occurs(v, key, more) == OccursKeys(v, keys, more);
      assert forall k :: k in members ==> k in keys;
      assert forall s :: s in References(v, key) ==> exists k :: k in members && s in References(members[k], k);
      hide Occurs, OccursKeys, References, SortedKeys;
      OccursMoreKeys(v, keys, some, more);
    case Arr(items) => OccursMoreAll(items, key, some, more);
    case _ =>
  }

  lemma {:induction false} OccursMoreKeys(v: Value, keys: seq<string>, some: set<string>, more: set<string>)
    requires v.Obj? && some <= more && forall k :: k in keys ==> k in v.members
    ensures OccursKeys(v, keys, some) <= OccursKeys(v, keys, more)
    ensures (exists k, s :: k in keys && s in References(v.members[k], k) && s in more - some) ==>
              OccursKeys(v, keys, some) < OccursKeys(v, keys, more)
    decreases v, 0, |keys|
  {
    if keys != [] {
      assert keys[0] in keys && forall k :: k in keys <==> k == keys[0] || k in keys[1..];
      hide Occurs, References;
      OccursMore(v.members[keys[0]], keys[0], some, more);
      OccursMoreKeys(v, keys[1..], some, more);
    }
  }

  lemma {:induction false} OccursMoreAll(items: seq<Value>, key: string, some: set<string>, more: set<string>)
    requires some <= more
    ensures OccursAll(items, key, some) <= OccursAll(items, key, more)
    ensures (exists s :: s in ReferencesAll(items, key) && s in more - some) ==> OccursAll(items, key, some) < OccursAll(items, key, more)
    decreases items
  {
    if items != [] {
      hide Occurs, References;
      OccursMore(items[0], key, some, more);
      OccursMoreAll(items[1..], key, some, more);
    }
  }
}
