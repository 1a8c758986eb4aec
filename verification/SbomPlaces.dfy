/** The canonical form of a CycloneDX document place by place, with every key and prefix written out:
    what is dropped, what is rewritten to what, and exactly which documents are accepted. */
module SbomPlaces {
  import opened Text
  import opened Json
  import opened JsonPaths
  import opened Sorting
  import opened SbomNormalForm
  import opened SbomReferences
  import opened SbomCanonical
  import opened SbomExactness

  predicate IsReferenceKey(key: string) {
    key == "bom-ref" || key == "ref" || key == "dependsOn" || key == "provides"
  }

  // ----- rewriting -----

  /** A rewrite keeps every object with its keys, every list with its length and every scalar, except
      that a string whose innermost key is one of the four becomes its image. */
  ghost predicate RewrittenAt(before: Option<Value>, after: Option<Value>, key: string, m: map<string, string>) {
    match before
    case None => after.None?
    case Some(Obj(members)) => after.Some? && after.value.Obj? && after.value.members.Keys == members.Keys
    case Some(Arr(items)) => after.Some? && after.value.Arr? && |after.value.items| == |items|
    case Some(Str(s)) => after == Some(Str(if IsReferenceKey(key) && s in m then m[s] else s))
    case _ => after == before
  }

  lemma {:induction false} SubstituteByPlace(v: Value, key: string, m: map<string, string>, path: Path)
    ensures RewrittenAt(At(v, path), At(Substitute(v, key, m), path), Innermost(path, key), m)
    decreases |path|
  {
    var w := Substitute(v, key, m);
    if path == [] {
    } else {
      match path[0]
      case Key(k) =>
        if v.Obj? && k in v.members {
          assert w.members[k] == Substitute(v.members[k], k, m);
          SubstituteByPlace(v.members[k], k, m, path[1..]);
        }
      case Index(i) =>
        if v.Arr? && i < |v.items| {
          assert w.items[i] == Substitute(v.items[i], key, m);
          SubstituteByPlace(v.items[i], key, m, path[1..]);
        }
    }
  }

  /** The references are the strings under the four keys, directly or in lists. */
  lemma {:induction false} PlaceIsReference(v: Value, key: string, path: Path, s: string)
    requires At(v, path) == Some(Str(s)) && IsReferenceKey(Innermost(path, key))
    ensures s in References(v, key)
    decreases |path|
  {
    if path != [] {
      match path[0]
      case Key(k) =>
        PlaceIsReference(v.members[k], k, path[1..], s);
        ReferencesOfMember(v, k, key);
      case Index(i) =>
        PlaceIsReference(v.items[i], key, path[1..], s);
        ReferencesOfItem(v.items, key);
    }
  }

  lemma {:induction false} ReferenceHasPlace(v: Value, key: string, s: string) returns (path: Path)
    requires s in References(v, key)
    ensures At(v, path) == Some(Str(s)) && IsReferenceKey(Innermost(path, key))
    decreases v
  {
    match v
    case Obj(members) =>
      var k :| k in members && s in References(members[k], k);
      var rest := ReferenceHasPlace(members[k], k, s);
      path := [Key(k)] + rest;
      AtKey(v, k, rest);
      assert path[1..] == rest;
    case Arr(items) =>
      ReferencesOfItem(items, key);
      var i :| 0 <= i < |items| && s in References(items[i], key);
      var rest := ReferenceHasPlace(items[i], key, s);
      path := [Index(i)] + rest;
      AtIndex(v, i, rest);
      assert path[1..] == rest;
    case Str(_) => path := [];
  }

  /** In a canonical form no UUID is left under any of the four keys, at any depth. */
  lemma NoUuidLeft(hash: string -> string, d: Value, path: Path, s: string)
    requires Canonicalize(hash, d).Ok? && At(Canonicalize(hash, d).document, path) == Some(Str(s))
    requires IsReferenceKey(Innermost(path, ""))
    ensures !IsUuidRef(s)
  {
    var v, c := Strip(d), Canonicalize(hash, d).document;
    AcceptedFacts(hash, v);
    hide *;
    PlaceIsReference(c, "", path, s);
    CanonicalizeIsResolve(hash, d);
    CanonicalReferences(hash, v);
    var u := ImageSource(DocumentNames(hash, v), References(v, ""), s);
    ImageOf(DocumentNames(hash, v), u);
    if u in DocumentNames(hash, v) {
      GeneratedName(hash, v, u);
    } else {
      UndefinedIsLiteral(v, DocumentNames(hash, v), u);
    }
  }

  lemma CanonicalizeIsResolve(hash: string -> string, d: Value)
    requires Canonicalize(hash, d).Ok?
    ensures d.Obj? && RootError(d).None? && Canonicalize(hash, d) == Resolve(hash, Strip(d))
  {
  }

  lemma ImageSource(m: map<string, string>, refs: set<string>, s: string) returns (u: string)
    requires s in Images(m, refs)
    ensures u in refs && Image(m, u) == s
  {
    u :| u in refs && Image(m, u) == s;
  }

  lemma UndefinedIsLiteral(v: Value, names: map<string, string>, u: string)
    requires AllDefined(v, names) && u in References(v, "") && u !in names
    ensures !IsUuidRef(u)
  {
  }

  // ----- definitions -----

  /** The object at this path carries the string `u` as its `bom-ref`. */
  ghost predicate DefinesAt(v: Value, path: Path, u: string) {
    var o := At(v, path);
    o.Some? && o.value.Obj? && "bom-ref" in o.value.members && o.value.members["bom-ref"] == Str(u)
  }

  /** Everything in the object but its `bom-ref`. */
  ghost function Rest(v: Value, path: Path, u: string): Value
    requires DefinesAt(v, path, u)
  {
    Obj(At(v, path).value.members - {"bom-ref"})
  }

  function Behind(step: Step, paths: seq<Path>): (r: seq<Path>)
    ensures |r| == |paths| && forall i :: 0 <= i < |r| ==> r[i] == [step] + paths[i]
  {
    seq(|paths|, i requires 0 <= i < |paths| => [step] + paths[i])
  }

  /** The places of the definitions, in the order in which they are met. */
  function Places(v: Value): seq<Path>
    decreases v
  {
    match v
    case Obj(members) => (if Defines(v) then [[]] else []) + MemberPlaces(v, SortedKeys(members.Keys))
    case Arr(items) => ItemPlaces(items, 0)
    case _ => []
  }

  function ItemPlaces(items: seq<Value>, n: nat): seq<Path>
    decreases items
  {
    if items == [] then [] else Behind(Index(n), Places(items[0])) + ItemPlaces(items[1..], n + 1)
  }

  function MemberPlaces(v: Value, keys: seq<string>): seq<Path>
    requires v.Obj? && forall k | k in keys :: k in v.members
    decreases v, |keys|
  {
    if keys == [] then [] else Behind(Key(keys[0]), Places(v.members[keys[0]])) + MemberPlaces(v, keys[1..])
  }

  /** One place for every definition, in the same order. */
  ghost predicate Matches(v: Value, paths: seq<Path>, es: seq<Entry>) {
    |paths| == |es| && forall i :: 0 <= i < |es| ==> IsEntryAt(v, paths[i], es[i])
  }

  ghost predicate IsEntryAt(v: Value, path: Path, e: Entry) {
    DefinesAt(v, path, e.ref) && e.identity == Normalize(Rest(v, path, e.ref))
  }

  lemma EntryBehindKey(v: Value, k: string, path: Path, e: Entry)
    requires v.Obj? && k in v.members && IsEntryAt(v.members[k], path, e)
    ensures IsEntryAt(v, [Key(k)] + path, e)
  {
    AtKey(v, k, path);
  }

  lemma EntryBehindIndex(v: Value, i: nat, path: Path, e: Entry)
    requires v.Arr? && i < |v.items| && IsEntryAt(v.items[i], path, e)
    ensures IsEntryAt(v, [Index(i)] + path, e)
  {
    AtIndex(v, i, path);
  }

  lemma OwnPlace(v: Value)
    requires Defines(v)
    ensures IsEntryAt(v, [], OwnEntry(v))
  {
    assert At(v, []) == Some(v);
    hide Normalize;
  }

  lemma {:induction false} PlacesMatch(v: Value)
    ensures Matches(v, Places(v), Entries(v))
    decreases v
  {
    hide Matches;
    match v
    case Obj(members) =>
      MemberPlacesMatch(v, SortedKeys(members.Keys));
      ObjectMatches(v);
    case Arr(items) =>
      assert items[0..] == items;
      ItemPlacesMatch(v, 0);
    case _ =>
      NothingMatches(v);
  }

  lemma NothingMatches(v: Value)
    ensures Matches(v, [], [])
  {
  }

  lemma ObjectMatches(v: Value)
    requires v.Obj? && Matches(v, MemberPlaces(v, SortedKeys(v.members.Keys)), MemberEntries(v, SortedKeys(v.members.Keys)))
    ensures Matches(v, Places(v), Entries(v))
  {
    hide MemberPlaces, MemberEntries, SortedKeys, IsEntryAt, OwnEntry;
    if Defines(v) { OwnPlace(v); }
  }

  lemma {:induction false} MemberPlacesMatch(v: Value, keys: seq<string>)
    requires v.Obj? && forall k | k in keys :: k in v.members
    ensures Matches(v, MemberPlaces(v, keys), MemberEntries(v, keys))
    decreases v, |keys|
  {
    if keys != [] {
      var k := keys[0];
      PlacesMatch(v.members[k]);
      MemberPlacesMatch(v, keys[1..]);
      var paths, es := Places(v.members[k]), Entries(v.members[k]);
      hide Places, Entries, IsEntryAt;
      forall i | 0 <= i < |es| ensures IsEntryAt(v, Behind(Key(k), paths)[i], es[i]) {
        EntryBehindKey(v, k, paths[i], es[i]);
      }
    }
  }

  lemma {:induction false} ItemPlacesMatch(v: Value, n: nat)
    requires v.Arr? && n <= |v.items|
    ensures Matches(v, ItemPlaces(v.items[n..], n), ItemEntries(v.items[n..]))
    decreases v, |v.items| - n
  {
    if n < |v.items| {
      PlacesMatch(v.items[n]);
      ItemPlacesMatch(v, n + 1);
      assert v.items[n..][0] == v.items[n] && v.items[n..][1..] == v.items[n + 1..];
      var paths, es := Places(v.items[n]), Entries(v.items[n]);
      hide Places, Entries, IsEntryAt;
      forall i | 0 <= i < |es| ensures IsEntryAt(v, Behind(Index(n), paths)[i], es[i]) {
        EntryBehindIndex(v, n, paths[i], es[i]);
      }
    }
  }

  // Every place is listed, and once.

  ghost predicate Once(paths: seq<Path>) {
    forall i, j :: 0 <= i < j < |paths| ==> paths[i] != paths[j]
  }

  /** No path of the one list is in the other. */
  lemma OnceTogether(a: seq<Path>, b: seq<Path>)
    requires Once(a) && Once(b) && forall i, j :: 0 <= i < |a| && 0 <= j < |b| ==> a[i] != b[j]
    ensures Once(a + b)
  {
  }

  lemma OnceBehind(step: Step, paths: seq<Path>)
    requires Once(paths)
    ensures Once(Behind(step, paths))
  {
    forall i, j | 0 <= i < j < |paths| ensures Behind(step, paths)[i] != Behind(step, paths)[j] {
      assert ([step] + paths[i])[1..] == paths[i] && ([step] + paths[j])[1..] == paths[j];
    }
  }

  lemma {:induction false} PlacesOnce(v: Value)
    ensures Once(Places(v))
    decreases v
  {
    match v
    case Obj(members) =>
      var keys := SortedKeys(members.Keys);
      MemberPlacesOnce(v, keys);
      if Defines(v) { OnceTogether([[]], MemberPlaces(v, keys)); }
    case Arr(items) => ItemPlacesOnce(items, 0);
    case _ =>
  }

  lemma {:induction false} MemberPlacesOnce(v: Value, keys: seq<string>)
    requires v.Obj? && (forall k | k in keys :: k in v.members) && forall i, j :: 0 <= i < j < |keys| ==> keys[i] != keys[j]
    ensures Once(MemberPlaces(v, keys))
    ensures forall i :: 0 <= i < |MemberPlaces(v, keys)| ==>
              var p := MemberPlaces(v, keys)[i]; p != [] && p[0].Key? && p[0].name in keys
    decreases v, |keys|
  {
    if keys != [] {
      PlacesOnce(v.members[keys[0]]);
      MemberPlacesOnce(v, keys[1..]);
      hide Places, Once;
      OnceBehind(Key(keys[0]), Places(v.members[keys[0]]));
      assert keys[0] !in keys[1..];
      OnceTogether(Behind(Key(keys[0]), Places(v.members[keys[0]])), MemberPlaces(v, keys[1..]));
    }
  }

  lemma {:induction false} ItemPlacesOnce(items: seq<Value>, n: nat)
    ensures Once(ItemPlaces(items, n))
    ensures forall i :: 0 <= i < |ItemPlaces(items, n)| ==>
              var p := ItemPlaces(items, n)[i]; p != [] && p[0].Index? && p[0].position >= n
    decreases items
  {
    if items != [] {
      PlacesOnce(items[0]);
      ItemPlacesOnce(items[1..], n + 1);
      hide Places, Once;
      OnceBehind(Index(n), Places(items[0]));
      OnceTogether(Behind(Index(n), Places(items[0])), ItemPlaces(items[1..], n + 1));
    }
  }

  lemma {:induction false} PlaceListed(v: Value, path: Path, u: string)
    requires DefinesAt(v, path, u)
    ensures path in Places(v)
    decreases |path|
  {
    hide *;
    if path == [] {
      OwnListed(v, u);
    } else {
      var rest := path[1..];
      assert path == [path[0]] + rest;
      DefinesBehind(v, path, u);
      match path[0]
      case Key(k) =>
        PlaceListed(v.members[k], rest, u);
        MemberPlaceListed(v, SortedKeys(v.members.Keys), k, rest);
        MembersListed(v, path);
      case Index(i) =>
        PlaceListed(v.items[i], rest, u);
        ItemPlaceListed(v.items, 0, i, rest);
        ItemsListed(v, path);
    }
  }

  lemma DefinesBehind(v: Value, path: Path, u: string)
    requires path != [] && DefinesAt(v, path, u)
    ensures path[0].Key? ==> v.Obj? && path[0].name in v.members && DefinesAt(v.members[path[0].name], path[1..], u)
    ensures path[0].Key? ==> path[0].name in SortedKeys(v.members.Keys)
    ensures path[0].Index? ==> v.Arr? && path[0].position < |v.items| && DefinesAt(v.items[path[0].position], path[1..], u)
  {
    hide SortedKeys;
    if path[0].Key? {
      assert path[0].name in (set k | k in SortedKeys(v.members.Keys));
    }
  }

  lemma OwnListed(v: Value, u: string)
    requires DefinesAt(v, [], u)
    ensures [] in Places(v)
  {
    assert At(v, []) == Some(v);
    assert Places(v)[0] == [];
  }

  lemma MembersListed(v: Value, path: Path)
    requires v.Obj? && path in MemberPlaces(v, SortedKeys(v.members.Keys))
    ensures path in Places(v)
  {
  }

  lemma ItemsListed(v: Value, path: Path)
    requires v.Arr? && path in ItemPlaces(v.items, 0)
    ensures path in Places(v)
  {
  }

  lemma {:induction false} MemberPlaceListed(v: Value, keys: seq<string>, k: string, rest: Path)
    requires v.Obj? && (forall k | k in keys :: k in v.members) && k in keys && rest in Places(v.members[k])
    ensures [Key(k)] + rest in MemberPlaces(v, keys)
    decreases |keys|
  {
    hide Places;
    if keys[0] == k {
      var i :| 0 <= i < |Places(v.members[k])| && Places(v.members[k])[i] == rest;
      assert Behind(Key(k), Places(v.members[k]))[i] == [Key(k)] + rest;
    } else {
      MemberPlaceListed(v, keys[1..], k, rest);
    }
  }

  lemma {:induction false} ItemPlaceListed(items: seq<Value>, n: nat, i: nat, rest: Path)
    requires i < |items| && rest in Places(items[i])
    ensures [Index(n + i)] + rest in ItemPlaces(items, n)
    decreases |items|
  {
    hide Places;
    if i == 0 {
      var j :| 0 <= j < |Places(items[0])| && Places(items[0])[j] == rest;
      assert Behind(Index(n), Places(items[0]))[j] == [Index(n)] + rest;
    } else {
      ItemPlaceListed(items[1..], n + 1, i - 1, rest);
    }
  }

  /** The definitions and their places. */
  lemma EntryOf(v: Value, path: Path, u: string) returns (i: nat)
    requires DefinesAt(v, path, u)
    ensures i < |Entries(v)| == |Places(v)| && Places(v)[i] == path
    ensures Entries(v)[i] == Entry(u, Normalize(Rest(v, path, u)))
  {
    hide *;
    PlaceListed(v, path, u);
    PlacesMatch(v);
    i := MatchIndex(v, Places(v), Entries(v), path);
    EntryAt(v, path, Entries(v)[i], u);
  }

  lemma MatchIndex(v: Value, paths: seq<Path>, es: seq<Entry>, path: Path) returns (i: nat)
    requires Matches(v, paths, es) && path in paths
    ensures i < |es| == |paths| && paths[i] == path && IsEntryAt(v, path, es[i])
  {
    i :| 0 <= i < |paths| && paths[i] == path;
  }

  lemma EntryAt(v: Value, path: Path, e: Entry, u: string)
    requires IsEntryAt(v, path, e) && DefinesAt(v, path, u)
    ensures e == Entry(u, Normalize(Rest(v, path, u)))
  {
  }

  lemma PlaceOf(v: Value, i: nat) returns (path: Path)
    requires i < |Entries(v)|
    ensures |Places(v)| == |Entries(v)| && path == Places(v)[i] && DefinesAt(v, path, Entries(v)[i].ref)
    ensures Entries(v)[i].identity == Normalize(Rest(v, path, Entries(v)[i].ref))
  {
    PlacesMatch(v);
    hide Places, Entries;
    path := Places(v)[i];
    assert IsEntryAt(v, path, Entries(v)[i]);
  }

  // ----- exactly which documents are accepted, and why the others are not -----

  /** No name is defined at two places. */
  ghost predicate DefinedOnce(v: Value) {
    forall p, q, u :: DefinesAt(v, p, u) && DefinesAt(v, q, u) ==> p == q
  }

  /** Every UUID under one of the four keys is defined somewhere. */
  ghost predicate UuidsDefined(v: Value) {
    forall p, s :: At(v, p) == Some(Str(s)) && IsReferenceKey(Innermost(p, "")) && IsUuidRef(s) ==> exists q :: DefinesAt(v, q, s)
  }

  /** What different UUIDs define differs in more than the order of lists. */
  ghost predicate RestsDiffer(v: Value) {
    forall p, q, u, w :: DefinesAt(v, p, u) && DefinesAt(v, q, w) && IsUuidRef(u) && IsUuidRef(w) && u != w ==>
      !Reordered(Rest(v, p, u), Rest(v, q, w))
  }

  lemma DefinedOnceExactly(v: Value)
    ensures Distinct(multiset(Entries(v))) <==> DefinedOnce(v)
  {
    DistinctSequence(Entries(v));
    PlacesOnce(v);
    hide Entries, Distinct, DefinesAt, Places, Normalize, Rest;
    if DistinctRefs(Entries(v)) {
      forall p, q, u | DefinesAt(v, p, u) && DefinesAt(v, q, u) ensures p == q {
        var i := EntryOf(v, p, u);
        var j := EntryOf(v, q, u);
      }
    }
    if DefinedOnce(v) {
      forall i, j | 0 <= i < j < |Entries(v)| ensures Entries(v)[i].ref != Entries(v)[j].ref {
        var p := PlaceOf(v, i);
        var q := PlaceOf(v, j);
      }
    }
  }

  /** The stable name of what a UUID defines, written out. */
  lemma StableName(hash: string -> string, v: Value, path: Path, u: string)
    requires Distinct(multiset(Entries(v))) && DefinesAt(v, path, u) && IsUuidRef(u)
    ensures u in DocumentNames(hash, v)
    ensures DocumentNames(hash, v)[u] == "urn:sms-sbom:" + hash(Dumps(Normalize(Rest(v, path, u)), Style(true, false)))
  {
    NamesOf(Entries(v), hash);
    hide Entries, Distinct, Names, Dumps, Normalize, Rest, DefinesAt, IsUuidRef;
    var i := EntryOf(v, path, u);
  }

  lemma NamedHasPlace(hash: string -> string, v: Value, u: string) returns (path: Path)
    requires Distinct(multiset(Entries(v))) && u in DocumentNames(hash, v)
    ensures DefinesAt(v, path, u) && IsUuidRef(u)
  {
    hide Entries, Distinct, Names, DefinesAt, Normalize, Rest, IsUuidRef;
    var i := NamedBy(Entries(v), hash, u);
    path := PlaceOf(v, i);
  }

  lemma UuidsDefinedExactly(hash: string -> string, v: Value)
    requires Distinct(multiset(Entries(v)))
    ensures AllDefined(v, DocumentNames(hash, v)) <==> UuidsDefined(v)
  {
    hide Entries, Distinct, Names, DefinesAt, IsUuidRef, At, References, DocumentNames, Innermost, IsReferenceKey;
    if AllDefined(v, DocumentNames(hash, v)) {
      forall p, s | At(v, p) == Some(Str(s)) && IsReferenceKey(Innermost(p, "")) && IsUuidRef(s)
        ensures exists q :: DefinesAt(v, q, s)
      {
        PlaceIsReference(v, "", p, s);
        var q := NamedHasPlace(hash, v, s);
      }
    }
    if UuidsDefined(v) {
      forall s | s in References(v, "") && IsUuidRef(s) ensures s in DocumentNames(hash, v) {
        var p := ReferenceHasPlace(v, "", s);
        var q :| DefinesAt(v, q, s);
        StableName(hash, v, q, s);
      }
    }
  }

  /** Stable names agree exactly if what they name differs only in the order of lists. */
  lemma SameName(hash: string -> string, v: Value, p: Path, u: string, q: Path, w: string)
    requires CollisionFree(hash) && Distinct(multiset(Entries(v)))
    requires DefinesAt(v, p, u) && DefinesAt(v, q, w) && IsUuidRef(u) && IsUuidRef(w)
    ensures u in DocumentNames(hash, v) && w in DocumentNames(hash, v)
    ensures DocumentNames(hash, v)[u] == DocumentNames(hash, v)[w] <==> Reordered(Rest(v, p, u), Rest(v, q, w))
  {
    hide *;
    StableName(hash, v, p, u);
    StableName(hash, v, q, w);
    var a, b := Normalize(Rest(v, p, u)), Normalize(Rest(v, q, w));
    if DocumentNames(hash, v)[u] == DocumentNames(hash, v)[w] {
      SameText(hash, a, b);
    }
    NormalizeComplete(Rest(v, p, u), Rest(v, q, w));
  }

  lemma SameText(hash: string -> string, a: Value, b: Value)
    requires CollisionFree(hash)
    requires "urn:sms-sbom:" + hash(Dumps(a, Style(true, false))) == "urn:sms-sbom:" + hash(Dumps(b, Style(true, false)))
    ensures a == b
  {
    hide Dumps;
    AppendCancel("urn:sms-sbom:", "urn:sms-sbom:", hash(Dumps(a, Style(true, false))), hash(Dumps(b, Style(true, false))));
    DumpsInjective(a, b, Style(true, false));
  }

  lemma RestsDifferExactly(hash: string -> string, v: Value)
    requires CollisionFree(hash) && Distinct(multiset(Entries(v)))
    ensures Injective(DocumentNames(hash, v)) <==> RestsDiffer(v)
  {
    hide Entries, Distinct, Names, DefinesAt, IsUuidRef, DocumentNames, CollisionFree, Rest, Reordered;
    if Injective(DocumentNames(hash, v)) {
      forall p, q, u, w | DefinesAt(v, p, u) && DefinesAt(v, q, w) && IsUuidRef(u) && IsUuidRef(w) && u != w
        ensures !Reordered(Rest(v, p, u), Rest(v, q, w))
      {
        SameName(hash, v, p, u, q, w);
      }
    }
    if RestsDiffer(v) {
      var names := DocumentNames(hash, v);
      forall x, y | x in names && y in names && names[x] == names[y] ensures x == y {
        var p := NamedHasPlace(hash, v, x);
        var q := NamedHasPlace(hash, v, y);
        SameName(hash, v, p, x, q, y);
      }
    }
  }

  /** The verdict on a document, by what stands at its places. */
  lemma VerdictExactly(hash: string -> string, d: Value)
    requires CollisionFree(hash)
    ensures var root := d.Obj? && "bomFormat" in d.members && d.members["bomFormat"] == Str("CycloneDX")
              && "specVersion" in d.members && d.members["specVersion"].Str?
              && ("metadata" in d.members ==> d.members["metadata"] == Null || d.members["metadata"].Obj?);
            var verdict := Canonicalize(hash, d);
            && (!root <==> verdict.Err? && verdict.error in {NotCycloneDx, NoSpecVersion, BadMetadata})
            && (root ==>
                  var v := Strip(d);
                  && (verdict == Err(DuplicateRef) <==> !DefinedOnce(v))
                  && (verdict == Err(AmbiguousIdentity) <==> DefinedOnce(v) && !RestsDiffer(v))
                  && (verdict == Err(UndefinedReference) <==> DefinedOnce(v) && RestsDiffer(v) && !UuidsDefined(v))
                  && (verdict.Ok? <==> DefinedOnce(v) && RestsDiffer(v) && UuidsDefined(v)))
  {
    RootExactly(d);
    hide *;
    CanonicalizeCases(hash, d);
    if RootError(d).None? {
      ResolveExactly(hash, Strip(d));
    }
  }

  lemma RootExactly(d: Value)
    ensures RootError(d).None? <==>
              && d.Obj? && "bomFormat" in d.members && d.members["bomFormat"] == Str("CycloneDX")
              && "specVersion" in d.members && d.members["specVersion"].Str?
              && ("metadata" in d.members ==> d.members["metadata"] == Null || d.members["metadata"].Obj?)
    ensures RootError(d).Some? ==> RootError(d).value in {NotCycloneDx, NoSpecVersion, BadMetadata}
  {
  }

  lemma CanonicalizeCases(hash: string -> string, d: Value)
    ensures RootError(d).None? ==> d.Obj? && Canonicalize(hash, d) == Resolve(hash, Strip(d))
    ensures RootError(d).Some? ==> Canonicalize(hash, d) == Err(RootError(d).value)
  {
  }

  lemma ResolveExactly(hash: string -> string, v: Value)
    requires CollisionFree(hash)
    ensures var verdict := Resolve(hash, v);
            && (verdict == Err(DuplicateRef) <==> !DefinedOnce(v))
            && (verdict == Err(AmbiguousIdentity) <==> DefinedOnce(v) && !RestsDiffer(v))
            && (verdict == Err(UndefinedReference) <==> DefinedOnce(v) && RestsDiffer(v) && !UuidsDefined(v))
            && (verdict.Ok? <==> DefinedOnce(v) && RestsDiffer(v) && UuidsDefined(v))
  {
    hide Entries, Distinct, Names, DefinedOnce, RestsDiffer, UuidsDefined, CollisionFree, AllDefined, Injective;
    DefinedOnceExactly(v);
    if Distinct(multiset(Entries(v))) {
      RestsDifferExactly(hash, v);
      UuidsDefinedExactly(hash, v);
    }
  }

  // ----- the result -----

  /** An accepted document: every UUID definition gets its stable name, everything else stays as it is,
      place by place, and then the lists are sorted. */
  lemma CanonicalByPlace(hash: string -> string, d: Value) returns (names: map<string, string>, rewritten: Value)
    requires Canonicalize(hash, d).Ok?
    ensures d.Obj? && Canonicalize(hash, d).document == Normalize(rewritten)
    ensures forall path :: RewrittenAt(At(Strip(d), path), At(rewritten, path), Innermost(path, ""), names)
    ensures forall u :: u in names <==> IsUuidRef(u) && exists p :: DefinesAt(Strip(d), p, u)
    ensures forall p, u :: DefinesAt(Strip(d), p, u) && IsUuidRef(u) ==>
              names[u] == "urn:sms-sbom:" + hash(Dumps(Normalize(Rest(Strip(d), p, u)), Style(true, false)))
  {
    CanonicalizeIsResolve(hash, d);
    var v := Strip(d);
    AcceptedFacts(hash, v);
    hide *;
    names := DocumentNames(hash, v);
    rewritten := Substitute(v, "", names);
    forall path ensures RewrittenAt(At(v, path), At(rewritten, path), Innermost(path, ""), names) {
      SubstituteByPlace(v, "", names, path);
    }
    forall u ensures u in names <==> IsUuidRef(u) && exists p :: DefinesAt(v, p, u) {
      if u in names {
        var p := NamedHasPlace(hash, v, u);
      }
      if IsUuidRef(u) && exists p :: DefinesAt(v, p, u) {
        var p :| DefinesAt(v, p, u);
        StableName(hash, v, p, u);
      }
    }
    forall p, u | DefinesAt(v, p, u) && IsUuidRef(u)
      ensures names[u] == "urn:sms-sbom:" + hash(Dumps(Normalize(Rest(v, p, u)), Style(true, false)))
    {
      StableName(hash, v, p, u);
    }
  }

  /** Every list of a canonical form, at any depth, is sorted by the text of its items without blanks and
      without escapes for other alphabets. */
  lemma {:induction false} ListsSorted(v: Value, path: Path, items: seq<Value>, i: nat, j: nat)
    requires At(Normalize(v), path) == Some(Arr(items)) && i < j < |items|
    ensures LexLeq(Dumps(items[i], Style(false, false)), Dumps(items[j], Style(false, false)))
    decreases |path|
  {
    hide LexLeq, Dumps;
    if path == [] {
      TextLeqTotalOrder();
      SortSorted(NormalizeAll(v.items), TextLeq);
      assert TextLeq(items[i], items[j]);
    } else {
      match path[0]
      case Key(k) => ListsSorted(v.members[k], path[1..], items, i, j);
      case Index(n) =>
        var k := SortedFrom(v.items, n);
        ListsSorted(v.items[k], path[1..], items, i, j);
    }
  }

  lemma SortedFrom(items: seq<Value>, n: nat) returns (k: nat)
    requires n < |Sort(NormalizeAll(items), TextLeq)|
    ensures k < |items| && Sort(NormalizeAll(items), TextLeq)[n] == Normalize(items[k])
  {
    var ns := NormalizeAll(items);
    SortContents(ns, TextLeq);
    var x := Sort(ns, TextLeq)[n];
    hide Sort;
    assert x in multiset(Sort(ns, TextLeq));
    assert x in ns;
    k :| 0 <= k < |ns| && ns[k] == x;
  }

  // ----- what is dropped -----

  predicate IsDropped(path: Path) {
    || (|path| >= 1 && path[0] == Key("serialNumber"))
    || (|path| >= 2 && path[0] == Key("metadata") && path[1] == Key("timestamp"))
  }

  /** The serial number and the time stamp of the metadata are dropped, and nothing else: the root and the
      metadata stay objects, and whatever is below them stays as it is. */
  lemma StripByPlace(d: Value, path: Path)
    requires d.Obj?
    ensures Strip(d).Obj? && (At(d, [Key("metadata")]).Some? <==> At(Strip(d), [Key("metadata")]).Some?)
    ensures At(d, [Key("metadata")]).Some? ==> (At(d, [Key("metadata")]).value.Obj? <==> At(Strip(d), [Key("metadata")]).value.Obj?)
    ensures path != [] && (path == [Key("metadata")] ==> !At(d, path).Some? || !At(d, path).value.Obj?) ==>
              At(Strip(d), path) == if IsDropped(path) then None else At(d, path)
  {
    AtKey(d, "metadata", []);
    AtKey(Strip(d), "metadata", []);
    if path != [] && path[0] == Key("metadata") && "metadata" in d.members && d.members["metadata"].Obj? {
      var rest := path[1..];
      var a, b := d.members["metadata"], Strip(d).members["metadata"];
      assert b == Obj(a.members - {"timestamp"});
      if rest != [] {
        assert path[1] == rest[0];
        BelowMetadata(a, rest);
      }
    }
  }

  lemma BelowMetadata(a: Value, rest: Path)
    requires a.Obj? && rest != []
    ensures At(Obj(a.members - {"timestamp"}), rest) == if rest[0] == Key("timestamp") then None else At(a, rest)
  {
  }

  // ----- what a UUID reference looks like -----

  ghost predicate IsHex(s: string, n: nat) {
    |s| == n && forall i :: 0 <= i < n ==> '0' <= s[i] <= '9' || 'a' <= s[i] <= 'f' || 'A' <= s[i] <= 'F'
  }

  ghost predicate IsUrn(s: string) {
    |s| == 9 && forall i :: 0 <= i < 9 ==>
      s[i] == "urn:uuid:"[i] || s[i] == "URN:UUID:"[i] || (i == 6 && (s[i] == '\U{0130}' || s[i] == '\U{0131}'))
  }

  function Dashed(a: string, b: string, c: string, d: string, e: string): string {
    a + "-" + b + "-" + c + "-" + d + "-" + e
  }

  ghost predicate HasShape(s: string, urn: string, a: string, b: string, c: string, d: string, e: string) {
    && s == urn + Dashed(a, b, c, d, e) && (urn == "" || IsUrn(urn))
    && IsHex(a, 8) && IsHex(b, 4) && IsHex(c, 4) && IsHex(d, 4) && IsHex(e, 12)
  }

  /** Hexadecimal digits in blocks of 8, 4, 4, 4 and 12, and possibly `urn:uuid:` before them. */
  lemma UuidShape(s: string)
    ensures IsUuidRef(s) <==> exists urn, a, b, c, d, e :: HasShape(s, urn, a, b, c, d, e)
  {
    if IsUuidRef(s) {
      ReferenceShape(s);
    }
    if urn, a, b, c, d, e :| HasShape(s, urn, a, b, c, d, e) {
      ShapeIsReference(s, urn, a, b, c, d, e);
    }
  }

  lemma ReferenceShape(s: string)
    requires IsUuidRef(s)
    ensures exists urn, a, b, c, d, e :: HasShape(s, urn, a, b, c, d, e)
  {
    UrnShape(s);
    hide IsUuidText, IsUrnUuid, IsHex, IsUrn, Dashed;
    if IsUuidText(s) {
      var a, b, c, d, e := TextShape(s);
      assert "" + Dashed(a, b, c, d, e) == s;
      assert HasShape(s, "", a, b, c, d, e);
    } else {
      var a, b, c, d, e := TextShape(s[9..]);
      assert s[..9] + Dashed(a, b, c, d, e) == s;
      assert HasShape(s, s[..9], a, b, c, d, e);
    }
  }

  lemma ShapeIsReference(s: string, urn: string, a: string, b: string, c: string, d: string, e: string)
    requires HasShape(s, urn, a, b, c, d, e)
    ensures IsUuidRef(s)
  {
    ShapeIsText(a, b, c, d, e);
    UrnShape(s);
    assert IsUrn(urn) ==> |urn| == 9;
    hide IsUuidText, IsUrnUuid, IsHex, IsUrn, Dashed;
    if urn == "" {
      assert s == Dashed(a, b, c, d, e);
    } else {
      assert s[..9] == urn && s[9..] == Dashed(a, b, c, d, e);
    }
  }

  lemma {:induction false} UuidFromShape(s: string, i: nat)
    requires i <= |s| == 36
    ensures UuidFrom(s, i) <==> forall j :: i <= j < 36 ==>
              if j == 8 || j == 13 || j == 18 || j == 23 then s[j] == '-' else DigitValue(s[j]).Some?
    decreases 36 - i
  {
    if i < 36 { UuidFromShape(s, i + 1); }
  }

  lemma TextShape(s: string) returns (a: string, b: string, c: string, d: string, e: string)
    requires IsUuidText(s)
    ensures s == Dashed(a, b, c, d, e) && IsHex(a, 8) && IsHex(b, 4) && IsHex(c, 4) && IsHex(d, 4) && IsHex(e, 12)
  {
    UuidFromShape(s, 0);
    hide UuidFrom;
    a, b, c, d, e := s[..8], s[9..13], s[14..18], s[19..23], s[24..];
  }

  lemma ShapeIsText(a: string, b: string, c: string, d: string, e: string)
    requires IsHex(a, 8) && IsHex(b, 4) && IsHex(c, 4) && IsHex(d, 4) && IsHex(e, 12)
    ensures IsUuidText(Dashed(a, b, c, d, e))
  {
    var s := Dashed(a, b, c, d, e);
    assert s[..8] == a && s[9..13] == b && s[14..18] == c && s[19..23] == d && s[24..] == e;
    UuidFromShape(s, 0);
    hide UuidFrom;
  }

  lemma {:induction false} UrnFromShape(s: string, i: nat)
    requires i <= 9 <= |s|
    ensures UrnFrom(s, i) <==> forall j :: i <= j < 9 ==> SameLetter("urn:uuid:"[j], s[j])
    decreases 9 - i
  {
    if i < 9 { UrnFromShape(s, i + 1); }
  }

  lemma UrnShape(s: string)
    ensures IsUrnUuid(s) <==> |s| >= 9 && IsUrn(s[..9])
  {
    if |s| >= 9 {
      UrnFromShape(s, 0);
      hide UrnFrom;
    }
  }
}
