/** Documents that show why the conditions on the canonical form are needed. */
module SbomCounterexamples {
  import opened Text
  import opened Json
  import opened SbomNormalForm
  import opened SbomReferences
  import opened SbomCanonical
  import opened SbomExactness
  import opened SbomTable

  function Document(components: seq<Value>): Value {
    Obj(map["bomFormat" := Str("CycloneDX"), "specVersion" := Str("1.6"), "components" := Arr(components)])
  }

  function Component(ref: string): Value {
    Obj(map["bom-ref" := Str(ref)])
  }

  function Nested(ref: string, inner: Value): Value {
    Obj(map["bom-ref" := Str(ref), "components" := Arr([inner])])
  }

  predicate Inert(v: Value, j: string)
    requires v.Obj? && j in v.members
  {
    Entries(v.members[j]) == [] && References(v.members[j], j) == {}
  }

  lemma {:induction false} NothingBelow(v: Value, keys: set<string>)
    requires v.Obj? && keys <= v.members.Keys && forall j :: j in keys ==> Entries(v.members[j]) == []
    ensures Below(v, keys) == multiset{}
    decreases keys
  {
    if keys != {} {
      var k :| k in keys;
      MemberEntriesTake(v, keys, k);
      NothingBelow(v, keys - {k});
    }
  }

  lemma LoneEntries(v: Value, k: string)
    requires v.Obj? && k in v.members && forall j :: j in v.members && j != k ==> Entries(v.members[j]) == []
    ensures Below(v, v.members.Keys) == multiset(Entries(v.members[k]))
  {
    MemberEntriesTake(v, v.members.Keys, k);
    NothingBelow(v, v.members.Keys - {k});
  }

  /** An object with one member of interest. */
  lemma LoneMember(v: Value, k: string, key: string)
    requires v.Obj? && k in v.members && forall j :: j in v.members && j != k ==> Inert(v, j)
    ensures Below(v, v.members.Keys) == multiset(Entries(v.members[k]))
    ensures References(v, key) == References(v.members[k], k)
  {
    forall j | j in v.members && j != k ensures Entries(v.members[j]) == [] { assert Inert(v, j); }
    LoneEntries(v, k);
    forall j | j in v.members && j != k ensures References(v.members[j], j) == {} { assert Inert(v, j); }
    ReferencesOfMember(v, k, key);
  }

  lemma DocumentRoot(components: seq<Value>)
    ensures RootError(Document(components)).None? && Strip(Document(components)) == Document(components)
  {
    var d := Document(components);
    assert "metadata" !in d.members && "serialNumber" !in d.members;
    assert d.members - {"serialNumber"} == d.members;
  }

  lemma DocumentInert(components: seq<Value>)
    ensures var d := Document(components);
      && d.Obj? && "components" in d.members && d.members["components"] == Arr(components) && Own(d) == []
      && forall j :: j in d.members && j != "components" ==> Inert(d, j)
  {
    var d := Document(components);
    assert d.members["bomFormat"] == Str("CycloneDX") && d.members["specVersion"] == Str("1.6");
    assert Inert(d, "bomFormat") && Inert(d, "specVersion");
  }

  lemma DocumentParts(components: seq<Value>)
    ensures multiset(Entries(Document(components))) == multiset(ItemEntries(components))
    ensures References(Document(components), "") == ReferencesAll(components, "components")
  {
    var d := Document(components);
    DocumentInert(components);
    hide Document;
    LoneMember(d, "components", "");
    EntriesBelow(d);
  }

  lemma ComponentParts(ref: string, key: string)
    ensures multiset(Entries(Component(ref))) == multiset{Entry(ref, Obj(map[]))}
    ensures References(Component(ref), key) == {ref}
  {
    var c := Component(ref);
    EntriesBelow(c);
    LoneMember(c, "bom-ref", key);
    assert Identity(c) == Obj(map[]);
    assert Normalize(Obj(map[])) == Obj(map[]);
  }

  /** What is left of a nested component once its own name is taken off. */
  function Inside(inner: Value): Value {
    Obj(map["components" := Arr([inner])])
  }

  lemma InsideParts(inner: Value)
    ensures References(Normalize(Inside(inner)), "") == References(inner, "components")
    ensures Normalize(Inside(inner)) != Obj(map[])
  {
    var rest := Inside(inner);
    LoneMember(rest, "components", "");
    assert ReferencesAll([inner], "components") == References(inner, "components");
    NormalizeSubstitute(rest, "", map[]);
    assert "components" in Normalize(rest).members;
  }

  lemma NestedBelow(ref: string, inner: Value)
    ensures Below(Nested(ref, inner), Nested(ref, inner).members.Keys) == multiset(Entries(inner))
  {
    var c := Nested(ref, inner);
    assert c.members["bom-ref"] == Str(ref) && c.members["components"] == Arr([inner]);
    LoneEntries(c, "components");
    OneItem(inner);
  }

  lemma NestedParts(ref: string, inner: Value)
    ensures multiset(Entries(Nested(ref, inner))) == multiset{Entry(ref, Normalize(Inside(inner)))} + multiset(Entries(inner))
  {
    var c := Nested(ref, inner);
    assert c.members - {"bom-ref"} == Inside(inner).members;
    assert Own(c) == [Entry(ref, Normalize(Inside(inner)))];
    EntriesBelow(c);
    NestedBelow(ref, inner);
  }

  lemma NestedReferences(ref: string, inner: Value, key: string)
    ensures References(Nested(ref, inner), key) == {ref} + References(inner, "components")
  {
    var c := Nested(ref, inner);
    assert ReferencesAll([inner], "components") == References(inner, "components");
    ReferencesOfMember(c, "bom-ref", key);
    ReferencesOfMember(c, "components", key);
  }

  lemma TwoItems(a: Value, b: Value)
    ensures multiset(ItemEntries([a, b])) == multiset(Entries(a)) + multiset(Entries(b))
    ensures ReferencesAll([a, b], "components") == References(a, "components") + References(b, "components")
  {
    OneItem(b);
    assert [a, b][1..] == [b];
  }

  lemma OneItem(a: Value)
    ensures ItemEntries([a]) == Entries(a)
    ensures ReferencesAll([a], "components") == References(a, "components")
  {
    assert [a][1..] == [];
  }

  // ----- the same, with only these facts left in sight -----

  lemma MakeDocument(components: seq<Value>) returns (d: Value)
    ensures d.Obj? && RootError(d).None? && Strip(d) == d
    ensures multiset(Entries(d)) == multiset(ItemEntries(components))
    ensures References(d, "") == ReferencesAll(components, "components")
  {
    d := Document(components);
    DocumentRoot(components);
    DocumentParts(components);
  }

  lemma MakeComponent(ref: string) returns (c: Value)
    ensures multiset(Entries(c)) == multiset{Entry(ref, Obj(map[]))} && References(c, "components") == {ref}
  {
    c := Component(ref);
    ComponentParts(ref, "components");
  }

  lemma MakeNested(ref: string, inner: Value) returns (c: Value, identity: Value)
    ensures multiset(Entries(c)) == multiset{Entry(ref, identity)} + multiset(Entries(inner))
    ensures References(c, "components") == {ref} + References(inner, "components")
    ensures References(identity, "") == References(inner, "components") && identity != Obj(map[])
  {
    c, identity := Nested(ref, inner), Normalize(Inside(inner));
    NestedParts(ref, inner);
    NestedReferences(ref, inner, "components");
    InsideParts(inner);
  }

  lemma TwoRefs(e: Entry, f: Entry)
    requires e.ref != f.ref
    ensures DistinctRefs([e, f]) && multiset([e, f]) == multiset{e, f}
  {
  }

  lemma TwoNames(hash: string -> string, e: Entry, f: Entry)
    requires e.ref != f.ref
    requires IsUuidRef(e.ref) && IsUuidRef(f.ref) ==> NameOf(hash, e) != NameOf(hash, f)
    ensures Distinct(multiset{e, f}) && Injective(Names(multiset{e, f}, hash))
    ensures IsUuidRef(e.ref) ==> e.ref in Names(multiset{e, f}, hash)
    ensures IsUuidRef(f.ref) ==> f.ref in Names(multiset{e, f}, hash)
  {
    hide DistinctRefs, Distinct, Names, NameOf, IsUuidRef;
    var es := [e, f];
    TwoRefs(e, f);
    DistinctSequence(es);
    NamesOf(es, hash);
    assert es[0] == e && es[1] == f;
  }

  lemma TwoDefined(d: Value, names: map<string, string>, s: string, t: string)
    requires References(d, "") == {s, t} && (IsUuidRef(s) ==> s in names) && (IsUuidRef(t) ==> t in names)
    ensures AllDefined(d, names)
  {
  }

  lemma Accepts(hash: string -> string, d: Value, es: multiset<Entry>)
    requires multiset(Entries(d)) == es && Distinct(es) && Injective(Names(es, hash)) && AllDefined(d, Names(es, hash))
    ensures Resolve(hash, d).Ok?
  {
  }

  /** Two definitions, nothing else: accepted unless their generated names are the same. */
  lemma TwoDefinitions(hash: string -> string, d: Value, e: Entry, f: Entry)
    requires multiset(Entries(d)) == multiset{e, f} && References(d, "") == {e.ref, f.ref} && e.ref != f.ref
    requires IsUuidRef(e.ref) && IsUuidRef(f.ref) ==> NameOf(hash, e) != NameOf(hash, f)
    ensures Resolve(hash, d).Ok?
  {
    TwoNames(hash, e, f);
    TwoDefined(d, Names(multiset{e, f}, hash), e.ref, f.ref);
    Accepts(hash, d, multiset{e, f});
  }

  lemma MakePair(a: Value, b: Value) returns (d: Value)
    ensures d.Obj? && RootError(d).None? && Strip(d) == d
    ensures multiset(Entries(d)) == multiset(Entries(a)) + multiset(Entries(b))
    ensures References(d, "") == References(a, "components") + References(b, "components")
  {
    d := MakeDocument([a, b]);
    TwoItems(a, b);
  }

  lemma PairExample(u: string, name: string) returns (d: Value)
    ensures d.Obj? && RootError(d).None? && Strip(d) == d && References(d, "") == {u, name}
    ensures multiset(Entries(d)) == multiset{Entry(u, Obj(map[])), Entry(name, Obj(map[]))}
  {
    hide *;
    var a := MakeComponent(u);
    var b := MakeComponent(name);
    d := MakePair(a, b);
  }

  /** For every UUID there is an accepted document whose canonical form is rejected: a literal
      `bom-ref` happens to be the name generated for the component with that UUID. */
  lemma LiteralNameBreaksIdempotence(hash: string -> string, u: string) returns (d: Value)
    requires IsUuidRef(u)
    ensures Canonicalize(hash, d).Ok?
    ensures Canonicalize(hash, Canonicalize(hash, d).document) == Err(DuplicateRef)
  {
    hide *;
    var e := Entry(u, Obj(map[]));
    var f := Entry(NameOf(hash, e), Obj(map[]));
    NameIsNoUuid(hash, e);
    d := PairExample(u, f.ref);
    TwoDefinitions(hash, d, e, f);
    CanonicalizeStripped(hash, d);
    ClashOf(hash, d, e, f);
    CanonicalizeTwice(hash, d);
  }

  lemma ClashOf(hash: string -> string, d: Value, e: Entry, f: Entry)
    requires multiset(Entries(d)) == multiset{e, f} && IsUuidRef(e.ref) && !IsUuidRef(f.ref) && f.ref == NameOf(hash, e)
    ensures !NoClash(hash, d)
  {
    assert e in multiset(Entries(d)) && f in multiset(Entries(d));
  }

  lemma NestedExample(u: string, r: string) returns (d: Value, e: Entry, f: Entry)
    ensures d.Obj? && RootError(d).None? && Strip(d) == d && References(d, "") == {u, r}
    ensures multiset(Entries(d)) == multiset{e, f} && e.ref == u && f.ref == r && e in Entries(d)
    ensures e.identity != f.identity && r in References(e.identity, "")
  {
    hide *;
    var inner := MakeComponent(r);
    var outer, identity := MakeNested(u, inner);
    d := MakeDocument([outer]);
    OneItem(outer);
    e, f := Entry(u, identity), Entry(r, Obj(map[]));
    assert e in multiset(Entries(d));
  }

  lemma NestedDocument(hash: string -> string, u: string, r: string) returns (d: Value)
    requires CollisionFree(hash) && IsUuidRef(u) && IsUuidRef(r) && u != r
    ensures d.Obj? && Strip(d) == d && References(d, "") == {u, r}
    ensures Canonicalize(hash, d).Ok? && !SelfContained(d)
  {
    hide *;
    var e, f;
    d, e, f := NestedExample(u, r);
    DifferentNames(hash, e, f);
    TwoDefinitions(hash, d, e, f);
    CanonicalizeStripped(hash, d);
    MentionsUuid(d, e, r);
  }

  lemma CanonicalizeStripped(hash: string -> string, d: Value)
    requires RootError(d).None? && Strip(d) == d
    ensures d.Obj? && Canonicalize(hash, d) == Resolve(hash, d)
  {
  }

  /** For any three UUIDs there is an accepted document that shows which ones were chosen: a UUID
      component inside a UUID component. */
  lemma NestedUuidShows(hash: string -> string, u: string, r: string, w: string)
      returns (d: Value, sigma: map<string, string>)
    requires CollisionFree(hash) && IsUuidRef(u) && IsUuidRef(r) && IsUuidRef(w) && u != r && u != w && r != w
    ensures d.Obj? && Canonicalize(hash, d).Ok? && IsRenaming(sigma, References(Strip(d), ""))
    ensures Canonicalize(hash, Substitute(d, "", sigma)) != Canonicalize(hash, d)
  {
    hide *;
    d := NestedDocument(hash, u, r);
    BlindExactlyWhenSelfContained(hash, d, w);
    sigma :| IsRenaming(sigma, References(Strip(d), "")) &&
             Canonicalize(hash, Substitute(d, "", sigma)) != Canonicalize(hash, d);
  }

  lemma MentionsUuid(d: Value, e: Entry, r: string)
    requires e in Entries(d) && IsUuidRef(e.ref) && r in References(e.identity, "") && IsUuidRef(r)
    ensures !SelfContained(d)
  {
  }

  lemma DifferentNames(hash: string -> string, e: Entry, f: Entry)
    requires CollisionFree(hash) && e.identity != f.identity
    ensures NameOf(hash, e) != NameOf(hash, f)
  {
    if NameOf(hash, e) == NameOf(hash, f) { NameInjective(hash, e, f); }
  }
}
