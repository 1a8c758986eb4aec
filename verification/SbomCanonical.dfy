/** `canonicalize` of scripts/canonicalize_sbom.py: what it computes, and why its result is blind
    to the order of lists and to the choice of UUIDs. */
module SbomCanonical {
  import opened Text
  import opened Json
  import opened Sorting
  import opened SbomNormalForm
  import opened SbomReferences

  datatype Error =
    | NotCycloneDx | NoSpecVersion | BadMetadata | DuplicateRef | AmbiguousIdentity | UndefinedReference

  datatype Result = Ok(document: Value) | Err(error: Error)

  const RESERVED := "urn:sms-sbom:"

  /** The text that is hashed is plain ASCII without blanks. */
  const IDENTITY_STYLE := Style(true, false)

  /** The stable name of a definition; `hash` is SHA-256 printed in hexadecimal. */
  function NameOf(hash: string -> string, e: Entry): string {
    RESERVED + hash(Dumps(e.identity, IDENTITY_STYLE))
  }

  lemma ReservedIsNoUuid(s: string)
    requires StartsWith(s, RESERVED)
    ensures !IsUuidRef(s)
  {
    assert s[0] == s[..13][0] == 'u' && s[4] == s[..13][4] == 's';
    assert UrnFrom(s, 0) ==> UrnFrom(s, 1) ==> UrnFrom(s, 2) ==> UrnFrom(s, 3);
    assert !UrnFrom(s, 4);
  }

  lemma NameIsNoUuid(hash: string -> string, e: Entry)
    ensures !IsUuidRef(NameOf(hash, e)) && StartsWith(NameOf(hash, e), RESERVED)
  {
    var s := NameOf(hash, e);
    assert s[..|RESERVED|] == RESERVED;
    ReservedIsNoUuid(s);
  }

  // ----- the specification -----

  /** No two definitions share a name. */
  predicate Distinct(es: multiset<Entry>) {
    forall e | e in es :: es[e] == 1 && forall f | f in es :: f.ref == e.ref ==> f == e
  }

  /** The new name of every definition known by a UUID. */
  function Names(es: multiset<Entry>, hash: string -> string): map<string, string>
    requires Distinct(es)
  {
    map e | e in es && IsUuidRef(e.ref) :: e.ref := NameOf(hash, e)
  }

  ghost predicate Injective(m: map<string, string>) {
    forall x, y :: x in m && y in m && m[x] == m[y] ==> x == y
  }

  ghost predicate AllDefined(v: Value, names: map<string, string>) {
    forall s :: s in References(v, "") && IsUuidRef(s) ==> s in names
  }

  ghost function Resolve(hash: string -> string, v: Value): Result {
    var es := multiset(Entries(v));
    if !Distinct(es) then Err(DuplicateRef)
    else
      var names := Names(es, hash);
      if !Injective(names) then Err(AmbiguousIdentity)
      else if !AllDefined(v, names) then Err(UndefinedReference)
      else Ok(Normalize(Substitute(v, "", names)))
  }

  function RootError(d: Value): Option<Error> {
    if !d.Obj? || Get(d, "bomFormat") != Str("CycloneDX") then Some(NotCycloneDx)
    else if !Get(d, "specVersion").Str? then Some(NoSpecVersion)
    else if Get(d, "metadata") != Null && !Get(d, "metadata").Obj? then Some(BadMetadata)
    else None
  }

  /** Drop what differs from run to run: the serial number and the time stamp. */
  function Strip(d: Value): Value
    requires d.Obj?
  {
    var top := d.members - {"serialNumber"};
    Obj(if "metadata" in top && top["metadata"].Obj?
        then top["metadata" := Obj(top["metadata"].members - {"timestamp"})]
        else top)
  }

  ghost function Canonicalize(hash: string -> string, d: Value): Result {
    if RootError(d).Some? then Err(RootError(d).value) else Resolve(hash, Strip(d))
  }

  // ----- definitions as a sequence -----

  ghost predicate DistinctRefs(es: seq<Entry>) {
    forall i, j :: 0 <= i < j < |es| ==> es[i].ref != es[j].ref
  }

  lemma {:induction false} CountOnce(es: seq<Entry>, i: nat)
    requires DistinctRefs(es) && i < |es|
    ensures multiset(es)[es[i]] == 1
  {
    RemoveAtContents(es, i);
    var rest := RemoveAt(es, i);
    forall j | 0 <= j < |rest| ensures rest[j].ref != es[i].ref {
      assert rest[j] == if j < i then es[j] else es[j+1];
    }
  }

  lemma CountTwice(es: seq<Entry>, i: nat, j: nat)
    requires i < j < |es| && es[i] == es[j]
    ensures multiset(es)[es[i]] >= 2
  {
    RemoveAtContents(es, j);
    assert RemoveAt(es, j)[i] == es[i];
    assert es[i] in multiset(RemoveAt(es, j));
  }

  lemma DistinctSequence(es: seq<Entry>)
    ensures Distinct(multiset(es)) <==> DistinctRefs(es)
  {
    if DistinctRefs(es) {
      forall e | e in multiset(es)
        ensures multiset(es)[e] == 1 && forall f | f in multiset(es) :: f.ref == e.ref ==> f == e
      {
        assert e in es;
        var i :| 0 <= i < |es| && es[i] == e;
        CountOnce(es, i);
        forall f | f in multiset(es) && f.ref == e.ref ensures f == e {
          assert f in es;
        }
      }
    }
    if Distinct(multiset(es)) {
      forall i, j | 0 <= i < j < |es| ensures es[i].ref != es[j].ref {
        assert es[i] in multiset(es) && es[j] in multiset(es);
        if es[i] == es[j] { CountTwice(es, i, j); }
      }
    }
  }

  lemma DistinctPattern(es: seq<Entry>, fs: seq<Entry>)
    requires |es| == |fs|
    requires forall i, j :: 0 <= i < j < |es| ==> (es[i].ref == es[j].ref <==> fs[i].ref == fs[j].ref)
    ensures Distinct(multiset(es)) <==> Distinct(multiset(fs))
  {
    DistinctSequence(es);
    DistinctSequence(fs);
    if DistinctRefs(es) {
      assert forall i, j :: 0 <= i < j < |fs| ==> es[i].ref != es[j].ref && fs[i].ref != fs[j].ref;
    }
  }

  /** The names, read off the definitions one by one. */
  lemma NamesOf(es: seq<Entry>, hash: string -> string)
    requires Distinct(multiset(es))
    ensures forall i :: 0 <= i < |es| && IsUuidRef(es[i].ref) ==>
              es[i].ref in Names(multiset(es), hash) && Names(multiset(es), hash)[es[i].ref] == NameOf(hash, es[i])
    ensures forall u :: u in Names(multiset(es), hash) ==> IsUuidRef(u) && exists i :: 0 <= i < |es| && es[i].ref == u
  {
    var names := Names(multiset(es), hash);
    forall i | 0 <= i < |es| && IsUuidRef(es[i].ref)
      ensures es[i].ref in names && names[es[i].ref] == NameOf(hash, es[i])
    {
      assert es[i] in multiset(es);
    }
    forall u | u in names ensures IsUuidRef(u) && exists i :: 0 <= i < |es| && es[i].ref == u {
      var e :| e in multiset(es) && IsUuidRef(e.ref) && e.ref == u;
      assert e in es;
    }
  }

  // ----- the order of lists does not matter -----

  lemma ReorderedMember(a: Value, b: Value, k: string)
    requires a.Obj? && Reordered(a, b)
    ensures b.Obj? && Reordered(Get(a, k), Get(b, k))
    ensures !Get(a, k).Arr? && !Get(a, k).Obj? ==> Get(a, k) == Get(b, k)
    ensures Get(a, k).Obj? <==> Get(b, k).Obj?
    ensures Get(a, k).Arr? <==> Get(b, k).Arr?
  {
    if k in a.members { assert Reordered(a.members[k], b.members[k]); }
  }

  lemma ReorderedRoot(a: Value, b: Value)
    requires Reordered(a, b)
    ensures RootError(a) == RootError(b)
  {
    if a.Obj? {
      ReorderedMember(a, b, "bomFormat");
      ReorderedMember(a, b, "specVersion");
      ReorderedMember(a, b, "metadata");
    }
  }

  lemma ReorderedWithout(a: Value, b: Value, k: string)
    requires a.Obj? && Reordered(a, b)
    ensures b.Obj? && Reordered(Obj(a.members - {k}), Obj(b.members - {k}))
  {
  }

  lemma ReorderedWith(a: Value, b: Value, k: string, x: Value, y: Value)
    requires a.Obj? && b.Obj? && Reordered(a, b) && Reordered(x, y)
    ensures Reordered(Obj(a.members[k := x]), Obj(b.members[k := y]))
  {
  }

  lemma ReorderedStrip(a: Value, b: Value)
    requires a.Obj? && Reordered(a, b)
    ensures b.Obj? && Reordered(Strip(a), Strip(b))
  {
    hide Reordered;
    ReorderedWithout(a, b, "serialNumber");
    var v, w := Obj(a.members - {"serialNumber"}), Obj(b.members - {"serialNumber"});
    ReorderedKeys(v, w);
    ReorderedMember(v, w, "metadata");
    if "metadata" in v.members && v.members["metadata"].Obj? {
      ReorderedWithout(v.members["metadata"], w.members["metadata"], "timestamp");
      ReorderedWith(v, w, "metadata", Obj(v.members["metadata"].members - {"timestamp"}),
                    Obj(w.members["metadata"].members - {"timestamp"}));
    }
  }

  lemma ReorderedKeys(a: Value, b: Value)
    requires a.Obj? && Reordered(a, b)
    ensures b.Obj? && a.members.Keys == b.members.Keys
  {
  }

  lemma ResolveReordered(hash: string -> string, v: Value, w: Value)
    requires Reordered(v, w)
    ensures Resolve(hash, v) == Resolve(hash, w)
  {
    hide Reordered, Entries, References, Substitute, Normalize, Distinct, Names, Injective;
    ReorderedEntries(v, w);
    ReorderedReferences(v, w, "");
    if Distinct(multiset(Entries(v))) {
      var names := Names(multiset(Entries(v)), hash);
      ReorderedSubstitute(v, w, "", names);
      NormalizeComplete(Substitute(v, "", names), Substitute(w, "", names));
    }
  }

  /** Reordering lists, at any depth, changes neither the result nor the rejection. */
  lemma CanonicalizeReordered(hash: string -> string, a: Value, b: Value)
    requires Reordered(a, b)
    ensures Canonicalize(hash, a) == Canonicalize(hash, b)
  {
    hide Reordered, Resolve, Strip;
    ReorderedRoot(a, b);
    if a.Obj? {
      ReorderedStrip(a, b);
      ResolveReordered(hash, Strip(a), Strip(b));
    }
  }

  // ----- the choice of UUIDs does not matter -----

  /** A consistent, injective renaming of all the UUIDs among some references. */
  ghost predicate IsRenaming(sigma: map<string, string>, refs: set<string>) {
    && (forall u :: u in sigma ==> IsUuidRef(u) && IsUuidRef(sigma[u]))
    && Injective(sigma)
    && (forall s :: s in refs && IsUuidRef(s) ==> s in sigma)
  }

  /** Nothing named by a UUID mentions a UUID. */
  ghost predicate SelfContained(v: Value) {
    forall e :: e in Entries(v) && IsUuidRef(e.ref) ==> NoUuid(References(e.identity, ""))
  }

  ghost predicate NoUuid(refs: set<string>) {
    forall s :: s in refs ==> !IsUuidRef(s)
  }

  lemma {:induction false} EntryNormalized(v: Value, e: Entry)
    requires e in Entries(v)
    ensures Normalize(e.identity) == e.identity
    decreases v
  {
    match v
    case Obj(members) =>
      if Defines(v) && e == OwnEntry(v) {
        NormalizeIdempotent(Identity(v));
      } else {
        MemberEntryNormalized(v, SortedKeys(members.Keys), e);
      }
    case Arr(items) => ItemEntryNormalized(items, e);
  }

  lemma {:induction false} MemberEntryNormalized(v: Value, keys: seq<string>, e: Entry)
    requires v.Obj? && (forall k | k in keys :: k in v.members) && e in MemberEntries(v, keys)
    ensures Normalize(e.identity) == e.identity
    decreases v, |keys|
  {
    if e in Entries(v.members[keys[0]]) {
      EntryNormalized(v.members[keys[0]], e);
    } else {
      MemberEntryNormalized(v, keys[1..], e);
    }
  }

  lemma {:induction false} ItemEntryNormalized(items: seq<Value>, e: Entry)
    requires e in ItemEntries(items)
    ensures Normalize(e.identity) == e.identity
    decreases items
  {
    if e in Entries(items[0]) { EntryNormalized(items[0], e); } else { ItemEntryNormalized(items[1..], e); }
  }

  lemma RenamedImage(sigma: map<string, string>, refs: set<string>, s: string, t: string)
    requires IsRenaming(sigma, refs) && s in refs && t in refs
    ensures IsUuidRef(Image(sigma, s)) <==> IsUuidRef(s)
    ensures !IsUuidRef(s) ==> Image(sigma, s) == s
    ensures Image(sigma, s) == Image(sigma, t) <==> s == t
  {
  }

  /** The definitions of a renamed document, when no renamed definition mentions a UUID. */
  lemma RenamedEntries(v: Value, sigma: map<string, string>, i: nat)
    requires IsRenaming(sigma, References(v, "")) && SelfContained(v) && i < |Entries(v)|
    ensures var e, f := Entries(v)[i], SubstituteEntries(Entries(v), sigma)[i];
            f.ref == Image(sigma, e.ref) && (IsUuidRef(e.ref) ==> f.identity == e.identity)
  {
    var e := Entries(v)[i];
    assert e in Entries(v);
    if IsUuidRef(e.ref) {
      forall s | s in References(e.identity, "") ensures Image(sigma, s) == s { }
      SubstituteNothing(e.identity, "", sigma);
      EntryNormalized(v, e);
    }
  }

  lemma RenamedPair(v: Value, sigma: map<string, string>, i: nat, j: nat)
    requires IsRenaming(sigma, References(v, "")) && i < |Entries(v)| && j < |Entries(v)|
    ensures var es, fs := Entries(v), SubstituteEntries(Entries(v), sigma);
            es[i].ref == es[j].ref <==> fs[i].ref == fs[j].ref
  {
    var es := Entries(v);
    assert es[i] in es && es[j] in es;
    EntryReferences(v, "", es[i]);
    EntryReferences(v, "", es[j]);
    RenamedImage(sigma, References(v, ""), es[i].ref, es[j].ref);
  }

  lemma RenamedDistinct(v: Value, sigma: map<string, string>)
    requires IsRenaming(sigma, References(v, ""))
    ensures Distinct(multiset(Entries(v))) <==> Distinct(multiset(SubstituteEntries(Entries(v), sigma)))
  {
    forall i, j | 0 <= i < j < |Entries(v)|
      ensures Entries(v)[i].ref == Entries(v)[j].ref <==>
              SubstituteEntries(Entries(v), sigma)[i].ref == SubstituteEntries(Entries(v), sigma)[j].ref
    {
      RenamedPair(v, sigma, i, j);
    }
    DistinctPattern(Entries(v), SubstituteEntries(Entries(v), sigma));
  }

  /** Renaming moves the stable names along with the UUIDs. */
  lemma RenamedNames(hash: string -> string, v: Value, sigma: map<string, string>, s: string)
    requires IsRenaming(sigma, References(v, "")) && SelfContained(v) && s in References(v, "")
    requires Distinct(multiset(Entries(v))) && Distinct(multiset(SubstituteEntries(Entries(v), sigma)))
    ensures var names := Names(multiset(Entries(v)), hash);
            var names' := Names(multiset(SubstituteEntries(Entries(v), sigma)), hash);
            && (Image(sigma, s) in names' <==> s in names)
            && (s in names ==> names'[Image(sigma, s)] == names[s])
  {
    hide *;
    var es, fs := Entries(v), SubstituteEntries(Entries(v), sigma);
    NamesOf(fs, hash);
    NamesOf(es, hash);
    RenamedImage(sigma, References(v, ""), s, s);
    if s in Names(multiset(es), hash) {
      var i := NamedBy(es, hash, s);
      RenamedEntries(v, sigma, i);
      SameIdentityName(hash, es[i], fs[i]);
    }
    if Image(sigma, s) in Names(multiset(fs), hash) {
      var i := NamedBy(fs, hash, Image(sigma, s));
      RenamedEntries(v, sigma, i);
      var u := EntryRef(v, i);
      RenamedImage(sigma, References(v, ""), u, s);
    }
  }

  lemma SameIdentityName(hash: string -> string, e: Entry, f: Entry)
    requires e.identity == f.identity
    ensures NameOf(hash, e) == NameOf(hash, f)
  {
  }

  lemma NamedBy(es: seq<Entry>, hash: string -> string, u: string) returns (i: nat)
    requires Distinct(multiset(es)) && u in Names(multiset(es), hash)
    ensures i < |es| && es[i].ref == u && IsUuidRef(u) && Names(multiset(es), hash)[u] == NameOf(hash, es[i])
  {
    NamesOf(es, hash);
    i :| 0 <= i < |es| && es[i].ref == u;
  }

  lemma EntryRef(v: Value, i: nat) returns (u: string)
    requires i < |Entries(v)|
    ensures u == Entries(v)[i].ref && u in References(v, "")
  {
    u := Entries(v)[i].ref;
    assert Entries(v)[i] in Entries(v);
    EntryReferences(v, "", Entries(v)[i]);
  }

  lemma NamedAreReferences(hash: string -> string, v: Value, u: string)
    requires Distinct(multiset(Entries(v))) && u in Names(multiset(Entries(v)), hash)
    ensures u in References(v, "")
  {
    hide *;
    var i := NamedBy(Entries(v), hash, u);
    var r := EntryRef(v, i);
  }

  lemma RenamedPreimage(hash: string -> string, v: Value, sigma: map<string, string>, u': string) returns (u: string)
    requires IsRenaming(sigma, References(v, "")) && SelfContained(v)
    requires Distinct(multiset(Entries(v))) && Distinct(multiset(SubstituteEntries(Entries(v), sigma)))
    requires u' in Names(multiset(SubstituteEntries(Entries(v), sigma)), hash)
    ensures u in References(v, "") && u in Names(multiset(Entries(v)), hash) && Image(sigma, u) == u'
  {
    var i := NamedBy(SubstituteEntries(Entries(v), sigma), hash, u');
    u := EntryRef(v, i);
    assert SubstituteEntry(Entries(v)[i], sigma).ref == Image(sigma, u);
    RenamedNames(hash, v, sigma, u);
  }

  lemma RenamedInjective(hash: string -> string, v: Value, sigma: map<string, string>)
    requires IsRenaming(sigma, References(v, "")) && SelfContained(v)
    requires Distinct(multiset(Entries(v))) && Distinct(multiset(SubstituteEntries(Entries(v), sigma)))
    ensures Injective(Names(multiset(Entries(v)), hash)) <==>
            Injective(Names(multiset(SubstituteEntries(Entries(v), sigma)), hash))
  {
    hide IsRenaming, SelfContained, Distinct, Names, Entries, References, SubstituteEntries;
    var names := Names(multiset(Entries(v)), hash);
    var names' := Names(multiset(SubstituteEntries(Entries(v), sigma)), hash);
    if Injective(names') {
      forall x, y | x in names && y in names && names[x] == names[y] ensures x == y {
        NamedAreReferences(hash, v, x);
        NamedAreReferences(hash, v, y);
        RenamedNames(hash, v, sigma, x);
        RenamedNames(hash, v, sigma, y);
        RenamedImage(sigma, References(v, ""), x, y);
      }
    }
    if Injective(names) {
      forall x', y' | x' in names' && y' in names' && names'[x'] == names'[y'] ensures x' == y' {
        var x := RenamedPreimage(hash, v, sigma, x');
        var y := RenamedPreimage(hash, v, sigma, y');
        RenamedNames(hash, v, sigma, x);
        RenamedNames(hash, v, sigma, y);
      }
    }
  }

  lemma RenamedDefined(hash: string -> string, v: Value, sigma: map<string, string>)
    requires IsRenaming(sigma, References(v, "")) && SelfContained(v)
    requires Distinct(multiset(Entries(v))) && Distinct(multiset(SubstituteEntries(Entries(v), sigma)))
    ensures AllDefined(v, Names(multiset(Entries(v)), hash)) <==>
            AllDefined(Substitute(v, "", sigma), Names(multiset(SubstituteEntries(Entries(v), sigma)), hash))
  {
    hide IsRenaming, SelfContained, Distinct, Names, Entries, References, SubstituteEntries, Substitute, IsUuidRef;
    ReferencesSubstituted(v, "", sigma);
    forall s | s in References(v, "")
      ensures Image(sigma, s) in Names(multiset(SubstituteEntries(Entries(v), sigma)), hash) <==>
              s in Names(multiset(Entries(v)), hash)
      ensures IsUuidRef(Image(sigma, s)) <==> IsUuidRef(s)
    {
      RenamedNames(hash, v, sigma, s);
      RenamedImage(sigma, References(v, ""), s, s);
    }
    var w := Substitute(v, "", sigma);
    assert forall s :: s in References(v, "") ==> Image(sigma, s) in References(w, "");
    assert forall t :: t in References(w, "") ==> exists s :: s in References(v, "") && t == Image(sigma, s);
  }

  lemma RenamedSubstitute(hash: string -> string, v: Value, sigma: map<string, string>)
    requires IsRenaming(sigma, References(v, "")) && SelfContained(v)
    requires Distinct(multiset(Entries(v))) && Distinct(multiset(SubstituteEntries(Entries(v), sigma)))
    requires AllDefined(v, Names(multiset(Entries(v)), hash))
    ensures Substitute(Substitute(v, "", sigma), "", Names(multiset(SubstituteEntries(Entries(v), sigma)), hash)) ==
            Substitute(v, "", Names(multiset(Entries(v)), hash))
  {
    hide IsRenaming, SelfContained, Distinct, Names, Substitute, Entries, References, IsUuidRef, SubstituteEntries;
    var names := Names(multiset(Entries(v)), hash);
    var names' := Names(multiset(SubstituteEntries(Entries(v), sigma)), hash);
    forall s | s in References(v, "") ensures Image(names', Image(sigma, s)) == Image(names, s) {
      RenamedNames(hash, v, sigma, s);
      RenamedImage(sigma, References(v, ""), s, s);
    }
    SubstituteCompose(v, "", sigma, names', names);
  }

  lemma ResolveRenamed(hash: string -> string, v: Value, sigma: map<string, string>)
    requires IsRenaming(sigma, References(v, "")) && SelfContained(v)
    ensures Resolve(hash, Substitute(v, "", sigma)) == Resolve(hash, v)
  {
    hide IsRenaming, SelfContained, Distinct, Names, Substitute, Entries, References, AllDefined, Injective, Normalize,
         SubstituteEntries;
    EntriesSubstituted(v, "", sigma);
    RenamedDistinct(v, sigma);
    if Distinct(multiset(Entries(v))) {
      RenamedInjective(hash, v, sigma);
      RenamedDefined(hash, v, sigma);
      if AllDefined(v, Names(multiset(Entries(v)), hash)) {
        RenamedSubstitute(hash, v, sigma);
      }
    }
  }

  lemma RenamedRoot(d: Value, sigma: map<string, string>)
    ensures RootError(Substitute(d, "", sigma)) == RootError(d)
  {
  }

  lemma RenamedWithout(v: Value, key: string, k: string, sigma: map<string, string>)
    requires v.Obj?
    ensures Obj(Substitute(v, key, sigma).members - {k}) == Substitute(Obj(v.members - {k}), key, sigma)
  {
    assert Substitute(v, key, sigma).members - {k} == Substitute(Obj(v.members - {k}), key, sigma).members;
  }

  lemma RenamedWith(v: Value, key: string, k: string, x: Value, sigma: map<string, string>)
    requires v.Obj?
    ensures Obj(Substitute(v, key, sigma).members[k := Substitute(x, k, sigma)]) ==
            Substitute(Obj(v.members[k := x]), key, sigma)
  {
    assert Substitute(v, key, sigma).members[k := Substitute(x, k, sigma)] ==
           Substitute(Obj(v.members[k := x]), key, sigma).members;
  }

  lemma RenamedStrip(d: Value, sigma: map<string, string>)
    requires d.Obj?
    ensures Strip(Substitute(d, "", sigma)) == Substitute(Strip(d), "", sigma)
  {
    var top := Obj(d.members - {"serialNumber"});
    RenamedWithout(d, "", "serialNumber", sigma);
    if "metadata" in top.members && top.members["metadata"].Obj? {
      var meta := top.members["metadata"];
      RenamedWithout(meta, "metadata", "timestamp", sigma);
      RenamedWith(top, "", "metadata", Obj(meta.members - {"timestamp"}), sigma);
    }
  }

  /** Choosing other UUIDs changes neither the result nor the rejection, as long as no component
      named by a UUID mentions a UUID. */
  lemma CanonicalizeRenamed(hash: string -> string, d: Value, sigma: map<string, string>)
    requires d.Obj? ==> IsRenaming(sigma, References(Strip(d), "")) && SelfContained(Strip(d))
    ensures Canonicalize(hash, Substitute(d, "", sigma)) == Canonicalize(hash, d)
  {
    RenamedRoot(d, sigma);
    if RootError(d).None? {
      RenamedStrip(d, sigma);
      ResolveRenamed(hash, Strip(d), sigma);
    }
  }
}
