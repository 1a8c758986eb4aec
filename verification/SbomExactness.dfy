/** How much the canonical form of a document says: it determines the document up to the
    order of lists and the choice of UUIDs, and it is its own canonical form. */
module SbomExactness {
  import opened Text
  import opened Json
  import opened SbomNormalForm
  import opened SbomReferences
  import opened SbomCanonical
  import opened SbomOccurrences

  /** No reference starts with the prefix kept for generated names. */
  ghost predicate Unreserved(v: Value) {
    forall s :: s in References(v, "") ==> !StartsWith(s, RESERVED)
  }

  ghost function DocumentNames(hash: string -> string, v: Value): map<string, string>
    requires Distinct(multiset(Entries(v)))
  {
    Names(multiset(Entries(v)), hash)
  }

  ghost function Preimage(m: map<string, string>, x: string): (u: string)
    requires exists s :: s in m && m[s] == x
    ensures u in m && m[u] == x
  {
    var s :| s in m && m[s] == x;
    s
  }

  lemma GeneratedName(hash: string -> string, v: Value, u: string)
    requires Distinct(multiset(Entries(v))) && u in DocumentNames(hash, v)
    ensures IsUuidRef(u) && u in References(v, "")
    ensures StartsWith(DocumentNames(hash, v)[u], RESERVED) && !IsUuidRef(DocumentNames(hash, v)[u])
  {
    var i := NamedBy(Entries(v), hash, u);
    NamedAreReferences(hash, v, u);
    NameIsNoUuid(hash, Entries(v)[i]);
  }

  lemma AcceptedFacts(hash: string -> string, v: Value)
    requires Resolve(hash, v).Ok?
    ensures Distinct(multiset(Entries(v))) && Injective(DocumentNames(hash, v)) && AllDefined(v, DocumentNames(hash, v))
    ensures Resolve(hash, v).document == Normalize(Substitute(v, "", DocumentNames(hash, v)))
  {
  }

  /** The references of an accepted document's canonical form. */
  lemma CanonicalReferences(hash: string -> string, v: Value)
    requires Resolve(hash, v).Ok?
    ensures References(Resolve(hash, v).document, "") == Images(DocumentNames(hash, v), References(v, ""))
  {
    var w := Substitute(v, "", DocumentNames(hash, v));
    NormalizeSubstitute(w, "", map[]);
    ReferencesSubstituted(v, "", DocumentNames(hash, v));
  }

  /** A generated name in the canonical form comes from a definition. */
  lemma OriginOfName(hash: string -> string, v: Value, x: string) returns (u: string)
    requires Resolve(hash, v).Ok? && Unreserved(v) && StartsWith(x, RESERVED)
    requires x in References(Resolve(hash, v).document, "")
    ensures u in DocumentNames(hash, v) && DocumentNames(hash, v)[u] == x
  {
    CanonicalReferences(hash, v);
    u :| u in References(v, "") && Image(DocumentNames(hash, v), u) == x;
  }

  lemma SharedName(hash: string -> string, v: Value, w: Value, u: string)
    requires Resolve(hash, v).Ok? && Resolve(hash, v) == Resolve(hash, w) && Unreserved(w)
    requires u in DocumentNames(hash, v)
    ensures exists s :: s in DocumentNames(hash, w) && DocumentNames(hash, w)[s] == DocumentNames(hash, v)[u]
  {
    GeneratedName(hash, v, u);
    CanonicalReferences(hash, v);
    var x := DocumentNames(hash, v)[u];
    assert x == Image(DocumentNames(hash, v), u);
    var s := OriginOfName(hash, w, x);
  }

  /** Undoing the stable names gives back what they replaced. */
  lemma UndoNames(x: Value, names: map<string, string>, inverse: map<string, string>)
    requires forall u :: u in names ==> names[u] in inverse && inverse[names[u]] == u
    requires forall s :: s in References(x, "") && s !in names ==> s !in inverse
    ensures Substitute(Substitute(x, "", names), "", inverse) == x
  {
    SubstituteCompose(x, "", names, inverse, map[]);
    SubstituteNothing(x, "", map[]);
  }

  ghost function Undo(names: map<string, string>): map<string, string> {
    map x | x in names.Values :: Preimage(names, x)
  }

  lemma UndoIsInverse(names: map<string, string>)
    requires Injective(names)
    ensures forall u :: u in names ==> names[u] in Undo(names) && Undo(names)[names[u]] == u
  {
  }

  lemma UndoReserved(hash: string -> string, w: Value, s: string)
    requires Distinct(multiset(Entries(w))) && s in Undo(DocumentNames(hash, w))
    ensures StartsWith(s, RESERVED)
  {
    var u :| u in DocumentNames(hash, w) && DocumentNames(hash, w)[u] == s;
    GeneratedName(hash, w, u);
  }

  lemma MatchNames(n1: map<string, string>, n2: map<string, string>, refs: set<string>) returns (sigma: map<string, string>)
    requires Injective(n1)
    requires forall u :: u in n1 ==> IsUuidRef(u) && exists s :: s in n2 && n2[s] == n1[u]
    requires forall u :: u in n2 ==> IsUuidRef(u)
    requires forall s :: s in refs && IsUuidRef(s) ==> s in n1
    ensures sigma.Keys == n1.Keys
    ensures forall u :: u in sigma ==> sigma[u] in n2 && n2[sigma[u]] == n1[u]
    ensures IsRenaming(sigma, refs)
  {
    hide IsUuidRef;
    sigma := map u | u in n1 :: Preimage(n2, n1[u]);
    assert forall u :: u in sigma ==> n2[sigma[u]] == n1[u];
    forall x, y | x in sigma && y in sigma && sigma[x] == sigma[y] ensures x == y {
      assert n1[x] == n1[y];
    }
  }

  /** How the UUIDs of two documents with one canonical form correspond. */
  lemma Correspondence(hash: string -> string, v: Value, w: Value) returns (sigma: map<string, string>)
    requires Resolve(hash, v).Ok? && Resolve(hash, v) == Resolve(hash, w) && Unreserved(w)
    ensures sigma.Keys == DocumentNames(hash, v).Keys
    ensures forall u :: u in sigma ==>
              sigma[u] in DocumentNames(hash, w) && DocumentNames(hash, w)[sigma[u]] == DocumentNames(hash, v)[u]
    ensures IsRenaming(sigma, References(v, ""))
  {
    AcceptedFacts(hash, v);
    AcceptedFacts(hash, w);
    hide Resolve, DocumentNames, Unreserved, References, Distinct, IsUuidRef, IsRenaming, Injective, Names;
    var n1, n2 := DocumentNames(hash, v), DocumentNames(hash, w);
    forall u | u in n1 ensures IsUuidRef(u) && exists s :: s in n2 && n2[s] == n1[u] {
      GeneratedName(hash, v, u);
      SharedName(hash, v, w, u);
    }
    forall u | u in n2 ensures IsUuidRef(u) { GeneratedName(hash, w, u); }
    sigma := MatchNames(n1, n2, References(v, ""));
  }

  lemma RenamedOutside(v: Value, sigma: map<string, string>, n2: map<string, string>, inverse: map<string, string>, s: string)
    requires IsRenaming(sigma, References(v, "")) && Unreserved(v)
    requires forall u :: u in sigma ==> sigma[u] in n2
    requires forall x :: x in inverse ==> StartsWith(x, RESERVED)
    requires s in References(Substitute(v, "", sigma), "") && s !in n2
    ensures s !in inverse
  {
    ReferencesSubstituted(v, "", sigma);
    var r :| r in References(v, "") && Image(sigma, r) == s;
  }

  lemma ResolveDetermines(hash: string -> string, v: Value, w: Value) returns (sigma: map<string, string>)
    requires Resolve(hash, v).Ok? && Resolve(hash, v) == Resolve(hash, w) && Unreserved(v) && Unreserved(w)
    ensures IsRenaming(sigma, References(v, "")) && Reordered(Substitute(v, "", sigma), w)
  {
    AcceptedFacts(hash, v);
    AcceptedFacts(hash, w);
    hide Resolve, DocumentNames, References, Substitute, Normalize, Reordered, Injective, IsRenaming, StartsWith, Undo;
    var n1, n2 := DocumentNames(hash, v), DocumentNames(hash, w);
    sigma := Correspondence(hash, v, w);
    var x := Substitute(v, "", sigma);
    forall s | s in References(v, "") ensures Image(n2, Image(sigma, s)) == Image(n1, s) {
      if s !in n1 && s in n2 { GeneratedName(hash, w, s); }
    }
    SubstituteCompose(v, "", sigma, n2, n1);
    NormalizeComplete(Substitute(x, "", n2), Substitute(w, "", n2));
    var inverse := Undo(n2);
    UndoIsInverse(n2);
    forall s | s in inverse ensures StartsWith(s, RESERVED) { UndoReserved(hash, w, s); }
    forall s | s in References(x, "") && s !in n2 ensures s !in inverse {
      RenamedOutside(v, sigma, n2, inverse, s);
    }
    UndoNames(x, n2, inverse);
    UndoNames(w, n2, inverse);
    ReorderedSubstitute(Substitute(x, "", n2), Substitute(w, "", n2), "", inverse);
  }

  /** Nothing is hidden: two documents with one canonical form differ at most in the serial
      number, the time stamp, the order of lists and the choice of UUIDs. */
  lemma CanonicalFormDetermines(hash: string -> string, a: Value, b: Value) returns (sigma: map<string, string>)
    requires Canonicalize(hash, a).Ok? && Canonicalize(hash, a) == Canonicalize(hash, b)
    requires Unreserved(Strip(a)) && Unreserved(Strip(b))
    ensures IsRenaming(sigma, References(Strip(a), "")) && Reordered(Substitute(Strip(a), "", sigma), Strip(b))
  {
    sigma := ResolveDetermines(hash, Strip(a), Strip(b));
  }

  /** Both directions at once, for documents whose UUID components mention no UUID. */
  lemma SameCanonicalForm(hash: string -> string, a: Value, b: Value)
    requires Canonicalize(hash, a).Ok? && RootError(b).None?
    requires Unreserved(Strip(a)) && Unreserved(Strip(b)) && SelfContained(Strip(a))
    ensures Canonicalize(hash, a) == Canonicalize(hash, b) <==>
            exists sigma :: IsRenaming(sigma, References(Strip(a), "")) && Reordered(Substitute(Strip(a), "", sigma), Strip(b))
  {
    hide Resolve, Strip, References, Reordered, Substitute, Unreserved, SelfContained, IsRenaming;
    var v, w := Strip(a), Strip(b);
    if Canonicalize(hash, a) == Canonicalize(hash, b) {
      var sigma := CanonicalFormDetermines(hash, a, b);
    }
    if sigma :| IsRenaming(sigma, References(v, "")) && Reordered(Substitute(v, "", sigma), w) {
      ResolveRenamed(hash, v, sigma);
      ResolveReordered(hash, Substitute(v, "", sigma), w);
    }
  }

  // ----- when the choice of UUIDs shows -----

  lemma NameInjective(hash: string -> string, e: Entry, f: Entry)
    requires CollisionFree(hash) && NameOf(hash, e) == NameOf(hash, f)
    ensures e.identity == f.identity
  {
    AppendCancel(RESERVED, RESERVED, hash(Dumps(e.identity, IDENTITY_STYLE)), hash(Dumps(f.identity, IDENTITY_STYLE)));
    DumpsInjective(e.identity, f.identity, IDENTITY_STYLE);
  }

  /** The renaming that only moves `r` to the fresh UUID `w`. */
  ghost function MoveOne(refs: set<string>, r: string, w: string): map<string, string> {
    map s | s in refs && IsUuidRef(s) :: if s == r then w else s
  }

  lemma MoveOneRenames(refs: set<string>, r: string, w: string)
    requires IsUuidRef(w) && w !in refs
    ensures IsRenaming(MoveOne(refs, r, w), refs)
  {
  }

  /** No definition of the document has the name of one that mentions a reference from elsewhere. */
  lemma NameForeign(hash: string -> string, v: Value, f: Entry, w: string, u: string)
    requires CollisionFree(hash) && Distinct(multiset(Entries(v))) && u in DocumentNames(hash, v)
    requires w in References(f.identity, "") && w !in References(v, "")
    ensures DocumentNames(hash, v)[u] != NameOf(hash, f)
  {
    hide Entries, References, Distinct, NameOf, IsUuidRef, CollisionFree;
    var j := NamedBy(Entries(v), hash, u);
    var e := Entries(v)[j];
    assert e in Entries(v);
    EntryReferences(v, "", e);
    if NameOf(hash, e) == NameOf(hash, f) {
      NameInjective(hash, e, f);
    }
  }

  /** So its name stands in the canonical form exactly where it is written out. */
  lemma ForeignNameStays(hash: string -> string, v: Value, f: Entry, w: string, s: string)
    requires CollisionFree(hash) && Distinct(multiset(Entries(v)))
    requires w in References(f.identity, "") && w !in References(v, "")
    ensures s == NameOf(hash, f) <==> Image(DocumentNames(hash, v), s) == NameOf(hash, f)
  {
    hide *;
    NameIsNoUuid(hash, f);
    ImageOf(DocumentNames(hash, v), s);
    if s in DocumentNames(hash, v) {
      GeneratedName(hash, v, s);
      NameForeign(hash, v, f, w, s);
    }
  }

  lemma ImageOf(m: map<string, string>, s: string)
    ensures Image(m, s) == if s in m then m[s] else s
  {
  }

  /** A rewrite that neither moves `x` nor sends anything to it keeps the number of its places. */
  lemma OccursAsOften(v: Value, m: map<string, string>, x: string)
    requires forall s :: s in References(v, "") ==> (s == x <==> Image(m, s) == x)
    ensures Occurs(Substitute(v, "", m), "", {x}) == Occurs(v, "", {x})
  {
    hide Occurs, Substitute, References;
    OccursSubstituted(v, "", m, {x}, {x});
  }

  lemma ForeignNameOccurs(hash: string -> string, v: Value, f: Entry, w: string)
    requires CollisionFree(hash) && Resolve(hash, v).Ok?
    requires w in References(f.identity, "") && w !in References(v, "")
    ensures Occurs(Resolve(hash, v).document, "", {NameOf(hash, f)}) == Occurs(v, "", {NameOf(hash, f)})
  {
    AcceptedFacts(hash, v);
    hide *;
    var names, x := DocumentNames(hash, v), NameOf(hash, f);
    forall s | s in References(v, "") ensures s == x <==> Image(names, s) == x {
      ForeignNameStays(hash, v, f, w, s);
    }
    OccursAsOften(v, names, x);
    NormalizeReorders(Substitute(v, "", names));
    OccursReordered(Substitute(v, "", names), Normalize(Substitute(v, "", names)), "", {x});
  }

  lemma OwnName(hash: string -> string, v: Value, f: Entry)
    requires Distinct(multiset(Entries(v))) && f in Entries(v) && IsUuidRef(f.ref)
    ensures f.ref in DocumentNames(hash, v) && DocumentNames(hash, v)[f.ref] == NameOf(hash, f)
    ensures NameOf(hash, f) !in DocumentNames(hash, v) && f.ref != NameOf(hash, f)
  {
    NamesOf(Entries(v), hash);
    NameIsNoUuid(hash, f);
    hide Entries, Distinct, Names, NameOf, IsUuidRef;
  }

  /** A rewrite that sends a reference to `x` makes `x` occur more often. */
  lemma OccursOnceMore(v: Value, m: map<string, string>, u: string, x: string)
    requires u in References(v, "") && Image(m, u) == x && x !in m && u != x
    ensures Occurs(Substitute(v, "", m), "", {x}) > Occurs(v, "", {x})
  {
    hide Occurs, Substitute, References;
    var before := (set s | s in References(v, "") && Image(m, s) == x) + {x};
    OccursSubstituted(v, "", m, before, {x});
    OccursMore(v, "", {x}, before);
    assert u in before - {x};
  }

  /** The name of a definition of the document itself occurs more often. */
  lemma OwnNameOccurs(hash: string -> string, v: Value, f: Entry)
    requires Resolve(hash, v).Ok? && f in Entries(v) && IsUuidRef(f.ref)
    ensures Occurs(Resolve(hash, v).document, "", {NameOf(hash, f)}) > Occurs(v, "", {NameOf(hash, f)})
  {
    AcceptedFacts(hash, v);
    hide Resolve, Entries, References, Distinct, NameOf, IsUuidRef, Occurs, Normalize, Substitute, DocumentNames;
    var names, x := DocumentNames(hash, v), NameOf(hash, f);
    OwnName(hash, v, f);
    EntryReferences(v, "", f);
    OccursOnceMore(v, names, f.ref, x);
    NormalizeReorders(Substitute(v, "", names));
    OccursReordered(Substitute(v, "", names), Normalize(Substitute(v, "", names)), "", {x});
  }

  lemma MovedEntry(v: Value, e: Entry, r: string, w: string) returns (f: Entry)
    requires IsUuidRef(w) && w !in References(v, "")
    requires e in Entries(v) && IsUuidRef(e.ref) && r in References(e.identity, "") && IsUuidRef(r)
    ensures f in Entries(Substitute(v, "", MoveOne(References(v, ""), r, w)))
    ensures IsUuidRef(f.ref) && w in References(f.identity, "")
  {
    var sigma := MoveOne(References(v, ""), r, w);
    EntryReferences(v, "", e);
    assert Image(sigma, r) == w && IsUuidRef(Image(sigma, e.ref));
    hide Entries, References, Substitute, Normalize, IsUuidRef, MoveOne;
    f := SubstituteEntry(e, sigma);
    EntriesSubstituted(v, "", sigma);
    var i :| 0 <= i < |Entries(v)| && Entries(v)[i] == e;
    assert Entries(Substitute(v, "", sigma))[i] == f;
    ReferencesSubstituted(e.identity, "", sigma);
    NormalizeSubstitute(Substitute(e.identity, "", sigma), "", map[]);
  }

  /** A string that is no UUID occurs as often after UUIDs have been renamed. */
  lemma LiteralOccurs(v: Value, sigma: map<string, string>, x: string)
    requires IsRenaming(sigma, References(v, "")) && !IsUuidRef(x)
    ensures Occurs(Substitute(v, "", sigma), "", {x}) == Occurs(v, "", {x})
  {
    hide Occurs, Substitute, References, IsUuidRef;
    OccursAsOften(v, sigma, x);
  }

  lemma MovedReferenceShows(hash: string -> string, v: Value, e: Entry, r: string, w: string)
    requires CollisionFree(hash) && Resolve(hash, v).Ok?
    requires IsUuidRef(w) && w !in References(v, "")
    requires e in Entries(v) && IsUuidRef(e.ref) && r in References(e.identity, "") && IsUuidRef(r)
    ensures Resolve(hash, Substitute(v, "", MoveOne(References(v, ""), r, w))) != Resolve(hash, v)
  {
    hide *;
    var sigma := MoveOne(References(v, ""), r, w);
    var v' := Substitute(v, "", sigma);
    var f := MovedEntry(v, e, r, w);
    ForeignNameOccurs(hash, v, f, w);
    NameIsNoUuid(hash, f);
    MoveOneRenames(References(v, ""), r, w);
    LiteralOccurs(v, sigma, NameOf(hash, f));
    if Resolve(hash, v').Ok? {
      OwnNameOccurs(hash, v', f);
    }
  }

  /** The result is blind to the choice of UUIDs exactly when no component named by a UUID
      mentions a UUID. */
  lemma BlindExactlyWhenSelfContained(hash: string -> string, d: Value, w: string)
    requires CollisionFree(hash) && Canonicalize(hash, d).Ok?
    requires IsUuidRef(w) && w !in References(Strip(d), "")
    ensures SelfContained(Strip(d)) <==>
            forall sigma :: IsRenaming(sigma, References(Strip(d), "")) ==>
              Canonicalize(hash, Substitute(d, "", sigma)) == Canonicalize(hash, d)
  {
    var v := Strip(d);
    if SelfContained(v) {
      forall sigma | IsRenaming(sigma, References(v, ""))
        ensures Canonicalize(hash, Substitute(d, "", sigma)) == Canonicalize(hash, d)
      {
        CanonicalizeRenamed(hash, d, sigma);
      }
    } else {
      var e :| e in Entries(v) && IsUuidRef(e.ref) && !NoUuid(References(e.identity, ""));
      var r :| r in References(e.identity, "") && IsUuidRef(r);
      var sigma := MoveOne(References(v, ""), r, w);
      MoveOneRenames(References(v, ""), r, w);
      MovedReferenceShows(hash, v, e, r, w);
      RenamedRoot(d, sigma);
      RenamedStrip(d, sigma);
    }
  }

  // ----- canonicalising twice -----

  /** No literal `bom-ref` equals a name generated for a UUID component. */
  ghost predicate NoClash(hash: string -> string, v: Value) {
    NoClashAmong(hash, Entries(v))
  }

  ghost predicate NoClashAmong(hash: string -> string, es: seq<Entry>) {
    forall e, f :: e in es && f in es && IsUuidRef(e.ref) && !IsUuidRef(f.ref) ==> f.ref != NameOf(hash, e)
  }

  lemma CanonicalMember(v: Value, names: map<string, string>, k: string)
    requires v.Obj?
    ensures var c := Normalize(Substitute(v, "", names));
            && c.Obj? && c.members.Keys == v.members.Keys
            && (k in v.members ==> c.members[k] == Normalize(Substitute(v.members[k], k, names)))
  {
    var w := Substitute(v, "", names);
    assert w.members.Keys == v.members.Keys;
    if k in v.members { assert w.members[k] == Substitute(v.members[k], k, names); }
  }

  lemma CanonicalWithout(v: Value, key: string, names: map<string, string>, k: string)
    requires v.Obj? && k !in v.members
    ensures var c := Normalize(Substitute(v, key, names)); c.Obj? && c.members - {k} == c.members
  {
    var w := Substitute(v, key, names);
    assert w.members.Keys == v.members.Keys;
    var c := Normalize(w);
    assert c.members.Keys == w.members.Keys;
  }

  lemma StripFacts(d: Value)
    requires RootError(d).None?
    ensures var v := Strip(d);
            && v.Obj? && "serialNumber" !in v.members && Get(v, "bomFormat") == Str("CycloneDX")
            && "bomFormat" in v.members && "specVersion" in v.members && v.members["specVersion"].Str?
            && (Get(v, "metadata") == Null || (Get(v, "metadata").Obj? && "timestamp" !in Get(v, "metadata").members))
  {
  }

  lemma StripFixed(c: Value)
    requires c.Obj? && c.members - {"serialNumber"} == c.members
    requires Get(c, "metadata").Obj? ==> Get(c, "metadata").members - {"timestamp"} == Get(c, "metadata").members
    ensures Strip(c) == c
  {
    if Get(c, "metadata").Obj? {
      assert c.members["metadata" := c.members["metadata"]] == c.members;
    }
  }

  /** A canonical form passes the checks at the root and has nothing left to drop. */
  lemma CanonicalRoot(d: Value, names: map<string, string>)
    requires RootError(d).None?
    ensures var c := Normalize(Substitute(Strip(d), "", names));
            RootError(c).None? && Strip(c) == c
  {
    var v := Strip(d);
    StripFacts(d);
    hide Strip;
    CanonicalMember(v, names, "bomFormat");
    CanonicalMember(v, names, "specVersion");
    CanonicalMember(v, names, "metadata");
    CanonicalWithout(v, "", names, "serialNumber");
    if Get(v, "metadata").Obj? {
      CanonicalWithout(v.members["metadata"], "metadata", names, "timestamp");
    }
    StripFixed(Normalize(Substitute(v, "", names)));
  }

  /** What a definition is called in the canonical form. */
  ghost function FinalName(hash: string -> string, e: Entry): string {
    if IsUuidRef(e.ref) then NameOf(hash, e) else e.ref
  }

  ghost predicate FinalNamesDiffer(hash: string -> string, es: seq<Entry>) {
    forall i, j :: 0 <= i < j < |es| ==> FinalName(hash, es[i]) != FinalName(hash, es[j])
  }

  lemma NoClashExactly(hash: string -> string, es: seq<Entry>)
    requires DistinctRefs(es)
    requires forall i, j :: 0 <= i < j < |es| && IsUuidRef(es[i].ref) && IsUuidRef(es[j].ref) ==>
               NameOf(hash, es[i]) != NameOf(hash, es[j])
    ensures FinalNamesDiffer(hash, es) <==> NoClashAmong(hash, es)
  {
    hide NameOf, IsUuidRef;
    if NoClashAmong(hash, es) {
      forall i, j | 0 <= i < j < |es| ensures FinalName(hash, es[i]) != FinalName(hash, es[j]) {
        assert es[i] in es && es[j] in es;
      }
    }
    if FinalNamesDiffer(hash, es) {
      forall e, f | e in es && f in es && IsUuidRef(e.ref) && !IsUuidRef(f.ref) ensures f.ref != NameOf(hash, e) {
        var i :| 0 <= i < |es| && es[i] == e;
        var j :| 0 <= j < |es| && es[j] == f;
        assert FinalName(hash, es[i]) != FinalName(hash, es[j]);
      }
    }
  }

  lemma FinalPattern(hash: string -> string, es: seq<Entry>, fs: seq<Entry>)
    requires |es| == |fs| && forall i :: 0 <= i < |es| ==> fs[i].ref == FinalName(hash, es[i])
    ensures DistinctRefs(fs) <==> FinalNamesDiffer(hash, es)
  {
    hide FinalName;
    if FinalNamesDiffer(hash, es) {
      forall i, j | 0 <= i < j < |fs| ensures fs[i].ref != fs[j].ref {
        assert FinalName(hash, es[i]) != FinalName(hash, es[j]);
      }
    }
    if DistinctRefs(fs) {
      forall i, j | 0 <= i < j < |es| ensures FinalName(hash, es[i]) != FinalName(hash, es[j]) {
        assert fs[i].ref != fs[j].ref;
      }
    }
  }

  lemma CanonicalDistinct(hash: string -> string, v: Value)
    requires Resolve(hash, v).Ok?
    ensures Distinct(multiset(Entries(v)))
    ensures DistinctRefs(SubstituteEntries(Entries(v), DocumentNames(hash, v))) <==> NoClash(hash, v)
  {
    AcceptedFacts(hash, v);
    hide Resolve, Entries, Names, Distinct, DistinctRefs, NoClashAmong, FinalNamesDiffer, Injective, SubstituteEntries, FinalName;
    DistinctSequence(Entries(v));
    UuidNamesDiffer(hash, Entries(v));
    ImagesAreFinal(hash, Entries(v));
    NoClashExactly(hash, Entries(v));
    FinalPattern(hash, Entries(v), SubstituteEntries(Entries(v), DocumentNames(hash, v)));
  }

  lemma UuidNamesDiffer(hash: string -> string, es: seq<Entry>)
    requires Distinct(multiset(es)) && Injective(Names(multiset(es), hash))
    ensures forall i, j :: 0 <= i < j < |es| && IsUuidRef(es[i].ref) && IsUuidRef(es[j].ref) ==>
              NameOf(hash, es[i]) != NameOf(hash, es[j])
  {
    DistinctSequence(es);
    NamesOf(es, hash);
    hide Names, NameOf, IsUuidRef, Distinct, DistinctRefs;
    forall i, j | 0 <= i < j < |es| && IsUuidRef(es[i].ref) && IsUuidRef(es[j].ref)
      ensures NameOf(hash, es[i]) != NameOf(hash, es[j])
    {
      RefsDiffer(es, i, j);
    }
  }

  lemma ImagesAreFinal(hash: string -> string, es: seq<Entry>)
    requires Distinct(multiset(es))
    ensures forall i :: 0 <= i < |es| ==>
              SubstituteEntries(es, Names(multiset(es), hash))[i].ref == FinalName(hash, es[i])
  {
    NamesOf(es, hash);
    hide Names, NameOf, IsUuidRef, Distinct, Normalize, Substitute;
  }

  lemma RefsDiffer(es: seq<Entry>, i: nat, j: nat)
    requires DistinctRefs(es) && i < j < |es|
    ensures es[i].ref != es[j].ref
  {
  }

  lemma CanonicalHasNoUuid(hash: string -> string, v: Value, s: string)
    requires Resolve(hash, v).Ok? && s in References(Resolve(hash, v).document, "")
    ensures !IsUuidRef(s)
  {
    AcceptedFacts(hash, v);
    CanonicalReferences(hash, v);
    hide Resolve, Distinct, References, DocumentNames, IsUuidRef;
    var r :| r in References(v, "") && Image(DocumentNames(hash, v), r) == s;
    if r in DocumentNames(hash, v) { GeneratedName(hash, v, r); }
  }

  lemma ResolveWithoutUuids(hash: string -> string, c: Value)
    requires Normalize(c) == c
    requires forall s :: s in References(c, "") ==> !IsUuidRef(s)
    ensures Resolve(hash, c) == if Distinct(multiset(Entries(c))) then Ok(c) else Err(DuplicateRef)
  {
    if Distinct(multiset(Entries(c))) {
      var names := DocumentNames(hash, c);
      forall u | u in names ensures false { GeneratedName(hash, c, u); }
      assert names == map[];
      SubstituteNothing(c, "", names);
    }
  }

  /** Canonicalising a canonical form changes nothing, exactly when no literal `bom-ref` clashes
      with a generated name; otherwise the canonical form itself is rejected. */
  lemma CanonicalizeTwice(hash: string -> string, d: Value)
    requires Canonicalize(hash, d).Ok?
    ensures var c := Canonicalize(hash, d).document;
            Canonicalize(hash, c) == if NoClash(hash, Strip(d)) then Ok(c) else Err(DuplicateRef)
  {
    var v, c := Strip(d), Canonicalize(hash, d).document;
    var names := DocumentNames(hash, v);
    var w := Substitute(v, "", names);
    AcceptedFacts(hash, v);
    CanonicalRoot(d, names);
    hide Resolve, Entries, References, Substitute, Normalize, Distinct, Names, DistinctRefs, NoClash, Strip, RootError, IsUuidRef,
         Reordered, SubstituteEntries;
    NormalizeIdempotent(w);
    NormalizeReorders(w);
    ReorderedEntries(w, c);
    EntriesSubstituted(v, "", names);
    DistinctSequence(Entries(w));
    CanonicalDistinct(hash, v);
    forall s | s in References(c, "") ensures !IsUuidRef(s) { CanonicalHasNoUuid(hash, v, s); }
    ResolveWithoutUuids(hash, c);
  }

  /** In particular for every document that stays clear of the generated prefix. */
  lemma CanonicalizeIdempotent(hash: string -> string, d: Value)
    requires Canonicalize(hash, d).Ok? && Unreserved(Strip(d))
    ensures Canonicalize(hash, Canonicalize(hash, d).document) == Canonicalize(hash, d)
  {
    var v := Strip(d);
    forall e, f | e in Entries(v) && f in Entries(v) && !IsUuidRef(f.ref) ensures f.ref != NameOf(hash, e) {
      EntryReferences(v, "", f);
      NameIsNoUuid(hash, e);
    }
    CanonicalizeTwice(hash, d);
  }

  /** The prefix kept for generated names has to be kept: a document with a UUID and its own canonical
      form have one canonical form, although no renaming and reordering leads from one to the other. */
  lemma ReservedPrefixNeeded(hash: string -> string, d: Value, u: string, sigma: map<string, string>)
    requires Canonicalize(hash, d).Ok? && NoClash(hash, Strip(d))
    requires u in References(Strip(d), "") && IsUuidRef(u)
    requires IsRenaming(sigma, References(Strip(d), ""))
    ensures var c := Canonicalize(hash, d).document;
            && Canonicalize(hash, c) == Canonicalize(hash, d) && c.Obj?
            && !Reordered(Substitute(Strip(d), "", sigma), Strip(c))
  {
    CanonicalizeTwice(hash, d);
    var v, c := Strip(d), Canonicalize(hash, d).document;
    AcceptedFacts(hash, v);
    CanonicalRoot(d, DocumentNames(hash, v));
    var w := Substitute(v, "", sigma);
    RenamedImage(sigma, References(v, ""), u, u);
    ReferencesSubstituted(v, "", sigma);
    var x := Image(sigma, u);
    assert x in References(w, "");
    hide Resolve, Entries, References, Substitute, Normalize, Distinct, Names, NoClash, Strip, RootError, IsUuidRef, Reordered;
    if Reordered(w, c) {
      ReorderedReferences(w, c, "");
      CanonicalHasNoUuid(hash, v, x);
    }
  }
}
