/** The imperative half of scripts/canonicalize_sbom.py: `visit` walks the document and fills a
    dict and a set, `canonicalize` copies, pops, visits, checks, rewrites and normalises. */
module SbomTable {
  import opened Text
  import opened Json
  import opened SbomNormalForm
  import opened SbomReferences
  import opened SbomCanonical

  // ----- what a walk leaves behind -----

  function Refs(trace: seq<Entry>): set<string> {
    if trace == [] then {} else {trace[0].ref} + Refs(trace[1..])
  }

  /** Recording the definitions in this order never meets a name twice. */
  predicate Fresh(taken: set<string>, trace: seq<Entry>)
    decreases trace
  {
    trace == [] || (trace[0].ref !in taken && Fresh(taken + {trace[0].ref}, trace[1..]))
  }

  function Record(references: map<string, string>, trace: seq<Entry>, hash: string -> string): map<string, string>
    decreases trace
  {
    if trace == [] then references
    else
      var e := trace[0];
      Record(if IsUuidRef(e.ref) then references[e.ref := NameOf(hash, e)] else references, trace[1..], hash)
  }

  lemma WalkNothing(taken: set<string>, references: map<string, string>, hash: string -> string)
    ensures Refs([]) == {} && Fresh(taken, []) && Record(references, [], hash) == references
  {
  }

  lemma {:induction false} WalkOn(taken: set<string>, references: map<string, string>, a: seq<Entry>, b: seq<Entry>,
                                  hash: string -> string)
    ensures Refs(a + b) == Refs(a) + Refs(b)
    ensures Fresh(taken, a + b) <==> Fresh(taken, a) && Fresh(taken + Refs(a), b)
    ensures Record(references, a + b, hash) == Record(Record(references, a, hash), b, hash)
    decreases a
  {
    if a == [] {
      assert a + b == b;
      assert taken + Refs(a) == taken;
    } else {
      var e := a[0];
      assert (a + b)[1..] == a[1..] + b;
      assert taken + {e.ref} + Refs(a[1..]) == taken + Refs(a);
      WalkOn(taken + {e.ref}, if IsUuidRef(e.ref) then references[e.ref := NameOf(hash, e)] else references, a[1..], b, hash);
    }
  }

  lemma {:induction false} RefsOf(trace: seq<Entry>)
    ensures forall i :: 0 <= i < |trace| ==> trace[i].ref in Refs(trace)
    ensures forall s :: s in Refs(trace) ==> exists i :: 0 <= i < |trace| && trace[i].ref == s
  {
    if trace != [] {
      RefsOf(trace[1..]);
      forall s | s in Refs(trace[1..]) ensures exists i :: 0 <= i < |trace| && trace[i].ref == s {
        var i :| 0 <= i < |trace[1..]| && trace[1..][i].ref == s;
        assert trace[i+1].ref == s;
      }
    }
  }

  lemma {:induction false} FreshDistinct(taken: set<string>, trace: seq<Entry>)
    ensures Fresh(taken, trace) <==> DistinctRefs(trace) && forall i :: 0 <= i < |trace| ==> trace[i].ref !in taken
    decreases trace
  {
    if trace != [] {
      var tail := trace[1..];
      FreshDistinct(taken + {trace[0].ref}, tail);
      assert forall i :: 1 <= i < |trace| ==> trace[i] == tail[i-1];
      if Fresh(taken, trace) {
        assert forall i :: 0 <= i < |tail| ==> tail[i].ref != trace[0].ref;
      }
      if DistinctRefs(trace) {
        assert forall i :: 0 <= i < |tail| ==> tail[i] == trace[i+1] && tail[i].ref != trace[0].ref;
      }
    }
  }

  lemma {:induction false} RecordedNames(references: map<string, string>, trace: seq<Entry>, hash: string -> string)
    requires DistinctRefs(trace)
    ensures var m := Record(references, trace, hash);
      && (forall i :: 0 <= i < |trace| && IsUuidRef(trace[i].ref) ==>
            trace[i].ref in m && m[trace[i].ref] == NameOf(hash, trace[i]))
      && (forall u :: u in m ==> u in references || (IsUuidRef(u) && exists i :: 0 <= i < |trace| && trace[i].ref == u))
      && (forall u :: u in references && (forall i :: 0 <= i < |trace| ==> trace[i].ref != u) ==>
            u in m && m[u] == references[u])
    decreases trace
  {
    if trace != [] {
      var e, tail := trace[0], trace[1..];
      var references' := if IsUuidRef(e.ref) then references[e.ref := NameOf(hash, e)] else references;
      assert forall i :: 0 <= i < |tail| ==> tail[i] == trace[i+1];
      RecordedNames(references', tail, hash);
      assert forall i :: 1 <= i < |trace| ==> trace[i] == tail[i-1];
    }
  }

  /** A complete walk from an empty table, in whatever order, tests for duplicates and collects
      the names. */
  lemma WalkResult(trace: seq<Entry>, v: Value, hash: string -> string)
    requires multiset(trace) == multiset(Entries(v))
    ensures Fresh({}, trace) <==> Distinct(multiset(Entries(v)))
    ensures Fresh({}, trace) ==> Record(map[], trace, hash) == Names(multiset(Entries(v)), hash)
  {
    FreshDistinct({}, trace);
    DistinctSequence(trace);
    if DistinctRefs(trace) {
      RecordedNames(map[], trace, hash);
      NamesOf(trace, hash);
      SameNames(trace, Record(map[], trace, hash), Names(multiset(trace), hash));
    }
  }

  lemma SameNames(trace: seq<Entry>, m: map<string, string>, n: map<string, string>)
    requires forall i :: 0 <= i < |trace| && IsUuidRef(trace[i].ref) ==>
               trace[i].ref in m && trace[i].ref in n && m[trace[i].ref] == n[trace[i].ref]
    requires forall u :: u in m ==> IsUuidRef(u) && exists i :: 0 <= i < |trace| && trace[i].ref == u
    requires forall u :: u in n ==> IsUuidRef(u) && exists i :: 0 <= i < |trace| && trace[i].ref == u
    ensures m == n
  {
  }

  /** A walk that stops early has already met a name twice. */
  lemma StoppedWalk(trace: seq<Entry>, v: Value)
    requires multiset(trace) <= multiset(Entries(v)) && !Fresh({}, trace)
    ensures !Distinct(multiset(Entries(v)))
  {
    FreshDistinct({}, trace);
    DistinctSequence(trace);
    if Distinct(multiset(Entries(v))) {
      DistinctPart(multiset(trace), multiset(Entries(v)));
    }
  }

  lemma DistinctPart(a: multiset<Entry>, b: multiset<Entry>)
    requires a <= b && Distinct(b)
    ensures Distinct(a)
  {
    forall e | e in a ensures a[e] == 1 && forall f | f in a :: f.ref == e.ref ==> f == e {
      assert e in b && b[e] == 1;
      forall f | f in a && f.ref == e.ref ensures f == e { assert f in b; }
    }
  }

  lemma ItemEntriesStep(items: seq<Value>, i: nat)
    requires i < |items|
    ensures ItemEntries(items[i..]) == Entries(items[i]) + ItemEntries(items[i+1..])
  {
    assert items[i..][1..] == items[i+1..];
  }

  /** The definitions below an object do not depend on the order its keys are taken in. */
  lemma {:induction false} MemberEntriesTake(v: Value, keys: set<string>, k: string)
    requires v.Obj? && keys <= v.members.Keys && k in keys
    ensures (forall j | j in SortedKeys(keys) :: j in v.members) && forall j | j in SortedKeys(keys - {k}) :: j in v.members
    ensures multiset(MemberEntries(v, SortedKeys(keys))) ==
            multiset(Entries(v.members[k])) + multiset(MemberEntries(v, SortedKeys(keys - {k})))
    decreases keys
  {
    hide *;
    KeysListed(v, keys);
    KeysListed(v, keys - {k});
    var least := LeastKey(keys);
    LeastFirst(v, keys);
    if k != least {
      assert least in keys - {k};
      LexAntisymmetric(LeastKey(keys - {k}), least);
      LeastFirst(v, keys - {k});
      assert keys - {k} - {least} == keys - {least} - {k};
      MemberEntriesTake(v, keys - {least}, k);
    }
  }

  lemma LeastFirst(v: Value, keys: set<string>)
    requires v.Obj? && keys <= v.members.Keys && keys != {}
    ensures var rest := keys - {LeastKey(keys)};
      && (forall j | j in SortedKeys(keys) :: j in v.members) && (forall j | j in SortedKeys(rest) :: j in v.members)
      && multiset(MemberEntries(v, SortedKeys(keys))) ==
         multiset(Entries(v.members[LeastKey(keys)])) + multiset(MemberEntries(v, SortedKeys(rest)))
  {
    hide Entries, LeastKey;
    var least := LeastKey(keys);
    KeysListed(v, keys);
    KeysListed(v, keys - {least});
    assert SortedKeys(keys) == [least] + SortedKeys(keys - {least});
  }

  lemma KeysListed(v: Value, keys: set<string>)
    requires v.Obj? && keys <= v.members.Keys
    ensures forall j | j in SortedKeys(keys) :: j in v.members
  {
    hide *;
    forall j | j in SortedKeys(keys) ensures j in v.members {
      assert j in (set i | i in SortedKeys(keys));
    }
  }

  /** What is still to visit below an object. */
  ghost function Below(v: Value, keys: set<string>): multiset<Entry>
    requires v.Obj? && keys <= v.members.Keys
  {
    KeysListed(v, keys);
    multiset(MemberEntries(v, SortedKeys(keys)))
  }

  lemma BelowTake(v: Value, keys: set<string>, k: string)
    requires v.Obj? && keys <= v.members.Keys && k in keys
    ensures Below(v, keys) == multiset(Entries(v.members[k])) + Below(v, keys - {k})
  {
    MemberEntriesTake(v, keys, k);
  }

  lemma BelowNothing(v: Value)
    requires v.Obj?
    ensures Below(v, {}) == multiset{}
  {
  }

  lemma EntriesBelow(v: Value)
    requires v.Obj?
    ensures multiset(Entries(v)) == multiset(Own(v)) + Below(v, v.members.Keys)
  {
    ObjectEntries(v);
  }

  class ReferenceTable {
    const hash: string -> string
    var references: map<string, string>
    var identities: set<string>

    constructor (hash: string -> string)
      ensures references == map[] && identities == {} && this.hash == hash
    {
      this.hash := hash;
      references := map[];
      identities := {};
    }

    /** What walking over these definitions, in this order, does to the table. */
    twostate predicate Walked(trace: seq<Entry>, ok: bool)
      reads this
    {
      && (ok <==> Fresh(old(identities), trace))
      && (ok ==> identities == old(identities) + Refs(trace))
      && (ok ==> references == Record(old(references), trace, hash))
    }

    /** Record the definition an object makes, if any, unless its name is taken. */
    method Define(v: Value) returns (ok: bool)
      requires v.Obj?
      modifies this
      ensures Walked(Own(v), ok)
    {
      if !Defines(v) {
        return true;
      }
      var ref := v.members["bom-ref"].s;
      if ref in identities {
        return false;
      }
      identities := identities + {ref};
      if IsUuidRef(ref) {
        var encoded := Dumps(Normalize(Identity(v)), IDENTITY_STYLE);
        references := references[ref := RESERVED + hash(encoded)];
      }
      ok := true;
    }

    /** `visit`: the values of a dict are taken in an arbitrary order. */
    method Visit(v: Value) returns (ok: bool, ghost trace: seq<Entry>)
      modifies this
      ensures Walked(trace, ok)
      ensures if ok then multiset(trace) == multiset(Entries(v)) else multiset(trace) <= multiset(Entries(v))
      decreases v, 2
    {
      if v.Obj? {
        ok, trace := VisitObject(v);
      } else if v.Arr? {
        ok, trace := VisitItems(v.items);
      } else {
        ok, trace := true, [];
      }
    }

    method VisitObject(v: Value) returns (ok: bool, ghost trace: seq<Entry>)
      requires v.Obj?
      modifies this
      ensures Walked(trace, ok)
      ensures if ok then multiset(trace) == multiset(Entries(v)) else multiset(trace) <= multiset(Entries(v))
      decreases v, 1
    {
      hide Below, Entries, Fresh, Record, Refs, Own;
      EntriesBelow(v);
      ok := Define(v);
      trace := Own(v);
      if ok {
        ghost var below;
        ok, below := VisitMembers(v);
        WalkOn(old(identities), old(references), Own(v), below, hash);
        trace := Own(v) + below;
      }
    }

    method VisitMembers(v: Value) returns (ok: bool, ghost trace: seq<Entry>)
      requires v.Obj?
      modifies this
      ensures Walked(trace, ok)
      ensures if ok then multiset(trace) == Below(v, v.members.Keys) else multiset(trace) <= Below(v, v.members.Keys)
      decreases v, 0
    {
      hide Below, Entries, Fresh, Record, Refs;
      trace := [];
      ok := true;
      WalkNothing(identities, references, hash);
      var rest := v.members.Keys;
      while rest != {}
        invariant ok && rest <= v.members.Keys
        invariant Walked(trace, ok)
        invariant multiset(trace) + Below(v, rest) == Below(v, v.members.Keys)
        decreases rest
      {
        var k :| k in rest;
        BelowTake(v, rest, k);
        ghost var part;
        ok, part := Visit(v.members[k]);
        WalkOn(old(identities), old(references), trace, part, hash);
        trace := trace + part;
        if !ok {
          return;
        }
        rest := rest - {k};
      }
      BelowNothing(v);
    }

    method VisitItems(items: seq<Value>) returns (ok: bool, ghost trace: seq<Entry>)
      modifies this
      ensures Walked(trace, ok)
      ensures if ok then multiset(trace) == multiset(ItemEntries(items)) else multiset(trace) <= multiset(ItemEntries(items))
      decreases items
    {
      trace := [];
      ok := true;
      assert items[0..] == items;
      for i := 0 to |items|
        invariant ok && Walked(trace, ok)
        invariant multiset(trace) + multiset(ItemEntries(items[i..])) == multiset(ItemEntries(items))
      {
        ItemEntriesStep(items, i);
        ghost var part;
        ok, part := Visit(items[i]);
        WalkOn(old(identities), old(references), trace, part, hash);
        trace := trace + part;
        if !ok {
          return;
        }
      }
    }
  }

  // ----- len(set(references.values())) != len(references) -----

  lemma {:induction false} FewerValues(m: map<string, string>)
    ensures |m.Values| <= |m.Keys|
    ensures |m.Values| == |m.Keys| <==> Injective(m)
    decreases |m|
  {
    if m == map[] {
      assert m.Values == {};
    } else {
      var k :| k in m;
      var rest := m - {k};
      FewerValues(rest);
      assert m.Keys == rest.Keys + {k};
      assert m.Values == rest.Values + {m[k]};
      if m[k] in rest.Values {
        assert m.Values == rest.Values;
        var j :| j in rest && rest[j] == m[k];
      } else {
        assert |m.Values| == |rest.Values| + 1;
        assert forall x :: x in m && x != k ==> x in rest && rest[x] == m[x] && m[x] != m[k];
        assert forall x :: x in rest ==> x in m && rest[x] == m[x];
      }
    }
  }

  method CollectNames(hash: string -> string, document: Value) returns (ok: bool, references: map<string, string>)
    ensures ok <==> Distinct(multiset(Entries(document)))
    ensures ok ==> references == Names(multiset(Entries(document)), hash)
  {
    var table := new ReferenceTable(hash);
    ghost var trace;
    ok, trace := table.Visit(document);
    references := table.references;
    if ok {
      WalkResult(trace, document, hash);
    } else {
      StoppedWalk(trace, document);
    }
  }

  method StableReferences(hash: string -> string, document: Value) returns (r: Result)
    ensures Resolve(hash, document) == if r.Ok? then Ok(Normalize(r.document)) else r
    ensures r.Ok? ==>
              && Distinct(multiset(Entries(document)))
              && r.document == Substitute(document, "", Names(multiset(Entries(document)), hash))
  {
    var ok, references := CollectNames(hash, document);
    if !ok {
      return Err(DuplicateRef);
    }
    FewerValues(references);
    if |references.Values| != |references.Keys| {
      return Err(AmbiguousIdentity);
    }
    if exists s :: s in References(document, "") && IsUuidRef(s) && s !in references {
      return Err(UndefinedReference);
    }
    return Ok(Substitute(document, "", references));
  }

  method CanonicalizeDocument(hash: string -> string, document: Value) returns (r: Result)
    ensures r == Canonicalize(hash, document)
  {
    if !document.Obj? || Get(document, "bomFormat") != Str("CycloneDX") {
      return Err(NotCycloneDx);
    }
    if !Get(document, "specVersion").Str? {
      return Err(NoSpecVersion);
    }
    var normalized := document.members;
    normalized := normalized - {"serialNumber"};
    var metadata := Get(document, "metadata");
    if metadata != Null {
      if !metadata.Obj? {
        return Err(BadMetadata);
      }
      normalized := normalized["metadata" := Obj(metadata.members - {"timestamp"})];
    }
    assert Obj(normalized) == Strip(document);
    r := StableReferences(hash, Obj(normalized));
    if r.Ok? {
      r := Ok(Normalize(r.document));
    }
  }
}
