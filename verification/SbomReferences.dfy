/** The references of a CycloneDX document: where they occur, how they are rewritten, and
    which components define them. */
module SbomReferences {
  import opened Text
  import opened Json
  import opened Sorting
  import opened SbomNormalForm

  // ----- UUID_REF -----

  predicate IsUuidText(s: string) {
    |s| == 36 && UuidFrom(s, 0)
  }

  predicate UuidFrom(s: string, i: nat)
    requires i <= |s| == 36
    decreases 36 - i
  {
    i == 36 ||
    ((if i == 8 || i == 13 || i == 18 || i == 23 then s[i] == '-' else DigitValue(s[i]).Some?) && UuidFrom(s, i + 1))
  }

  /** `urn:uuid:` read without regard to case; Python's case folding lets both Turkish i's
      stand for the Latin one. */
  predicate IsUrnUuid(s: string) {
    |s| >= 9 && UrnFrom(s, 0)
  }

  predicate UrnFrom(s: string, i: nat)
    requires i <= 9 <= |s|
    decreases 9 - i
  {
    i == 9 || (SameLetter("urn:uuid:"[i], s[i]) && UrnFrom(s, i + 1))
  }

  predicate SameLetter(pattern: char, c: char) {
    c == pattern
    || ('a' <= pattern <= 'z' && c as int == pattern as int - 32)
    || (pattern == 'i' && (c == '\U{0130}' || c == '\U{0131}'))
  }

  predicate IsUuidRef(s: string) {
    IsUuidText(s) || (IsUrnUuid(s) && IsUuidText(s[9..]))
  }

  // ----- reference positions -----

  const REFERENCE_KEYS: set<string> := {"bom-ref", "ref", "dependsOn", "provides"}

  /** `m.get(s, s)` */
  function Image(m: map<string, string>, s: string): string {
    if s in m then m[s] else s
  }

  /** `rewrite`: replace the strings found under a reference key, directly or in lists. */
  function Substitute(v: Value, key: string, m: map<string, string>): Value
    decreases v
  {
    match v
    case Obj(members) => Obj(map k | k in members :: Substitute(members[k], k, m))
    case Arr(items) => Arr(SubstituteAll(items, key, m))
    case Str(s) => if key in REFERENCE_KEYS then Str(Image(m, s)) else v
    case _ => v
  }

  function SubstituteAll(items: seq<Value>, key: string, m: map<string, string>): (r: seq<Value>)
    ensures |r| == |items|
    ensures forall i :: 0 <= i < |items| ==> r[i] == Substitute(items[i], key, m)
    decreases items
  {
    seq(|items|, i requires 0 <= i < |items| => Substitute(items[i], key, m))
  }

  /** The strings `rewrite` looks at. */
  function References(v: Value, key: string): set<string>
    decreases v
  {
    match v
    case Obj(members) => set k, s | k in members && s in References(members[k], k) :: s
    case Arr(items) => ReferencesAll(items, key)
    case Str(s) => if key in REFERENCE_KEYS then {s} else {}
    case _ => {}
  }

  function ReferencesAll(items: seq<Value>, key: string): set<string>
    decreases items
  {
    if items == [] then {} else References(items[0], key) + ReferencesAll(items[1..], key)
  }

  lemma {:induction false} ReferencesOfItem(items: seq<Value>, key: string)
    ensures forall i :: 0 <= i < |items| ==> References(items[i], key) <= ReferencesAll(items, key)
    ensures forall s :: s in ReferencesAll(items, key) ==> exists i :: 0 <= i < |items| && s in References(items[i], key)
  {
    if items != [] {
      ReferencesOfItem(items[1..], key);
      forall i | 0 <= i < |items| ensures References(items[i], key) <= ReferencesAll(items, key) {
        if i > 0 { assert items[i] == items[1..][i-1]; }
      }
      forall s | s in ReferencesAll(items, key) ensures exists i :: 0 <= i < |items| && s in References(items[i], key) {
        if s in References(items[0], key) {
        } else {
          var i :| 0 <= i < |items[1..]| && s in References(items[1..][i], key);
          assert items[i+1] == items[1..][i];
        }
      }
    }
  }

  lemma ReferencesOfMember(v: Value, k: string, key: string)
    requires v.Obj? && k in v.members
    ensures References(v.members[k], k) <= References(v, key)
  {
  }

  // ----- substitution -----

  /** Two substitutions in a row are one, decided reference by reference. */
  lemma {:induction false} SubstituteCompose(v: Value, key: string, m: map<string, string>, n: map<string, string>,
                                            both: map<string, string>)
    requires forall s :: s in References(v, key) ==> Image(n, Image(m, s)) == Image(both, s)
    ensures Substitute(Substitute(v, key, m), key, n) == Substitute(v, key, both)
    decreases v
  {
    match v
    case Obj(members) =>
      forall k | k in members
        ensures Substitute(Substitute(members[k], k, m), k, n) == Substitute(members[k], k, both)
      {
        ReferencesOfMember(v, k, key);
        SubstituteCompose(members[k], k, m, n, both);
      }
    case Arr(items) =>
      ReferencesOfItem(items, key);
      forall i | 0 <= i < |items|
        ensures Substitute(Substitute(items[i], key, m), key, n) == Substitute(items[i], key, both)
      {
        SubstituteCompose(items[i], key, m, n, both);
      }
      assert SubstituteAll(SubstituteAll(items, key, m), key, n) == SubstituteAll(items, key, both);
    case _ =>
  }

  lemma {:induction false} SubstituteNothing(v: Value, key: string, m: map<string, string>)
    requires forall s :: s in References(v, key) ==> Image(m, s) == s
    ensures Substitute(v, key, m) == v
    decreases v
  {
    match v
    case Obj(members) =>
      forall k | k in members ensures Substitute(members[k], k, m) == members[k] {
        ReferencesOfMember(v, k, key);
        SubstituteNothing(members[k], k, m);
      }
      assert Substitute(v, key, m).members == members;
    case Arr(items) =>
      ReferencesOfItem(items, key);
      forall i | 0 <= i < |items| ensures Substitute(items[i], key, m) == items[i] {
        SubstituteNothing(items[i], key, m);
      }
      assert SubstituteAll(items, key, m) == items;
    case _ =>
  }

  function Images(m: map<string, string>, refs: set<string>): set<string> {
    set s | s in refs :: Image(m, s)
  }

  lemma {:induction false} ReferencesSubstituted(v: Value, key: string, m: map<string, string>)
    ensures References(Substitute(v, key, m), key) == Images(m, References(v, key))
    decreases v
  {
    match v
    case Obj(members) =>
      forall k | k in members
        ensures References(Substitute(members[k], k, m), k) == Images(m, References(members[k], k))
      {
        ReferencesSubstituted(members[k], k, m);
      }
      ReferencesSubstitutedMembers(v, key, m);
    case Arr(items) =>
      ReferencesSubstitutedAll(items, key, m);
    case Str(s) =>
      assert Images(m, {s}) == {Image(m, s)};
    case _ =>
  }

  lemma ReferencesSubstitutedMembers(v: Value, key: string, m: map<string, string>)
    requires v.Obj?
    requires forall k :: k in v.members ==>
               References(Substitute(v.members[k], k, m), k) == Images(m, References(v.members[k], k))
    ensures References(Substitute(v, key, m), key) == Images(m, References(v, key))
  {
    var w := Substitute(v, key, m);
    forall r | r in References(w, key) ensures r in Images(m, References(v, key)) {
      var k :| k in w.members && r in References(w.members[k], k);
      assert r in Images(m, References(v.members[k], k));
      ReferencesOfMember(v, k, key);
    }
    forall s | s in References(v, key) ensures Image(m, s) in References(w, key) {
      var k :| k in v.members && s in References(v.members[k], k);
      assert Image(m, s) in Images(m, References(v.members[k], k));
      ReferencesOfMember(w, k, key);
    }
  }

  lemma {:induction false} ReferencesSubstitutedAll(items: seq<Value>, key: string, m: map<string, string>)
    ensures ReferencesAll(SubstituteAll(items, key, m), key) == Images(m, ReferencesAll(items, key))
    decreases items
  {
    if items != [] {
      ReferencesSubstituted(items[0], key, m);
      ReferencesSubstitutedAll(items[1..], key, m);
      assert SubstituteAll(items, key, m)[1..] == SubstituteAll(items[1..], key, m);
    }
  }

  // ----- reordering and references -----

  lemma {:induction false} ReorderedReferences(a: Value, b: Value, key: string)
    requires Reordered(a, b)
    ensures References(a, key) == References(b, key)
    decreases a
  {
    match a
    case Obj(members) =>
      forall k | k in members ensures References(members[k], k) == References(b.members[k], k) {
        ReorderedReferences(members[k], b.members[k], k);
      }
    case Arr(items) => PairedReferences(items, b.items, key);
    case _ =>
  }

  lemma {:induction false} ReferencesRemove(ys: seq<Value>, k: nat, key: string)
    requires k < |ys|
    ensures ReferencesAll(ys, key) == References(ys[k], key) + ReferencesAll(RemoveAt(ys, k), key)
  {
    if k == 0 {
      assert RemoveAt(ys, 0) == ys[1..];
    } else {
      ReferencesRemove(ys[1..], k - 1, key);
      assert RemoveAt(ys, k)[1..] == RemoveAt(ys[1..], k - 1);
    }
  }

  lemma {:induction false} PairedReferences(xs: seq<Value>, ys: seq<Value>, key: string)
    requires PairedOff(xs, ys)
    ensures ReferencesAll(xs, key) == ReferencesAll(ys, key)
    decreases xs
  {
    if xs != [] {
      hide *;
      var k := PairedStep(xs, ys);
      ReorderedReferences(xs[0], ys[k], key);
      PairedReferences(xs[1..], RemoveAt(ys, k), key);
      ReferencesRemove(ys, k, key);
    }
  }

  lemma {:induction false} ReorderedSubstitute(a: Value, b: Value, key: string, m: map<string, string>)
    requires Reordered(a, b)
    ensures Reordered(Substitute(a, key, m), Substitute(b, key, m))
    decreases a
  {
    match a
    case Obj(members) =>
      forall k | k in members ensures Reordered(Substitute(members[k], k, m), Substitute(b.members[k], k, m)) {
        ReorderedSubstitute(members[k], b.members[k], k, m);
      }
    case Arr(items) => PairedSubstitute(items, b.items, key, m);
    case _ =>
  }

  lemma SubstituteAllRemove(ys: seq<Value>, k: nat, key: string, m: map<string, string>)
    requires k < |ys|
    ensures SubstituteAll(ys, key, m)[k] == Substitute(ys[k], key, m)
    ensures RemoveAt(SubstituteAll(ys, key, m), k) == SubstituteAll(RemoveAt(ys, k), key, m)
    ensures k == 0 ==> SubstituteAll(ys, key, m)[1..] == SubstituteAll(ys[1..], key, m)
  {
    hide *;
    assert RemoveAt(SubstituteAll(ys, key, m), k) == SubstituteAll(RemoveAt(ys, k), key, m);
  }

  lemma {:induction false} PairedSubstitute(xs: seq<Value>, ys: seq<Value>, key: string, m: map<string, string>)
    requires PairedOff(xs, ys)
    ensures PairedOff(SubstituteAll(xs, key, m), SubstituteAll(ys, key, m))
    decreases xs
  {
    if xs != [] {
      hide *;
      var k := PairedStep(xs, ys);
      ReorderedSubstitute(xs[0], ys[k], key, m);
      PairedSubstitute(xs[1..], RemoveAt(ys, k), key, m);
      SubstituteAllRemove(xs, 0, key, m);
      SubstituteAllRemove(ys, k, key, m);
      PairedMore(SubstituteAll(xs, key, m), SubstituteAll(ys, key, m), k);
    }
  }

  lemma NormalizeSubstitute(v: Value, key: string, m: map<string, string>)
    ensures Normalize(Substitute(Normalize(v), key, m)) == Normalize(Substitute(v, key, m))
    ensures References(Normalize(v), key) == References(v, key)
  {
    NormalizeReorders(v);
    ReorderedSubstitute(v, Normalize(v), key, m);
    NormalizeComplete(Substitute(v, key, m), Substitute(Normalize(v), key, m));
    ReorderedReferences(v, Normalize(v), key);
  }

  // ----- definitions -----

  /** An object that carries a string `bom-ref`, with the normalised rest of it. */
  datatype Entry = Entry(ref: string, identity: Value)

  function Identity(v: Value): Value
    requires v.Obj?
  {
    Obj(v.members - {"bom-ref"})
  }

  predicate Defines(v: Value) {
    v.Obj? && "bom-ref" in v.members && v.members["bom-ref"].Str?
  }

  function OwnEntry(v: Value): Entry
    requires Defines(v)
  {
    Entry(v.members["bom-ref"].s, Normalize(Identity(v)))
  }

  function Own(v: Value): seq<Entry> {
    if Defines(v) then [OwnEntry(v)] else []
  }

  /** Every definition in a document, at any depth. */
  function Entries(v: Value): seq<Entry>
    decreases v
  {
    match v
    case Obj(members) => Own(v) + MemberEntries(v, SortedKeys(members.Keys))
    case Arr(items) => ItemEntries(items)
    case _ => []
  }

  function ItemEntries(items: seq<Value>): seq<Entry>
    decreases items
  {
    if items == [] then [] else Entries(items[0]) + ItemEntries(items[1..])
  }

  function MemberEntries(v: Value, keys: seq<string>): seq<Entry>
    requires v.Obj? && forall k | k in keys :: k in v.members
    decreases v, |keys|
  {
    if keys == [] then [] else Entries(v.members[keys[0]]) + MemberEntries(v, keys[1..])
  }

  lemma {:induction false} ReorderedEntries(a: Value, b: Value)
    requires Reordered(a, b)
    ensures multiset(Entries(a)) == multiset(Entries(b))
    decreases a
  {
    match a
    case Obj(members) =>
      assert Defines(a) <==> Defines(b) by {
        if "bom-ref" in members { assert Reordered(members["bom-ref"], b.members["bom-ref"]); }
      }
      if Defines(a) {
        assert Reordered(members["bom-ref"], b.members["bom-ref"]);
        assert Reordered(Identity(a), Identity(b));
        NormalizeComplete(Identity(a), Identity(b));
      }
      ReorderedMemberEntries(a, b, SortedKeys(members.Keys));
    case Arr(items) => PairedEntries(items, b.items);
    case _ =>
  }

  lemma {:induction false} ReorderedMemberEntries(a: Value, b: Value, keys: seq<string>)
    requires a.Obj? && Reordered(a, b) && forall k | k in keys :: k in a.members
    ensures multiset(MemberEntries(a, keys)) == multiset(MemberEntries(b, keys))
    decreases a, |keys|
  {
    if keys != [] {
      ReorderedEntries(a.members[keys[0]], b.members[keys[0]]);
      ReorderedMemberEntries(a, b, keys[1..]);
    }
  }

  lemma {:induction false} ItemEntriesRemove(ys: seq<Value>, k: nat)
    requires k < |ys|
    ensures multiset(ItemEntries(ys)) == multiset(Entries(ys[k])) + multiset(ItemEntries(RemoveAt(ys, k)))
  {
    hide Entries;
    if k == 0 {
      assert RemoveAt(ys, 0) == ys[1..];
    } else {
      ItemEntriesRemove(ys[1..], k - 1);
      assert RemoveAt(ys, k)[1..] == RemoveAt(ys[1..], k - 1);
    }
  }

  lemma {:induction false} PairedEntries(xs: seq<Value>, ys: seq<Value>)
    requires PairedOff(xs, ys)
    ensures multiset(ItemEntries(xs)) == multiset(ItemEntries(ys))
    decreases xs
  {
    if xs != [] {
      hide *;
      var k := PairedStep(xs, ys);
      ReorderedEntries(xs[0], ys[k]);
      PairedEntries(xs[1..], RemoveAt(ys, k));
      ItemEntriesRemove(ys, k);
    }
  }

  /** A definition's own name, and the references inside it, are references of the document. */
  lemma {:induction false} EntryReferences(v: Value, key: string, e: Entry)
    requires e in Entries(v)
    ensures e.ref in References(v, key)
    ensures References(e.identity, "") <= References(v, key)
    decreases v
  {
    match v
    case Obj(members) =>
      if Defines(v) && e == OwnEntry(v) {
        ReferencesOfMember(v, "bom-ref", key);
        NormalizeSubstitute(Identity(v), "", map[]);
      } else {
        MemberEntryReferences(v, SortedKeys(members.Keys), key, e);
      }
    case Arr(items) => ItemEntryReferences(items, key, e);
  }

  lemma {:induction false} MemberEntryReferences(v: Value, keys: seq<string>, key: string, e: Entry)
    requires v.Obj? && (forall k | k in keys :: k in v.members) && e in MemberEntries(v, keys)
    ensures e.ref in References(v, key) && References(e.identity, "") <= References(v, key)
    decreases v, |keys|
  {
    if e in Entries(v.members[keys[0]]) {
      EntryReferences(v.members[keys[0]], keys[0], e);
      ReferencesOfMember(v, keys[0], key);
    } else {
      MemberEntryReferences(v, keys[1..], key, e);
    }
  }

  lemma {:induction false} ItemEntryReferences(items: seq<Value>, key: string, e: Entry)
    requires e in ItemEntries(items)
    ensures e.ref in ReferencesAll(items, key) && References(e.identity, "") <= ReferencesAll(items, key)
    decreases items
  {
    if e in Entries(items[0]) {
      EntryReferences(items[0], key, e);
    } else {
      ItemEntryReferences(items[1..], key, e);
    }
  }

  // ----- substitution and definitions -----

  function SubstituteEntry(e: Entry, m: map<string, string>): Entry {
    Entry(Image(m, e.ref), Normalize(Substitute(e.identity, "", m)))
  }

  function SubstituteEntries(es: seq<Entry>, m: map<string, string>): (r: seq<Entry>)
    ensures |r| == |es|
    ensures forall i :: 0 <= i < |es| ==> r[i] == SubstituteEntry(es[i], m)
  {
    seq(|es|, i requires 0 <= i < |es| => SubstituteEntry(es[i], m))
  }

  lemma SubstituteEntriesAppend(a: seq<Entry>, b: seq<Entry>, m: map<string, string>)
    ensures SubstituteEntries(a + b, m) == SubstituteEntries(a, m) + SubstituteEntries(b, m)
  {
  }

  lemma SubstituteDefines(v: Value, key: string, m: map<string, string>)
    requires v.Obj?
    ensures Own(Substitute(v, key, m)) == SubstituteEntries(Own(v), m)
  {
    var w := Substitute(v, key, m);
    assert Defines(w) <==> Defines(v);
    if Defines(v) {
      assert Identity(w) == Substitute(Identity(v), "", m);
      NormalizeSubstitute(Identity(v), "", m);
    }
  }

  lemma ObjectEntries(v: Value)
    requires v.Obj?
    ensures Entries(v) == Own(v) + MemberEntries(v, SortedKeys(v.members.Keys))
  {
  }

  lemma SubstituteKeys(v: Value, key: string, m: map<string, string>)
    requires v.Obj?
    ensures Substitute(v, key, m).Obj? && Substitute(v, key, m).members.Keys == v.members.Keys
  {
  }

  lemma ObjectEntriesSubstituted(v: Value, key: string, m: map<string, string>)
    requires v.Obj? && Substitute(v, key, m).Obj? && Substitute(v, key, m).members.Keys == v.members.Keys
    requires MemberEntries(Substitute(v, key, m), SortedKeys(v.members.Keys)) ==
             SubstituteEntries(MemberEntries(v, SortedKeys(v.members.Keys)), m)
    ensures Entries(Substitute(v, key, m)) == SubstituteEntries(Entries(v), m)
  {
    hide *;
    ObjectEntries(v);
    ObjectEntries(Substitute(v, key, m));
    SubstituteDefines(v, key, m);
    SubstituteEntriesAppend(Own(v), MemberEntries(v, SortedKeys(v.members.Keys)), m);
  }

  lemma {:induction false} EntriesSubstituted(v: Value, key: string, m: map<string, string>)
    ensures Entries(Substitute(v, key, m)) == SubstituteEntries(Entries(v), m)
    decreases v
  {
    match v
    case Obj(members) =>
      SubstituteKeys(v, key, m);
      MemberEntriesSubstituted(v, key, SortedKeys(members.Keys), m);
      ObjectEntriesSubstituted(v, key, m);
    case Arr(items) => ItemEntriesSubstituted(items, key, m);
    case _ =>
  }

  lemma {:induction false} MemberEntriesSubstituted(v: Value, key: string, keys: seq<string>, m: map<string, string>)
    requires v.Obj? && forall k | k in keys :: k in v.members
    ensures MemberEntries(Substitute(v, key, m), keys) == SubstituteEntries(MemberEntries(v, keys), m)
    decreases v, |keys|
  {
    if keys != [] {
      EntriesSubstituted(v.members[keys[0]], keys[0], m);
      MemberEntriesSubstituted(v, key, keys[1..], m);
      SubstituteEntriesAppend(Entries(v.members[keys[0]]), MemberEntries(v, keys[1..]), m);
    }
  }

  lemma {:induction false} ItemEntriesSubstituted(items: seq<Value>, key: string, m: map<string, string>)
    ensures ItemEntries(SubstituteAll(items, key, m)) == SubstituteEntries(ItemEntries(items), m)
    decreases items
  {
    if items != [] {
      EntriesSubstituted(items[0], key, m);
      ItemEntriesSubstituted(items[1..], key, m);
      assert SubstituteAll(items, key, m)[1..] == SubstituteAll(items[1..], key, m);
      SubstituteEntriesAppend(Entries(items[0]), ItemEntries(items[1..]), m);
    }
  }
}
