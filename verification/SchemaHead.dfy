/** `schema_head` of scripts/release_metadata.py: the single head of the migration graph. */
module SchemaHead {
  import opened Counting
  import opened Text

  /** What a migration assigns to `revision` or `down_revision`. */
  datatype Identity = Absent | One(name: string) | Several(names: seq<string>)

  datatype Migration = Migration(revision: Identity, down: Identity)

  /** Four digits, an underscore, and at least one of a-z, 0-9 and underscore. */
  predicate IsRevision(s: string) {
    && |s| >= 6 && s[4] == '_'
    && (forall i :: 0 <= i < 4 ==> '0' <= s[i] <= '9')
    && forall i :: 5 <= i < |s| ==> 'a' <= s[i] <= 'z' || '0' <= s[i] <= '9' || s[i] == '_'
  }

  function Parents(m: Migration): seq<string> {
    match m.down
    case Absent => []
    case One(name) => [name]
    case Several(names) => names
  }

  predicate WellFormed(migrations: seq<Migration>) {
    && (forall i :: 0 <= i < |migrations| ==> migrations[i].revision.One? && IsRevision(migrations[i].revision.name))
    && forall i, j :: 0 <= i < j < |migrations| ==> migrations[i].revision != migrations[j].revision
  }

  type Graph = map<string, seq<string>>

  function NameOf(m: Migration): string {
    if m.revision.One? then m.revision.name else ""
  }

  /** The parents of every revision. */
  function GraphOf(migrations: seq<Migration>): (g: Graph)
    ensures forall r :: r in g <==> exists i :: 0 <= i < |migrations| && NameOf(migrations[i]) == r
  {
    if migrations == [] then map[]
    else
      var n := |migrations| - 1;
      var front := GraphOf(migrations[..n]);
      assert forall i :: 0 <= i < n ==> migrations[i] == migrations[..n][i];
      front[NameOf(migrations[n]) := Parents(migrations[n])]
  }

  /** Every migration of a well-formed list is in the graph with its own parents: none, the one it names,
      or all those it names. */
  lemma {:induction false} GraphMeaning(migrations: seq<Migration>, i: nat)
    requires WellFormed(migrations) && i < |migrations|
    ensures var g, m := GraphOf(migrations), migrations[i];
            && m.revision.One? && m.revision.name in g
            && (m.down.Absent? ==> g[m.revision.name] == [])
            && (m.down.One? ==> g[m.revision.name] == [m.down.name])
            && (m.down.Several? ==> g[m.revision.name] == m.down.names)
  {
    var n := |migrations| - 1;
    if i < n {
      GraphMeaning(migrations[..n], i);
    }
  }

  ghost predicate IsSlug(s: string) {
    s != "" && forall i :: 0 <= i < |s| ==> 'a' <= s[i] <= 'z' || '0' <= s[i] <= '9' || s[i] == '_'
  }

  ghost predicate IsNumber(s: string) {
    |s| == 4 && forall i :: 0 <= i < 4 ==> '0' <= s[i] <= '9'
  }

  /** A revision is a number of four digits, an underscore and a slug. */
  lemma RevisionShape(s: string)
    ensures IsRevision(s) <==> exists number, slug :: s == number + "_" + slug && IsNumber(number) && IsSlug(slug)
  {
    if IsRevision(s) {
      assert s == s[..4] + "_" + s[5..];
      assert IsNumber(s[..4]) && IsSlug(s[5..]);
    }
    if number, slug :| s == number + "_" + slug && IsNumber(number) && IsSlug(slug) {
      assert s[..4] == number && s[5..] == slug && s[4] == '_';
      assert forall i :: 5 <= i < |s| ==> s[i] == s[5..][i - 5];
    }
  }

  ghost predicate ParentsKnown(g: Graph) {
    forall r, p :: r in g && p in g[r] ==> p in g
  }

  ghost predicate HasChild(g: Graph, r: string) {
    exists c :: c in g && r in g[c]
  }

  /** Each revision of the walk has the next one as a parent. */
  ghost predicate IsWalk(g: Graph, walk: seq<string>) {
    && walk != [] && (forall i :: 0 <= i < |walk| ==> walk[i] in g)
    && forall i, j :: 0 <= i < |walk| && j == i + 1 && j < |walk| ==> walk[j] in g[walk[i]]
  }

  ghost predicate Descends(g: Graph, from: string, to: string) {
    exists walk :: IsWalk(g, walk) && walk[0] == from && walk[|walk| - 1] == to
  }

  /** All parents are known, `head` is the only revision that is no parent, and every revision is an
      ancestor of it. */
  ghost predicate Accepts(g: Graph, head: string) {
    && ParentsKnown(g) && head in g
    && (forall r :: r in g ==> (HasChild(g, r) <==> r != head))
    && forall r :: r in g ==> Descends(g, head, r)
  }

  // ----- the code -----

  /** The first loop; nothing if a revision is malformed or repeated. */
  method ReadMigrations(migrations: seq<Migration>) returns (g: Option<Graph>, parents: set<string>)
    ensures g.Some? <==> WellFormed(migrations)
    ensures g.Some? ==> g.value == GraphOf(migrations)
    ensures g.Some? ==> forall p :: p in parents <==> HasChild(g.value, p)
  {
    hide WellFormed, IsRevision, GraphOf, HasChild, Parents;
    var parentMap: Graph := map[];
    parents := {};
    NoMigrations(migrations[..0]);
    for k := 0 to |migrations|
      invariant WellFormed(migrations[..k]) && parentMap == GraphOf(migrations[..k])
      invariant forall p :: p in parents <==> HasChild(parentMap, p)
    {
      var m := migrations[k];
      NextMigration(migrations, k);
      if !m.revision.One? || !IsRevision(m.revision.name) {
        return None, parents;
      }
      if m.revision.name in parentMap {
        return None, parents;
      }
      ChildExtended(parentMap, m.revision.name, Parents(m));
      parents := parents + set i | 0 <= i < |Parents(m)| :: Parents(m)[i];
      parentMap := parentMap[m.revision.name := Parents(m)];
    }
    assert migrations[..|migrations|] == migrations;
    return Some(parentMap), parents;
  }

  lemma NoMigrations(migrations: seq<Migration>)
    requires migrations == []
    ensures WellFormed(migrations) && GraphOf(migrations) == map[] && forall p :: !HasChild(GraphOf(migrations), p)
  {
  }

  lemma NextMigration(migrations: seq<Migration>, k: nat)
    requires k < |migrations| && WellFormed(migrations[..k])
    ensures var m := migrations[k];
            && (m.revision.One? && IsRevision(m.revision.name) && m.revision.name !in GraphOf(migrations[..k]) <==>
                WellFormed(migrations[..k + 1]))
            && (WellFormed(migrations) ==> WellFormed(migrations[..k + 1]))
            && (m.revision.One? ==> GraphOf(migrations[..k + 1]) == GraphOf(migrations[..k])[m.revision.name := Parents(m)])
  {
    hide IsRevision;
    var m, front, more := migrations[k], migrations[..k], migrations[..k + 1];
    assert more[..k] == front && more[k] == m && forall i :: 0 <= i < k ==> more[i] == front[i] == migrations[i];
    if m.revision.One? && m.revision.name in GraphOf(front) {
      var i :| 0 <= i < k && NameOf(front[i]) == m.revision.name;
      assert more[i].revision == more[k].revision;
    } else if m.revision.One? {
      forall i | 0 <= i < k
        ensures more[i].revision != m.revision
      {
        assert NameOf(front[i]) in GraphOf(front);
      }
    }
  }

  lemma ChildExtended(g: Graph, r: string, ps: seq<string>)
    requires r !in g
    ensures forall p :: HasChild(g[r := ps], p) <==> HasChild(g, p) || p in ps
  {
    var h := g[r := ps];
    forall p
      ensures HasChild(h, p) <==> HasChild(g, p) || p in ps
    {
      if HasChild(g, p) {
        var c :| c in g && p in g[c];
        assert c in h && p in h[c];
      } else if p in ps {
        assert r in h && p in h[r];
      }
    }
  }

  lemma WalkOn(g: Graph, from: string, r: string, p: string)
    requires Descends(g, from, r) && p in g && r in g && p in g[r]
    ensures Descends(g, from, p)
  {
    var walk :| IsWalk(g, walk) && walk[0] == from && walk[|walk| - 1] == r;
    var longer := walk + [p];
    assert IsWalk(g, longer) && longer[0] == from && longer[|longer| - 1] == p;
  }

  lemma StandStill(g: Graph, r: string)
    requires r in g
    ensures Descends(g, r, r)
  {
    assert IsWalk(g, [r]) && [r][0] == r;
  }

  /** A set that holds the start and the parents of its members holds every walk. */
  lemma {:induction false} ClosedHoldsWalk(g: Graph, reached: set<string>, walk: seq<string>, i: nat)
    requires IsWalk(g, walk) && walk[0] in reached && i < |walk|
    requires forall r, p :: r in reached && r in g && p in g[r] ==> p in reached
    ensures walk[i] in reached
  {
    if i > 0 {
      ClosedHoldsWalk(g, reached, walk, i - 1);
      assert walk[i] in g[walk[i - 1]];
    }
  }

  /** The worklist: everything that can be reached through parents. */
  method Ancestors(g: Graph, head: string) returns (reachable: set<string>)
    requires ParentsKnown(g) && head in g
    ensures reachable <= g.Keys && forall r :: r in reachable <==> Descends(g, head, r)
  {
    hide Descends;
    reachable := {};
    var pending := [head];
    StandStill(g, head);
    while pending != []
      invariant reachable <= g.Keys && (head in reachable || head in pending)
      invariant forall r :: r in pending ==> r in g && Descends(g, head, r)
      invariant forall r :: r in reachable ==> Descends(g, head, r)
      invariant forall r, p :: r in reachable && p in g[r] ==> p in reachable || p in pending
      decreases g.Keys - reachable, |pending|
    {
      var last := |pending| - 1;
      var revision := pending[last];
      ghost var before := pending;
      pending := pending[..last];
      assert before == pending + [revision];
      if revision !in reachable {
        reachable := reachable + {revision};
        forall p | p in g[revision] ensures Descends(g, head, p) {
          WalkOn(g, head, revision, p);
        }
        pending := pending + g[revision];
      }
    }
    forall r | Descends(g, head, r) ensures r in reachable {
      DescendsInside(g, reachable, head, r);
    }
  }

  lemma DescendsInside(g: Graph, reached: set<string>, from: string, r: string)
    requires Descends(g, from, r) && from in reached
    requires forall r, p :: r in reached && r in g && p in g[r] ==> p in reached
    ensures r in reached
  {
    var walk :| IsWalk(g, walk) && walk[0] == from && walk[|walk| - 1] == r;
    ClosedHoldsWalk(g, reached, walk, |walk| - 1);
  }

  /** `schema_head` returns a revision exactly when the graph of the migrations accepts it. */
  method Head(migrations: seq<Migration>) returns (head: Option<string>)
    ensures forall h :: head == Some(h) <==> WellFormed(migrations) && Accepts(GraphOf(migrations), h)
  {
    hide WellFormed, GraphOf, Descends, HasChild;
    var read, parents := ReadMigrations(migrations);
    if read.None? {
      return None;
    }
    var g := read.value;
    if parents - g.Keys != {} {
      UnknownParent(g, parents);
      return None;
    }
    AllKnown(g, parents);
    var heads := g.Keys - parents;
    if |heads| != 1 {
      forall h | Accepts(g, h) ensures heads == {h} {
      }
      return None;
    }
    var h :| h in heads;
    assert heads == {h} by {
      assert |heads - {h}| == 0;
    }
    var reachable := Ancestors(g, h);
    assert forall r :: r in g ==> (r in heads <==> r == h);
    if reachable != g.Keys {
      ghost var r :| r in g && r !in reachable;
      forall other | Accepts(g, other) ensures other == h {
      }
      return None;
    }
    return Some(h);
  }

  lemma UnknownParent(g: Graph, parents: set<string>)
    requires parents - g.Keys != {} && forall p :: p in parents <==> HasChild(g, p)
    ensures !ParentsKnown(g)
  {
    var p :| p in parents - g.Keys;
    var c :| c in g && p in g[c];
  }

  lemma AllKnown(g: Graph, parents: set<string>)
    requires parents - g.Keys == {} && forall p :: p in parents <==> HasChild(g, p)
    ensures ParentsKnown(g)
  {
    forall r, p | r in g && p in g[r] ensures p in g {
      assert HasChild(g, p);
      assert p in parents - g.Keys <==> p !in g;
    }
  }

  // ----- what acceptance means for a graph without merges -----

  ghost predicate AtMostOneParent(g: Graph) {
    forall r :: r in g ==> |g[r]| <= 1
  }

  ghost predicate HasRoot(g: Graph) {
    exists r :: r in g && g[r] == []
  }

  /** All revisions in one line from the newest to the oldest, none twice. */
  ghost predicate IsChain(g: Graph, chain: seq<string>) {
    && chain != []
    && (forall r :: r in g <==> r in chain)
    && (forall i, j :: 0 <= i < j < |chain| ==> chain[i] != chain[j])
    && (forall i, j :: 0 <= i < |chain| && j == i + 1 && j < |chain| ==> g[chain[i]] == [chain[j]])
    && g[chain[|chain| - 1]] == []
  }

  /** Walks that start together stay together. */
  lemma {:induction false} WalksAgree(g: Graph, v: seq<string>, w: seq<string>, a: nat, b: nat, i: nat)
    requires AtMostOneParent(g) && IsWalk(g, v) && IsWalk(g, w)
    requires a + i < |v| && b + i < |w| && v[a] == w[b]
    ensures v[a + i] == w[b + i]
  {
    if i > 0 {
      WalksAgree(g, v, w, a, b, i - 1);
      assert v[a + i] in g[v[a + i - 1]] && w[b + i] in g[w[b + i - 1]];
    }
  }

  lemma NextParent(g: Graph, w: seq<string>, i: nat, j: nat)
    requires IsWalk(g, w) && j == i + 1 && j < |w|
    ensures w[i] in g && g[w[i]] != []
  {
    assert w[j] in g[w[i]];
  }

  /** No walk goes past a root. */
  lemma WalkEndsAtRoot(g: Graph, v: seq<string>, w: seq<string>, a: nat, b: nat)
    requires AtMostOneParent(g) && IsWalk(g, v) && IsWalk(g, w) && g[v[|v| - 1]] == []
    requires a < |v| && b < |w| && v[a] == w[b]
    ensures |w| - b <= |v| - a
  {
    var i := |v| - 1 - a;
    if b + i + 1 < |w| {
      WalksAgree(g, v, w, a, b, i);
      NextParent(g, w, b + i, b + i + 1);
    }
  }

  lemma WalkToRootRepeatsNothing(g: Graph, walk: seq<string>, i: nat, j: nat)
    requires AtMostOneParent(g) && IsWalk(g, walk) && g[walk[|walk| - 1]] == [] && i < j < |walk|
    ensures walk[i] != walk[j]
  {
    if walk[i] == walk[j] {
      WalkEndsAtRoot(g, walk, walk, j, i);
    }
  }

  lemma WalkToRootMeets(g: Graph, walk: seq<string>, r: string)
    requires AtMostOneParent(g) && IsWalk(g, walk) && g[walk[|walk| - 1]] == [] && Descends(g, walk[0], r)
    ensures r in walk
  {
    var other :| IsWalk(g, other) && other[0] == walk[0] && other[|other| - 1] == r;
    WalkEndsAtRoot(g, walk, other, 0, 0);
    WalksAgree(g, walk, other, 0, 0, |other| - 1);
  }

  lemma WalkParents(g: Graph, walk: seq<string>, i: nat, j: nat)
    requires AtMostOneParent(g) && IsWalk(g, walk) && j == i + 1 && j < |walk|
    ensures walk[i] in g && g[walk[i]] == [walk[j]]
  {
    assert walk[j] in g[walk[i]];
  }

  lemma WalkToRootIsChain(g: Graph, walk: seq<string>)
    requires AtMostOneParent(g) && IsWalk(g, walk) && g[walk[|walk| - 1]] == []
    requires forall r :: r in g ==> Descends(g, walk[0], r)
    ensures IsChain(g, walk)
  {
    assert forall i :: 0 <= i < |walk| ==> walk[i] in g;
    hide IsWalk, AtMostOneParent, Descends;
    forall i, j | 0 <= i < j < |walk|
      ensures walk[i] != walk[j]
    {
      WalkToRootRepeatsNothing(g, walk, i, j);
    }
    forall r | r in g
      ensures r in walk
    {
      WalkToRootMeets(g, walk, r);
    }
    forall i, j | 0 <= i < |walk| && j == i + 1 && j < |walk|
      ensures g[walk[i]] == [walk[j]]
    {
      WalkParents(g, walk, i, j);
    }
  }

  lemma AcceptedChain(g: Graph, head: string) returns (chain: seq<string>)
    requires AtMostOneParent(g) && HasRoot(g) && Accepts(g, head)
    ensures IsChain(g, chain) && chain[0] == head
  {
    hide AtMostOneParent, HasChild;
    var root :| root in g && g[root] == [];
    assert Descends(g, head, root);
    chain :| IsWalk(g, chain) && chain[0] == head && chain[|chain| - 1] == root;
    WalkToRootIsChain(g, chain);
  }

  lemma ChainAccepted(g: Graph, chain: seq<string>)
    requires IsChain(g, chain)
    ensures AtMostOneParent(g) && HasRoot(g) && Accepts(g, chain[0])
  {
    var head := chain[0];
    var last := |chain| - 1;
    assert chain[last] in g;
    forall r | r in g
      ensures |g[r]| <= 1 && (HasChild(g, r) <==> r != head) && Descends(g, head, r) && forall p :: p in g[r] ==> p in g
    {
      var i := ChainPlace(g, chain, r);
    }
  }

  lemma ChainPlace(g: Graph, chain: seq<string>, r: string) returns (i: nat)
    requires IsChain(g, chain) && r in g
    ensures |g[r]| <= 1 && (HasChild(g, r) <==> r != chain[0]) && Descends(g, chain[0], r)
    ensures forall p :: p in g[r] ==> p in g
  {
    i :| 0 <= i < |chain| && chain[i] == r;
    ChainParents(g, chain, i);
    ChainChildren(g, chain, i);
    ChainDescends(g, chain, i);
  }

  lemma ChainParents(g: Graph, chain: seq<string>, i: nat)
    requires IsChain(g, chain) && i < |chain|
    ensures chain[i] in g && g[chain[i]] == if i == |chain| - 1 then [] else [chain[i + 1]]
    ensures forall p :: p in g[chain[i]] ==> p in g
  {
    var j := i + 1;
    assert j < |chain| ==> g[chain[i]] == [chain[j]] && chain[j] in g;
  }

  lemma ChainChildren(g: Graph, chain: seq<string>, i: nat)
    requires IsChain(g, chain) && i < |chain|
    ensures HasChild(g, chain[i]) <==> i != 0
    ensures chain[i] == chain[0] <==> i == 0
  {
    if i > 0 {
      ChainParents(g, chain, i - 1);
      assert chain[i] in g[chain[i - 1]];
    }
    if HasChild(g, chain[i]) {
      var c :| c in g && chain[i] in g[c];
      var k :| 0 <= k < |chain| && chain[k] == c;
      ChainParents(g, chain, k);
    }
  }

  lemma ChainDescends(g: Graph, chain: seq<string>, i: nat)
    requires IsChain(g, chain) && i < |chain|
    ensures Descends(g, chain[0], chain[i])
  {
    var walk := chain[..i + 1];
    forall a, b | 0 <= a < |walk| && b == a + 1 && b < |walk|
      ensures walk[a] in g && walk[b] in g[walk[a]]
    {
      ChainParents(g, chain, a);
    }
    ChainParents(g, chain, i);
    assert IsWalk(g, walk) && walk[0] == chain[0] && walk[|walk| - 1] == chain[i];
  }

  /** A graph in which no revision has two parents and some revision has none is accepted exactly
      when its revisions form one line without repetition. */
  lemma AcceptedExactlyChains(g: Graph)
    requires AtMostOneParent(g) && HasRoot(g)
    ensures (exists head :: Accepts(g, head)) <==> (exists chain :: IsChain(g, chain))
  {
    if head :| Accepts(g, head) {
      var chain := AcceptedChain(g, head);
    }
    if chain :| IsChain(g, chain) {
      ChainAccepted(g, chain);
    }
  }

  // ----- what the error text promises: no cycle -----

  /** No walk through parents comes back to where it started. */
  ghost predicate Acyclic(g: Graph) {
    forall walk :: IsWalk(g, walk) && |walk| > 1 ==> walk[0] != walk[|walk| - 1]
  }

  lemma ChainIsWalk(g: Graph, chain: seq<string>)
    requires IsChain(g, chain)
    ensures IsWalk(g, chain)
  {
    forall i | 0 <= i < |chain| ensures chain[i] in g {
      ChainParents(g, chain, i);
    }
    forall i, j | 0 <= i < |chain| && j == i + 1 && j < |chain| ensures chain[j] in g[chain[i]] {
      ChainParents(g, chain, i);
    }
  }

  lemma ChainAcyclic(g: Graph, chain: seq<string>, walk: seq<string>)
    requires IsChain(g, chain) && IsWalk(g, walk) && |walk| > 1
    ensures walk[0] != walk[|walk| - 1]
  {
    ChainIsWalk(g, chain);
    ChainAccepted(g, chain);
    assert walk[0] in g;
    var i :| 0 <= i < |chain| && chain[i] == walk[0];
    WalkEndsAtRoot(g, chain, walk, i, 0);
    WalksAgree(g, chain, walk, i, 0, |walk| - 1);
  }

  ghost predicate HasParentIn(g: Graph, r: string, within: set<string>)
    requires r in g
  {
    exists p :: p in g[r] && p in within
  }

  lemma WalkFurther(g: Graph, walk: seq<string>, p: string)
    requires IsWalk(g, walk) && p in g && p in g[walk[|walk| - 1]]
    ensures IsWalk(g, walk + [p])
  {
  }

  /** A walk of any length inside a set in which every revision has a parent. */
  lemma {:induction false} LongWalk(g: Graph, within: set<string>, start: string, n: nat) returns (walk: seq<string>)
    requires within <= g.Keys && start in within && forall r :: r in within ==> HasParentIn(g, r, within)
    ensures IsWalk(g, walk) && |walk| == n + 1 && forall i :: 0 <= i < |walk| ==> walk[i] in within
    decreases n
  {
    if n == 0 {
      walk := [start];
    } else {
      var before := LongWalk(g, within, start, n - 1);
      var last := before[n - 1];
      assert HasParentIn(g, last, within);
      var p :| p in g[last] && p in within;
      hide HasParentIn, IsWalk;
      WalkFurther(g, before, p);
      walk := before + [p];
    }
  }

  lemma SubWalk(g: Graph, walk: seq<string>, i: nat, j: nat)
    requires IsWalk(g, walk) && Acyclic(g) && i < j < |walk|
    ensures walk[i] != walk[j]
  {
    var part := walk[i..j + 1];
    forall a, b | 0 <= a < |part| && b == a + 1 && b < |part| ensures part[b] in g[part[a]] {
      NextParent(g, walk, i + a, i + b);
      assert walk[i + b] in g[walk[i + a]];
    }
    assert IsWalk(g, part) && part[0] == walk[i] && part[|part| - 1] == walk[j];
  }

  /** Without cycles every nonempty set of revisions has one whose parents are all outside. */
  lemma Oldest(g: Graph, within: set<string>) returns (r: string)
    requires Acyclic(g) && within <= g.Keys && within != {}
    ensures r in within && forall p :: p in g[r] ==> p !in within
  {
    var start :| start in within;
    hide Acyclic, IsWalk;
    if forall r :: r in within ==> HasParentIn(g, r, within) {
      var walk := LongWalk(g, within, start, |within|);
      hide HasParentIn;
      forall i, j | 0 <= i < j < |walk| ensures walk[i] != walk[j] {
        SubWalk(g, walk, i, j);
      }
      DistinctFits(walk, within);
    }
    r :| r in within && !HasParentIn(g, r, within);
  }

  lemma AcyclicHasRoot(g: Graph, start: string)
    requires ParentsKnown(g) && start in g && Acyclic(g)
    ensures HasRoot(g)
  {
    var r := Oldest(g, g.Keys);
    SomeParent(g[r]);
  }

  lemma SomeParent(parents: seq<string>)
    ensures parents == [] || exists p :: p in parents
  {
    assert parents == [] || parents[0] in parents;
  }

  /** A list of the given revisions, each once, in which every revision stands before its parents. */
  ghost predicate IsOrder(g: Graph, revisions: set<string>, order: seq<string>)
    requires revisions <= g.Keys
  {
    && (forall r :: r in revisions <==> r in order)
    && (forall i, j :: 0 <= i < j < |order| ==> order[i] != order[j])
    && (forall i, j :: 0 <= i < |order| && 0 <= j < |order| && order[j] in g[order[i]] ==> i < j)
  }

  lemma {:induction false} AcyclicOrder(g: Graph, revisions: set<string>) returns (order: seq<string>)
    requires Acyclic(g) && revisions <= g.Keys
    ensures IsOrder(g, revisions, order)
    decreases revisions
  {
    if revisions == {} {
      order := [];
    } else {
      var r := Oldest(g, revisions);
      hide Acyclic;
      var before := AcyclicOrder(g, revisions - {r});
      order := before + [r];
    }
  }

  /** A walk only ever goes to later places of the list. */
  lemma {:induction false} WalkGoesOn(g: Graph, order: seq<string>, walk: seq<string>, a: nat, i: nat) returns (b: nat)
    requires IsOrder(g, g.Keys, order) && IsWalk(g, walk) && i < |walk| && a < |order| && order[a] == walk[0]
    ensures b < |order| && order[b] == walk[i] && a <= b && (i > 0 ==> a < b)
    decreases i
  {
    if i == 0 {
      b := a;
    } else {
      var k := i - 1;
      var c := WalkGoesOn(g, order, walk, a, k);
      assert walk[i] in g && walk[i] in g[walk[k]];
      b :| 0 <= b < |order| && order[b] == walk[i];
    }
  }

  /** Every graph, accepted or not, has no cycle exactly if its revisions can be listed once each, every
      revision before its parents. */
  lemma AcyclicExactlyOrdered(g: Graph)
    ensures Acyclic(g) <==> exists order :: IsOrder(g, g.Keys, order)
  {
    if Acyclic(g) {
      var order := AcyclicOrder(g, g.Keys);
    }
    if order :| IsOrder(g, g.Keys, order) {
      hide IsOrder;
      forall walk | IsWalk(g, walk) && |walk| > 1 ensures walk[0] != walk[|walk| - 1] {
        WalkMovesAway(g, order, walk);
      }
    }
  }

  lemma WalkMovesAway(g: Graph, order: seq<string>, walk: seq<string>)
    requires IsOrder(g, g.Keys, order) && IsWalk(g, walk) && |walk| > 1
    ensures walk[0] != walk[|walk| - 1]
  {
    assert walk[0] in g;
    var a :| 0 <= a < |order| && order[a] == walk[0];
    var b := WalkGoesOn(g, order, walk, a, |walk| - 1);
  }

  /** An accepted graph without merges has no cycle exactly if some revision has no parent, and then
      exactly if it is one chain. */
  lemma AcyclicExactlyRooted(g: Graph, head: string)
    requires AtMostOneParent(g) && Accepts(g, head)
    ensures HasRoot(g) <==> Acyclic(g)
    ensures HasRoot(g) <==> exists chain :: IsChain(g, chain)
  {
    hide IsWalk, IsChain;
    if HasRoot(g) {
      var chain := AcceptedChain(g, head);
      forall walk | IsWalk(g, walk) && |walk| > 1 ensures walk[0] != walk[|walk| - 1] {
        ChainAcyclic(g, chain, walk);
      }
    }
    if Acyclic(g) {
      AcyclicHasRoot(g, head);
    }
    if chain :| IsChain(g, chain) {
      ChainAccepted(g, chain);
    }
  }

  /** Without a root there is a cycle below the head, which the code does not notice. */
  lemma CycleAccepted(h: string, a: string, b: string)
    requires h != a && a != b && b != h
    ensures var g := map[h := [a], a := [b], b := [a]];
            Accepts(g, h) && AtMostOneParent(g) && !HasRoot(g) && !Acyclic(g) && !exists chain :: IsChain(g, chain)
  {
    var g := map[h := [a], a := [b], b := [a]];
    assert a in g[h] && b in g[a] && a in g[b];
    assert HasChild(g, a) && HasChild(g, b) && !HasChild(g, h);
    StandStill(g, h);
    WalkOn(g, h, h, a);
    WalkOn(g, h, a, b);
    RoundTrip(g, a, b);
  }

  lemma RoundTrip(g: Graph, a: string, b: string)
    requires a in g && b in g && b in g[a] && a in g[b]
    ensures !Acyclic(g)
  {
    var walk := [a, b, a];
    assert IsWalk(g, walk) && walk[0] == walk[2];
  }

  /** With a merge there may be a cycle although there is a root. */
  lemma CycleBesideRootAccepted(h: string, a: string, b: string, r: string)
    requires h != a && a != b && b != h && r != h && r != a && r != b
    ensures var g := map[h := [a, r], a := [b], b := [a], r := []];
            Accepts(g, h) && HasRoot(g) && !Acyclic(g)
  {
    var g := map[h := [a, r], a := [b], b := [a], r := []];
    assert g[h][0] == a && g[h][1] == r && g[a][0] == b && g[b][0] == a;
    assert a in g[h] && r in g[h] && b in g[a] && a in g[b];
    assert HasChild(g, a) && HasChild(g, b) && HasChild(g, r) && !HasChild(g, h);
    StandStill(g, h);
    WalkOn(g, h, h, a);
    WalkOn(g, h, h, r);
    WalkOn(g, h, a, b);
    RoundTrip(g, a, b);
  }
}
