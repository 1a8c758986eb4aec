/** `verify_test_evidence` of scripts/check_coverage_gates.py: the test shards of one commit are
    accepted together with an independent inventory, or refused.  A refusal is any exception. */
module TestEvidence {
  import opened Text
  import opened Json
  import opened TestPartition
  import opened Counting

  const CRITICAL_MARKERS := ["property", "concurrency", "fault_injection", "authorization", "idempotency"]
  const LUA_PREFIX := "tests/test_vendor_bucket_clock.py::"
  const LUA_REASON := "requires Lua; real Redis also covered by integration"
  const RESET_NODE := "tests/test_deployment_docs.py::test_development_high_risk_release_reload_boundary_is_documented"
  const RESET_REASON := "private-only reset plan is intentionally absent from public snapshot"
  const REHEARSAL_NODE :=
    "tests/test_test_update_workflow_docs.py::test_rehearsal_report_records_five_consecutive_verified_updates"
  const REHEARSAL_REASON := "private-only rehearsal report is intentionally absent from public snapshot"

  predicate Contains(text: string, part: string) {
    exists i :: 0 <= i <= |text| && StartsWith(text[i..], part)
  }

  predicate AllowedSkip(node: string, reason: string) {
    if node == RESET_NODE then Contains(reason, RESET_REASON)
    else if node == REHEARSAL_NODE then Contains(reason, REHEARSAL_REASON)
    else StartsWith(node, LUA_PREFIX) && Contains(reason, LUA_REASON)
  }

  // Python's `== 1` and `== 0` on a JSON value.
  predicate IsOne(v: Value) {
    v == Bool(true) || (v.Num? && (v.token == "1" || v.token == "1.0"))
  }

  predicate IsZero(v: Value) {
    v == Bool(false) || (v.Num? && (v.token == "0" || v.token == "0.0" || v.token == "-0.0"))
  }

  predicate Distinct<T(==)>(s: seq<T>) {
    forall i, j :: 0 <= i < j < |s| ==> s[i] != s[j]
  }

  predicate IsNodeList(v: Value) {
    && v.Arr?
    && (forall i :: 0 <= i < |v.items| ==> v.items[i].Str? && v.items[i].s != "")
    && Distinct(v.items)
  }

  /** `_nodes`: a list of distinct non-empty strings, read as a set; anything else is refused. */
  function Nodes(v: Value): Option<set<string>> {
    if IsNodeList(v) then Some(set i | 0 <= i < |v.items| :: v.items[i].s) else None
  }

  predicate HeaderFits(part: Value, commit: string) {
    part.Obj? && IsOne(Get(part, "schema")) && Get(part, "sha") == Str(commit) && IsZero(Get(part, "exit_code"))
  }

  // ----- what one shard has to show -----

  datatype Plan = Plan(all: set<string>, isolated: set<string>, units: nat, postgres: nat) {
    predicate Valid() {
      1 <= units <= 16 && 1 <= postgres <= 16 && all != {} && isolated != {} && isolated <= all
    }

    /** The nodes that belong to a shard. */
    function Expected(digest: string -> nat, shard: Shard): set<string>
      requires ValidShard(shard)
    {
      set n | n in (if shard.kind == Postgres then isolated else all - isolated) &&
              PartitionIndex(digest, n, shard.kind, shard.count) == shard.index
    }

    /** The shard a node belongs to. */
    function Home(digest: string -> nat, node: string): Shard
      requires Valid()
    {
      var kind := if node in isolated then Postgres else Unit;
      var count := if node in isolated then postgres else units;
      Shard(kind, PartitionIndex(digest, node, kind, count), count)
    }
  }

  predicate IsSkipMap(v: Value) {
    v.Obj? && forall k :: k in v.members ==> v.members[k].Str?
  }

  function LuaSkips(skips: map<string, Value>): set<string> {
    set n | n in skips.Keys && StartsWith(n, LUA_PREFIX)
  }

  /** The evidence of one shard on its own: what was collected either passed or was skipped for a
      known reason, nothing failed, and the collection is the one that the inventory calls for. */
  predicate PartFits(plan: Plan, digest: string -> nat, shard: Shard, part: Value)
    requires ValidShard(shard)
  {
    FieldsFit(plan.Expected(digest, shard), shard.kind, Nodes(Get(part, "collected")), Nodes(Get(part, "passed")),
              Nodes(Get(part, "failed")), Get(part, "skipped"))
  }

  predicate FieldsFit(expected: set<string>, kind: Kind, nodes: Option<set<string>>, success: Option<set<string>>,
                      failed: Option<set<string>>, skips: Value)
  {
    && nodes.Some? && success.Some? && failed == Some({}) && IsSkipMap(skips)
    && nodes.value != {}
    && success.value !! skips.members.Keys
    && success.value + skips.members.Keys == nodes.value
    && nodes.value == expected
    && (kind == Postgres ==> skips.members == map[])
    && (forall n :: n in skips.members ==> AllowedSkip(n, skips.members[n].s))
    && |LuaSkips(skips.members)| <= 11
  }

  function SetOf(v: Option<set<string>>): set<string> {
    if v.Some? then v.value else {}
  }

  function Collected(part: Value): set<string> {
    SetOf(Nodes(Get(part, "collected")))
  }

  function PassedIn(part: Value): set<string> {
    SetOf(Nodes(Get(part, "passed")))
  }

  /** All nodes that passed in some shard. */
  function Passed(parts: seq<Value>): set<string> {
    set i, n | 0 <= i < |parts| && n in PassedIn(parts[i]) :: n
  }

  function CollectedBy(parts: seq<Value>): set<string> {
    set i, n | 0 <= i < |parts| && n in Collected(parts[i]) :: n
  }

  // ----- the whole verdict -----

  function NameIn(part: Value): Value {
    Get(part, "shard")
  }

  /** The shard a part claims to be. */
  ghost predicate Claims(plan: Plan, part: Value, shard: Shard) {
    shard in Shards(plan.units, plan.postgres) && ValidShard(shard) &&
    NameIn(part) == Str(PartitionName(shard).value)
  }

  ghost predicate MarkersPassed(markers: Value, parts: seq<Value>) {
    && markers.Obj?
    && forall i :: 0 <= i < |CRITICAL_MARKERS| ==> MarkerPassed(markers, CRITICAL_MARKERS[i], Passed(parts))
  }

  predicate MarkerPassed(markers: Value, name: string, passed: set<string>) {
    var required := Nodes(Get(markers, name));
    required.Some? && required.value != {} && required.value <= passed
  }

  /** When evidence is good.  It says neither that shards are disjoint nor that they cover the
      inventory: both follow (`NoOverlap` and `Covered`). */
  ghost predicate Acceptable(inventory: Value, parts: seq<Value>, commit: string, units: int, postgres: int,
                             digest: string -> nat)
  {
    && Get(inventory, "shard") == Str("inventory")
    && 1 <= units <= 16 && 1 <= postgres <= 16
    && var plan := PlanOf(inventory, units, postgres);
    && HeaderFits(inventory, commit)
    && (forall i :: 0 <= i < |parts| ==> HeaderFits(parts[i], commit))
    && Good(plan, digest, parts)
    && MarkersPassed(Get(inventory, "markers"), parts)
  }

  ghost predicate Good(plan: Plan, digest: string -> nat, parts: seq<Value>) {
    && plan.Valid()
    && |parts| == plan.units + plan.postgres
    && forall s :: s in Shards(plan.units, plan.postgres) ==> Reported(plan, digest, s, parts)
  }

  function PlanOf(inventory: Value, units: nat, postgres: nat): Plan {
    Plan(SetOf(Nodes(Get(inventory, "collected"))), SetOf(Nodes(Get(inventory, "isolated"))), units, postgres)
  }

  ghost predicate Reported(plan: Plan, digest: string -> nat, shard: Shard, parts: seq<Value>) {
    exists i :: Stands(plan, digest, shard, parts, i)
  }

  /** Part `i` is the evidence of a shard. */
  ghost predicate Stands(plan: Plan, digest: string -> nat, shard: Shard, parts: seq<Value>, i: int) {
    0 <= i < |parts| && Claims(plan, parts[i], shard) && PartFits(plan, digest, shard, parts[i])
  }

  // ----- what good evidence implies -----

  lemma StandsOnce(plan: Plan, digest: string -> nat, parts: seq<Value>, i: int, s: Shard, t: Shard)
    requires 1 <= plan.units <= 16 && 1 <= plan.postgres <= 16
    requires Stands(plan, digest, s, parts, i) && Stands(plan, digest, t, parts, i)
    ensures s == t
  {
    ShardFacts(plan.units, plan.postgres, s);
    ShardFacts(plan.units, plan.postgres, t);
    hide PartFits, PartitionName, Shards;
    NameInjective(s, t);
  }

  lemma StandIn(plan: Plan, digest: string -> nat, s: Shard, parts: seq<Value>) returns (j: nat)
    requires Reported(plan, digest, s, parts)
    ensures j < |parts| && Stands(plan, digest, s, parts, j)
  {
    j :| Stands(plan, digest, s, parts, j);
  }

  /** There are as many parts as shards, and a part for every shard. */
  lemma Seats(plan: Plan, digest: string -> nat, parts: seq<Value>) returns (shards: set<Shard>, at: (nat, Shard) -> bool)
    requires Good(plan, digest, parts)
    ensures shards == Shards(plan.units, plan.postgres) && |shards| == |parts|
    ensures forall j: nat, s :: at(j, s) <==> Stands(plan, digest, s, parts, j)
    ensures forall s :: s in shards ==> exists j :: 0 <= j < |parts| && at(j, s)
    ensures forall j, s, t :: s in shards && t in shards && at(j, s) && at(j, t) ==> s == t
  {
    shards := Shards(plan.units, plan.postgres);
    ShardCount(plan.units, plan.postgres);
    at := (j: nat, s: Shard) => Stands(plan, digest, s, parts, j);
    assert 1 <= plan.units <= 16 && 1 <= plan.postgres <= 16;
    hide Shards, Stands, Plan.Valid;
    forall j: nat, s, t | s in shards && t in shards && at(j, s) && at(j, t)
      ensures s == t
    {
      StandsOnce(plan, digest, parts, j, s, t);
    }
    forall s | s in shards
      ensures exists j :: 0 <= j < |parts| && at(j, s)
    {
      assert Reported(plan, digest, s, parts);
      var j := StandIn(plan, digest, s, parts);
      assert at(j, s);
    }
  }

  /** Every part is the evidence of a shard. */
  lemma PartReports(plan: Plan, digest: string -> nat, parts: seq<Value>, i: nat) returns (shard: Shard)
    requires Good(plan, digest, parts) && i < |parts|
    ensures shard in Shards(plan.units, plan.postgres) && Stands(plan, digest, shard, parts, i)
  {
    var shards, at := Seats(plan, digest, parts);
    hide *;
    Pigeonhole(shards, |parts|, at, i);
    shard :| shard in shards && at(i, shard);
  }

  /** No shard is reported twice. */
  lemma ReportedOnce(plan: Plan, digest: string -> nat, parts: seq<Value>, s: Shard, i: nat, j: nat)
    requires Good(plan, digest, parts) && s in Shards(plan.units, plan.postgres)
    requires Stands(plan, digest, s, parts, i) && Stands(plan, digest, s, parts, j)
    ensures i == j
  {
    assert i < |parts| && j < |parts|;
    var shards, at := Seats(plan, digest, parts);
    hide *;
    PigeonholeOnce(shards, |parts|, at, s, i, j);
  }

  /** The shard of a node is the only one that has to collect it. */
  lemma HomeOnly(plan: Plan, digest: string -> nat, s: Shard, node: string)
    requires plan.Valid()
    ensures plan.Home(digest, node) in Shards(plan.units, plan.postgres)
    ensures s in Shards(plan.units, plan.postgres) ==>
            && ValidShard(s)
            && (node in plan.Expected(digest, s) <==> node in plan.all && s == plan.Home(digest, node))
  {
    hide PartitionIndex;
    ShardFacts(plan.units, plan.postgres, s);
    ShardFacts(plan.units, plan.postgres, plan.Home(digest, node));
  }

  /** Every node of the inventory is collected by exactly one part, the evidence of its shard. */
  lemma CollectedOnce(plan: Plan, digest: string -> nat, parts: seq<Value>, node: string) returns (i: nat)
    requires Good(plan, digest, parts) && node in plan.all
    ensures i < |parts| && Stands(plan, digest, plan.Home(digest, node), parts, i)
    ensures forall j :: 0 <= j < |parts| ==> (node in Collected(parts[j]) <==> i == j)
  {
    var home := plan.Home(digest, node);
    HomeOnly(plan, digest, home, node);
    assert Reported(plan, digest, home, parts);
    i := StandIn(plan, digest, home, parts);
    forall j | 0 <= j < |parts|
      ensures node in Collected(parts[j]) <==> i == j
    {
      var s := PartReports(plan, digest, parts, j);
      StandsCollected(plan, digest, s, parts, j);
      HomeOnly(plan, digest, s, node);
      hide *;
      if s == home {
        ReportedOnce(plan, digest, parts, home, i, j);
      } else {
        StandsCollected(plan, digest, home, parts, i);
      }
    }
  }

  lemma StandsCollected(plan: Plan, digest: string -> nat, s: Shard, parts: seq<Value>, i: nat)
    requires Stands(plan, digest, s, parts, i)
    ensures ValidShard(s) && Collected(parts[i]) == plan.Expected(digest, s)
  {
    hide Shards, Plan.Expected, Nodes, PartitionName, LuaSkips, AllowedSkip, IsSkipMap;
  }

  // ----- the code -----

  lemma NamesInjective(units: nat, postgres: nat)
    requires 1 <= units <= 16 && 1 <= postgres <= 16
    ensures forall s :: s in Shards(units, postgres) ==> PartitionName(s).Some?
    ensures forall s, t | s in Shards(units, postgres) && t in Shards(units, postgres) ::
              PartitionName(s) == PartitionName(t) ==> s == t
  {
    forall s | s in Shards(units, postgres)
      ensures PartitionName(s).Some?
    {
      ShardFacts(units, postgres, s);
    }
    forall s, t | s in Shards(units, postgres) && t in Shards(units, postgres) && PartitionName(s) == PartitionName(t)
      ensures s == t
    {
      ShardFacts(units, postgres, s);
      ShardFacts(units, postgres, t);
      NameInjective(s, t);
    }
  }

  /** The table of expected parts, by name. */
  function ExpectedParts(units: nat, postgres: nat): (m: map<string, Shard>)
    requires 1 <= units <= 16 && 1 <= postgres <= 16
    ensures forall s :: s in Shards(units, postgres) ==> PartitionName(s).Some? && PartitionName(s).value in m
    ensures forall n :: n in m ==> m[n] in Shards(units, postgres) && PartitionName(m[n]) == Some(n)
  {
    NamesInjective(units, postgres);
    map s | s in Shards(units, postgres) :: PartitionName(s).value := s
  }

  lemma ExpectedPartCount(units: nat, postgres: nat)
    requires 1 <= units <= 16 && 1 <= postgres <= 16
    ensures |ExpectedParts(units, postgres)| == units + postgres
  {
    var m := ExpectedParts(units, postgres);
    NamesInjective(units, postgres);
    ShardCount(units, postgres);
    hide ExpectedParts, PartitionName, Shards;
    forall s | s in Shards(units, postgres)
      ensures exists n :: n in m && m[n] == s
    {
      assert m[PartitionName(s).value] == s;
    }
    MapSize(m, Shards(units, postgres));
  }

  /** The names the parts go by. */
  function ClaimedNames(parts: seq<Value>): set<Value> {
    set i | 0 <= i < |parts| && parts[i].Obj? :: NameIn(parts[i])
  }

  predicate NamesMatch(expected: map<string, Shard>, parts: seq<Value>) {
    |parts| == |expected| && ClaimedNames(parts) == KeyNames(expected)
  }

  function KeyNames(expected: map<string, Shard>): set<Value> {
    set n | n in expected :: Str(n)
  }

  lemma NamedPart(plan: Plan, parts: seq<Value>, i: nat)
    requires 1 <= plan.units <= 16 && 1 <= plan.postgres <= 16
    requires NamesMatch(ExpectedParts(plan.units, plan.postgres), parts) && i < |parts| && parts[i].Obj?
    ensures var expected, name := ExpectedParts(plan.units, plan.postgres), NameIn(parts[i]);
            name.Str? && name.s in expected && ValidShard(expected[name.s]) && Claims(plan, parts[i], expected[name.s])
  {
    var expected, name := ExpectedParts(plan.units, plan.postgres), NameIn(parts[i]);
    assert name in ClaimedNames(parts);
    hide ExpectedParts, PartitionName, Shards, Get;
    ShardFacts(plan.units, plan.postgres, expected[name.s]);
  }

  lemma StandsName(plan: Plan, digest: string -> nat, s: Shard, parts: seq<Value>, i: nat)
    requires Stands(plan, digest, s, parts, i)
    ensures i < |parts| && parts[i].Obj? && PartitionName(s).Some? && NameIn(parts[i]) == Str(PartitionName(s).value)
  {
    hide PartFits, Shards;
  }

  lemma NameClaimed(plan: Plan, digest: string -> nat, parts: seq<Value>, s: Shard)
    requires Good(plan, digest, parts) && s in Shards(plan.units, plan.postgres) && PartitionName(s).Some?
    ensures Str(PartitionName(s).value) in ClaimedNames(parts)
  {
    assert Reported(plan, digest, s, parts);
    hide Good, Reported, Stands, Shards, PartitionName, NameIn, Plan.Valid;
    var j := StandIn(plan, digest, s, parts);
    StandsName(plan, digest, s, parts, j);
  }

  lemma KeyClaimed(plan: Plan, digest: string -> nat, parts: seq<Value>, v: Value)
    requires Good(plan, digest, parts) && v in KeyNames(ExpectedParts(plan.units, plan.postgres))
    ensures v in ClaimedNames(parts)
  {
    hide Good, Plan.Valid, ExpectedParts, PartitionName, Shards, NameIn, ClaimedNames;
    GoodCount(plan, digest, parts);
    NameClaimed(plan, digest, parts, ExpectedParts(plan.units, plan.postgres)[v.s]);
  }

  lemma ClaimExpected(plan: Plan, digest: string -> nat, parts: seq<Value>, i: nat)
    requires Good(plan, digest, parts) && i < |parts|
    ensures NameIn(parts[i]) in KeyNames(ExpectedParts(plan.units, plan.postgres))
  {
    hide Stands, Shards, PartitionName, NameIn, Reported, ExpectedParts;
    var s := PartReports(plan, digest, parts, i);
    StandsName(plan, digest, s, parts, i);
  }

  lemma ClaimKeyed(plan: Plan, digest: string -> nat, parts: seq<Value>, v: Value)
    requires Good(plan, digest, parts) && v in ClaimedNames(parts)
    ensures v in KeyNames(ExpectedParts(plan.units, plan.postgres))
  {
    hide Good, Plan.Valid, ExpectedParts, PartitionName, Shards, NameIn, KeyNames;
    var i :| 0 <= i < |parts| && parts[i].Obj? && NameIn(parts[i]) == v;
    ClaimExpected(plan, digest, parts, i);
  }

  lemma GoodNames(plan: Plan, digest: string -> nat, parts: seq<Value>)
    requires Good(plan, digest, parts)
    ensures NamesMatch(ExpectedParts(plan.units, plan.postgres), parts)
  {
    GoodCount(plan, digest, parts);
    hide Good, Plan.Valid, ExpectedParts, KeyNames, ClaimedNames;
    ExpectedPartCount(plan.units, plan.postgres);
    forall v
      ensures v in KeyNames(ExpectedParts(plan.units, plan.postgres)) <==> v in ClaimedNames(parts)
    {
      if v in KeyNames(ExpectedParts(plan.units, plan.postgres)) {
        KeyClaimed(plan, digest, parts, v);
      }
      if v in ClaimedNames(parts) {
        ClaimKeyed(plan, digest, parts, v);
      }
    }
  }

  lemma GoodCount(plan: Plan, digest: string -> nat, parts: seq<Value>)
    requires Good(plan, digest, parts)
    ensures 1 <= plan.units <= 16 && 1 <= plan.postgres <= 16 && |parts| == plan.units + plan.postgres
    ensures plan.Valid()
  {
  }

  ghost predicate PartStands(plan: Plan, digest: string -> nat, parts: seq<Value>, i: int) {
    exists s :: Stands(plan, digest, s, parts, i)
  }

  lemma StandsFor(plan: Plan, digest: string -> nat, parts: seq<Value>, i: nat, s: Shard)
    requires 1 <= plan.units <= 16 && 1 <= plan.postgres <= 16 && s in Shards(plan.units, plan.postgres)
    requires PartStands(plan, digest, parts, i)
    requires PartitionName(s).Some? && i < |parts| && NameIn(parts[i]) == Str(PartitionName(s).value)
    ensures Stands(plan, digest, s, parts, i)
  {
    NamesInjective(plan.units, plan.postgres);
    var t :| Stands(plan, digest, t, parts, i);
    StandsName(plan, digest, t, parts, i);
    hide PartFits, PartitionName, NameIn, Shards;
  }

  lemma PartsGood(plan: Plan, digest: string -> nat, parts: seq<Value>)
    requires plan.Valid() && NamesMatch(ExpectedParts(plan.units, plan.postgres), parts)
    requires forall i :: 0 <= i < |parts| ==> PartStands(plan, digest, parts, i)
    ensures Good(plan, digest, parts)
  {
    var expected := ExpectedParts(plan.units, plan.postgres);
    ExpectedPartCount(plan.units, plan.postgres);
    hide Stands, PartStands, ExpectedParts, PartitionName, Shards, NameIn;
    forall s | s in Shards(plan.units, plan.postgres)
      ensures Reported(plan, digest, s, parts)
    {
      var name := PartitionName(s).value;
      assert Str(name) in ClaimedNames(parts);
      var i :| 0 <= i < |parts| && parts[i].Obj? && NameIn(parts[i]) == Str(name);
      StandsFor(plan, digest, parts, i, s);
    }
  }

  lemma DisjointSets(a: set<string>, b: set<string>)
    requires a * b == {}
    ensures a !! b
  {
    forall x | x in a
      ensures x !in b
    {
      assert x in a * b <==> x in b;
    }
  }

  /** One turn of the loop over the parts: the nodes collected and the nodes that passed. */
  method CheckPart(plan: Plan, digest: string -> nat, shard: Shard, part: Value, seen: set<string>)
      returns (r: Option<(set<string>, set<string>)>)
    requires ValidShard(shard)
    ensures r.Some? <==> PartFits(plan, digest, shard, part) && Collected(part) !! seen
    ensures r.Some? ==> r.value == (Collected(part), PassedIn(part))
  {
    hide Nodes, Get, PartitionIndex, AllowedSkip, LuaSkips;
    var nodes, success, failed, skips :=
      Nodes(Get(part, "collected")), Nodes(Get(part, "passed")), Nodes(Get(part, "failed")), Get(part, "skipped");
    if nodes.None? || success.None? || failed.None? || !IsSkipMap(skips) {
      return None;
    }
    var skipped := skips.members.Keys;
    if nodes.value == {} || nodes.value * seen != {} || failed.value != {} || success.value * skipped != {} ||
       success.value + skipped != nodes.value {
      return None;
    }
    DisjointSets(nodes.value, seen);
    DisjointSets(success.value, skipped);
    var candidates := if shard.kind == Postgres then plan.isolated else plan.all - plan.isolated;
    var expected := set n | n in candidates && PartitionIndex(digest, n, shard.kind, shard.count) == shard.index;
    assert expected == plan.Expected(digest, shard);
    if nodes.value != expected {
      return None;
    }
    if shard.kind == Postgres && skips.members != map[] {
      return None;
    }
    if exists n :: n in skips.members && !AllowedSkip(n, skips.members[n].s) {
      return None;
    }
    if |LuaSkips(skips.members)| > 11 {
      return None;
    }
    return Some((nodes.value, success.value));
  }

  lemma Extended(parts: seq<Value>, i: nat)
    requires i < |parts|
    ensures CollectedBy(parts[..i + 1]) == CollectedBy(parts[..i]) + Collected(parts[i])
    ensures Passed(parts[..i + 1]) == Passed(parts[..i]) + PassedIn(parts[i])
  {
    hide Collected, PassedIn;
    assert parts[..i + 1] == parts[..i] + [parts[i]];
  }

  /** Good evidence passes the check that shards do not overlap. */
  lemma NoOverlap(plan: Plan, digest: string -> nat, parts: seq<Value>, i: nat)
    requires Good(plan, digest, parts) && i < |parts|
    ensures Collected(parts[i]) !! CollectedBy(parts[..i])
  {
    var s := PartReports(plan, digest, parts, i);
    StandsCollected(plan, digest, s, parts, i);
    hide Good, Collected, Stands, Plan.Home, PartitionIndex;
    forall n | n in Collected(parts[i])
      ensures n !in CollectedBy(parts[..i])
    {
      assert n in plan.all;
      var k := CollectedOnce(plan, digest, parts, n);
    }
  }

  /** Good evidence passes the check that shards cover the inventory. */
  lemma Covered(plan: Plan, digest: string -> nat, parts: seq<Value>)
    requires Good(plan, digest, parts)
    ensures CollectedBy(parts) == plan.all
  {
    GoodCount(plan, digest, parts);
    hide Good, Collected, Stands, Plan.Home, PartitionIndex;
    forall n | n in CollectedBy(parts)
      ensures n in plan.all
    {
      var i :| 0 <= i < |parts| && n in Collected(parts[i]);
      var s := PartReports(plan, digest, parts, i);
      StandsCollected(plan, digest, s, parts, i);
    }
    forall n | n in plan.all
      ensures n in CollectedBy(parts)
    {
      var i := CollectedOnce(plan, digest, parts, n);
    }
  }

  /** What good evidence says about the part that is up next. */
  lemma PartPasses(plan: Plan, digest: string -> nat, parts: seq<Value>, i: nat, shard: Shard)
    requires Good(plan, digest, parts) && i < |parts| && Claims(plan, parts[i], shard)
    ensures PartFits(plan, digest, shard, parts[i]) && Collected(parts[i]) !! CollectedBy(parts[..i])
  {
    NoOverlap(plan, digest, parts, i);
    GoodCount(plan, digest, parts);
    hide PartFits, CollectedBy, Collected, Shards, PartitionName, Good, NameIn;
    var s := PartReports(plan, digest, parts, i);
    assert PartStands(plan, digest, parts, i);
    StandsFor(plan, digest, parts, i, shard);
  }

  lemma Objects(parts: seq<Value>, commit: string)
    requires forall i :: 0 <= i < |parts| ==> HeaderFits(parts[i], commit)
    ensures forall i :: 0 <= i < |parts| ==> parts[i].Obj?
  {
    hide IsOne, IsZero, Get;
  }

  lemma PlanBounds(plan: Plan)
    requires plan.Valid()
    ensures 1 <= plan.units <= 16 && 1 <= plan.postgres <= 16
  {
  }

  lemma NothingYet(parts: seq<Value>)
    requires parts == []
    ensures CollectedBy(parts) == {} && Passed(parts) == {}
  {
  }

  lemma NowStands(plan: Plan, digest: string -> nat, s: Shard, parts: seq<Value>, i: nat)
    requires i < |parts| && ValidShard(s) && Claims(plan, parts[i], s) && PartFits(plan, digest, s, parts[i])
    ensures PartStands(plan, digest, parts, i)
  {
    hide Claims, PartFits;
    assert Stands(plan, digest, s, parts, i);
  }

  method VerifyTestEvidence(inventory: Value, parts: seq<Value>, commit: string, units: int, postgres: int,
                            digest: string -> nat) returns (accepted: bool)
    ensures accepted <==> Acceptable(inventory, parts, commit, units, postgres, digest)
  {
    hide Nodes, Good, Shards, ExpectedParts, HeaderFits, NamesMatch, Plan.Valid, PartFits, Claims, NameIn,
      Collected, PassedIn, Passed, CollectedBy, Stands;
    if !inventory.Obj? || Get(inventory, "shard") != Str("inventory") {
      return false;
    }
    if !(1 <= units <= 16 && 1 <= postgres <= 16) {
      return false;
    }
    ghost var plan := PlanOf(inventory, units, postgres);
    var expected := ExpectedParts(units, postgres);
    if !NamesMatch(expected, parts) {
      if Good(plan, digest, parts) {
        GoodNames(plan, digest, parts);
      }
      return false;
    }
    var valid := CheckInventory(inventory, units, postgres);
    if !valid {
      if Good(plan, digest, parts) {
        GoodCount(plan, digest, parts);
      }
      return false;
    }
    if !HeaderFits(inventory, commit) {
      return false;
    }
    for i := 0 to |parts|
      invariant forall j :: 0 <= j < i ==> HeaderFits(parts[j], commit)
    {
      if !HeaderFits(parts[i], commit) {
        return false;
      }
    }
    Objects(parts, commit);
    var covered, passed := CheckParts(PlanOf(inventory, units, postgres), digest, expected, parts);
    if !covered {
      return false;
    }
    var markers := Get(inventory, "markers");
    if !markers.Obj? {
      return false;
    }
    for i := 0 to |CRITICAL_MARKERS|
      invariant forall j :: 0 <= j < i ==> MarkerPassed(markers, CRITICAL_MARKERS[j], passed)
    {
      if !MarkerPassed(markers, CRITICAL_MARKERS[i], passed) {
        return false;
      }
    }
    return true;
  }

  method CheckInventory(inventory: Value, units: nat, postgres: nat) returns (valid: bool)
    requires 1 <= units <= 16 && 1 <= postgres <= 16
    ensures valid <==> PlanOf(inventory, units, postgres).Valid()
  {
    var all, isolated := Nodes(Get(inventory, "collected")), Nodes(Get(inventory, "isolated"));
    hide Nodes;
    if all.None? || isolated.None? {
      return false;
    }
    return all.value != {} && isolated.value != {} && isolated.value <= all.value;
  }

  /** The loop over the parts and the test that follows it. */
  method CheckParts(plan: Plan, digest: string -> nat, expected: map<string, Shard>, parts: seq<Value>)
      returns (covered: bool, passed: set<string>)
    requires plan.Valid() && expected == ExpectedParts(plan.units, plan.postgres) && NamesMatch(expected, parts)
    requires forall i :: 0 <= i < |parts| ==> parts[i].Obj?
    ensures covered <==> Good(plan, digest, parts)
    ensures covered ==> passed == Passed(parts)
  {
    hide *;
    PlanBounds(plan);
    var seen: set<string> := {};
    passed := {};
    NothingYet(parts[..0]);
    for i := 0 to |parts|
      invariant seen == CollectedBy(parts[..i]) && passed == Passed(parts[..i])
      invariant forall j :: 0 <= j < i ==> PartStands(plan, digest, parts, j)
    {
      NamedPart(plan, parts, i);
      var shard := expected[NameIn(parts[i]).s];
      var r := CheckPart(plan, digest, shard, parts[i], seen);
      if r.None? {
        if Good(plan, digest, parts) {
          PartPasses(plan, digest, parts, i, shard);
        }
        return false, passed;
      }
      NowStands(plan, digest, shard, parts, i);
      Extended(parts, i);
      seen, passed := seen + r.value.0, passed + r.value.1;
    }
    assert parts[..|parts|] == parts;
    PartsGood(plan, digest, parts);
    Covered(plan, digest, parts);
    return seen == plan.all, passed;
  }

  // ----- what acceptance means -----

  /** Accepted evidence accounts for every node of the inventory: exactly one part collected it, the
      one for the node's shard; there it passed, or it was skipped for a known reason and is not
      an isolated node. */
  lemma EveryNodeAccounted(inventory: Value, parts: seq<Value>, commit: string, units: int, postgres: int,
                           digest: string -> nat, node: string) returns (i: nat)
    requires Acceptable(inventory, parts, commit, units, postgres, digest)
    requires node in PlanOf(inventory, units, postgres).all
    ensures var plan := PlanOf(inventory, units, postgres);
            && i < |parts| && plan.Valid() && Claims(plan, parts[i], plan.Home(digest, node))
            && (forall j :: 0 <= j < |parts| ==> (node in Collected(parts[j]) <==> i == j))
            && (node in PassedIn(parts[i]) || SkippedIn(parts[i], node))
            && (node in plan.isolated ==> node in PassedIn(parts[i]))
  {
    var plan := PlanOf(inventory, units, postgres);
    GoodCount(plan, digest, parts);
    hide PlanOf, Good, MarkersPassed, HeaderFits, PartFits, Claims, Collected, PassedIn, SkippedIn;
    i := CollectedOnce(plan, digest, parts, node);
    StandsOutcome(plan, digest, plan.Home(digest, node), parts, i, node);
  }

  /** The part says that the node was skipped, with a reason on the list of allowed ones. */
  predicate SkippedIn(part: Value, node: string) {
    var skips := Get(part, "skipped");
    skips.Obj? && node in skips.members && skips.members[node].Str? && AllowedSkip(node, skips.members[node].s)
  }

  lemma StandsOutcome(plan: Plan, digest: string -> nat, s: Shard, parts: seq<Value>, i: nat, node: string)
    requires Stands(plan, digest, s, parts, i)
    requires node in Collected(parts[i])
    ensures Claims(plan, parts[i], s)
    ensures node in PassedIn(parts[i]) || SkippedIn(parts[i], node)
    ensures s.kind == Postgres ==> node in PassedIn(parts[i])
  {
    hide Nodes, Plan.Expected, Shards, NameIn, AllowedSkip, LuaSkips, PartitionName;
  }

  /** Every node of a critical category passed in some part. */
  lemma CriticalPassed(inventory: Value, parts: seq<Value>, commit: string, units: int, postgres: int,
                       digest: string -> nat, name: string, node: string) returns (i: nat)
    requires Acceptable(inventory, parts, commit, units, postgres, digest)
    requires name in CRITICAL_MARKERS && Nodes(Get(Get(inventory, "markers"), name)).Some?
    requires node in Nodes(Get(Get(inventory, "markers"), name)).value
    ensures i < |parts| && node in PassedIn(parts[i])
  {
    hide Good, HeaderFits, PassedIn, PlanOf, Nodes;
    var k :| 0 <= k < |CRITICAL_MARKERS| && CRITICAL_MARKERS[k] == name;
    assert MarkerPassed(Get(inventory, "markers"), CRITICAL_MARKERS[k], Passed(parts));
    i :| 0 <= i < |parts| && node in PassedIn(parts[i]);
  }

  // ----- an honest run is accepted -----

  function Listed(nodes: seq<string>): Value {
    Arr(seq(|nodes|, i requires 0 <= i < |nodes| => Str(nodes[i])))
  }

  /** The evidence a shard writes when all its tests pass. */
  function HonestPart(shard: Shard, commit: string, nodes: seq<string>): Value
    requires ValidShard(shard)
  {
    var listed := Listed(nodes);
    Obj(map["shard" := Str(PartitionName(shard).value), "schema" := Num("1"), "sha" := Str(commit),
            "exit_code" := Num("0"), "collected" := listed, "passed" := listed, "failed" := Arr([]),
            "skipped" := Obj(map[])])
  }

  /** Parts written by shards that ran what the inventory calls for, in any order of the parts and of
      the tests, with every test passing. */
  ghost predicate HonestRun(plan: Plan, digest: string -> nat, commit: string, parts: seq<Value>,
                            shards: seq<Shard>, lists: seq<seq<string>>)
    requires plan.Valid()
  {
    && |parts| == |shards| == |lists| == plan.units + plan.postgres
    && (forall s :: s in Shards(plan.units, plan.postgres) ==> s in shards)
    && forall i :: 0 <= i < |parts| ==> Honest(plan, digest, commit, parts[i], shards[i], lists[i])
  }

  ghost predicate Honest(plan: Plan, digest: string -> nat, commit: string, part: Value, shard: Shard, nodes: seq<string>) {
    && ValidShard(shard) && shard in Shards(plan.units, plan.postgres)
    && part == HonestPart(shard, commit, nodes)
    && Distinct(nodes) && nodes != [] && "" !in nodes
    && (forall n :: n in nodes <==> n in plan.Expected(digest, shard))
  }

  lemma HonestFields(shard: Shard, commit: string, nodes: seq<string>)
    requires ValidShard(shard)
    ensures var part := HonestPart(shard, commit, nodes);
            && HeaderFits(part, commit) && NameIn(part) == Str(PartitionName(shard).value)
            && Get(part, "collected") == Get(part, "passed") == Listed(nodes)
            && Get(part, "failed") == Listed([]) && Get(part, "skipped") == Obj(map[])
  {
    assert Listed([]) == Arr([]);
    hide Listed, PartitionName;
  }

  lemma ListedNodes(nodes: seq<string>)
    requires Distinct(nodes) && "" !in nodes
    ensures Nodes(Listed(nodes)).Some?
    ensures forall n :: n in Nodes(Listed(nodes)).value <==> n in nodes
  {
    var items := Listed(nodes).items;
    assert forall i :: 0 <= i < |nodes| ==> items[i] == Str(nodes[i]) && nodes[i] in nodes;
    hide Listed;
    assert IsNodeList(Listed(nodes));
    forall n | n in nodes
      ensures n in Nodes(Listed(nodes)).value
    {
      var i :| 0 <= i < |nodes| && nodes[i] == n;
      assert items[i].s == n;
    }
  }

  lemma HonestPartFits(plan: Plan, digest: string -> nat, commit: string, part: Value, shard: Shard, nodes: seq<string>)
    requires Honest(plan, digest, commit, part, shard, nodes)
    ensures HeaderFits(part, commit) && Claims(plan, part, shard) && PartFits(plan, digest, shard, part)
    ensures PassedIn(part) == plan.Expected(digest, shard)
  {
    HonestFields(shard, commit, nodes);
    hide Plan.Expected, PartitionName, HonestPart, Distinct, HeaderFits, Get, Shards, Listed, NameIn, FieldsFit, Nodes;
    ListedExactly(nodes, plan.Expected(digest, shard));
    ListedExactly([], {});
    assert nodes[0] in nodes;
    AllPassedFits(plan.Expected(digest, shard), shard.kind);
  }

  lemma ListedExactly(nodes: seq<string>, expected: set<string>)
    requires Distinct(nodes) && "" !in nodes && forall n :: n in nodes <==> n in expected
    ensures Nodes(Listed(nodes)) == Some(expected)
  {
    ListedNodes(nodes);
    hide *;
    assert Nodes(Listed(nodes)).value == expected;
  }

  lemma AllPassedFits(expected: set<string>, kind: Kind)
    requires expected != {}
    ensures FieldsFit(expected, kind, Some(expected), Some(expected), Some({}), Obj(map[]))
  {
    assert LuaSkips(map[]) == {};
  }

  lemma HonestGood(plan: Plan, digest: string -> nat, commit: string, parts: seq<Value>, shards: seq<Shard>, lists: seq<seq<string>>)
    requires plan.Valid() && HonestRun(plan, digest, commit, parts, shards, lists)
    ensures Good(plan, digest, parts) && forall i :: 0 <= i < |parts| ==> HeaderFits(parts[i], commit)
  {
    hide HonestPart, PartFits, Claims, Plan.Expected, Plan.Valid, HeaderFits, Shards, Honest;
    forall i | 0 <= i < |parts|
      ensures HeaderFits(parts[i], commit)
    {
      HonestPartFits(plan, digest, commit, parts[i], shards[i], lists[i]);
    }
    forall s | s in Shards(plan.units, plan.postgres)
      ensures Reported(plan, digest, s, parts)
    {
      var i :| 0 <= i < |shards| && shards[i] == s;
      HonestPartFits(plan, digest, commit, parts[i], shards[i], lists[i]);
      HonestShard(plan, digest, commit, parts[i], s, lists[i]);
      assert Stands(plan, digest, s, parts, i);
    }
  }

  lemma HonestShard(plan: Plan, digest: string -> nat, commit: string, part: Value, shard: Shard, nodes: seq<string>)
    requires Honest(plan, digest, commit, part, shard, nodes)
    ensures ValidShard(shard)
  {
  }

  lemma HonestPassed(plan: Plan, digest: string -> nat, commit: string, parts: seq<Value>, shards: seq<Shard>, lists: seq<seq<string>>)
    requires plan.Valid() && HonestRun(plan, digest, commit, parts, shards, lists)
    ensures plan.all <= Passed(parts)
  {
    hide Plan.Valid, Plan.Home, Honest, Plan.Expected, PassedIn, Shards;
    forall n | n in plan.all
      ensures n in Passed(parts)
    {
      var home := plan.Home(digest, n);
      HomeOnly(plan, digest, home, n);
      var i :| 0 <= i < |shards| && shards[i] == home;
      HonestPartFits(plan, digest, commit, parts[i], shards[i], lists[i]);
    }
  }

  lemma MorePassed(markers: Value, name: string, passed: set<string>, more: set<string>)
    requires MarkerPassed(markers, name, passed) && passed <= more
    ensures MarkerPassed(markers, name, more)
  {
    hide Nodes, Get;
  }

  /** A run in which every shard did its work and every test passed is accepted, provided that every
      shard has some test and every critical category lists some test. */
  lemma HonestRunAccepted(inventory: Value, parts: seq<Value>, commit: string, units: nat, postgres: nat,
                          digest: string -> nat, shards: seq<Shard>, lists: seq<seq<string>>)
    requires Get(inventory, "shard") == Str("inventory") && HeaderFits(inventory, commit)
    requires PlanOf(inventory, units, postgres).Valid()
    requires HonestRun(PlanOf(inventory, units, postgres), digest, commit, parts, shards, lists)
    requires Get(inventory, "markers").Obj?
    requires forall k :: 0 <= k < |CRITICAL_MARKERS| ==>
      MarkerPassed(Get(inventory, "markers"), CRITICAL_MARKERS[k], PlanOf(inventory, units, postgres).all)
    ensures Acceptable(inventory, parts, commit, units, postgres, digest)
  {
    hide HonestRun, Good, Get, Plan.Valid, HeaderFits, MarkerPassed, Passed;
    var plan := PlanOf(inventory, units, postgres);
    PlanBounds(plan);
    HonestGood(plan, digest, commit, parts, shards, lists);
    HonestPassed(plan, digest, commit, parts, shards, lists);
    forall k | 0 <= k < |CRITICAL_MARKERS|
      ensures MarkerPassed(Get(inventory, "markers"), CRITICAL_MARKERS[k], Passed(parts))
    {
      MorePassed(Get(inventory, "markers"), CRITICAL_MARKERS[k], plan.all, Passed(parts));
    }
  }
}
