/** When `verify_test_evidence` accepts, with every key, name, reason and limit written out. */
module TestVerdict {
  import opened Text
  import opened Json
  import opened TestPartition
  import opened TestEvidence

  /** A list of distinct nonempty strings that names exactly the given tests. */
  ghost predicate Lists(v: Value, nodes: set<string>) {
    && v.Arr?
    && (forall i :: 0 <= i < |v.items| ==> v.items[i].Str? && v.items[i].s != "" && v.items[i].s in nodes)
    && (forall n :: n in nodes ==> Str(n) in v.items)
    && (forall i, j :: 0 <= i < j < |v.items| ==> v.items[i] != v.items[j])
  }

  lemma NodesExactly(v: Value, nodes: set<string>)
    ensures Nodes(v) == Some(nodes) <==> Lists(v, nodes)
  {
    if Nodes(v) == Some(nodes) {
      forall n | n in nodes ensures Str(n) in v.items {
        var i :| 0 <= i < |v.items| && v.items[i].s == n;
        assert v.items[i] == Str(n);
      }
    }
    if Lists(v, nodes) {
      var got := set i | 0 <= i < |v.items| :: v.items[i].s;
      forall n | n in nodes ensures n in got {
        var i :| 0 <= i < |v.items| && v.items[i] == Str(n);
        assert v.items[i].s == n;
      }
      assert got == nodes;
    }
  }

  lemma NodesListed(v: Value)
    requires Nodes(v).Some?
    ensures Lists(v, Nodes(v).value)
  {
    NodesExactly(v, Nodes(v).value);
  }

  /** Schema 1, this commit, and exit code 0; Python takes `true` for 1 and `false` for 0. */
  ghost predicate Header(part: Value, commit: string) {
    && part.Obj? && "schema" in part.members && "sha" in part.members && "exit_code" in part.members
    && part.members["schema"] in {Num("1"), Num("1.0"), Bool(true)}
    && part.members["sha"] == Str(commit)
    && part.members["exit_code"] in {Num("0"), Num("0.0"), Num("-0.0"), Bool(false)}
  }

  lemma HeaderExactly(part: Value, commit: string)
    ensures HeaderFits(part, commit) <==> Header(part, commit)
  {
  }

  ghost predicate Occurs(reason: string, part: string) {
    exists before, after :: reason == before + part + after
  }

  lemma ContainsExactly(text: string, part: string)
    ensures Contains(text, part) <==> Occurs(text, part)
  {
    if Contains(text, part) {
      var i :| 0 <= i <= |text| && StartsWith(text[i..], part);
      assert text[i..][..|part|] == part;
      assert text == text[..i] + part + text[i + |part|..];
    }
    if before, after :| text == before + part + after {
      var i := |before|;
      assert text[i..] == part + after;
      assert StartsWith(text[i..], part);
    }
  }

  /** The skips that are known: two tests of documents that the public snapshot does not contain, and the
      tests of one file that need Lua. */
  ghost predicate KnownSkip(node: string, reason: string) {
    if node == "tests/test_deployment_docs.py::test_development_high_risk_release_reload_boundary_is_documented"
    then Occurs(reason, "private-only reset plan is intentionally absent from public snapshot")
    else if node == "tests/test_test_update_workflow_docs.py::test_rehearsal_report_records_five_consecutive_verified_updates"
    then Occurs(reason, "private-only rehearsal report is intentionally absent from public snapshot")
    else NeedsLua(node) && Occurs(reason, "requires Lua; real Redis also covered by integration")
  }

  ghost predicate NeedsLua(node: string) {
    exists rest :: node == "tests/test_vendor_bucket_clock.py::" + rest
  }

  lemma PrefixExactly(node: string)
    ensures StartsWith(node, LUA_PREFIX) <==> NeedsLua(node)
  {
    var prefix := "tests/test_vendor_bucket_clock.py::";
    if StartsWith(node, LUA_PREFIX) {
      assert node == prefix + node[|prefix|..];
    }
    if rest :| node == prefix + rest {
      assert node[..|prefix|] == prefix;
    }
  }

  lemma SkipExactly(node: string, reason: string)
    ensures AllowedSkip(node, reason) <==> KnownSkip(node, reason)
  {
    ContainsExactly(reason, RESET_REASON);
    ContainsExactly(reason, REHEARSAL_REASON);
    ContainsExactly(reason, LUA_REASON);
    PrefixExactly(node);
    hide Contains, Occurs, StartsWith, NeedsLua;
  }

  // ----- one shard -----

  ghost function LuaNodes(skips: map<string, Value>): set<string> {
    set n | n in skips && NeedsLua(n)
  }

  /** The part of one shard: it collected the expected tests, at least one; each of them either passed or
      was skipped, none failed; a database shard skipped nothing, the others only what is known, and at
      most eleven tests for want of Lua. */
  ghost predicate ShardEvidence(part: Value, name: string, database: bool, expected: set<string>, passed: set<string>) {
    && part.Obj? && "shard" in part.members && "collected" in part.members && "passed" in part.members
    && "failed" in part.members && "skipped" in part.members
    && part.members["shard"] == Str(name)
    && expected != {} && Lists(part.members["collected"], expected)
    && Lists(part.members["passed"], passed)
    && part.members["failed"] == Arr([])
    && part.members["skipped"].Obj?
    && var skips := part.members["skipped"].members;
    && passed !! skips.Keys && passed + skips.Keys == expected
    && (database ==> skips == map[])
    && (forall n :: n in skips ==> skips[n].Str? && KnownSkip(n, skips[n].s))
    && |LuaNodes(skips)| <= 11
  }

  lemma SkipsExactly(skips: Value)
    requires IsSkipMap(skips)
    ensures (forall n :: n in skips.members ==> AllowedSkip(n, skips.members[n].s)) <==>
            forall n :: n in skips.members ==> KnownSkip(n, skips.members[n].s)
    ensures LuaSkips(skips.members) == LuaNodes(skips.members)
  {
    forall n | n in skips.members ensures AllowedSkip(n, skips.members[n].s) <==> KnownSkip(n, skips.members[n].s) {
      SkipExactly(n, skips.members[n].s);
    }
    hide AllowedSkip, KnownSkip;
    forall n ensures StartsWith(n, LUA_PREFIX) <==> NeedsLua(n) {
      PrefixExactly(n);
    }
    hide StartsWith, NeedsLua;
  }

  lemma NothingListed(v: Value)
    ensures Nodes(v) == Some({}) <==> v == Arr([])
  {
    NodesExactly(v, {});
    assert v.Arr? && v.items != [] ==> v.items[0] in v.items;
  }

  lemma FieldsExactly(part: Value, name: string, kind: Kind, expected: set<string>)
    requires part.Obj?
    ensures (&& Get(part, "shard") == Str(name)
             && FieldsFit(expected, kind, Nodes(Get(part, "collected")), Nodes(Get(part, "passed")), Nodes(Get(part, "failed")), Get(part, "skipped")))
            <==> ShardEvidence(part, name, kind == Postgres, expected, PassedIn(part))
  {
    var skips := Get(part, "skipped");
    NodesExactly(Get(part, "collected"), expected);
    NodesExactly(Get(part, "passed"), PassedIn(part));
    NothingListed(Get(part, "failed"));
    MissingListsNothing();
    hide Nodes, Lists, AllowedSkip, KnownSkip, LuaSkips, LuaNodes;
    if IsSkipMap(skips) {
      SkipsExactly(skips);
    }
  }

  lemma MissingListsNothing()
    ensures Nodes(Null).None? && forall nodes :: !Lists(Null, nodes)
  {
  }

  // ----- the whole verdict -----

  function ShardName(database: bool, index: nat, count: nat): string {
    var kind := if database then "postgres" else "unit";
    if count == 1 then kind else kind + "-" + Numeral(index, Decimal) + "-of-" + Numeral(count, Decimal)
  }

  /** The tests of a shard: the isolated ones for the database, the others for the unit shards. */
  function ShardTests(digest: string -> nat, all: set<string>, isolated: set<string>, database: bool, index: nat, count: nat): set<string>
    requires 1 <= count <= 16
  {
    set n | n in all && (n in isolated <==> database) &&
            PartitionIndex(digest, n, if database then Postgres else Unit, count) == index
  }

  /** Some part is the evidence of this shard. */
  ghost predicate ShardShown(parts: seq<Value>, digest: string -> nat, all: set<string>, isolated: set<string>, database: bool,
                             index: nat, count: nat)
    requires 1 <= count <= 16
  {
    exists i :: 0 <= i < |parts| &&
      ShardEvidence(parts[i], ShardName(database, index, count), database,
                    ShardTests(digest, all, isolated, database, index, count), PassedIn(parts[i]))
  }

  lemma ShownExactly(plan: Plan, digest: string -> nat, shard: Shard, parts: seq<Value>)
    requires plan.Valid() && shard in Shards(plan.units, plan.postgres)
    ensures 1 <= shard.count <= 16
    ensures Reported(plan, digest, shard, parts) <==>
            ShardShown(parts, digest, plan.all, plan.isolated, shard.kind == Postgres, shard.index, shard.count)
  {
    ShardFacts(plan.units, plan.postgres, shard);
    var database := shard.kind == Postgres;
    var expected := ShardTests(digest, plan.all, plan.isolated, database, shard.index, shard.count);
    var name := ShardName(database, shard.index, shard.count);
    assert expected == plan.Expected(digest, shard);
    assert PartitionName(shard) == Some(name);
    hide PartitionIndex, PartitionName, ShardName, ShardTests, Plan.Expected, Nodes, PassedIn, ShardEvidence, FieldsFit, Shards;
    forall i | 0 <= i < |parts|
      ensures Stands(plan, digest, shard, parts, i) <==> ShardEvidence(parts[i], name, database, expected, PassedIn(parts[i]))
    {
      StandsExactly(plan, digest, shard, parts, i, name, expected);
    }
    hide Stands;
    assert forall i :: Stands(plan, digest, shard, parts, i) ==> 0 <= i < |parts| by { StandsInside(plan, digest, shard, parts); }
  }

  lemma StandsInside(plan: Plan, digest: string -> nat, shard: Shard, parts: seq<Value>)
    ensures forall i :: Stands(plan, digest, shard, parts, i) ==> 0 <= i < |parts|
  {
    hide Claims, PartFits;
  }

  lemma StandsExactly(plan: Plan, digest: string -> nat, shard: Shard, parts: seq<Value>, i: nat, name: string, expected: set<string>)
    requires i < |parts| && ValidShard(shard) && shard in Shards(plan.units, plan.postgres)
    requires PartitionName(shard) == Some(name) && expected == plan.Expected(digest, shard)
    ensures Stands(plan, digest, shard, parts, i) <==>
            ShardEvidence(parts[i], name, shard.kind == Postgres, expected, PassedIn(parts[i]))
  {
    hide PartitionName, Plan.Expected, Nodes, PassedIn, FieldsFit, Shards;
    if parts[i].Obj? {
      FieldsExactly(parts[i], name, shard.kind, expected);
    }
  }

  predicate IsCritical(name: string) {
    || name == "property" || name == "concurrency" || name == "fault_injection" || name == "authorization" || name == "idempotency"
  }

  lemma CriticalExactly(name: string)
    ensures IsCritical(name) <==> exists k :: 0 <= k < |CRITICAL_MARKERS| && CRITICAL_MARKERS[k] == name
  {
    assert CRITICAL_MARKERS[0] == "property" && CRITICAL_MARKERS[1] == "concurrency" && CRITICAL_MARKERS[2] == "fault_injection";
    assert CRITICAL_MARKERS[3] == "authorization" && CRITICAL_MARKERS[4] == "idempotency";
  }

  /** The category lists some tests, and each of them is on the list of passed tests of some part. */
  ghost predicate CategoryPassed(markers: Value, name: string, parts: seq<Value>)
    requires markers.Obj?
  {
    name in markers.members &&
    exists nodes :: nodes != {} && Lists(markers.members[name], nodes) && AllPassed(nodes, parts)
  }

  ghost predicate AllPassed(nodes: set<string>, parts: seq<Value>) {
    forall n :: n in nodes ==> exists i :: 0 <= i < |parts| && n in PassedIn(parts[i])
  }

  lemma CategoryExactly(markers: Value, name: string, parts: seq<Value>)
    requires markers.Obj?
    ensures MarkerPassed(markers, name, Passed(parts)) <==> CategoryPassed(markers, name, parts)
  {
    var v := Get(markers, name);
    MissingListsNothing();
    if Nodes(v).Some? {
      NodesListed(v);
      AllPassedExactly(Nodes(v).value, parts);
    }
    hide Passed, AllPassed;
    if CategoryPassed(markers, name, parts) {
      var nodes :| nodes != {} && Lists(v, nodes) && AllPassed(nodes, parts);
      NodesExactly(v, nodes);
    }
    hide Nodes, Lists;
  }

  lemma AllPassedExactly(nodes: set<string>, parts: seq<Value>)
    ensures nodes <= Passed(parts) <==> AllPassed(nodes, parts)
  {
    hide PassedIn;
  }

  /** The inventory lists the tests and the isolated ones among them. */
  ghost predicate Inventory(inventory: Value, commit: string, all: set<string>, isolated: set<string>) {
    && Header(inventory, commit)
    && "shard" in inventory.members && inventory.members["shard"] == Str("inventory")
    && "collected" in inventory.members && Lists(inventory.members["collected"], all) && all != {}
    && "isolated" in inventory.members && Lists(inventory.members["isolated"], isolated) && isolated != {} && isolated <= all
    && "markers" in inventory.members && inventory.members["markers"].Obj?
  }

  ghost predicate Evidence(inventory: Value, parts: seq<Value>, commit: string, units: int, postgres: int, digest: string -> nat,
                           all: set<string>, isolated: set<string>)
  {
    && 1 <= units <= 16 && 1 <= postgres <= 16
    && Inventory(inventory, commit, all, isolated)
    && |parts| == units + postgres && (forall i :: 0 <= i < |parts| ==> Header(parts[i], commit))
    && (forall index :: 1 <= index <= units ==> ShardShown(parts, digest, all, isolated, false, index, units))
    && (forall index :: 1 <= index <= postgres ==> ShardShown(parts, digest, all, isolated, true, index, postgres))
    && (forall name :: IsCritical(name) ==> CategoryPassed(inventory.members["markers"], name, parts))
  }

  lemma ReportedExactly(plan: Plan, digest: string -> nat, parts: seq<Value>)
    requires plan.Valid()
    ensures (forall s :: s in Shards(plan.units, plan.postgres) ==> Reported(plan, digest, s, parts)) <==>
            && (forall index :: 1 <= index <= plan.units ==> ShardShown(parts, digest, plan.all, plan.isolated, false, index, plan.units))
            && (forall index :: 1 <= index <= plan.postgres ==> ShardShown(parts, digest, plan.all, plan.isolated, true, index, plan.postgres))
  {
    hide Reported, ShardShown;
    forall s | s in Shards(plan.units, plan.postgres)
      ensures 1 <= s.count <= 16
      ensures Reported(plan, digest, s, parts) <==> ShardShown(parts, digest, plan.all, plan.isolated, s.kind == Postgres, s.index, s.count)
    {
      ShownExactly(plan, digest, s, parts);
    }
    forall s ensures s in Shards(plan.units, plan.postgres) <==> ValidShard(s) && s.count == if s.kind == Unit then plan.units else plan.postgres {
      ShardFacts(plan.units, plan.postgres, s);
    }
    hide Shards;
    if forall s :: s in Shards(plan.units, plan.postgres) ==> Reported(plan, digest, s, parts) {
      forall index | 1 <= index <= plan.units ensures ShardShown(parts, digest, plan.all, plan.isolated, false, index, plan.units) {
        assert Shard(Unit, index, plan.units) in Shards(plan.units, plan.postgres);
      }
      forall index | 1 <= index <= plan.postgres ensures ShardShown(parts, digest, plan.all, plan.isolated, true, index, plan.postgres) {
        assert Shard(Postgres, index, plan.postgres) in Shards(plan.units, plan.postgres);
      }
    }
  }

  lemma MarkersExactly(markers: Value, parts: seq<Value>)
    requires markers.Obj?
    ensures MarkersPassed(markers, parts) <==> forall name :: IsCritical(name) ==> CategoryPassed(markers, name, parts)
  {
    forall name ensures MarkerPassed(markers, name, Passed(parts)) <==> CategoryPassed(markers, name, parts) {
      CategoryExactly(markers, name, parts);
    }
    forall name ensures IsCritical(name) <==> exists k :: 0 <= k < |CRITICAL_MARKERS| && CRITICAL_MARKERS[k] == name {
      CriticalExactly(name);
    }
    hide MarkerPassed, CategoryPassed, IsCritical, CRITICAL_MARKERS;
  }

  lemma InventoryExactly(inventory: Value, commit: string, units: nat, postgres: nat, all: set<string>, isolated: set<string>)
    requires 1 <= units <= 16 && 1 <= postgres <= 16
    ensures Inventory(inventory, commit, all, isolated) <==>
            && Get(inventory, "shard") == Str("inventory") && HeaderFits(inventory, commit)
            && PlanOf(inventory, units, postgres) == Plan(all, isolated, units, postgres)
            && PlanOf(inventory, units, postgres).Valid() && Get(inventory, "markers").Obj?
  {
    HeaderExactly(inventory, commit);
    NodesExactly(Get(inventory, "collected"), all);
    NodesExactly(Get(inventory, "isolated"), isolated);
    MissingListsNothing();
    assert Header(inventory, commit) ==> inventory.Obj?;
    hide Nodes, Lists, Header, HeaderFits;
    if inventory.Obj? {
      assert SetOf(Nodes(Get(inventory, "collected"))) == all && all != {} ==> Nodes(Get(inventory, "collected")) == Some(all);
      assert SetOf(Nodes(Get(inventory, "isolated"))) == isolated && isolated != {} ==> Nodes(Get(inventory, "isolated")) == Some(isolated);
    }
  }

  /** The verdict, written out. */
  lemma AcceptedExactly(inventory: Value, parts: seq<Value>, commit: string, units: int, postgres: int, digest: string -> nat)
    ensures Acceptable(inventory, parts, commit, units, postgres, digest) <==>
            exists all, isolated :: Evidence(inventory, parts, commit, units, postgres, digest, all, isolated)
  {
    if 1 <= units <= 16 && 1 <= postgres <= 16 {
      forall all, isolated
        ensures Evidence(inventory, parts, commit, units, postgres, digest, all, isolated) <==>
                PlanOf(inventory, units, postgres) == Plan(all, isolated, units, postgres) &&
                Acceptable(inventory, parts, commit, units, postgres, digest)
      {
        EvidenceExactly(inventory, parts, commit, units, postgres, digest, all, isolated);
      }
      hide Evidence, Acceptable;
      var plan := PlanOf(inventory, units, postgres);
      assert plan == Plan(plan.all, plan.isolated, units, postgres);
    }
  }

  lemma EvidenceExactly(inventory: Value, parts: seq<Value>, commit: string, units: nat, postgres: nat, digest: string -> nat,
                        all: set<string>, isolated: set<string>)
    requires 1 <= units <= 16 && 1 <= postgres <= 16
    ensures Evidence(inventory, parts, commit, units, postgres, digest, all, isolated) <==>
            PlanOf(inventory, units, postgres) == Plan(all, isolated, units, postgres) &&
            Acceptable(inventory, parts, commit, units, postgres, digest)
  {
    InventoryExactly(inventory, commit, units, postgres, all, isolated);
    forall i | 0 <= i < |parts| ensures HeaderFits(parts[i], commit) <==> Header(parts[i], commit) {
      HeaderExactly(parts[i], commit);
    }
    var plan := PlanOf(inventory, units, postgres);
    var markers := Get(inventory, "markers");
    assert Inventory(inventory, commit, all, isolated) ==> inventory.members["markers"] == markers;
    assert MarkersPassed(markers, parts) ==> markers.Obj?;
    hide HeaderFits, Header, PlanOf, Plan.Valid, Shards, Reported, ShardShown, MarkersPassed, CategoryPassed, Inventory, IsCritical;
    if plan == Plan(all, isolated, units, postgres) && plan.Valid() {
      ReportedExactly(plan, digest, parts);
    }
    if markers.Obj? {
      MarkersExactly(markers, parts);
    }
  }
}
