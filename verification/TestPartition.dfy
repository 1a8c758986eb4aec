/** `partition_name` and `partition_index` of scripts/gate_policy.py: the names of the test shards
    and the shard every test belongs to. */
module TestPartition {
  import opened Text

  datatype Kind = Unit | Postgres

  datatype Shard = Shard(kind: Kind, index: nat, count: nat)

  predicate ValidShard(s: Shard) {
    1 <= s.index <= s.count <= 16
  }

  function KindName(kind: Kind): string {
    if kind == Unit then "unit" else "postgres"
  }

  /** `partition_name`; anything but 1 <= index <= count <= 16 is a value error. */
  function PartitionName(s: Shard): Option<string> {
    if !ValidShard(s) then None
    else if s.count == 1 then Some(KindName(s.kind))
    else Some(KindName(s.kind) + "-" + Numeral(s.index, Decimal) + "-of-" + Numeral(s.count, Decimal))
  }

  const UNIT_COSTLY_NODES: set<string> :=
    {"tests/test_raw_spill_frames.py::test_fragmented_64mib_is_complete_too_large_not_truncated[1]"}
  const POSTGRES_COSTLY_MODULES: set<string> := {"tests/integration/test_idempotency_claim_lease_postgres.py"}

  /** `nodeid.split("::", 1)[0]` */
  function ModuleOf(node: string): string {
    if node == "" then ""
    else if StartsWith(node, "::") then ""
    else [node[0]] + ModuleOf(node[1..])
  }

  /** `partition_index`; `digest` is the number made of the first eight bytes of SHA-256. */
  function PartitionIndex(digest: string -> nat, node: string, kind: Kind, count: nat): (index: nat)
    requires 1 <= count <= 16
    ensures 1 <= index <= count
  {
    var key := if kind == Postgres then ModuleOf(node) else node;
    if kind == Unit && count == 5 then
      if node in UNIT_COSTLY_NODES then 5 else digest(key) % 4 + 1
    else if kind == Postgres && count == 4 then
      if key in POSTGRES_COSTLY_MODULES then 4 else digest(key) % 3 + 1
    else digest(key) % count + 1
  }

  // ----- which tests stay together -----

  lemma Colons(s: string)
    ensures StartsWith(s, "::") <==> |s| >= 2 && s[0] == ':' && s[1] == ':'
  {
    if |s| >= 2 {
      assert s[..2] == [s[0], s[1]];
    }
  }

  /** The module is what stands before the first `::`, or everything if there is none. */
  lemma {:induction false} ModuleMeaning(node: string)
    ensures var m := ModuleOf(node);
            && |m| <= |node| && node[..|m|] == m
            && (|m| == |node| || (|m| + 2 <= |node| && node[|m|] == ':' && node[|m| + 1] == ':'))
            && forall i, j :: 0 <= i < |m| && j == i + 1 && j < |node| ==> !(node[i] == ':' && node[j] == ':')
  {
    Colons(node);
    hide StartsWith;
    if node != "" && !StartsWith(node, "::") {
      var rest := node[1..];
      ModuleMeaning(rest);
      var m := ModuleOf(rest);
      assert node == [node[0]] + rest;
      forall i, j | 0 < i < |m| + 1 && j == i + 1 && j < |node| ensures !(node[i] == ':' && node[j] == ':') {
        var before := i - 1;
        assert node[i] == rest[before] && node[j] == rest[i];
      }
    }
  }

  /** Tests of one database module are never spread over shards. */
  lemma ModuleTogether(digest: string -> nat, node: string, other: string, count: nat)
    requires 1 <= count <= 16 && ModuleOf(node) == ModuleOf(other)
    ensures PartitionIndex(digest, node, Postgres, count) == PartitionIndex(digest, other, Postgres, count)
  {
  }

  /** The costly ones have the last shard for themselves if there are five unit shards or four for the
      database, and the others share the rest. */
  predicate HasOwnShard(node: string, kind: Kind, count: nat) {
    || (kind == Unit && count == 5
        && node == "tests/test_raw_spill_frames.py::test_fragmented_64mib_is_complete_too_large_not_truncated[1]")
    || (kind == Postgres && count == 4 && ModuleOf(node) == "tests/integration/test_idempotency_claim_lease_postgres.py")
  }

  /** The shards that are dealt out by digest. */
  function Dealt(kind: Kind, count: nat): nat {
    if (kind == Unit && count == 5) || (kind == Postgres && count == 4) then count - 1 else count
  }

  lemma IndexExactly(digest: string -> nat, node: string, kind: Kind, count: nat)
    requires 1 <= count <= 16
    ensures var key := if kind == Postgres then ModuleOf(node) else node;
            var index := PartitionIndex(digest, node, kind, count);
            if HasOwnShard(node, kind, count) then index == count
            else 1 <= index <= Dealt(kind, count) && exists q :: digest(key) == q * Dealt(kind, count) + index - 1
  {
    hide ModuleOf;
    var key, n := if kind == Postgres then ModuleOf(node) else node, Dealt(kind, count);
    assert digest(key) == digest(key) / n * n + digest(key) % n;
  }

  /** So two tests share a shard exactly if both have their own or the digests of their keys leave the
      same remainder. */
  lemma SameShardExactly(digest: string -> nat, node: string, other: string, kind: Kind, count: nat)
    requires 1 <= count <= 16
    ensures var key, key2 := if kind == Postgres then ModuleOf(node) else node, if kind == Postgres then ModuleOf(other) else other;
            PartitionIndex(digest, node, kind, count) == PartitionIndex(digest, other, kind, count) <==>
            if HasOwnShard(node, kind, count) || HasOwnShard(other, kind, count)
            then HasOwnShard(node, kind, count) && HasOwnShard(other, kind, count)
            else digest(key) % Dealt(kind, count) == digest(key2) % Dealt(kind, count)
  {
    hide ModuleOf;
  }

  // ----- shard names are distinct -----

  lemma NameKinds(s: Shard)
    requires ValidShard(s)
    ensures PartitionName(s).value != "" && (PartitionName(s).value[0] == 'u' <==> s.kind == Unit)
  {
    hide Numeral;
  }

  lemma NameInjective(s: Shard, t: Shard)
    requires ValidShard(s) && ValidShard(t) && (s.kind == t.kind ==> s.count == t.count)
    requires PartitionName(s) == PartitionName(t)
    ensures s == t
  {
    NameKinds(s);
    NameKinds(t);
    if s.count > 1 {
      hide Numeral;
      var k, c := KindName(s.kind) + "-", "-of-" + Numeral(s.count, Decimal);
      var i, j := Numeral(s.index, Decimal), Numeral(t.index, Decimal);
      assert PartitionName(s).value == k + (i + c) && PartitionName(t).value == k + (j + c);
      AppendCancel(k, k, i + c, j + c);
      AppendCancel(i, j, c, c);
      NumeralInjective(s.index, t.index, Decimal);
    }
  }

  /** All shards of a run with so many unit and postgres parts. */
  function Shards(units: nat, postgres: nat): set<Shard> {
    (set i | 1 <= i <= units :: Shard(Unit, i, units)) + (set i | 1 <= i <= postgres :: Shard(Postgres, i, postgres))
  }

  lemma ShardFacts(units: nat, postgres: nat, s: Shard)
    requires 1 <= units <= 16 && 1 <= postgres <= 16
    ensures s in Shards(units, postgres) <==>
            ValidShard(s) && s.count == if s.kind == Unit then units else postgres
  {
  }

  lemma {:induction false} CountRange(kind: Kind, k: nat, n: nat)
    ensures |set i | 1 <= i <= k :: Shard(kind, i, n)| == k
  {
    var r := set i | 1 <= i <= k :: Shard(kind, i, n);
    if k == 0 {
      assert r == {};
    } else {
      CountRange(kind, k - 1, n);
      assert r == (set i | 1 <= i <= k - 1 :: Shard(kind, i, n)) + {Shard(kind, k, n)};
    }
  }

  lemma ShardCount(units: nat, postgres: nat)
    ensures |Shards(units, postgres)| == units + postgres
  {
    CountRange(Unit, units, units);
    CountRange(Postgres, postgres, postgres);
    var u, p := set i | 1 <= i <= units :: Shard(Unit, i, units), set i | 1 <= i <= postgres :: Shard(Postgres, i, postgres);
    assert u !! p;
  }
}
