/** `resolve_ref` of scripts/check_contract.py: replace every object that consists of a lone
    `$ref` by what it refers to, again and again. */
module ContractReferences {
  import opened Text
  import opened Json
  import opened JsonPointer

  predicate IsLoneRef(v: Value) {
    v.Obj? && v.members.Keys == {"$ref"}
  }

  /** What a lone reference stands for; an error if it is no local reference to something there. */
  function RefTarget(v: Value, document: Value): Option<Value>
    requires IsLoneRef(v)
  {
    assert "$ref" in v.members.Keys;
    if v.members["$ref"].Str? then Target(document, v.members["$ref"].s) else None
  }

  /** `resolve_ref` where at most `fuel` references are followed one inside the other; nothing
      when it raises an error or has to follow more. */
  function Resolve(v: Value, document: Value, fuel: nat): Option<Value>
    decreases fuel, v, 1
  {
    if IsLoneRef(v) then
      var target := RefTarget(v, document);
      if fuel == 0 || target.None? then None else Resolve(target.value, document, fuel - 1)
    else
      match v
      case Obj(members) =>
        var r := ResolveMembers(v, document, fuel);
        if r.None? then None else Some(Obj(r.value))
      case Arr(items) =>
        var r := ResolveItems(items, document, fuel);
        if r.None? then None else Some(Arr(r.value))
      case _ => Some(v)
  }

  function ResolveMembers(v: Value, document: Value, fuel: nat): (r: Option<map<string, Value>>)
    requires v.Obj?
    ensures r.Some? <==> forall k :: k in v.members ==> Resolve(v.members[k], document, fuel).Some?
    ensures r.Some? ==> r.value.Keys == v.members.Keys
    ensures r.Some? ==> forall k :: k in v.members ==> r.value[k] == Resolve(v.members[k], document, fuel).value
    decreases fuel, v, 0
  {
    if forall k :: k in v.members ==> Resolve(v.members[k], document, fuel).Some?
    then Some(map k | k in v.members :: Resolve(v.members[k], document, fuel).value)
    else None
  }

  function ResolveItems(items: seq<Value>, document: Value, fuel: nat): (r: Option<seq<Value>>)
    ensures r.Some? <==> forall i :: 0 <= i < |items| ==> Resolve(items[i], document, fuel).Some?
    ensures r.Some? ==> |r.value| == |items|
    ensures r.Some? ==> forall i :: 0 <= i < |items| ==> r.value[i] == Resolve(items[i], document, fuel).value
    decreases fuel, items
  {
    if forall i :: 0 <= i < |items| ==> Resolve(items[i], document, fuel).Some?
    then Some(seq(|items|, i requires 0 <= i < |items| => Resolve(items[i], document, fuel).value))
    else None
  }

  // The four cases of `Resolve`.

  lemma ResolveReference(v: Value, document: Value, fuel: nat)
    requires IsLoneRef(v)
    ensures Resolve(v, document, fuel) ==
            if fuel == 0 || RefTarget(v, document).None? then None
            else Resolve(RefTarget(v, document).value, document, fuel - 1)
  {
  }

  lemma ResolveObject(v: Value, document: Value, fuel: nat)
    requires v.Obj? && !IsLoneRef(v)
    ensures var r := ResolveMembers(v, document, fuel);
            Resolve(v, document, fuel) == if r.None? then None else Some(Obj(r.value))
  {
  }

  lemma ResolveArray(v: Value, document: Value, fuel: nat)
    requires v.Arr?
    ensures var r := ResolveItems(v.items, document, fuel);
            Resolve(v, document, fuel) == if r.None? then None else Some(Arr(r.value))
  {
  }

  lemma ResolveScalar(v: Value, document: Value, fuel: nat)
    requires !v.Obj? && !v.Arr?
    ensures Resolve(v, document, fuel) == Some(v)
  {
  }

  /** The call returns. */
  ghost predicate Resolves(v: Value, document: Value) {
    exists fuel: nat :: Resolve(v, document, fuel).Some?
  }

  /** With more fuel the result stays the same. */
  lemma {:induction false} ResolveMore(v: Value, document: Value, fuel: nat, more: nat)
    requires Resolve(v, document, fuel).Some? && fuel <= more
    ensures Resolve(v, document, more) == Resolve(v, document, fuel)
    decreases fuel, v
  {
    hide ResolveMembers, ResolveItems, RefTarget;
    if IsLoneRef(v) {
      ResolveMore(RefTarget(v, document).value, document, fuel - 1, more - 1);
    } else {
      match v
      case Obj(members) =>
        forall k | k in members ensures Resolve(members[k], document, more) == Resolve(members[k], document, fuel) {
          ResolveMore(members[k], document, fuel, more);
        }
        assert ResolveMembers(v, document, more).value == ResolveMembers(v, document, fuel).value;
      case Arr(items) =>
        forall i | 0 <= i < |items| ensures Resolve(items[i], document, more) == Resolve(items[i], document, fuel) {
          ResolveMore(items[i], document, fuel, more);
        }
        assert ResolveItems(items, document, more).value == ResolveItems(items, document, fuel).value;
      case _ =>
    }
  }

  // ----- nothing is left to resolve -----

  /** No lone reference anywhere. */
  predicate Resolved(v: Value) {
    !IsLoneRef(v) &&
    match v
    case Obj(members) => forall k :: k in members ==> Resolved(members[k])
    case Arr(items) => forall i :: 0 <= i < |items| ==> Resolved(items[i])
    case _ => true
  }

  lemma {:induction false} ResolveLeavesNone(v: Value, document: Value, fuel: nat)
    requires Resolve(v, document, fuel).Some?
    ensures Resolved(Resolve(v, document, fuel).value)
    decreases fuel, v
  {
    hide ResolveMembers, ResolveItems, RefTarget;
    if IsLoneRef(v) {
      ResolveLeavesNone(RefTarget(v, document).value, document, fuel - 1);
    } else {
      match v
      case Obj(members) =>
        var r := Resolve(v, document, fuel).value;
        assert r.members.Keys == members.Keys;
        forall k | k in members ensures Resolved(r.members[k]) {
          ResolveLeavesNone(members[k], document, fuel);
        }
      case Arr(items) =>
        forall i | 0 <= i < |items| ensures Resolved(Resolve(items[i], document, fuel).value) {
          ResolveLeavesNone(items[i], document, fuel);
        }
      case _ =>
    }
  }

  lemma {:induction false} ResolvedStays(v: Value, document: Value, fuel: nat)
    requires Resolved(v)
    ensures Resolve(v, document, fuel) == Some(v)
    decreases v
  {
    hide ResolveMembers, ResolveItems, RefTarget;
    match v
    case Obj(members) =>
      forall k | k in members ensures Resolve(members[k], document, fuel) == Some(members[k]) {
        ResolvedStays(members[k], document, fuel);
      }
      assert ResolveMembers(v, document, fuel).value == members;
    case Arr(items) =>
      forall i | 0 <= i < |items| ensures Resolve(items[i], document, fuel) == Some(items[i]) {
        ResolvedStays(items[i], document, fuel);
      }
      assert ResolveItems(items, document, fuel).value == items;
    case _ =>
  }

  /** Resolving again, even against another document, changes nothing. */
  lemma ResolveIdempotent(v: Value, document: Value, fuel: nat, other: Value, again: nat)
    requires Resolve(v, document, fuel).Some?
    ensures Resolve(Resolve(v, document, fuel).value, other, again) == Resolve(v, document, fuel)
  {
    ResolveLeavesNone(v, document, fuel);
    ResolvedStays(Resolve(v, document, fuel).value, other, again);
  }

  // ----- when the call returns -----

  /** The lone reference `r` has to be resolved in order to resolve `v`. */
  ghost predicate Mentions(v: Value, r: Value)
    decreases v
  {
    if IsLoneRef(v) then r == v
    else
      match v
      case Obj(members) => exists k :: k in members && Mentions(members[k], r)
      case Arr(items) => exists i :: 0 <= i < |items| && Mentions(items[i], r)
      case _ => false
  }

  /** References are well-founded: a ranked reference leads somewhere, and what it leads to mentions
      only references of lower rank. */
  ghost predicate Ranking(document: Value, rank: Value -> Option<nat>) {
    forall r :: rank(r).Some? ==> Grounded(r, document, rank)
  }

  ghost predicate Grounded(r: Value, document: Value, rank: Value -> Option<nat>)
    requires rank(r).Some?
  {
    IsLoneRef(r) && RefTarget(r, document).Some? &&
    RankedBelow(RefTarget(r, document).value, rank, rank(r).value)
  }

  ghost predicate RankedBelow(v: Value, rank: Value -> Option<nat>, bound: nat) {
    forall q :: Mentions(v, q) ==> rank(q).Some? && rank(q).value < bound
  }

  ghost predicate WellFounded(v: Value, document: Value) {
    exists rank :: Ranking(document, rank) && forall r :: Mentions(v, r) ==> rank(r).Some?
  }

  lemma {:induction false} MentionsLoneRef(v: Value, r: Value)
    requires Mentions(v, r)
    ensures IsLoneRef(r)
    decreases v
  {
    if !IsLoneRef(v) {
      match v
      case Obj(members) =>
        var k :| k in members && Mentions(members[k], r);
        MentionsLoneRef(members[k], r);
      case Arr(items) =>
        var i :| 0 <= i < |items| && Mentions(items[i], r);
        MentionsLoneRef(items[i], r);
    }
  }

  lemma {:induction false} ResolvesFromMentions(v: Value, document: Value, fuel: nat)
    requires forall r :: Mentions(v, r) ==> Resolve(r, document, fuel).Some?
    ensures Resolve(v, document, fuel).Some?
    decreases v
  {
    if IsLoneRef(v) {
      assert Mentions(v, v);
    } else {
      match v
      case Obj(members) =>
        forall k | k in members ensures Resolve(members[k], document, fuel).Some? {
          ResolvesFromMentions(members[k], document, fuel);
        }
      case Arr(items) =>
        forall i | 0 <= i < |items| ensures Resolve(items[i], document, fuel).Some? {
          ResolvesFromMentions(items[i], document, fuel);
        }
      case _ =>
    }
  }

  lemma {:induction false} MentionResolves(v: Value, document: Value, fuel: nat, r: Value)
    requires Resolve(v, document, fuel).Some? && Mentions(v, r)
    ensures Resolve(r, document, fuel).Some?
    decreases v
  {
    if !IsLoneRef(v) {
      match v
      case Obj(members) =>
        var k :| k in members && Mentions(members[k], r);
        MentionResolves(members[k], document, fuel, r);
      case Arr(items) =>
        var i :| 0 <= i < |items| && Mentions(items[i], r);
        MentionResolves(items[i], document, fuel, r);
    }
  }

  lemma {:induction false} RankedResolves(document: Value, rank: Value -> Option<nat>, v: Value, bound: nat)
    requires Ranking(document, rank) && RankedBelow(v, rank, bound)
    ensures Resolve(v, document, bound).Some?
    decreases bound
  {
    forall r | Mentions(v, r)
      ensures Resolve(r, document, bound).Some?
    {
      assert Grounded(r, document, rank);
      var target := RefTarget(r, document).value;
      RankedResolves(document, rank, target, rank(r).value);
      ResolveMore(target, document, rank(r).value, bound - 1);
    }
    ResolvesFromMentions(v, document, bound);
  }

  /** The ranks that a value mentions are bounded. */
  lemma {:induction false} RankBound(v: Value, rank: Value -> Option<nat>) returns (bound: nat)
    requires forall r :: Mentions(v, r) ==> rank(r).Some?
    ensures RankedBelow(v, rank, bound)
    decreases v, 1
  {
    if IsLoneRef(v) {
      assert Mentions(v, v);
      bound := rank(v).value + 1;
    } else {
      match v
      case Obj(members) => bound := RankBoundKeys(v, rank, members.Keys);
      case Arr(items) =>
        bound := 0;
        for i := 0 to |items|
          invariant forall j :: 0 <= j < i ==> RankedBelow(items[j], rank, bound)
        {
          var next := RankBound(items[i], rank);
          bound := if next < bound then bound else next;
        }
      case _ => bound := 0;
    }
  }

  lemma {:induction false} RankBoundKeys(v: Value, rank: Value -> Option<nat>, keys: set<string>) returns (bound: nat)
    requires v.Obj? && !IsLoneRef(v) && keys <= v.members.Keys
    requires forall r :: Mentions(v, r) ==> rank(r).Some?
    ensures forall k :: k in keys ==> RankedBelow(v.members[k], rank, bound)
    decreases v, 0, keys
  {
    bound := 0;
    if k :| k in keys {
      var rest := RankBoundKeys(v, rank, keys - {k});
      var next := RankBound(v.members[k], rank);
      bound := if next < rest then rest else next;
    }
  }

  /** The last place, going down from `n`, where `p` still holds. */
  function Least(p: nat -> bool, n: nat): (least: nat)
    requires p(n)
    ensures p(least) && least <= n && (least > 0 ==> !p(least - 1))
  {
    if n > 0 && p(n - 1) then Least(p, n - 1) else n
  }

  ghost function LeastFuel(r: Value, document: Value, fuel: nat): (least: nat)
    requires Resolve(r, document, fuel).Some?
  {
    Least((f: nat) => Resolve(r, document, f).Some?, fuel)
  }

  lemma LeastIsLeast(r: Value, document: Value, fuel: nat, f: nat)
    requires Resolve(r, document, fuel).Some? && Resolve(r, document, f).Some?
    ensures Resolve(r, document, LeastFuel(r, document, fuel)).Some?
    ensures LeastFuel(r, document, fuel) <= f && LeastFuel(r, document, fuel) <= fuel
  {
    hide Resolve;
    var p := (f: nat) => Resolve(r, document, f).Some?;
    var least := LeastFuel(r, document, fuel);
    assert p(least) && (least > 0 ==> !p(least - 1));
    if f < least {
      ResolveMore(r, document, f, least - 1);
    }
  }

  lemma RefUnfolds(r: Value, document: Value, fuel: nat)
    requires IsLoneRef(r) && Resolve(r, document, fuel).Some?
    ensures fuel > 0 && RefTarget(r, document).Some? && Resolve(RefTarget(r, document).value, document, fuel - 1).Some?
  {
  }

  /** The references that can be resolved, ranked by how much fuel it takes. */
  lemma FuelRanking(v: Value, document: Value, fuel: nat) returns (rank: Value -> Option<nat>)
    requires Resolve(v, document, fuel).Some?
    ensures Ranking(document, rank) && forall r :: Mentions(v, r) ==> rank(r).Some?
  {
    hide Resolve, LeastFuel, RefTarget, IsLoneRef, Mentions;
    rank := (r: Value) =>
      if IsLoneRef(r) && Resolve(r, document, fuel).Some? then Some(LeastFuel(r, document, fuel)) else None;
    forall r | rank(r).Some?
      ensures Grounded(r, document, rank)
    {
      var least := rank(r).value;
      LeastIsLeast(r, document, fuel, fuel);
      RefUnfolds(r, document, least);
      var target := RefTarget(r, document).value;
      forall q | Mentions(target, q)
        ensures rank(q).Some? && rank(q).value < least
      {
        MentionsLoneRef(target, q);
        MentionResolves(target, document, least - 1, q);
        ResolveMore(q, document, least - 1, fuel);
        LeastIsLeast(q, document, fuel, least - 1);
      }
    }
    forall r | Mentions(v, r)
      ensures rank(r).Some?
    {
      MentionsLoneRef(v, r);
      MentionResolves(v, document, fuel, r);
    }
  }

  /** The call returns exactly on well-founded references: each leads somewhere, and none leads
      back to itself. */
  lemma ResolvesExactly(v: Value, document: Value)
    ensures Resolves(v, document) <==> WellFounded(v, document)
  {
    if Resolves(v, document) {
      var fuel: nat :| Resolve(v, document, fuel).Some?;
      var rank := FuelRanking(v, document, fuel);
    }
    if WellFounded(v, document) {
      var rank :| Ranking(document, rank) && forall r :: Mentions(v, r) ==> rank(r).Some?;
      var bound := RankBound(v, rank);
      RankedResolves(document, rank, v, bound);
    }
  }
}
