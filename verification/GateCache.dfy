/** `check_candidate` of scripts/gate_snapshot.py: local checks of a candidate tree with a cache of
    successes, modelled as every interleaving of any number of checks, edits and crashes. */
module GateCache {
  import opened Text
  import opened Json

  datatype Mode = Dev | Commit | Push

  /** What a success is a success of. */
  datatype Candidate = Candidate(tree: string, base: string, arguments: seq<string>, versions: seq<string>)

  // ----- the cache key -----

  function Strings(s: seq<string>): (v: Value)
    ensures v.Arr? && |v.items| == |s| && forall i :: 0 <= i < |s| ==> v.items[i] == Str(s[i])
  {
    Arr(seq(|s|, i requires 0 <= i < |s| => Str(s[i])))
  }

  function Payload(c: Candidate): Value {
    Arr([Num("2"), Str(c.tree), Str(c.base), Strings(c.arguments), Strings(c.versions)])
  }

  /** `cache_key`, with the digest as a parameter; `json.dumps` writes ASCII with blanks. */
  function CacheKey(hash: string -> string, c: Candidate): string {
    hash(Dumps(Payload(c), Style(true, true)))
  }

  lemma StringsInjective(s: seq<string>, t: seq<string>)
    requires Strings(s) == Strings(t)
    ensures s == t
  {
    var v := Strings(s);
    hide Strings;
    forall i | 0 <= i < |s| ensures s[i] == t[i] {
      assert v.items[i] == Str(s[i]) && v.items[i] == Str(t[i]);
    }
  }

  /** The key binds the tree, the base, the arguments and the tool versions. */
  lemma KeyBindsCandidate(hash: string -> string, c: Candidate, d: Candidate)
    requires CollisionFree(hash) && CacheKey(hash, c) == CacheKey(hash, d)
    ensures c == d
  {
    hide Dumps, Strings;
    DumpsInjective(Payload(c), Payload(d), Style(true, true));
    var p, q := Payload(c).items, Payload(d).items;
    assert p[1] == q[1] && p[2] == q[2] && p[3] == q[3] && p[4] == q[4];
    StringsInjective(c.arguments, d.arguments);
    StringsInjective(c.versions, d.versions);
  }

  // ----- what a check runs -----

  datatype Stage = SyncBackend | InstallFrontend | DevCheck | PrepareTest | ExecutePlan

  const MODES: set<string> := {"--changed", "--backend", "--frontend", "--all"}

  /** The arguments as they enter the key; nothing if they are refused. */
  function Normalized(arguments: seq<string>, ancestor: string): Option<seq<string>> {
    var args := if arguments == [] then ["--changed"] else arguments;
    if args[0] !in MODES then None
    else if args[0] == "--changed" && |args| > 2 then None
    else if args[0] == "--changed" then Some(["--changed", ancestor])
    else Some(args)
  }

  /** The stages that have to pass; `frontend` says that a changed path lies in the frontend. */
  function Stages(arguments: seq<string>, frontend: bool): seq<Stage>
    requires arguments != []
  {
    [SyncBackend]
    + (if frontend || arguments[0] == "--frontend" || arguments[0] == "--all" then [InstallFrontend] else [])
    + [DevCheck]
    + (if arguments[0] == "--changed" || arguments[0] == "--all" then [PrepareTest, ExecutePlan] else [])
  }

  /** What the machine brings along: the digest, and whether the paths that differ between a base and
      a tree touch the frontend. */
  datatype Gate = Gate(hash: string -> string, touchesFrontend: (string, string) -> bool)

  /** The stages a candidate has to pass: tree and base decide which paths have changed. */
  function Required(gate: Gate, c: Candidate): seq<Stage> {
    if c.arguments == [] then [] else Stages(c.arguments, gate.touchesFrontend(c.base, c.tree))
  }

  /** Tool versions in the order of the payload; only Node 24 is allowed. */
  predicate ToolsAllowed(versions: seq<string>) {
    |versions| == 7 && StartsWith(versions[5], "v24.")
  }

  // ----- the state machine -----

  /** `Certified` has passed the two tests that guard the cache; `Writing(n)` has opened the cache
      file and written n characters. */
  datatype Phase = Looking | Checking | Unchanged | Certified | Writing(written: nat) | Done | Reused | Failed

  datatype Check = Check(mode: Mode, candidate: Candidate, stages: seq<Stage>, passed: seq<Stage>, phase: Phase)

  /** The working content, the index, the cache directory and the checks. */
  datatype State = State(work: string, index: string, cache: map<string, string>, checks: map<nat, Check>)

  datatype Action =
    | Edit(work: string, index: string)
    | Start(p: nat, mode: Mode, arguments: seq<string>, ancestor: string, pushed: string, versions: seq<string>)
    | Look(p: nat)
    | Pass(p: nat)
    | Recheck(p: nat)
    | Status(p: nat, modified: bool)
    | Open(p: nat)
    | Write(p: nat, upTo: nat)
    | Finish(p: nat)
    | Crash(p: nat)

  /** The tree that a mode looks at; a pushed commit never changes. */
  function Current(s: State, mode: Mode, pushed: string): string {
    match mode
    case Dev => s.work
    case Commit => s.index
    case Push => pushed
  }

  function Entry(c: Candidate): string {
    c.tree + "\n"
  }

  predicate InPhase(s: State, p: nat, phase: Phase) {
    p in s.checks && s.checks[p].phase == phase
  }

  predicate Ended(phase: Phase) {
    phase == Done || phase == Reused || phase == Failed
  }

  predicate Enabled(s: State, a: Action) {
    match a
    case Edit(_, _) => true
    case Start(p, _, arguments, ancestor, _, versions) =>
      p !in s.checks && Normalized(arguments, ancestor).Some? && ToolsAllowed(versions)
    case Look(p) => InPhase(s, p, Looking)
    case Pass(p) => InPhase(s, p, Checking) && |s.checks[p].passed| < |s.checks[p].stages|
    case Recheck(p) => InPhase(s, p, Checking) && |s.checks[p].passed| == |s.checks[p].stages|
    case Status(p, _) => InPhase(s, p, Unchanged)
    case Open(p) => InPhase(s, p, Certified)
    case Write(p, upTo) =>
      p in s.checks && s.checks[p].phase.Writing? && s.checks[p].phase.written < upTo <= |Entry(s.checks[p].candidate)|
    case Finish(p) => p in s.checks && InPhase(s, p, Writing(|Entry(s.checks[p].candidate)|))
    case Crash(p) => p in s.checks && !Ended(s.checks[p].phase)
  }

  function Moved(s: State, p: nat, phase: Phase): State
    requires p in s.checks
  {
    s.(checks := s.checks[p := s.checks[p].(phase := phase)])
  }

  function Apply(gate: Gate, s: State, a: Action): State
    requires Enabled(s, a)
  {
    match a
    case Edit(work, index) => s.(work := work, index := index)
    case Start(p, mode, arguments, ancestor, pushed, versions) =>
      var args := Normalized(arguments, ancestor).value;
      var candidate := Candidate(Current(s, mode, pushed), ancestor, args, versions);
      s.(checks := s.checks[p := Check(mode, candidate, Required(gate, candidate), [], Looking)])
    case Look(p) =>
      var c := s.checks[p].candidate;
      var key := CacheKey(gate.hash, c);
      Moved(s, p, if key in s.cache && s.cache[key] == Entry(c) then Reused else Checking)
    case Pass(p) =>
      var check := s.checks[p];
      s.(checks := s.checks[p := check.(passed := check.passed + [check.stages[|check.passed|]])])
    case Recheck(p) =>
      var check := s.checks[p];
      Moved(s, p, if Current(s, check.mode, check.candidate.tree) == check.candidate.tree then Unchanged else Failed)
    case Status(p, modified) => Moved(s, p, if modified then Failed else Certified)
    case Open(p) => Moved(s.(cache := s.cache[CacheKey(gate.hash, s.checks[p].candidate) := ""]), p, Writing(0))
    case Write(p, upTo) =>
      var c := s.checks[p].candidate;
      Moved(s.(cache := s.cache[CacheKey(gate.hash, c) := Entry(c)[..upTo]]), p, Writing(upTo))
    case Finish(p) => Moved(s, p, Done)
    case Crash(p) => Moved(s, p, Failed)
  }

  /** The state after a run from an empty cache; nothing if some action was not possible. */
  function Run(gate: Gate, work: string, index: string, actions: seq<Action>): Option<State> {
    if actions == [] then Some(State(work, index, map[], map[]))
    else
      var n := |actions| - 1;
      var before := Run(gate, work, index, actions[..n]);
      if before.None? || !Enabled(before.value, actions[n]) then None else Some(Apply(gate, before.value, actions[n]))
  }

  lemma RunStep(gate: Gate, work: string, index: string, actions: seq<Action>)
    requires actions != [] && Run(gate, work, index, actions).Some?
    ensures var n := |actions| - 1; var before := Run(gate, work, index, actions[..n]);
            && before.Some? && Enabled(before.value, actions[n])
            && Run(gate, work, index, actions).value == Apply(gate, before.value, actions[n])
  {
  }

  lemma {:induction false} RunPrefix(gate: Gate, work: string, index: string, actions: seq<Action>, i: nat)
    requires Run(gate, work, index, actions).Some? && i <= |actions|
    ensures Run(gate, work, index, actions[..i]).Some?
  {
    if i < |actions| {
      RunStep(gate, work, index, actions);
      RunPrefix(gate, work, index, actions[..|actions| - 1], i);
      assert actions[..|actions| - 1][..i] == actions[..i];
    } else {
      assert actions[..i] == actions;
    }
  }

  /** The check an action belongs to. */
  predicate ActsFor(a: Action, p: nat) {
    !a.Edit? && a.p == p
  }

  lemma OthersStay(gate: Gate, s: State, a: Action, p: nat)
    requires Enabled(s, a) && p in s.checks && !ActsFor(a, p)
    ensures var t := Apply(gate, s, a); p in t.checks && t.checks[p] == s.checks[p]
  {
  }

  // ----- a check that gets as far as the cache has passed everything -----

  predicate NearCache(phase: Phase) {
    phase == Unchanged || phase == Certified || phase.Writing? || phase == Done
  }

  /** What a check keeps: it has passed a prefix of the stages its arguments call for, and all of
      them once it comes near the cache. */
  ghost predicate Orderly(gate: Gate, c: Check) {
    && c.candidate.arguments != [] && c.stages == Required(gate, c.candidate)
    && c.passed <= c.stages
    && (NearCache(c.phase) ==> c.passed == c.stages)
    && (c.phase.Writing? ==> c.phase.written <= |Entry(c.candidate)|)
  }

  lemma StepOrderly(gate: Gate, s: State, a: Action, p: nat)
    requires Enabled(s, a) && p in Apply(gate, s, a).checks && (p in s.checks ==> Orderly(gate, s.checks[p]))
    ensures Orderly(gate, Apply(gate, s, a).checks[p])
  {
    hide Stages, Required, CacheKey, Entry;
    if ActsFor(a, p) {
      StepsOrderly(gate, s, a);
    } else {
      OthersStay(gate, s, a, p);
    }
  }

  lemma StepsOrderly(gate: Gate, s: State, a: Action)
    requires Enabled(s, a) && !a.Edit? && (a.p in s.checks ==> Orderly(gate, s.checks[a.p]))
    ensures a.p in Apply(gate, s, a).checks && Orderly(gate, Apply(gate, s, a).checks[a.p])
  {
    hide Stages, Required, CacheKey, Entry;
    if a.Pass? {
      var c := s.checks[a.p];
      assert c.passed + [c.stages[|c.passed|]] <= c.stages;
    }
  }

  lemma {:induction false} AlwaysOrderly(gate: Gate, work: string, index: string, actions: seq<Action>, p: nat)
    requires Run(gate, work, index, actions).Some? && p in Run(gate, work, index, actions).value.checks
    ensures Orderly(gate, Run(gate, work, index, actions).value.checks[p])
  {
    if actions != [] {
      RunStep(gate, work, index, actions);
      hide Run, Orderly, Enabled, Apply;
      var n := |actions| - 1;
      var s := Run(gate, work, index, actions[..n]).value;
      if p in s.checks {
        AlwaysOrderly(gate, work, index, actions[..n], p);
      }
      StepOrderly(gate, s, actions[n], p);
    }
  }

  // ----- every entry was written by a check -----

  /** After the first `i` actions, check `q` of candidate `c` had written `written` characters. */
  ghost predicate WroteAt(gate: Gate, work: string, index: string, actions: seq<Action>, i: int, q: nat,
                          c: Candidate, written: nat)
  {
    && 0 <= i <= |actions|
    && var s := Run(gate, work, index, actions[..i]);
    && s.Some? && q in s.value.checks
    && s.value.checks[q].candidate == c && s.value.checks[q].phase == Writing(written)
    && Orderly(gate, s.value.checks[q])
  }

  lemma WroteEarlier(gate: Gate, work: string, index: string, actions: seq<Action>, n: nat, i: int, q: nat,
                     c: Candidate, written: nat)
    requires n <= |actions| && WroteAt(gate, work, index, actions[..n], i, q, c, written)
    ensures WroteAt(gate, work, index, actions, i, q, c, written)
  {
    assert actions[..n][..i] == actions[..i];
    hide Run, Orderly;
  }

  lemma WrotesNow(gate: Gate, work: string, index: string, actions: seq<Action>, q: nat)
    requires Run(gate, work, index, actions).Some? && q in Run(gate, work, index, actions).value.checks
    requires Run(gate, work, index, actions).value.checks[q].phase.Writing?
    ensures var check := Run(gate, work, index, actions).value.checks[q];
            WroteAt(gate, work, index, actions, |actions|, q, check.candidate, check.phase.written)
  {
    hide Run, Orderly;
    AlwaysOrderly(gate, work, index, actions, q);
    assert actions[..|actions|] == actions;
  }

  /** The writer of a cache entry. */
  lemma {:induction false} EntryWritten(gate: Gate, work: string, index: string, actions: seq<Action>, key: string)
      returns (i: int, q: nat, c: Candidate, written: nat)
    requires Run(gate, work, index, actions).Some? && key in Run(gate, work, index, actions).value.cache
    ensures WroteAt(gate, work, index, actions, i, q, c, written) && written <= |Entry(c)|
    ensures CacheKey(gate.hash, c) == key && Run(gate, work, index, actions).value.cache[key] == Entry(c)[..written]
  {
    var n := |actions| - 1;
    RunStep(gate, work, index, actions);
    hide Run, Orderly;
    var s := Run(gate, work, index, actions[..n]).value;
    var a := actions[n];
    if (a.Open? || a.Write?) && CacheKey(gate.hash, s.checks[a.p].candidate) == key {
      var check := Run(gate, work, index, actions).value.checks[a.p];
      WrotesNow(gate, work, index, actions, a.p);
      i, q, c, written := |actions|, a.p, check.candidate, check.phase.written;
    } else {
      OtherEntriesStay(gate, s, a, key);
      hide Enabled, Apply;
      i, q, c, written := EntryWritten(gate, work, index, actions[..n], key);
      WroteEarlier(gate, work, index, actions, n, i, q, c, written);
    }
  }

  lemma OtherEntriesStay(gate: Gate, s: State, a: Action, key: string)
    requires Enabled(s, a)
    requires !((a.Open? || a.Write?) && CacheKey(gate.hash, s.checks[a.p].candidate) == key)
    ensures var t := Apply(gate, s, a).cache;
            (key in t <==> key in s.cache) && (key in t ==> t[key] == s.cache[key])
  {
    hide CacheKey, Stages, Required, Normalized;
  }

  // ----- a reused success -----

  /** Some check of this very candidate had passed every stage that the arguments call for (`Orderly`)
      and written the whole entry. */
  ghost predicate FullyChecked(gate: Gate, work: string, index: string, actions: seq<Action>, c: Candidate) {
    exists i, q :: WroteAt(gate, work, index, actions, i, q, c, |Entry(c)|)
  }

  lemma HitMeansChecked(gate: Gate, work: string, index: string, actions: seq<Action>, c: Candidate)
    requires CollisionFree(gate.hash) && Run(gate, work, index, actions).Some?
    requires var cache := Run(gate, work, index, actions).value.cache;
             CacheKey(gate.hash, c) in cache && cache[CacheKey(gate.hash, c)] == Entry(c)
    ensures FullyChecked(gate, work, index, actions, c)
  {
    hide Run, CacheKey, WroteAt;
    var i, q, d, written := EntryWritten(gate, work, index, actions, CacheKey(gate.hash, c));
    KeyBindsCandidate(gate.hash, c, d);
    assert |Entry(c)[..written]| == written;
  }

  /** In every history of checks, edits and crashes, a reused success follows a full check of the
      identical tree, base, arguments and tool versions. */
  lemma {:induction false} ReusedMeansChecked(gate: Gate, work: string, index: string, actions: seq<Action>, p: nat)
    requires CollisionFree(gate.hash) && Run(gate, work, index, actions).Some?
    requires InPhase(Run(gate, work, index, actions).value, p, Reused)
    ensures FullyChecked(gate, work, index, actions, Run(gate, work, index, actions).value.checks[p].candidate)
  {
    var n := |actions| - 1;
    RunStep(gate, work, index, actions);
    hide Run, FullyChecked, CacheKey, Stages, Normalized;
    var s := Run(gate, work, index, actions[..n]).value;
    var c := Run(gate, work, index, actions).value.checks[p].candidate;
    if actions[n] == Look(p) {
      HitMeansChecked(gate, work, index, actions[..n], c);
    } else {
      ReusedBefore(gate, s, actions[n], p);
      hide Enabled, Apply;
      ReusedMeansChecked(gate, work, index, actions[..n], p);
    }
    CheckedEarlier(gate, work, index, actions, n, c);
  }

  /** That earlier check had passed, one by one, exactly the stages that the reusing check would have
      run. */
  lemma ReusedRanSameStages(gate: Gate, work: string, index: string, actions: seq<Action>, p: nat) returns (i: int, q: nat)
    requires CollisionFree(gate.hash) && Run(gate, work, index, actions).Some?
    requires InPhase(Run(gate, work, index, actions).value, p, Reused)
    ensures 0 <= i <= |actions| && Run(gate, work, index, actions[..i]).Some?
    ensures var mine, earlier := Run(gate, work, index, actions).value.checks[p], Run(gate, work, index, actions[..i]).value;
            && q in earlier.checks && earlier.checks[q].candidate == mine.candidate
            && earlier.checks[q].passed == mine.stages == Required(gate, mine.candidate)
  {
    hide Run, Required;
    ReusedMeansChecked(gate, work, index, actions, p);
    AlwaysOrderly(gate, work, index, actions, p);
    var c := Run(gate, work, index, actions).value.checks[p].candidate;
    i, q :| WroteAt(gate, work, index, actions, i, q, c, |Entry(c)|);
  }

  lemma ReusedBefore(gate: Gate, s: State, a: Action, p: nat)
    requires Enabled(s, a) && a != Look(p) && InPhase(Apply(gate, s, a), p, Reused)
    ensures InPhase(s, p, Reused) && Apply(gate, s, a).checks[p].candidate == s.checks[p].candidate
  {
    hide CacheKey, Stages, Required, Normalized;
  }

  lemma CheckedEarlier(gate: Gate, work: string, index: string, actions: seq<Action>, n: nat, c: Candidate)
    requires n <= |actions| && FullyChecked(gate, work, index, actions[..n], c)
    ensures FullyChecked(gate, work, index, actions, c)
  {
    hide WroteAt;
    var i, q :| WroteAt(gate, work, index, actions[..n], i, q, c, |Entry(c)|);
    WroteEarlier(gate, work, index, actions, n, i, q, c, |Entry(c)|);
  }

  // ----- a candidate that changed -----

  /** At its second look, check `p` found the tree it had started with. */
  ghost predicate SawUnchanged(gate: Gate, work: string, index: string, actions: seq<Action>, i: int, p: nat) {
    && 0 <= i < |actions| && actions[i] == Recheck(p)
    && var s := Run(gate, work, index, actions[..i]);
    && s.Some? && p in s.value.checks
    && var check := s.value.checks[p];
    Current(s.value, check.mode, check.candidate.tree) == check.candidate.tree
  }

  lemma SawEarlier(gate: Gate, work: string, index: string, actions: seq<Action>, n: nat, i: int, p: nat)
    requires n <= |actions| && SawUnchanged(gate, work, index, actions[..n], i, p)
    ensures SawUnchanged(gate, work, index, actions, i, p)
  {
    assert actions[..n][..i] == actions[..i];
    hide Run;
  }

  lemma NearCacheBefore(gate: Gate, s: State, a: Action, p: nat)
    requires Enabled(s, a) && p in Apply(gate, s, a).checks && NearCache(Apply(gate, s, a).checks[p].phase)
    ensures p in s.checks
    ensures a != Recheck(p) ==> NearCache(s.checks[p].phase)
    ensures a == Recheck(p) ==> Current(s, s.checks[p].mode, s.checks[p].candidate.tree) == s.checks[p].candidate.tree
  {
    hide CacheKey, Stages, Required, Normalized;
  }

  /** A check near the cache has seen its candidate unchanged. */
  lemma {:induction false} NearCacheSaw(gate: Gate, work: string, index: string, actions: seq<Action>, p: nat)
      returns (i: int)
    requires Run(gate, work, index, actions).Some? && p in Run(gate, work, index, actions).value.checks
    requires NearCache(Run(gate, work, index, actions).value.checks[p].phase)
    ensures SawUnchanged(gate, work, index, actions, i, p)
  {
    var n := |actions| - 1;
    RunStep(gate, work, index, actions);
    hide Run, Enabled, Apply, NearCache;
    var s := Run(gate, work, index, actions[..n]).value;
    NearCacheBefore(gate, s, actions[n], p);
    if actions[n] == Recheck(p) {
      i := n;
    } else {
      i := NearCacheSaw(gate, work, index, actions[..n], p);
      SawEarlier(gate, work, index, actions, n, i, p);
    }
  }

  predicate AtCache(phase: Phase) {
    phase == Certified || phase.Writing? || phase == Done
  }

  lemma AtCacheBefore(gate: Gate, s: State, a: Action, p: nat)
    requires Enabled(s, a) && p in Apply(gate, s, a).checks && AtCache(Apply(gate, s, a).checks[p].phase)
    ensures p in s.checks && (a != Status(p, false) ==> AtCache(s.checks[p].phase))
  {
    hide CacheKey, Stages, Required, Normalized;
  }

  /** A check at the cache has found no tracked file modified by the checks. */
  lemma {:induction false} AtCacheSawClean(gate: Gate, work: string, index: string, actions: seq<Action>, p: nat)
      returns (i: nat)
    requires Run(gate, work, index, actions).Some? && p in Run(gate, work, index, actions).value.checks
    requires AtCache(Run(gate, work, index, actions).value.checks[p].phase)
    ensures i < |actions| && actions[i] == Status(p, false)
  {
    var n := |actions| - 1;
    RunStep(gate, work, index, actions);
    hide Run, Enabled, Apply, AtCache;
    var s := Run(gate, work, index, actions[..n]).value;
    AtCacheBefore(gate, s, actions[n], p);
    if actions[n] == Status(p, false) {
      i := n;
    } else {
      i := AtCacheSawClean(gate, work, index, actions[..n], p);
    }
  }

  /** Whatever opens or writes a cache file comes after that check has passed all its stages, seen its
      candidate unchanged and found nothing modified. */
  lemma CacheTouchedOnlyUnchanged(gate: Gate, work: string, index: string, actions: seq<Action>, j: nat)
      returns (i: int, k: int)
    requires Run(gate, work, index, actions).Some? && j < |actions| && (actions[j].Open? || actions[j].Write?)
    ensures i < j && SawUnchanged(gate, work, index, actions, i, actions[j].p)
    ensures 0 <= k < j && actions[k] == Status(actions[j].p, false)
    ensures var s := Run(gate, work, index, actions[..j]);
            s.Some? && actions[j].p in s.value.checks && Orderly(gate, s.value.checks[actions[j].p]) &&
            s.value.checks[actions[j].p].passed == s.value.checks[actions[j].p].stages
  {
    hide *;
    var upTo := actions[..j + 1];
    RunPrefix(gate, work, index, actions, j + 1);
    RunStep(gate, work, index, upTo);
    assert upTo[..j] == actions[..j] && upTo[j] == actions[j];
    var p := actions[j].p;
    WriterIsAtCache(Run(gate, work, index, actions[..j]).value, actions[j]);
    i := NearCacheSaw(gate, work, index, actions[..j], p);
    SawBefore(gate, work, index, actions[..j], i, p);
    SawEarlier(gate, work, index, actions, j, i, p);
    k := AtCacheSawClean(gate, work, index, actions[..j], p);
    AlwaysOrderly(gate, work, index, actions[..j], p);
    PassedNearCache(gate, Run(gate, work, index, actions[..j]).value.checks[p]);
  }

  lemma WriterIsAtCache(s: State, a: Action)
    requires Enabled(s, a) && (a.Open? || a.Write?)
    ensures a.p in s.checks && NearCache(s.checks[a.p].phase) && AtCache(s.checks[a.p].phase)
  {
  }

  lemma SawBefore(gate: Gate, work: string, index: string, actions: seq<Action>, i: int, p: nat)
    requires SawUnchanged(gate, work, index, actions, i, p)
    ensures 0 <= i < |actions|
  {
  }

  lemma PassedNearCache(gate: Gate, c: Check)
    requires Orderly(gate, c) && NearCache(c.phase)
    ensures c.passed == c.stages
  {
  }

  predicate FailedIn(s: State, p: nat) {
    InPhase(s, p, Failed)
  }

  lemma {:induction false} FailedForGood(gate: Gate, work: string, index: string, actions: seq<Action>, i: nat, p: nat)
    requires Run(gate, work, index, actions).Some? && i <= |actions|
    requires Run(gate, work, index, actions[..i]).Some? && FailedIn(Run(gate, work, index, actions[..i]).value, p)
    ensures FailedIn(Run(gate, work, index, actions).value, p)
    ensures i < |actions| ==> !ActsFor(actions[|actions| - 1], p)
    decreases |actions|
  {
    if i < |actions| {
      var n := |actions| - 1;
      RunStep(gate, work, index, actions);
      assert actions[..n][..i] == actions[..i];
      hide Run, Apply;
      FailedForGood(gate, work, index, actions[..n], i, p);
      var s := Run(gate, work, index, actions[..n]).value;
      FailedNotActing(s, actions[n], p);
      OthersStay(gate, s, actions[n], p);
    } else {
      assert actions[..i] == actions;
    }
  }

  lemma FailedNotActing(s: State, a: Action, p: nat)
    requires Enabled(s, a) && FailedIn(s, p)
    ensures !ActsFor(a, p)
  {
    hide Normalized;
  }

  lemma RecheckOutcome(gate: Gate, s: State, p: nat)
    requires Enabled(s, Recheck(p))
    ensures var check := s.checks[p];
            Current(s, check.mode, check.candidate.tree) != check.candidate.tree ==> FailedIn(Apply(gate, s, Recheck(p)), p)
    ensures s.checks[p].phase == Checking
  {
  }

  /** A candidate that changed while its checks were running leaves no entry: its check never opens
      or writes the cache, before or after. */
  lemma ChangedLeavesNoEntry(gate: Gate, work: string, index: string, actions: seq<Action>, i: nat, p: nat, j: nat)
    requires Run(gate, work, index, actions).Some? && i < |actions| && actions[i] == Recheck(p)
    requires Run(gate, work, index, actions[..i]).Some? && p in Run(gate, work, index, actions[..i]).value.checks
    requires !SawUnchanged(gate, work, index, actions, i, p)
    requires j < |actions| && ActsFor(actions[j], p)
    ensures !actions[j].Open? && !actions[j].Write?
  {
    hide Run, NearCache;
    RunPrefix(gate, work, index, actions, j + 1);
    RunPrefix(gate, work, index, actions, i + 1);
    var upTo := actions[..i + 1];
    RunStep(gate, work, index, upTo);
    assert upTo[..i] == actions[..i] && upTo[i] == actions[i];
    RecheckOutcome(gate, Run(gate, work, index, actions[..i]).value, p);
    hide Apply, Enabled;
    if j > i {
      assert actions[..j + 1][..i + 1] == upTo && actions[..j + 1][j] == actions[j];
      FailedForGood(gate, work, index, actions[..j + 1], i + 1, p);
    } else if actions[j].Open? || actions[j].Write? {
      var k, _ := CacheTouchedOnlyUnchanged(gate, work, index, actions, j);
      RecheckedOnce(gate, work, index, actions, k, i, p);
    }
  }

  /** A check looks a second time at most once. */
  lemma RecheckedOnce(gate: Gate, work: string, index: string, actions: seq<Action>, k: nat, i: nat, p: nat)
    requires Run(gate, work, index, actions).Some? && k < i < |actions|
    requires actions[k] == Recheck(p)
    ensures actions[i] != Recheck(p)
  {
    hide Run;
    RunPrefix(gate, work, index, actions, k + 1);
    var upTo := actions[..k + 1];
    RunStep(gate, work, index, upTo);
    assert upTo[..k] == actions[..k] && upTo[k] == actions[k];
    RunPrefix(gate, work, index, actions, i + 1);
    var later := actions[..i + 1];
    RunStep(gate, work, index, later);
    assert later[..i] == actions[..i] && later[i] == actions[i];
    RunPrefix(gate, work, index, actions, i);
    assert actions[..i][..k + 1] == upTo;
    PastForGood(gate, work, index, actions[..i], k + 1, p);
  }

  predicate PastChecks(s: State, p: nat) {
    p in s.checks && s.checks[p].phase != Looking && s.checks[p].phase != Checking
  }

  lemma PastStays(gate: Gate, s: State, a: Action, p: nat)
    requires Enabled(s, a) && PastChecks(s, p)
    ensures PastChecks(Apply(gate, s, a), p)
  {
    hide CacheKey, Stages, Required, Normalized;
  }

  lemma {:induction false} PastForGood(gate: Gate, work: string, index: string, actions: seq<Action>, i: nat, p: nat)
    requires Run(gate, work, index, actions).Some? && i <= |actions|
    requires Run(gate, work, index, actions[..i]).Some? && PastChecks(Run(gate, work, index, actions[..i]).value, p)
    ensures PastChecks(Run(gate, work, index, actions).value, p)
    decreases |actions|
  {
    if i < |actions| {
      var n := |actions| - 1;
      RunStep(gate, work, index, actions);
      assert actions[..n][..i] == actions[..i];
      hide *;
      PastForGood(gate, work, index, actions[..n], i, p);
      PastStays(gate, Run(gate, work, index, actions[..n]).value, actions[n], p);
    } else {
      assert actions[..i] == actions;
    }
  }
}
