/** The gate cache seen from outside: what a check looks at, which checks are refused, what they run and
    what counts as a hit, with every argument, stage and entry written out. */
module GateContents {
  import opened Text
  import opened Json
  import opened GateCache

  /** The working content and the index after some actions: those of the last edit. */
  function WorkAfter(work: string, actions: seq<Action>): string {
    if actions == [] then work
    else
      var a := actions[|actions| - 1];
      if a.Edit? then a.work else WorkAfter(work, actions[..|actions| - 1])
  }

  function IndexAfter(index: string, actions: seq<Action>): string {
    if actions == [] then index
    else
      var a := actions[|actions| - 1];
      if a.Edit? then a.index else IndexAfter(index, actions[..|actions| - 1])
  }

  lemma {:induction false} ContentsFollowEdits(gate: Gate, work: string, index: string, actions: seq<Action>)
    requires Run(gate, work, index, actions).Some?
    ensures Run(gate, work, index, actions).value.work == WorkAfter(work, actions)
    ensures Run(gate, work, index, actions).value.index == IndexAfter(index, actions)
  {
    if actions != [] {
      RunStep(gate, work, index, actions);
      var n := |actions| - 1;
      ContentsFollowEdits(gate, work, index, actions[..n]);
      hide Run;
      ContentsStep(gate, Run(gate, work, index, actions[..n]).value, actions[n]);
      hide Apply, Enabled;
    }
  }

  lemma ContentsStep(gate: Gate, s: State, a: Action)
    requires Enabled(s, a)
    ensures Apply(gate, s, a).work == if a.Edit? then a.work else s.work
    ensures Apply(gate, s, a).index == if a.Edit? then a.index else s.index
  {
    hide CacheKey, Required, Normalized, Current;
  }

  /** A dev check looks at the working content, a commit check at the index, a push check at the commit. */
  ghost predicate LooksAt(tree: string, mode: Mode, pushed: string, work: string, index: string, actions: seq<Action>) {
    && (mode == Dev ==> tree == WorkAfter(work, actions))
    && (mode == Commit ==> tree == IndexAfter(index, actions))
    && (mode == Push ==> tree == pushed)
  }

  /** The arguments that are accepted, and what they count as: no argument and `--changed` with at most one
      reference both stand for the changes since the merge base. */
  ghost predicate CountsAs(arguments: seq<string>, ancestor: string, counted: seq<string>) {
    if arguments == [] || (arguments[0] == "--changed" && |arguments| <= 2) then counted == ["--changed", ancestor]
    else arguments[0] in {"--backend", "--frontend", "--all"} && counted == arguments
  }

  lemma ArgumentsExactly(arguments: seq<string>, ancestor: string, counted: seq<string>)
    ensures Normalized(arguments, ancestor) == Some(counted) <==> CountsAs(arguments, ancestor, counted)
  {
  }

  /** The check was started by this action on this content. */
  ghost predicate StartedBy(check: Check, a: Action, work: string, index: string, before: seq<Action>) {
    && a.Start? && check.mode == a.mode
    && LooksAt(check.candidate.tree, a.mode, a.pushed, work, index, before)
    && check.candidate.base == a.ancestor && check.candidate.versions == a.versions
    && CountsAs(a.arguments, a.ancestor, check.candidate.arguments)
    && |a.versions| == 7 && |a.versions[5]| >= 4 && a.versions[5][..4] == "v24."
  }

  lemma StartsCheck(gate: Gate, s: State, a: Action, work: string, index: string, before: seq<Action>)
    requires Enabled(s, a) && a.Start? && s.work == WorkAfter(work, before) && s.index == IndexAfter(index, before)
    ensures a.p in Apply(gate, s, a).checks && StartedBy(Apply(gate, s, a).checks[a.p], a, work, index, before)
  {
    ArgumentsExactly(a.arguments, a.ancestor, Normalized(a.arguments, a.ancestor).value);
    hide Normalized, Required, CountsAs;
  }

  lemma SameCandidate(gate: Gate, s: State, a: Action, p: nat)
    requires Enabled(s, a) && p in s.checks
    ensures var t := Apply(gate, s, a); p in t.checks && t.checks[p].candidate == s.checks[p].candidate && t.checks[p].mode == s.checks[p].mode
  {
    hide CacheKey, Required, Normalized, Current;
  }

  lemma NewCheck(gate: Gate, s: State, a: Action, p: nat)
    requires Enabled(s, a) && p !in s.checks && p in Apply(gate, s, a).checks
    ensures a.Start? && a.p == p
  {
    hide CacheKey, Required, Normalized, Current;
  }

  /** Every check was started on the content that its mode stands for. */
  lemma {:induction false} StartedOn(gate: Gate, work: string, index: string, actions: seq<Action>, p: nat) returns (i: nat)
    requires Run(gate, work, index, actions).Some? && p in Run(gate, work, index, actions).value.checks
    ensures i < |actions| && actions[i].Start? && actions[i].p == p
    ensures StartedBy(Run(gate, work, index, actions).value.checks[p], actions[i], work, index, actions[..i])
  {
    var n := |actions| - 1;
    assert actions != [];
    hide *;
    RunStep(gate, work, index, actions);
    var s := Run(gate, work, index, actions[..n]).value;
    if p in s.checks {
      i := StartedOn(gate, work, index, actions[..n], p);
      SameCandidate(gate, s, actions[n], p);
      assert actions[..n][..i] == actions[..i] && actions[..n][i] == actions[i];
      StartedStill(s.checks[p], Run(gate, work, index, actions).value.checks[p], actions[i], work, index, actions[..i]);
    } else {
      NewCheck(gate, s, actions[n], p);
      ContentsFollowEdits(gate, work, index, actions[..n]);
      StartsCheck(gate, s, actions[n], work, index, actions[..n]);
      i := n;
    }
  }

  lemma StartedStill(c: Check, d: Check, a: Action, work: string, index: string, before: seq<Action>)
    requires StartedBy(c, a, work, index, before) && d.candidate == c.candidate && d.mode == c.mode
    ensures StartedBy(d, a, work, index, before)
  {
    hide LooksAt, CountsAs;
  }

  /** A check that gets near the cache has looked a second time, after its stages, and found the content
      of its candidate: the working content for a dev check, the index for a commit check. */
  lemma CertifiedContent(gate: Gate, work: string, index: string, actions: seq<Action>, p: nat) returns (k: nat)
    requires Run(gate, work, index, actions).Some? && p in Run(gate, work, index, actions).value.checks
    requires NearCache(Run(gate, work, index, actions).value.checks[p].phase)
    ensures k < |actions| && actions[k] == Recheck(p)
    ensures var check := Run(gate, work, index, actions).value.checks[p];
            LooksAt(check.candidate.tree, check.mode, check.candidate.tree, work, index, actions[..k])
  {
    hide *;
    var i := NearCacheSaw(gate, work, index, actions, p);
    SawBefore(gate, work, index, actions, i, p);
    k := i;
    SawContent(gate, work, index, actions, k, p);
    CandidateStays(gate, work, index, actions, k, p);
  }

  lemma SawContent(gate: Gate, work: string, index: string, actions: seq<Action>, k: nat, p: nat)
    requires SawUnchanged(gate, work, index, actions, k, p)
    ensures k < |actions| && actions[k] == Recheck(p)
    ensures Run(gate, work, index, actions[..k]).Some? && p in Run(gate, work, index, actions[..k]).value.checks
    ensures var check := Run(gate, work, index, actions[..k]).value.checks[p];
            LooksAt(check.candidate.tree, check.mode, check.candidate.tree, work, index, actions[..k])
  {
    hide Run, WorkAfter, IndexAfter;
    ContentsFollowEdits(gate, work, index, actions[..k]);
  }

  lemma {:induction false} CandidateStays(gate: Gate, work: string, index: string, actions: seq<Action>, k: nat, p: nat)
    requires Run(gate, work, index, actions).Some? && k <= |actions|
    requires Run(gate, work, index, actions[..k]).Some? && p in Run(gate, work, index, actions[..k]).value.checks
    ensures p in Run(gate, work, index, actions).value.checks
    ensures Run(gate, work, index, actions).value.checks[p].candidate == Run(gate, work, index, actions[..k]).value.checks[p].candidate
    ensures Run(gate, work, index, actions).value.checks[p].mode == Run(gate, work, index, actions[..k]).value.checks[p].mode
    decreases |actions|
  {
    hide *;
    if k == |actions| {
      assert actions[..k] == actions;
    } else {
      var n := |actions| - 1;
      RunStep(gate, work, index, actions);
      assert actions[..n][..k] == actions[..k];
      CandidateStays(gate, work, index, actions[..n], k, p);
      SameCandidate(gate, Run(gate, work, index, actions[..n]).value, actions[n], p);
    }
  }

  /** What a check runs, in order: the backend is synchronised; the frontend is installed if asked for or
      touched; the checks; and, for `--changed` and `--all`, the tests. */
  lemma StagesExactly(gate: Gate, c: Candidate)
    requires c.arguments != []
    ensures var stages, mode := Required(gate, c), c.arguments[0];
            && stages[0] == SyncBackend && DevCheck in stages
            && (InstallFrontend in stages <==> mode == "--frontend" || mode == "--all" || gate.touchesFrontend(c.base, c.tree))
            && (PrepareTest in stages <==> mode == "--changed" || mode == "--all")
            && (ExecutePlan in stages <==> mode == "--changed" || mode == "--all")
            && forall i, j :: 0 <= i < j < |stages| ==> Place(stages[i]) < Place(stages[j])
  {
  }

  function Place(stage: Stage): nat {
    match stage
    case SyncBackend => 0
    case InstallFrontend => 1
    case DevCheck => 2
    case PrepareTest => 3
    case ExecutePlan => 4
  }

  /** A hit is a cache file under the key of the candidate that holds its tree and a line end, nothing
      less and nothing more; otherwise the check runs. */
  lemma HitExactly(gate: Gate, s: State, p: nat)
    requires Enabled(s, Look(p))
    ensures var c := s.checks[p].candidate; var key := CacheKey(gate.hash, c); var phase := Apply(gate, s, Look(p)).checks[p].phase;
            && (phase == Reused || phase == Checking)
            && (phase == Reused <==> key in s.cache && |s.cache[key]| == |c.tree| + 1 && s.cache[key][..|c.tree|] == c.tree && s.cache[key][|c.tree|] == '\n')
  {
    var c := s.checks[p].candidate;
    var key := CacheKey(gate.hash, c);
    hide CacheKey;
    if key in s.cache && |s.cache[key]| == |c.tree| + 1 {
      var entry := s.cache[key];
      assert entry == entry[..|c.tree|] + [entry[|c.tree|]];
    }
  }
}
