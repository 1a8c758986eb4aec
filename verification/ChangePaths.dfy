/** scripts/classify_ci_changes.py: the paths of a Git diff, and the CI jobs they call for. */
module ChangePaths {
  import opened Text

  // ----- the output of `git diff --name-status -z` -----

  const NUL: char := '\0'

  predicate TwoPaths(status: string)
    requires status != ""
  {
    status[0] == 'C' || status[0] == 'R'
  }

  predicate OnePath(status: string)
    requires status != ""
  {
    status[0] == 'A' || status[0] == 'D' || status[0] == 'M' || status[0] == 'T'
  }

  function NonEmpty(items: seq<string>): (r: seq<string>)
    ensures forall i :: 0 <= i < |r| ==> r[i] != ""
  {
    if items == [] then []
    else if items[0] == "" then NonEmpty(items[1..])
    else [items[0]] + NonEmpty(items[1..])
  }

  /** Paths already read, followed by those still to be read. */
  function Followed(paths: seq<string>, rest: Option<seq<string>>): Option<seq<string>> {
    if rest.None? then None else Some(paths + rest.value)
  }

  /** The paths of a list of items: a status letter decides whether one or two paths follow. */
  function ItemPaths(items: seq<string>): Option<seq<string>>
    requires forall i :: 0 <= i < |items| ==> items[i] != ""
  {
    if items == [] then Some([])
    else if TwoPaths(items[0]) then
      if |items| < 3 then None else Followed([items[1], items[2]], ItemPaths(items[3..]))
    else if OnePath(items[0]) then
      if |items| < 2 then None else Followed([items[1]], ItemPaths(items[2..]))
    else None
  }

  function StatusPaths(raw: string): Option<seq<string>> {
    ItemPaths(NonEmpty(Split(raw, NUL)))
  }

  lemma FollowedTwice(a: seq<string>, b: seq<string>, rest: Option<seq<string>>)
    ensures Followed(a, Followed(b, rest)) == Followed(a + b, rest)
    ensures Followed([], rest) == rest
  {
    if rest.Some? {
      assert a + (b + rest.value) == a + b + rest.value && [] + rest.value == rest.value;
    }
  }

  method PathsFromNameStatus(raw: string) returns (r: Option<seq<string>>)
    ensures r == StatusPaths(raw)
  {
    var items := NonEmpty(Split(raw, NUL));
    var paths: seq<string> := [];
    var index := 0;
    assert items[index..] == items;
    FollowedTwice([], [], ItemPaths(items));
    hide NonEmpty, Split, TwoPaths, OnePath;
    while index < |items|
      invariant index <= |items|
      invariant StatusPaths(raw) == Followed(paths, ItemPaths(items[index..]))
    {
      var status := items[index];
      ghost var rest := items[index..];
      if TwoPaths(status) {
        if index + 2 >= |items| {
          return None;
        }
        assert rest[3..] == items[index + 3..];
        FollowedTwice(paths, [items[index + 1], items[index + 2]], ItemPaths(rest[3..]));
        paths := paths + [items[index + 1], items[index + 2]];
        index := index + 3;
      } else if OnePath(status) {
        if index + 1 >= |items| {
          return None;
        }
        assert rest[2..] == items[index + 2..];
        FollowedTwice(paths, [items[index + 1]], ItemPaths(rest[2..]));
        paths := paths + [items[index + 1]];
        index := index + 2;
      } else {
        return None;
      }
    }
    assert paths + [] == paths;
    return Some(paths);
  }

  // ----- printing a diff and reading it back -----

  datatype Change = OneSided(status: string, path: string) | TwoSided(status: string, before: string, after: string)

  predicate IsItem(s: string) {
    s != "" && NUL !in s
  }

  /** Additions, deletions, modifications and changes of type have one side, copies and renames two. */
  predicate ValidChange(c: Change) {
    match c
    case OneSided(status, path) => IsItem(status) && IsItem(path) && status[0] in "ADMT"
    case TwoSided(status, before, after) => IsItem(status) && IsItem(before) && IsItem(after) && status[0] in "CR"
  }

  function Items(changes: seq<Change>): seq<string> {
    if changes == [] then []
    else
      (match changes[0]
       case OneSided(status, path) => [status, path]
       case TwoSided(status, before, after) => [status, before, after])
      + Items(changes[1..])
  }

  /** Both sides of every change, in order. */
  function PathsOf(changes: seq<Change>): seq<string> {
    if changes == [] then []
    else
      (match changes[0]
       case OneSided(_, path) => [path]
       case TwoSided(_, before, after) => [before, after])
      + PathsOf(changes[1..])
  }

  lemma {:induction false} ItemsValid(changes: seq<Change>)
    requires forall i :: 0 <= i < |changes| ==> ValidChange(changes[i])
    ensures forall i :: 0 <= i < |Items(changes)| ==> IsItem(Items(changes)[i])
  {
    if changes != [] {
      hide OnePath, TwoPaths;
      ItemsValid(changes[1..]);
    }
  }

  lemma {:induction false} ItemsParsed(changes: seq<Change>)
    requires forall i :: 0 <= i < |changes| ==> ValidChange(changes[i])
    requires forall i :: 0 <= i < |Items(changes)| ==> Items(changes)[i] != ""
    ensures ItemPaths(Items(changes)) == Some(PathsOf(changes))
  {
    if changes != [] {
      var items := Items(changes);
      var rest := Items(changes[1..]);
      match changes[0] {
        case OneSided(_, _) =>
          assert items[2..] == rest;
        case TwoSided(_, _, _) =>
          assert items[3..] == rest;
      }
      assert forall i :: 0 <= i < |rest| ==> rest[i] in items;
      ItemsParsed(changes[1..]);
    }
  }

  lemma {:induction false} NonEmptyStays(items: seq<string>)
    requires forall i :: 0 <= i < |items| ==> items[i] != ""
    ensures NonEmpty(items + [""]) == items
  {
    if items != [] {
      NonEmptyStays(items[1..]);
      assert (items + [""])[1..] == items[1..] + [""];
      assert items == [items[0]] + items[1..];
    } else {
      assert (items + [""])[1..] == [];
    }
  }

  /** Reading the NUL-terminated form of any list of changes returns every path on both sides. */
  lemma NameStatusRoundTrip(changes: seq<Change>)
    requires forall i :: 0 <= i < |changes| ==> ValidChange(changes[i])
    ensures StatusPaths(Terminate(Items(changes), NUL)) == Some(PathsOf(changes))
  {
    var items := Items(changes);
    ItemsValid(changes);
    SplitTerminated(items, NUL);
    NonEmptyStays(items);
    ItemsParsed(changes);
  }

  /** And only what is such a list is read: any other text is refused. */
  lemma {:induction false} ItemsAreChanges(items: seq<string>) returns (changes: seq<Change>)
    requires forall i :: 0 <= i < |items| ==> items[i] != "" && IsItem(items[i])
    requires ItemPaths(items).Some?
    ensures (forall i :: 0 <= i < |changes| ==> ValidChange(changes[i])) && Items(changes) == items
    ensures ItemPaths(items) == Some(PathsOf(changes))
    decreases |items|
  {
    changes := [];
    if items != [] {
      var two := TwoPaths(items[0]);
      var rest := if two then items[3..] else items[2..];
      var more := ItemsAreChanges(rest);
      var first := if two then TwoSided(items[0], items[1], items[2]) else OneSided(items[0], items[1]);
      changes := [first] + more;
      assert changes[1..] == more;
      assert items == (if two then items[..3] else items[..2]) + rest;
    }
  }

  lemma ReadExactly(raw: string, paths: seq<string>)
    ensures StatusPaths(raw) == Some(paths) <==>
            exists changes :: (forall i :: 0 <= i < |changes| ==> ValidChange(changes[i]))
              && Items(changes) == NonEmpty(Split(raw, NUL)) && PathsOf(changes) == paths
  {
    var items := NonEmpty(Split(raw, NUL));
    SplitPieces(raw);
    hide Split, NonEmpty, TwoPaths, OnePath;
    if StatusPaths(raw) == Some(paths) {
      var changes := ItemsAreChanges(items);
    }
    if changes :| (forall i :: 0 <= i < |changes| ==> ValidChange(changes[i])) && Items(changes) == items && PathsOf(changes) == paths {
      ItemsParsed(changes);
    }
  }

  lemma SplitPieces(raw: string)
    ensures forall i :: 0 <= i < |NonEmpty(Split(raw, NUL))| ==> IsItem(NonEmpty(Split(raw, NUL))[i])
  {
    PiecesFree(raw);
    NonEmptyFree(Split(raw, NUL));
  }

  lemma {:induction false} PiecesFree(s: string)
    ensures forall i :: 0 <= i < |Split(s, NUL)| ==> NUL !in Split(s, NUL)[i]
  {
    if s != "" {
      PiecesFree(s[1..]);
    }
  }

  lemma {:induction false} NonEmptyFree(items: seq<string>)
    requires forall i :: 0 <= i < |items| ==> NUL !in items[i]
    ensures forall i :: 0 <= i < |NonEmpty(items)| ==> NUL !in NonEmpty(items)[i]
  {
    if items != [] {
      NonEmptyFree(items[1..]);
    }
  }

  // ----- choosing jobs -----

  datatype Jobs = Jobs(backend: bool, frontend: bool, g2: bool, security: bool)

  /** What one path calls for; `fallback` marks a path that no rule knows. */
  datatype Rule = Rule(jobs: Jobs, category: string, fallback: bool)

  datatype Classification = Classification(jobs: Jobs, categories: set<string>, fallback: bool, releaseControl: bool)

  const ALL_JOBS := Jobs(true, true, true, true)
  const FULL := Rule(ALL_JOBS, "unknown", true)

  /** Empty, absolute, or with a parent step. */
  predicate Unsafe(path: string) {
    path == "" || path[0] == '/' || ".." in Split(path, '/')
  }

  /** The rule table is a parameter; unsafe paths never reach it. */
  function RuleOf(path: string, table: string -> Rule): Rule {
    if Unsafe(path) then FULL else table(path)
  }

  /** The result for a set of paths: a job is on when some path calls for it, and release control is
      on when some path is controlled or unknown and the G2 job runs. */
  ghost predicate Classified(paths: set<string>, table: string -> Rule, controlled: string -> bool, c: Classification) {
    if paths == {} then c == Classification(ALL_JOBS, {"empty-diff"}, true, true)
    else
      && (c.jobs.backend <==> exists p :: p in paths && RuleOf(p, table).jobs.backend)
      && (c.jobs.frontend <==> exists p :: p in paths && RuleOf(p, table).jobs.frontend)
      && (c.jobs.g2 <==> exists p :: p in paths && RuleOf(p, table).jobs.g2)
      && (c.jobs.security <==> exists p :: p in paths && RuleOf(p, table).jobs.security)
      && (c.fallback <==> exists p :: p in paths && RuleOf(p, table).fallback)
      && (forall k :: k in c.categories <==> exists p :: p in paths && RuleOf(p, table).category == k)
      && (c.releaseControl <==> c.jobs.g2 && exists p :: p in paths && (RuleOf(p, table).fallback || controlled(p)))
  }

  /** The jobs of two changes together. */
  function Either(a: Jobs, b: Jobs): Jobs {
    Jobs(a.backend || b.backend, a.frontend || b.frontend, a.g2 || b.g2, a.security || b.security)
  }

  function SetOf(paths: seq<string>): (s: set<string>)
    ensures forall p :: p in s <==> p in paths
  {
    set p | p in paths
  }

  method ClassifyPaths(paths: seq<string>, table: string -> Rule, controlled: string -> bool) returns (c: Classification)
    ensures Classified(SetOf(paths), table, controlled, c)
  {
    hide SetOf, RuleOf;
    if paths == [] {
      return Classification(ALL_JOBS, {"empty-diff"}, true, true);
    }
    assert paths[0] in SetOf(paths);
    var jobs, fallback, release := Jobs(false, false, false, false), false, false;
    var categories: set<string> := {};
    for i := 0 to |paths|
      invariant jobs.backend <==> exists p :: p in paths[..i] && RuleOf(p, table).jobs.backend
      invariant jobs.frontend <==> exists p :: p in paths[..i] && RuleOf(p, table).jobs.frontend
      invariant jobs.g2 <==> exists p :: p in paths[..i] && RuleOf(p, table).jobs.g2
      invariant jobs.security <==> exists p :: p in paths[..i] && RuleOf(p, table).jobs.security
      invariant fallback <==> exists p :: p in paths[..i] && RuleOf(p, table).fallback
      invariant forall k :: k in categories <==> exists p :: p in paths[..i] && RuleOf(p, table).category == k
      invariant release <==> exists p :: p in paths[..i] && (RuleOf(p, table).fallback || controlled(p))
    {
      var path := paths[i];
      var rule := RuleOf(path, table);
      assert paths[..i + 1] == paths[..i] + [path];
      jobs, fallback := Either(jobs, rule.jobs), fallback || rule.fallback;
      categories := categories + {rule.category};
      release := release || rule.fallback || controlled(path);
    }
    assert paths[..|paths|] == paths;
    return Classification(jobs, categories, fallback, release && jobs.g2);
  }

  /** Order and repetition of the paths do not matter: the result is determined by the set. */
  lemma ClassifiedOnce(paths: set<string>, table: string -> Rule, controlled: string -> bool, c: Classification, d: Classification)
    requires Classified(paths, table, controlled, c) && Classified(paths, table, controlled, d)
    ensures c == d
  {
    if paths != {} {
      hide RuleOf;
      assert c.categories == d.categories;
    }
  }

  ghost predicate NoMoreThan(c: Classification, d: Classification) {
    && (c.jobs.backend ==> d.jobs.backend) && (c.jobs.frontend ==> d.jobs.frontend)
    && (c.jobs.g2 ==> d.jobs.g2) && (c.jobs.security ==> d.jobs.security)
    && (c.fallback ==> d.fallback) && (c.releaseControl ==> d.releaseControl)
  }

  /** More changed paths never switch a job off, as long as there is a changed path at all. */
  lemma MorePathsMoreJobs(paths: set<string>, more: set<string>, table: string -> Rule, controlled: string -> bool,
                          c: Classification, d: Classification)
    requires Classified(paths, table, controlled, c) && Classified(more, table, controlled, d)
    requires paths != {} && paths <= more
    ensures NoMoreThan(c, d) && c.categories <= d.categories
  {
    hide RuleOf;
  }

  /** One step of the path is `..`. */
  ghost predicate HasParentStep(path: string) {
    exists before, after :: ClimbsAt(path, before, after)
  }

  ghost predicate ClimbsAt(path: string, before: string, after: string) {
    && path == before + ".." + after
    && (before == "" || before[|before| - 1] == '/') && (after == "" || after[0] == '/')
  }

  /** A path is unsafe if it is empty, begins at the root, or climbs. */
  lemma UnsafeExactly(path: string)
    ensures Unsafe(path) <==> path == "" || path[0] == '/' || HasParentStep(path)
  {
    StepsExactly(path);
    hide Split;
  }

  lemma {:induction false} StepsExactly(path: string)
    ensures ".." in Split(path, '/') <==> HasParentStep(path)
  {
    if ".." in Split(path, '/') {
      var k :| 0 <= k < |Split(path, '/')| && Split(path, '/')[k] == "..";
      StepInside(path, k);
    }
    if before, after :| ClimbsAt(path, before, after) {
      StepFound(before, after);
    }
  }

  /** Where a piece stands. */
  lemma {:induction false} PieceAt(s: string, k: nat) returns (before: string, after: string)
    requires k < |Split(s, '/')|
    ensures s == before + Split(s, '/')[k] + after
    ensures (k == 0 <==> before == "") && (before == "" || before[|before| - 1] == '/') && (after == "" || after[0] == '/')
    decreases |s|
  {
    before, after := "", "";
    if s != "" {
      var rest := s[1..];
      var pieces := Split(rest, '/');
      assert s == [s[0]] + rest;
      if s[0] == '/' {
        if k > 0 {
          before, after := PieceAt(rest, k - 1);
          before := "/" + before;
        } else {
          after := s;
        }
      } else {
        before, after := PieceAt(rest, k);
        if k > 0 {
          before := [s[0]] + before;
        }
      }
    }
  }

  lemma StepInside(path: string, k: nat)
    requires k < |Split(path, '/')| && Split(path, '/')[k] == ".."
    ensures HasParentStep(path)
  {
    var before, after := PieceAt(path, k);
    hide Split;
    assert ClimbsAt(path, before, after);
  }

  lemma StepFound(before: string, after: string)
    requires (before == "" || before[|before| - 1] == '/') && (after == "" || after[0] == '/')
    ensures ".." in Split(before + ".." + after, '/')
  {
    var tail := ".." + after;
    var pieces := Split(tail, '/');
    if after == "" {
      assert tail == "..";
      SplitPiece("..", '/', []);
    } else {
      assert tail == ".." + ['/'] + after[1..];
      SplitPiece("..", '/', after[1..]);
    }
    assert pieces[0] == "..";
    if before == "" {
      assert before + ".." + after == tail;
    } else {
      var n := |before| - 1;
      assert before + ".." + after == before[..n] + ['/'] + tail;
      SplitMiddle(before[..n], tail);
    }
  }

  lemma {:induction false} SplitMiddle(front: string, tail: string)
    ensures forall p :: p in Split(tail, '/') ==> p in Split(front + ['/'] + tail, '/')
  {
    var s := front + ['/'] + tail;
    if front == "" {
      assert s[1..] == tail;
      assert Split(s, '/') == [""] + Split(tail, '/');
    } else {
      SplitMiddle(front[1..], tail);
      var rest := front[1..] + ['/'] + tail;
      assert s[1..] == rest;
      SplitSecond(front[1..], tail);
      if front[0] == '/' {
        assert Split(s, '/') == [""] + Split(rest, '/');
      } else {
        assert Split(s, '/')[1..] == Split(rest, '/')[1..];
      }
    }
  }

  /** What stands behind a slash is not in the first piece. */
  lemma {:induction false} SplitSecond(front: string, tail: string)
    ensures var pieces := Split(front + ['/'] + tail, '/');
            |pieces| > 1 && forall p :: p in Split(tail, '/') ==> p in pieces[1..]
  {
    var s := front + ['/'] + tail;
    if front == "" {
      assert s[1..] == tail;
      assert Split(s, '/')[1..] == Split(tail, '/');
    } else {
      SplitSecond(front[1..], tail);
      var rest := front[1..] + ['/'] + tail;
      assert s[1..] == rest;
      if front[0] == '/' {
        assert Split(s, '/')[1..] == Split(rest, '/');
      } else {
        assert Split(s, '/')[1..] == Split(rest, '/')[1..];
      }
    }
  }

  /** Without any changed path, or with one that is empty, begins at the root or climbs, every job runs. */
  lemma DoubtRunsEverything(paths: set<string>, table: string -> Rule, controlled: string -> bool, c: Classification)
    requires Classified(paths, table, controlled, c)
    requires paths == {} || exists p :: p in paths && (p == "" || p[0] == '/' || HasParentStep(p))
    ensures c.jobs == Jobs(true, true, true, true) && c.fallback && c.releaseControl
    ensures paths == {} || "unknown" in c.categories
  {
    if p :| p in paths && (p == "" || p[0] == '/' || HasParentStep(p)) {
      UnsafeExactly(p);
      hide Unsafe, HasParentStep;
      assert RuleOf(p, table) == FULL;
    }
  }
}
