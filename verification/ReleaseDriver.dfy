/** The driver of scripts/deploy_release_remote.py: resumable upload with verified renames, a
    write-once rollback ref, fast-forward, prepare, clean up, activate, conditional reload of the
    vendor agent.  Every method states what holds however far it gets. */
module ReleaseDriver {
  import opened Text
  import opened InventoryText
  import opened ReleaseStates
  import opened ReleaseTrace
  import opened ReleaseHost

  datatype Release = Release(target: Commit, user: string, production: bool, offline: bool,
                             files: seq<string>, content: map<string, Content>, urls: seq<string>)
  {
    /** What loading the manifest has already checked: unique file names, none ending in `.part`,
        each with its local content; only production releases are shipped offline. */
    ghost predicate Valid() {
      && (forall i, j :: 0 <= i < j < |files| ==> files[i] != files[j])
      && (forall n :: n in files ==> n != "" && NUL !in n && n in content && !IsPart(n))
      && (offline ==> production) && NUL !in user
    }

    predicate HostControlled() {
      production && !offline
    }

    /** The closed bundle on the remote host: exactly these files, owned, private and unlinked. */
    ghost function Bundle(): map<string, File>
      requires Valid()
    {
      map n | n in files :: File(content[n], SentMeta(user))
    }
  }

  predicate IsPart(name: string) {
    |name| >= 5 && name[|name|-5..] == ".part"
  }

  lemma PartNames(m: string, n: string)
    requires !IsPart(m)
    ensures PartName(n) != m && (PartName(m) == PartName(n) ==> m == n)
  {
    assert PartName(n)[|PartName(n)|-5..] == ".part";
    if PartName(m) == PartName(n) { AppendSame(m, n); }
  }

  lemma AppendSame(m: string, n: string)
    requires m + ".part" == n + ".part"
    ensures m == n
  {
    AppendCancel(m, n, ".part", ".part");
  }

  /** A file under its final name is the local file, and has no partial copy beside it. */
  ghost predicate WellStaged(r: Release, dir: map<string, File>)
    requires r.Valid()
  {
    forall n :: n in r.files && n in dir ==> dir[n].content == r.content[n] && PartName(n) !in dir
  }

  /** Nothing in the directory stands in the way of another attempt: every entry is a file of the
      bundle, as it has to be, or a partial copy of one that is still missing. */
  ghost predicate Resumable(r: Release, dir: map<string, File>)
    requires r.Valid()
  {
    forall n :: n in dir ==>
      (n in r.files && dir[n] == r.Bundle()[n] && PartName(n) !in dir) || exists m :: m in r.files && n == PartName(m)
  }

  lemma ResumableWellStaged(r: Release, dir: map<string, File>)
    requires r.Valid() && Resumable(r, dir)
    ensures WellStaged(r, dir)
  {
    forall n | n in r.files && n in dir ensures dir[n].content == r.content[n] && PartName(n) !in dir {
      forall m | m in r.files ensures n != PartName(m) { PartNames(n, m); }
    }
  }

  lemma UploadKeepsResumable(r: Release, before: map<string, File>, after: map<string, File>, name: string)
    requires r.Valid() && Resumable(r, before) && name in r.files && name !in before
    requires after - {PartName(name)} == before - {PartName(name)}
    ensures Resumable(r, after)
    ensures forall n :: n in r.files ==> (n in after <==> n in before)
  {
    forall n | n in after && n != PartName(name)
      ensures n in before && after[n] == before[n]
    {
      assert n in after - {PartName(name)};
    }
    forall n | n in r.files ensures (n in after <==> n in before) && (n in after ==> PartName(n) !in after) {
      PartNames(n, name);
      PartNames(name, n);
      assert n in after - {PartName(name)} <==> n in before - {PartName(name)};
      if n in after {
        ResumableWellStaged(r, before);
        assert PartName(n) in after ==> PartName(n) in after - {PartName(name)};
      }
    }
  }

  lemma RenameKeepsResumable(r: Release, before: map<string, File>, name: string)
    requires r.Valid() && Resumable(r, before) && name in r.files
    requires PartName(name) in before && before[PartName(name)] == r.Bundle()[name]
    ensures var after := before[name := before[PartName(name)]] - {PartName(name)};
            Resumable(r, after) && name in after && forall n :: n in r.files && n in before ==> n in after
  {
    var after := before[name := before[PartName(name)]] - {PartName(name)};
    PartNames(name, name);
    forall n | n in r.files ensures n != PartName(name) && (n != name ==> PartName(n) != PartName(name)) && PartName(n) != name {
      PartNames(n, name);
      PartNames(name, n);
    }
  }

  lemma ResumableEntry(r: Release, dir: map<string, File>, n: string)
    requires r.Valid() && Resumable(r, dir) && (forall m :: m in r.files ==> m in dir) && n in dir
    ensures n in r.files && dir[n] == r.Bundle()[n]
  {
    ResumableWellStaged(r, dir);
    hide IsPart, PartName;
    assert forall m :: m in r.files ==> n != PartName(m);
  }

  /** When every file has arrived, the directory is the closed bundle. */
  lemma ResumableComplete(r: Release, dir: map<string, File>)
    requires r.Valid() && Resumable(r, dir) && forall n :: n in r.files ==> n in dir
    ensures dir == r.Bundle()
  {
    hide Resumable;
    forall n | n in dir ensures n in r.files && dir[n] == r.Bundle()[n] {
      ResumableEntry(r, dir, n);
    }
    BundleKeys(r);
    assert dir.Keys == r.Bundle().Keys;
  }

  lemma RemoveKeepsResumable(r: Release, dir: map<string, File>, name: string)
    requires r.Valid() && Resumable(r, dir)
    ensures Resumable(r, dir - {name})
  {
    hide PartName;
  }

  lemma RemainingFiles(files: seq<string>, i: nat, dir: map<string, File>)
    requires i < |files| && forall i, j :: 0 <= i < j < |files| ==> files[i] != files[j]
    requires forall n :: n in dir <==> n in files[i..]
    ensures files[i] in dir && forall n :: n in dir - {files[i]} <==> n in files[i + 1..]
  {
    assert files[i..] == [files[i]] + files[i + 1..];
    var rest := files[i + 1..];
    forall n | n in rest ensures n != files[i] {
      var j :| 0 <= j < |rest| && rest[j] == n;
      assert rest[j] == files[i + 1 + j];
    }
  }

  lemma UploadKeepsStaging(r: Release, before: map<string, File>, after: map<string, File>, name: string)
    requires r.Valid() && WellStaged(r, before) && name in r.files && name !in before
    requires after - {PartName(name)} == before - {PartName(name)}
    ensures WellStaged(r, after) && name !in after
  {
    PartNames(name, name);
    assert name !in after - {PartName(name)};
    forall n | n in r.files && n in after ensures after[n].content == r.content[n] && PartName(n) !in after {
      PartNames(n, name);
      assert n in after - {PartName(name)} && n in before && after[n] == before[n];
      PartNames(name, n);
      assert PartName(n) in after <==> PartName(n) in before by {
        assert PartName(n) in after <==> PartName(n) in after - {PartName(name)} || n == name;
      }
    }
  }

  lemma RenameKeepsStaging(r: Release, before: map<string, File>, name: string)
    requires r.Valid() && WellStaged(r, before) && name in r.files
    requires PartName(name) in before && before[PartName(name)].content == r.content[name]
    ensures WellStaged(r, before[name := before[PartName(name)]] - {PartName(name)})
  {
    var after := before[name := before[PartName(name)]] - {PartName(name)};
    forall n | n in r.files && n in after ensures after[n].content == r.content[n] && PartName(n) !in after {
      PartNames(n, name);
      PartNames(name, n);
    }
  }

  // ----- upload -----

  const UPLOAD_ATTEMPTS := 3

  /** So many failed attempts, and a successful one behind them if there was one. */
  function Attempts(name: string, failures: nat, ok: bool): seq<Event> {
    seq(failures, _ => Ran(Rsync(name), false)) + if ok then [Ran(Rsync(name), true)] else []
  }

  /** Attempts on the same partial file until one succeeds, but no more than three. */
  method UploadPartial(h: Host, r: Release, name: string) returns (ok: bool, ghost failures: nat)
    requires r.Valid() && name in r.files && h.Valid() && name !in h.dir
    modifies h`trace, h`phase, h`dir
    ensures h.Valid() && h.phase == old(h.phase)
    ensures h.trace == old(h.trace) + Attempts(name, failures, ok) && if ok then failures < 3 else failures == 3
    ensures old(WellStaged(r, h.dir)) ==> WellStaged(r, h.dir)
    ensures old(Resumable(r, h.dir)) ==> Resumable(r, h.dir)
    ensures h.dir - {PartName(name)} == old(h.dir) - {PartName(name)}
    ensures ok ==> PartName(name) in h.dir && h.dir[PartName(name)].meta == SentMeta(r.user)
    ensures h.calm && h.own.Some? ==> ok && h.dir[PartName(name)].content == r.content[name]
  {
    hide Monitor, WellStaged, Resumable, PartName, PlainDir, PlainMeta, PlainOwn;
    failures := 0;
    for attempt := 0 to UPLOAD_ATTEMPTS
      invariant h.Valid() && h.phase == old(h.phase) && name !in h.dir
      invariant failures == attempt && h.trace == old(h.trace) + Attempts(name, failures, false)
      invariant old(WellStaged(r, h.dir)) ==> WellStaged(r, h.dir)
      invariant old(Resumable(r, h.dir)) ==> Resumable(r, h.dir)
      invariant h.dir - {PartName(name)} == old(h.dir) - {PartName(name)}
      invariant h.calm && h.own.Some? ==> attempt == 0
    {
      ghost var before := h.dir;
      var uploaded := h.Upload(name, r.content[name], r.user);
      UploadLeavesAbsent(r, before, h.dir, name);
      if WellStaged(r, before) { UploadKeepsStaging(r, before, h.dir, name); }
      if Resumable(r, before) { UploadKeepsResumable(r, before, h.dir, name); }
      if uploaded {
        return true, failures;
      }
      failures := failures + 1;
    }
    ok := false;
  }

  lemma UploadLeavesAbsent(r: Release, before: map<string, File>, after: map<string, File>, name: string)
    requires r.Valid() && name in r.files && name !in before && after - {PartName(name)} == before - {PartName(name)}
    ensures name !in after
  {
    PartNames(name, name);
    assert name !in before - {PartName(name)};
  }

  /** Make sure one file of the bundle stands under its final name. */
  method UploadFile(h: Host, r: Release, name: string) returns (ok: bool)
    requires r.Valid() && name in r.files && h.Valid() && CollisionFree(h.digest)
    modifies h`trace, h`phase, h`dir
    ensures h.Valid() && h.phase == old(h.phase) && old(h.trace) <= h.trace
    ensures ok ==> name in h.dir && h.dir[name].content == r.content[name]
    ensures old(WellStaged(r, h.dir)) ==> WellStaged(r, h.dir)
    ensures old(Resumable(r, h.dir)) ==>
              && Resumable(r, h.dir) && (h.calm && h.own.Some? ==> ok)
              && forall n :: n in r.files && n in old(h.dir) ==> n in h.dir
  {
    hide Monitor, WellStaged, Resumable, PartName, PlainDir, PlainMeta, PlainOwn, IsPart, CollisionFree, Release.Bundle;
    var rc := h.TestFinal(name);
    if rc == 0 {
      if Resumable(r, h.dir) { FinalIsLocal(r, h.dir, name); }
      var found := h.RemoteDigest(name);
      SameDigest(h.digest, h.dir[name].content, r.content[name]);
      return found == Some(h.digest(r.content[name]));
    }
    if rc != 1 {
      return false;
    }
    ok := UploadMissing(h, r, name);
  }

  lemma SameDigest(digest: string -> string, a: string, b: string)
    requires CollisionFree(digest)
    ensures digest(a) == digest(b) ==> a == b
  {
  }

  /** Upload a file that is not there yet, compare it, and give it its name. */
  method UploadMissing(h: Host, r: Release, name: string) returns (ok: bool)
    requires r.Valid() && name in r.files && h.Valid() && CollisionFree(h.digest) && name !in h.dir
    modifies h`trace, h`phase, h`dir
    ensures h.Valid() && h.phase == old(h.phase) && old(h.trace) <= h.trace
    ensures ok ==> name in h.dir && h.dir[name].content == r.content[name]
    ensures old(WellStaged(r, h.dir)) ==> WellStaged(r, h.dir)
    ensures old(Resumable(r, h.dir)) ==>
              && Resumable(r, h.dir) && (h.calm && h.own.Some? ==> ok)
              && forall n :: n in r.files && n in old(h.dir) ==> n in h.dir
  {
    hide Monitor, WellStaged, Resumable, PartName, PlainDir, PlainMeta, PlainOwn, IsPart, CollisionFree, Attempts;
    ghost var before := h.dir;
    var uploaded, _ := UploadPartial(h, r, name);
    if Resumable(r, before) { UploadKeepsResumable(r, before, h.dir, name); }
    if !uploaded {
      return false;
    }
    var found := h.RemoteDigest(PartName(name));
    if found != Some(h.digest(r.content[name])) {
      return false;
    }
    SameDigest(h.digest, h.dir[PartName(name)].content, r.content[name]);
    PartNames(name, name);
    if WellStaged(r, h.dir) { RenameKeepsStaging(r, h.dir, name); }
    if Resumable(r, h.dir) { RenameKeepsResumable(r, h.dir, name); }
    ok := h.MoveToFinal(name);
  }

  lemma FinalIsLocal(r: Release, dir: map<string, File>, name: string)
    requires r.Valid() && Resumable(r, dir) && name in r.files && name in dir
    ensures dir[name].content == r.content[name]
  {
    ResumableWellStaged(r, dir);
  }

  method UploadBundle(h: Host, r: Release) returns (ok: bool)
    requires r.Valid() && h.Valid() && CollisionFree(h.digest) && h.bundle == r.Bundle() && h.phase == Staging
    modifies h`trace, h`phase, h`dir, h`own
    ensures h.Valid()
    ensures old(WellStaged(r, h.dir)) ==> WellStaged(r, h.dir)
    ensures old(Resumable(r, h.dir)) ==> Resumable(r, h.dir)
    ensures old(OwnReady(r, h.own)) ==> OwnReady(r, h.own)
    ensures old(Resumable(r, h.dir)) && old(OwnReady(r, h.own)) && h.calm ==> ok
    ensures h.phase == if ok then Staged else Staging
    ensures ok ==> h.dir == r.Bundle() && SafeDirectory(r.user, h.own)
    ensures ok ==> Adds(old(h.trace), h.trace, UploadSteps(r))
  {
    hide Monitor, WellStaged, Resumable, PlainDir, PlainMeta, PlainOwn, Adds;
    AddsNothing(h.trace);
    var installed := h.Observe(Install);
    if !installed {
      return false;
    }
    AddsMore(old(h.trace), old(h.trace), [], Ran(Install, true));
    ghost var t := h.trace;
    installed := h.InstallDirectory(r.user);
    if !installed {
      return false;
    }
    AddsMore(old(h.trace), t, [] + [Ran(Install, true)], Ran(Install, true));
    t := h.trace;
    var uploaded := UploadFiles(h, r);
    if !uploaded {
      return false;
    }
    AddsPrefix(t, h.trace);
    AddsThen(old(h.trace), t, h.trace, [] + [Ran(Install, true)] + [Ran(Install, true)], []);
    t := h.trace;
    ok := ValidateRemoteBundle(h, r);
    if ok {
      AddsThen(old(h.trace), t, h.trace, [] + [Ran(Install, true)] + [Ran(Install, true)] + [], [Accepted(r.Bundle())]);
      assert [] + [Ran(Install, true)] + [Ran(Install, true)] + [] + [Accepted(r.Bundle())] == UploadSteps(r);
    }
  }

  // ----- the steps of a release, in order -----

  /** The staging root and directory are made, and the closed bundle is accepted. */
  ghost function UploadSteps(r: Release): seq<Event>
    requires r.Valid()
  {
    [Ran(Install, true), Ran(Install, true), Accepted(r.Bundle())]
  }

  /** The checkout is clean and fetched, and the fetched ref is the release commit; a production host that
      takes images from a registry prepares its control files. */
  function InspectSteps(r: Release): seq<Event> {
    [Ran(GitStatus, true), Ran(Fetch, true), Ran(ReadHead, true), Answered(ReadRemoteRef, r.target)]
    + if r.production && !r.offline then [Ran(HostControl("prepare"), true)] else []
  }

  function SwitchSteps(r: Release): seq<Event> {
    [Ran(FastForward, true)]
    + if r.production && !r.offline then [Ran(HostControl("activate"), true), Ran(HostControl("status"), true)] else []
  }

  function RemovalSteps(files: seq<string>): seq<Event> {
    seq(|files|, i requires 0 <= i < |files| => Ran(Remove(files[i]), true))
  }

  function ProbeSteps(urls: seq<string>): seq<Event> {
    seq(|urls|, i requires 0 <= i < |urls| => Ran(Probe(urls[i]), true))
  }

  /** The agent is restarted and found active if its files changed; then the service, every public address
      and the checkout are in order. */
  function FinishSteps(r: Release, reloaded: bool): seq<Event> {
    (if reloaded then [Ran(RestartAgent, true), Ran(CheckAgent, true)] else [])
    + [Ran(CheckService, true)] + ProbeSteps(r.urls) + [Ran(GitStatus, true)]
  }

  function ActivateSteps(r: Release, reloaded: bool): seq<Event> {
    [Ran(Command.Activate, true), Reported(AtSucceeded)] + FinishSteps(r, reloaded)
  }

  /** The release is prepared, the staged files are removed one by one, and it is activated. */
  function LaunchSteps(r: Release, reloaded: bool): seq<Event> {
    [Ran(Prepare, true)] + (RemovalSteps(r.files) + [Ran(RemoveDirectory, true)]) + ActivateSteps(r, reloaded)
  }

  /** Everything that a release takes, in this order. */
  ghost function ReleaseSteps(r: Release, reloaded: bool): seq<Event>
    requires r.Valid()
  {
    UploadSteps(r) + (InspectSteps(r) + SwitchSteps(r) + LaunchSteps(r, reloaded))
  }

  /** The staging directory is missing or belongs to the user. */
  predicate OwnReady(r: Release, own: Option<Meta>) {
    own.None? || Owned(r.user, own.value)
  }

  /** The loop over the files. */
  method UploadFiles(h: Host, r: Release) returns (ok: bool)
    requires r.Valid() && h.Valid() && CollisionFree(h.digest)
    modifies h`trace, h`phase, h`dir
    ensures h.Valid() && h.phase == old(h.phase) && old(h.trace) <= h.trace
    ensures old(WellStaged(r, h.dir)) ==> WellStaged(r, h.dir)
    ensures old(Resumable(r, h.dir)) ==> Resumable(r, h.dir) && (h.calm && h.own.Some? ==> ok) && (ok ==> h.dir == r.Bundle())
  {
    hide Monitor, WellStaged, Resumable, PlainDir, PlainMeta, PlainOwn, CollisionFree, Release.Bundle;
    for i := 0 to |r.files|
      invariant h.Valid() && h.phase == old(h.phase) && old(h.trace) <= h.trace
      invariant old(WellStaged(r, h.dir)) ==> WellStaged(r, h.dir)
      invariant old(Resumable(r, h.dir)) ==> Resumable(r, h.dir) && forall j :: 0 <= j < i ==> r.files[j] in h.dir
    {
      ok := UploadFile(h, r, r.files[i]);
      if !ok {
        return;
      }
    }
    if old(Resumable(r, h.dir)) {
      ResumableComplete(r, h.dir);
    }
    ok := true;
  }

  // ----- the closed bundle -----

  /** Accepts exactly the closed bundle: these files, with this content, owner, mode and link
      count, and nothing else. */
  method ValidateRemoteBundle(h: Host, r: Release) returns (ok: bool)
    requires r.Valid() && h.Valid() && CollisionFree(h.digest) && h.bundle == r.Bundle() && h.phase == Staging
    modifies h`trace, h`phase
    ensures h.Valid()
    ensures h.phase == if ok then Staged else Staging
    ensures ok ==> h.dir == r.Bundle() && SafeDirectory(r.user, h.own)
    ensures ok ==> ClosedBundle(r, h.dir, h.own)
    ensures h.calm && h.dir == r.Bundle() && SafeDirectory(r.user, h.own) ==> ok
    ensures ok ==> Adds(old(h.trace), h.trace, [Accepted(r.Bundle())])
  {
    hide Monitor, ReadInventory, Listed, Adds;
    BundleKeys(r);
    var out := h.ListDirectory();
    if out.None? {
      return false;
    }
    ListedEntries(h.own.value, h.dir);
    var entries := ParseInventory(out.value);
    if entries.None? {
      return false;
    }
    var expected := set n | n in r.files;
    if entries.value.Keys != {""} + expected {
      return false;
    }
    var directory := entries.value[""];
    if directory.kind != "d" || directory.owner != r.user || directory.mode != "700" {
      return false;
    }
    ListedKeys(h.own.value, h.dir, expected);
    ok := ValidateFiles(h, r, entries.value);
    if ok {
      BundleClosed(r, h.own);
      AddsPrefix(old(h.trace), h.trace);
      AddsMore(old(h.trace), h.trace, [], Accepted(h.dir));
      h.Note(Accepted(h.dir));
      assert [] + [Accepted(h.dir)] == [Accepted(h.dir)];
    }
  }

  /** Exactly the files of the bundle, each with its local content, as plain files of the user with mode
      600 and one link, in a directory of the user with mode 700. */
  ghost predicate ClosedBundle(r: Release, dir: map<string, File>, own: Option<Meta>)
    requires r.Valid()
  {
    && (forall n :: n in dir <==> n in r.files)
    && (forall n :: n in dir ==> dir[n] == File(r.content[n], Meta("f", r.user, "600", "1")))
    && own.Some? && own.value.kind == "d" && own.value.owner == r.user && own.value.mode == "700"
  }

  lemma BundleClosed(r: Release, own: Option<Meta>)
    requires r.Valid() && SafeDirectory(r.user, own)
    ensures ClosedBundle(r, r.Bundle(), own)
  {
  }

  lemma ListedEntries(own: Meta, dir: map<string, File>)
    ensures Listed(own, dir).Keys == dir.Keys + {""} && Listed(own, dir)[""] == own
  {
  }

  lemma BundleKeys(r: Release)
    requires r.Valid()
    ensures r.Bundle().Keys == set n | n in r.files
  {
  }

  method ValidateFiles(h: Host, r: Release, entries: map<string, Meta>) returns (ok: bool)
    requires r.Valid() && h.Valid() && CollisionFree(h.digest)
    requires h.own.Some? && entries == Listed(h.own.value, h.dir) && h.dir.Keys == set n | n in r.files
    modifies h`trace, h`phase
    ensures h.Valid() && h.phase == old(h.phase) && old(h.trace) <= h.trace
    ensures ok ==> h.dir == r.Bundle()
    ensures h.calm && h.dir == r.Bundle() ==> ok
  {
    hide Monitor, PlainDir, PlainMeta, PlainOwn, Listed, SafeFile, Release.Bundle, IsPart;
    for i := 0 to |r.files|
      invariant h.Valid() && h.phase == old(h.phase) && old(h.trace) <= h.trace
      invariant forall j :: 0 <= j < i ==> SafeFile(r, h.dir, r.files[j])
    {
      var name := r.files[i];
      FileLooksSafe(r, h.own.value, h.dir, name);
      if entries[name] != SentMeta(r.user) {
        return false;
      }
      var found := h.RemoteDigest(name);
      if found != Some(h.digest(r.content[name])) {
        return false;
      }
    }
    SafeBundle(r, h.dir);
    ok := true;
  }

  /** What the inventory and the content of a file say about it. */
  lemma FileLooksSafe(r: Release, own: Meta, dir: map<string, File>, name: string)
    requires r.Valid() && name in r.files && name in dir
    ensures name in Listed(own, dir) && r.Bundle().Keys == set n | n in r.files
    ensures SafeFile(r, dir, name) <==> Listed(own, dir)[name] == SentMeta(r.user) && dir[name].content == r.content[name]
    ensures dir == r.Bundle() ==> SafeFile(r, dir, name)
  {
  }

  ghost predicate SafeFile(r: Release, dir: map<string, File>, name: string)
    requires r.Valid() && name in r.files
  {
    name in dir && dir[name] == File(r.content[name], SentMeta(r.user))
  }

  lemma SafeBundle(r: Release, dir: map<string, File>)
    requires r.Valid() && dir.Keys == (set n | n in r.files)
    requires forall j :: 0 <= j < |r.files| ==> SafeFile(r, dir, r.files[j])
    ensures dir == r.Bundle()
  {
    assert dir.Keys == r.Bundle().Keys;
    forall n | n in dir ensures dir[n] == r.Bundle()[n] {
      var j :| 0 <= j < |r.files| && r.files[j] == n;
      assert SafeFile(r, dir, r.files[j]);
    }
  }

  lemma ListedKeys(own: Meta, dir: map<string, File>, expected: set<string>)
    requires PlainDir(dir) && "" !in expected && Listed(own, dir).Keys == {""} + expected
    ensures dir.Keys == expected
  {
    assert Listed(own, dir).Keys == dir.Keys + {""};
    assert "" !in dir.Keys;
  }

  // ----- Git on the remote host -----

  /** The rollback ref is written at most once, with the HEAD from before it was written, and HEAD
      only moves, to the release commit, once the ref is there. */
  twostate predicate MovedForward(h: Host, target: Commit)
    reads h
  {
    && (h.rollback == old(h.rollback) || (old(h.rollback).None? && h.rollback == Some(old(h.head))))
    && (h.head == old(h.head) || (h.head == target && h.rollback.Some?))
  }

  /** Nothing on the Git side stands in the way of another attempt: the approved ref is the release,
      HEAD can be moved forward to it, and a rollback ref names an ancestor, HEAD itself as long as
      HEAD has not been moved. */
  ghost predicate GitReady(h: Host, target: Commit)
    reads h
  {
    && h.fetched == target && h.repo.ancestor(h.head, target)
    && (h.rollback.Some? ==> h.repo.ancestor(h.rollback.value, target) && (h.head == target || h.rollback.value == h.head))
  }

  /** Find or create the rollback ref. */
  method SecureRollback(h: Host, r: Release, remoteHead: Commit) returns (c: Option<Commit>)
    requires h.Valid() && h.phase == Staged && remoteHead == h.head && h.repo.ancestor(h.head, r.target)
    modifies h`trace, h`phase, h`rollback
    ensures h.Valid() && h.phase == Staged && old(h.trace) <= h.trace
    ensures h.rollback == old(h.rollback) || (old(h.rollback).None? && h.rollback == Some(h.head))
    ensures c.Some? ==> h.rollback == c && h.repo.ancestor(c.value, r.target)
    ensures c.Some? && h.head != r.target ==> c.value == h.head
    ensures h.calm && old(GitReady(h, r.target)) ==> c.Some?
  {
    hide Monitor, PlainDir, PlainMeta, PlainOwn;
    var rc := h.ShowRollbackRef();
    if rc == 0 {
      c := h.ReadRollbackCommit();
      if c.None? {
        return None;
      }
      var behind := h.IsAncestor(c.value, r.target);
      if !behind || (remoteHead != r.target && c.value != remoteHead) {
        return None;
      }
    } else if rc == 1 {
      var created := h.CreateRollbackRef(remoteHead);
      c := if created then Some(remoteHead) else None;
    } else {
      c := None;
    }
  }

  /** The checkout is clean, and the approved branch is fetched. */
  method RefreshCheckout(h: Host) returns (ok: bool)
    requires h.Valid()
    modifies h`trace, h`phase
    ensures h.Valid() && h.phase == old(h.phase) && (h.calm ==> ok)
    ensures ok ==> Adds(old(h.trace), h.trace, [Ran(GitStatus, true), Ran(Fetch, true)])
  {
    hide Monitor, PlainDir, PlainMeta, PlainOwn, Adds;
    AddsNothing(h.trace);
    ok := h.Observe(GitStatus);
    if !ok {
      return;
    }
    AddsMore(old(h.trace), old(h.trace), [], Ran(GitStatus, true));
    ghost var t := h.trace;
    ok := h.Observe(Fetch);
    AddsMore(old(h.trace), t, [] + [Ran(GitStatus, true)], Ran(Fetch, ok));
    assert [] + [Ran(GitStatus, true)] + [Ran(Fetch, true)] == [Ran(GitStatus, true), Ran(Fetch, true)];
  }

  /** Clean checkout, fetched ref equal to the release commit, HEAD not ahead of it. */
  method InspectRemoteGit(h: Host, r: Release) returns (remoteHead: Option<Commit>)
    requires h.Valid() && h.phase == Staged
    modifies h`trace, h`phase
    ensures h.Valid() && h.phase == Staged
    ensures remoteHead.Some? ==> remoteHead.value == h.head && h.repo.ancestor(h.head, r.target)
    ensures h.calm && GitReady(h, r.target) ==> remoteHead.Some?
    ensures remoteHead.Some? ==> Adds(old(h.trace), h.trace, InspectSteps(r))
  {
    hide Monitor, PlainDir, PlainMeta, PlainOwn, Adds;
    var answered := RefreshCheckout(h);
    if !answered {
      return None;
    }
    ghost var t, steps := h.trace, [Ran(GitStatus, true), Ran(Fetch, true)];
    remoteHead := h.ReadHeadCommit();
    if remoteHead.None? {
      return;
    }
    AddsMore(old(h.trace), t, steps, Ran(ReadHead, true));
    t, steps := h.trace, steps + [Ran(ReadHead, true)];
    var remoteCommit := h.ReadRemoteCommit();
    if remoteCommit != Some(r.target) {
      return None;
    }
    AddsMore(old(h.trace), t, steps, Answered(ReadRemoteRef, r.target));
    t, steps := h.trace, steps + [Answered(ReadRemoteRef, r.target)];
    answered := h.IsAncestor(h.head, r.target);
    if !answered {
      return None;
    }
    AddsMore(old(h.trace), t, steps, Ran(CheckAncestor(h.head), true));
    t := h.trace;
    if r.HostControlled() {
      answered := h.Observe(HostControl("prepare"));
      if !answered {
        return None;
      }
      AddsMore(old(h.trace), t, steps, Ran(HostControl("prepare"), true));
      steps := steps + [Ran(HostControl("prepare"), true)];
    }
    assert steps == InspectSteps(r);
  }

  /** Whether the files of the agent differ between the rollback commit and the release; only a
      development host asks. */
  method CompareAgent(h: Host, r: Release, rollback: Commit) returns (changed: Option<bool>)
    requires h.Valid()
    modifies h`trace, h`phase
    ensures h.Valid() && h.phase == old(h.phase) && old(h.trace) <= h.trace
    ensures changed.Some? ==> changed.value == (!r.production && h.repo.agentDiffers(rollback, r.target))
    ensures h.calm ==> changed.Some?
  {
    hide Monitor, PlainDir, PlainMeta, PlainOwn;
    if r.production {
      return Some(false);
    }
    var rc := h.DiffAgentFiles(rollback, r.target);
    changed := if rc == 0 || rc == 1 then Some(rc == 1) else None;
  }

  /** The fast-forward: afterwards HEAD is the release commit. */
  method SwitchHead(h: Host, r: Release) returns (ok: bool)
    requires h.Valid() && h.phase == Staged && h.repo.ancestor(h.head, r.target)
    modifies h`trace, h`phase, h`head
    ensures h.Valid() && (h.phase == Staged || h.phase == Switched)
    ensures h.head == old(h.head) || h.head == r.target
    ensures ok ==> h.phase == Switched && h.head == r.target
    ensures h.calm ==> ok
    ensures ok ==> Adds(old(h.trace), h.trace, SwitchSteps(r))
  {
    hide Monitor, PlainDir, PlainMeta, PlainOwn, Adds;
    ghost var t, steps := h.trace, [];
    AddsNothing(t);
    ok := h.MergeFastForward(r.target);
    AddsMore(old(h.trace), t, steps, Ran(FastForward, ok));
    t, steps := h.trace, steps + [Ran(FastForward, ok)];
    if ok && r.HostControlled() {
      ok := h.Observe(HostControl("activate"));
      AddsMore(old(h.trace), t, steps, Ran(HostControl("activate"), ok));
      t, steps := h.trace, steps + [Ran(HostControl("activate"), ok)];
      if ok {
        ok := h.Observe(HostControl("status"));
        AddsMore(old(h.trace), t, steps, Ran(HostControl("status"), ok));
        steps := steps + [Ran(HostControl("status"), ok)];
      }
    }
    assert ok ==> steps == SwitchSteps(r);
  }

  method PrepareRemoteGit(h: Host, r: Release) returns (ok: bool, agentChanged: bool)
    requires h.Valid() && h.phase == Staged
    modifies h`trace, h`phase, h`rollback, h`head
    ensures h.Valid() && MovedForward(h, r.target)
    ensures h.phase == Staged || h.phase == Switched
    ensures ok ==> h.phase == Switched && h.head == r.target && h.rollback.Some?
    ensures ok ==> h.repo.ancestor(h.rollback.value, r.target)
    ensures ok ==> Adds(old(h.trace), h.trace, InspectSteps(r) + SwitchSteps(r))
    ensures ok ==> agentChanged == (!r.production && h.repo.agentDiffers(h.rollback.value, r.target))
    ensures ok && old(h.head) != r.target ==> h.rollback == Some(old(h.head))
    ensures h.calm && old(GitReady(h, r.target)) ==> ok
  {
    hide Monitor, PlainDir, PlainMeta, PlainOwn, Adds, InspectSteps, SwitchSteps;
    ok, agentChanged := false, false;
    var remoteHead := InspectRemoteGit(h, r);
    if remoteHead.None? {
      return;
    }
    ghost var t := h.trace;
    var rollback := SecureRollback(h, r, remoteHead.value);
    if rollback.None? {
      return;
    }
    var changed := CompareAgent(h, r, rollback.value);
    if changed.None? {
      return;
    }
    AddsPrefix(t, h.trace);
    AddsThen(old(h.trace), t, h.trace, InspectSteps(r), []);
    t := h.trace;
    agentChanged := changed.value;
    ok := SwitchHead(h, r);
    if ok {
      AddsThen(old(h.trace), t, h.trace, InspectSteps(r) + [], SwitchSteps(r));
      assert InspectSteps(r) + [] == InspectSteps(r);
    }
  }

  // ----- one run -----

  /** Remove the staged files one by one, then the directory. */
  method CleanUp(h: Host, r: Release) returns (ok: bool)
    requires r.Valid() && h.Valid() && h.phase == Prepared && Resumable(r, h.dir)
    modifies h`trace, h`phase, h`dir, h`own
    ensures h.Valid() && h.phase == Prepared && Resumable(r, h.dir) && (h.own == old(h.own) || h.own == None)
    ensures ok ==> h.dir == map[] && h.own == None
    ensures h.calm && old(h.dir) == r.Bundle() && old(h.own).Some? ==> ok
    ensures ok ==> Adds(old(h.trace), h.trace, RemovalSteps(r.files) + [Ran(RemoveDirectory, true)])
  {
    hide Monitor, PlainDir, PlainMeta, PlainOwn, Resumable, Adds, RemovalSteps;
    ok := RemoveFiles(h, r);
    if ok {
      ghost var t := h.trace;
      ok := h.RemoveEmptyDirectory();
      AddsMore(old(h.trace), t, RemovalSteps(r.files), Ran(RemoveDirectory, ok));
    }
  }

  method RemoveFiles(h: Host, r: Release) returns (ok: bool)
    requires r.Valid() && h.Valid() && h.phase == Prepared && Resumable(r, h.dir)
    modifies h`trace, h`phase, h`dir
    ensures h.Valid() && h.phase == Prepared && Resumable(r, h.dir)
    ensures old(h.dir) == r.Bundle() ==> (h.calm ==> ok) && (ok ==> h.dir == map[])
    ensures ok ==> Adds(old(h.trace), h.trace, RemovalSteps(r.files))
  {
    hide Monitor, PlainDir, PlainMeta, PlainOwn, Resumable, Adds, RemovalSteps, Release.Bundle, IsPart;
    BundleKeys(r);
    AddsNothing(h.trace);
    NoRemovals(r.files);
    assert r.files[0..] == r.files;
    for i := 0 to |r.files|
      invariant h.Valid() && h.phase == Prepared && Resumable(r, h.dir)
      invariant Adds(old(h.trace), h.trace, RemovalSteps(r.files[..i]))
      invariant old(h.dir) == r.Bundle() ==> forall n :: n in h.dir <==> n in r.files[i..]
    {
      RemoveKeepsResumable(r, h.dir, r.files[i]);
      if old(h.dir) == r.Bundle() { RemainingFiles(r.files, i, h.dir); }
      ghost var t := h.trace;
      ok := h.RemoveFile(r.files[i]);
      if !ok {
        return;
      }
      AddsMore(old(h.trace), t, RemovalSteps(r.files[..i]), Ran(Remove(r.files[i]), true));
      OneMoreRemoval(r.files, i);
    }
    assert r.files[..|r.files|] == r.files;
    assert old(h.dir) == r.Bundle() ==> h.dir.Keys == {};
    ok := true;
  }

  lemma NoRemovals(files: seq<string>)
    ensures RemovalSteps(files[..0]) == []
  {
  }

  lemma OneMoreRemoval(files: seq<string>, i: nat)
    requires i < |files|
    ensures RemovalSteps(files[..i + 1]) == RemovalSteps(files[..i]) + [Ran(Remove(files[i]), true)]
  {
  }

  lemma NoProbes(urls: seq<string>)
    ensures ProbeSteps(urls[..0]) == []
  {
  }

  lemma OneMoreProbe(urls: seq<string>, i: nat)
    requires i < |urls|
    ensures ProbeSteps(urls[..i + 1]) == ProbeSteps(urls[..i]) + [Ran(Probe(urls[i]), true)]
  {
  }

  /** Restart the agent if its files changed, then the closing checks. */
  method Finish(h: Host, r: Release, agentChanged: bool) returns (ok: bool)
    requires h.Valid() && h.phase == Succeeded
    modifies h`trace, h`phase
    ensures h.Valid() && (h.phase == Succeeded || h.phase == Reloaded)
    ensures ok ==> h.phase == if agentChanged then Reloaded else Succeeded
    ensures h.calm ==> ok
    ensures ok ==> Adds(old(h.trace), h.trace, FinishSteps(r, agentChanged)) && EndsClean(h.trace)
  {
    hide Monitor, PlainDir, PlainMeta, PlainOwn, Adds, ProbeSteps;
    ok := ReloadAgent(h, agentChanged);
    if !ok {
      return false;
    }
    ghost var t, steps := h.trace, if agentChanged then [Ran(RestartAgent, true), Ran(CheckAgent, true)] else [];
    var active := h.Observe(CheckService);
    if !active {
      return false;
    }
    AddsMore(old(h.trace), t, steps, Ran(CheckService, true));
    t, steps := h.trace, steps + [Ran(CheckService, true)];
    ok := ProbeAll(h, r);
    if !ok {
      return false;
    }
    AddsThen(old(h.trace), t, h.trace, steps, ProbeSteps(r.urls));
    t, steps := h.trace, steps + ProbeSteps(r.urls);
    ok := h.Observe(GitStatus);
    AddsMore(old(h.trace), t, steps, Ran(GitStatus, ok));
  }

  predicate EndsClean(trace: seq<Event>) {
    trace != [] && trace[|trace| - 1] == Ran(GitStatus, true)
  }

  method ReloadAgent(h: Host, agentChanged: bool) returns (ok: bool)
    requires h.Valid() && h.phase == Succeeded
    modifies h`trace, h`phase
    ensures h.Valid() && (h.phase == Succeeded || h.phase == Reloaded)
    ensures ok ==> h.phase == if agentChanged then Reloaded else Succeeded
    ensures h.calm ==> ok
    ensures ok ==> Adds(old(h.trace), h.trace, if agentChanged then [Ran(RestartAgent, true), Ran(CheckAgent, true)] else [])
  {
    hide Monitor, PlainDir, PlainMeta, PlainOwn, Adds;
    AddsNothing(h.trace);
    if !agentChanged {
      return true;
    }
    var restarted := h.Observe(RestartAgent);
    if !restarted {
      return false;
    }
    AddsMore(old(h.trace), old(h.trace), [], Ran(RestartAgent, true));
    ghost var t := h.trace;
    ok := h.Observe(CheckAgent);
    AddsMore(old(h.trace), t, [] + [Ran(RestartAgent, true)], Ran(CheckAgent, ok));
    assert [] + [Ran(RestartAgent, true)] + [Ran(CheckAgent, true)] == [Ran(RestartAgent, true), Ran(CheckAgent, true)];
  }

  method ProbeAll(h: Host, r: Release) returns (ok: bool)
    requires h.Valid()
    modifies h`trace, h`phase
    ensures h.Valid() && h.phase == old(h.phase)
    ensures h.calm ==> ok
    ensures ok ==> Adds(old(h.trace), h.trace, ProbeSteps(r.urls))
  {
    hide Monitor, PlainDir, PlainMeta, PlainOwn, Adds, ProbeSteps;
    AddsNothing(h.trace);
    NoProbes(r.urls);
    for i := 0 to |r.urls|
      invariant h.Valid() && h.phase == old(h.phase)
      invariant Adds(old(h.trace), h.trace, ProbeSteps(r.urls[..i]))
    {
      ghost var t := h.trace;
      var ready := h.Observe(Probe(r.urls[i]));
      if !ready {
        return false;
      }
      AddsMore(old(h.trace), t, ProbeSteps(r.urls[..i]), Ran(Probe(r.urls[i]), true));
      OneMoreProbe(r.urls, i);
    }
    assert r.urls[..|r.urls|] == r.urls;
    ok := true;
  }

  datatype Outcome = Failed | StagedOnly | Released(reloaded: bool)

  /** How the driver is started: staging only, with the local checkout and images in order, and
      whether nothing fails while it runs. */
  datatype Start = Start(stageOnly: bool, local: bool, calm: bool)

  /** Neither the staging directory nor Git stands in the way of another run. */
  ghost predicate Recoverable(h: Host, r: Release)
    requires r.Valid()
    reads h
  {
    Resumable(r, h.dir) && OwnReady(r, h.own) && GitReady(h, r.target)
  }

  /** One run of the driver, from any state of the host and with any failures. */
  method DeployRelease(h: Host, r: Release, start: Start) returns (outcome: Outcome)
    requires r.Valid() && h.Valid() && CollisionFree(h.digest) && h.bundle == r.Bundle()
    modifies h`trace, h`phase, h`calm, h`dir, h`own, h`rollback, h`head, h`stored
    ensures h.Valid() && h.phase != Broken && MovedForward(h, r.target) && CanBecome(old(h.stored.state), h.stored.state)
    ensures old(WellStaged(r, h.dir)) ==> WellStaged(r, h.dir)
    ensures start.stageOnly ==> h.SameGit() && !outcome.Released?
    ensures outcome == StagedOnly ==> start.stageOnly && r.offline && h.dir == r.Bundle() && h.phase == Staged
    ensures outcome.Released? ==>
              && h.head == r.target && h.rollback.Some? && h.stored.state == AtSucceeded && h.dir == map[]
              && (old(h.head) != r.target ==> h.rollback == Some(old(h.head)))
              && outcome.reloaded == (!r.production && h.repo.agentDiffers(h.rollback.value, r.target))
              && h.phase == if outcome.reloaded then Reloaded else Succeeded
    ensures !old(Preparable(h.stored, r.production)) ==>
              !outcome.Released? && !Preparable(h.stored, r.production) && BeforePrepared(h.phase)
    ensures BehindActivation(h.phase) ==> !Open(h.stored.state)
    ensures old(Recoverable(h, r)) ==> Recoverable(h, r)
    ensures old(Recoverable(h, r)) && start.calm && start.local && !start.stageOnly ==>
              (outcome.Released? <==> old(Preparable(h.stored, r.production)))
              && (old(Unbound(h.stored, r.production)) ==> h.stored.state == AtFailed)
    ensures old(Recoverable(h, r)) && start.calm && start.local && start.stageOnly && r.offline && r.urls == [] ==>
              outcome == StagedOnly
    ensures !start.local || (start.stageOnly && (!r.offline || r.urls != [])) ==>
              outcome == Failed && h.trace == [] && h.SameGit() && h.dir == old(h.dir) && h.own == old(h.own)
    ensures outcome == StagedOnly ==> Includes(h.trace, UploadSteps(r))
    ensures outcome.Released? ==>
              Includes(h.trace, ReleaseSteps(r, outcome.reloaded)) && EndsClean(h.trace) && h.repo.ancestor(h.rollback.value, r.target)
  {
    hide Monitor, WellStaged, Resumable, PlainDir, PlainMeta, PlainOwn, CanBecome, Adds, Includes, InspectSteps, SwitchSteps, LaunchSteps,
      UploadSteps, EndsClean;
    StaysPossible(h.stored.state);
    h.Begin(start.calm);
    outcome := Failed;
    var staged := false;
    if start.local && (!start.stageOnly || (r.offline && r.urls == [])) {
      staged := UploadBundle(h, r);
    }
    if staged && start.stageOnly {
      outcome := StagedOnly;
      AddedSteps(h.trace, UploadSteps(r));
    } else if staged {
      ghost var t := h.trace;
      outcome := Proceed(h, r);
      if outcome.Released? {
        ghost var rest := InspectSteps(r) + SwitchSteps(r) + LaunchSteps(r, outcome.reloaded);
        AddsThen([], t, h.trace, UploadSteps(r), rest);
        AddedSteps(h.trace, UploadSteps(r) + rest);
      }
    }
  }

  /** The part of a run that follows staging. */
  method Proceed(h: Host, r: Release) returns (outcome: Outcome)
    requires r.Valid() && h.Valid() && h.phase == Staged && h.dir == r.Bundle() && h.own.Some?
    modifies h`trace, h`phase, h`dir, h`own, h`rollback, h`head, h`stored
    ensures h.Valid() && h.phase != Broken && MovedForward(h, r.target) && outcome != StagedOnly
    ensures CanBecome(old(h.stored.state), h.stored.state)
    ensures Resumable(r, h.dir) && WellStaged(r, h.dir) && (h.own == old(h.own) || h.own == None)
    ensures !old(Preparable(h.stored, r.production)) ==>
              !outcome.Released? && !Preparable(h.stored, r.production) && BeforePrepared(h.phase)
    ensures BehindActivation(h.phase) ==> !Open(h.stored.state)
    ensures old(GitReady(h, r.target)) ==>
              && GitReady(h, r.target) && (h.calm && old(Preparable(h.stored, r.production)) ==> outcome.Released?)
              && (h.calm && old(Unbound(h.stored, r.production)) ==> h.stored.state == AtFailed)
    ensures outcome.Released? ==>
              && h.head == r.target && h.rollback.Some? && h.stored.state == AtSucceeded && h.dir == map[]
              && (old(h.head) != r.target ==> h.rollback == Some(old(h.head)))
              && outcome.reloaded == (!r.production && h.repo.agentDiffers(h.rollback.value, r.target))
              && h.phase == if outcome.reloaded then Reloaded else Succeeded
    ensures outcome.Released? ==>
              && h.repo.ancestor(h.rollback.value, r.target) && EndsClean(h.trace)
              && Adds(old(h.trace), h.trace, InspectSteps(r) + SwitchSteps(r) + LaunchSteps(r, outcome.reloaded))
  {
    hide Monitor, WellStaged, Resumable, PlainDir, PlainMeta, PlainOwn, CanBecome, Adds, InspectSteps, SwitchSteps, LaunchSteps, EndsClean;
    StaysPossible(h.stored.state);
    BundleResumable(r);
    var ok, agentChanged := PrepareRemoteGit(h, r);
    assert old(GitReady(h, r.target)) ==> GitReady(h, r.target);
    if ok {
      ghost var t := h.trace;
      outcome := Launch(h, r, agentChanged);
      if outcome.Released? {
        AddsThen(old(h.trace), t, h.trace, InspectSteps(r) + SwitchSteps(r), LaunchSteps(r, agentChanged));
      }
    } else {
      outcome := Failed;
    }
    ResumableWellStaged(r, h.dir);
  }

  /** Prepare, clean up, activate, and wait for `succeeded`.  Without failures this succeeds exactly if
      the release can be prepared. */
  method Launch(h: Host, r: Release, agentChanged: bool) returns (outcome: Outcome)
    requires r.Valid() && h.Valid() && h.phase == Switched && h.dir == r.Bundle() && h.own.Some?
    modifies h`trace, h`phase, h`dir, h`own, h`stored
    ensures h.Valid() && h.phase != Broken && Resumable(r, h.dir) && outcome != StagedOnly
    ensures CanBecome(old(h.stored.state), h.stored.state) && (h.own == old(h.own) || h.own == None)
    ensures outcome.Released? ==>
              && h.stored.state == AtSucceeded && h.dir == map[] && outcome.reloaded == agentChanged
              && h.phase == if agentChanged then Reloaded else Succeeded
    ensures !old(Preparable(h.stored, r.production)) ==>
              !outcome.Released? && !Preparable(h.stored, r.production) && h.phase == Switched
    ensures BehindActivation(h.phase) ==> !Open(h.stored.state)
    ensures h.calm && old(Preparable(h.stored, r.production)) ==> outcome.Released?
    ensures h.calm && old(Unbound(h.stored, r.production)) ==> h.stored.state == AtFailed
    ensures outcome.Released? ==> Adds(old(h.trace), h.trace, LaunchSteps(r, agentChanged)) && EndsClean(h.trace)
  {
    hide Monitor, PlainDir, PlainMeta, PlainOwn, Resumable, Release.Bundle, Release.Valid, CanBecome, Adds, ActivateSteps, RemovalSteps;
    BundleResumable(r);
    AddsNothing(h.trace);
    var ok := h.PrepareRelease(r.production);
    CommandsFollowTable(old(h.stored), h.stored, ok, h.calm, r.production);
    PrepareExactly(old(h.stored), h.stored, ok, h.calm, r.production);
    if !ok {
      return Failed;
    }
    AddsMore(old(h.trace), old(h.trace), [], Ran(Prepare, true));
    ghost var t, steps, removals := h.trace, [] + [Ran(Prepare, true)], RemovalSteps(r.files) + [Ran(RemoveDirectory, true)];
    ok := CleanUp(h, r);
    if !ok {
      return Failed;
    }
    AddsThen(old(h.trace), t, h.trace, steps, removals);
    t := h.trace;
    outcome := Activate(h, r, agentChanged);
    ActivatedFrom(old(h.stored.state), h.stored.state);
    if outcome.Released? {
      AddsThen(old(h.trace), t, h.trace, steps + removals, ActivateSteps(r, agentChanged));
      assert steps + removals + ActivateSteps(r, agentChanged) == LaunchSteps(r, agentChanged);
    }
  }

  lemma ActivatedFrom(s: ReleaseState, t: ReleaseState)
    requires Open(s) && CanBecome(AtPrepared, t)
    ensures CanBecome(s, t)
  {
    hide CanBecome;
    OneMoveBefore(AtStaged, AtPrepared, t);
    OneMoveBefore(Absent, AtStaged, t);
  }

  /** From the activation on. */
  method Activate(h: Host, r: Release, agentChanged: bool) returns (outcome: Outcome)
    requires h.Valid() && h.phase == Prepared && h.stored.state == AtPrepared && Preparable(h.stored, r.production)
    modifies h`trace, h`phase, h`stored
    ensures h.Valid() && h.phase != Broken && outcome != StagedOnly && CanBecome(AtPrepared, h.stored.state)
    ensures outcome.Released? ==>
              && h.stored.state == AtSucceeded && outcome.reloaded == agentChanged
              && h.phase == if agentChanged then Reloaded else Succeeded
    ensures BehindActivation(h.phase) ==> !Open(h.stored.state)
    ensures h.calm ==> outcome.Released?
    ensures outcome.Released? ==> Adds(old(h.trace), h.trace, ActivateSteps(r, agentChanged)) && EndsClean(h.trace)
  {
    hide Monitor, PlainDir, PlainMeta, PlainOwn, CanBecome, Adds, FinishSteps, EndsClean, Preparable;
    var ok := StartRelease(h, r);
    if !ok {
      return Failed;
    }
    ghost var t := h.trace;
    ok := Finish(h, r, agentChanged);
    outcome := if ok then Released(agentChanged) else Failed;
    if ok {
      AddsThen(old(h.trace), t, h.trace, [Ran(Command.Activate, true), Reported(AtSucceeded)], FinishSteps(r, agentChanged));
    }
  }

  /** Activate, and read the state `succeeded`. */
  method StartRelease(h: Host, r: Release) returns (ok: bool)
    requires h.Valid() && h.phase == Prepared && h.stored.state == AtPrepared && Preparable(h.stored, r.production)
    modifies h`trace, h`phase, h`stored
    ensures h.Valid() && h.phase != Broken && CanBecome(AtPrepared, h.stored.state)
    ensures ok ==> h.stored.state == AtSucceeded && h.phase == Succeeded
    ensures BehindActivation(h.phase) ==> !Open(h.stored.state)
    ensures h.calm ==> ok
    ensures ok ==> Adds(old(h.trace), h.trace, [Ran(Command.Activate, true), Reported(AtSucceeded)])
  {
    hide Monitor, PlainDir, PlainMeta, PlainOwn, CanBecome, Adds;
    AddsNothing(h.trace);
    ok := h.ActivateRelease(r.production);
    CommandsFollowTable(old(h.stored), h.stored, ok, h.calm, r.production);
    LostActivation(old(h.stored), h.stored, ok, h.calm, r.production);
    if !ok {
      return;
    }
    AddsMore(old(h.trace), old(h.trace), [], Ran(Command.Activate, true));
    ghost var t := h.trace;
    var state := h.ReadState();
    ok := state == Some(AtSucceeded);
    if ok {
      AddsMore(old(h.trace), t, [] + [Ran(Command.Activate, true)], Reported(AtSucceeded));
      assert [] + [Ran(Command.Activate, true)] + [Reported(AtSucceeded)] == [Ran(Command.Activate, true), Reported(AtSucceeded)];
    }
  }

  lemma BundleResumable(r: Release)
    requires r.Valid()
    ensures Resumable(r, r.Bundle())
  {
    forall n | n in r.files ensures PartName(n) !in r.Bundle() {
      forall m | m in r.files ensures m != PartName(n) { PartNames(m, n); }
    }
  }

  // ----- any number of runs -----

  /** What holds of each of many runs: the order of events is kept; a completed run has gone through all the
      steps of a release, with the decision `reload` about the agent; without the local checks nothing is
      sent; a release that `prepare` refuses is not completed, activated or made
      acceptable; an activation leaves the open states.  If nothing in the staging directory or in Git
      stands in the way, a run without failures completes the release exactly if `prepare` accepts it. */
  ghost predicate SoundRun(r: Release, ready: bool, reload: bool, start: Start, outcome: Outcome, trace: seq<Event>,
                           before: Stored, after: Stored)
    requires r.Valid()
  {
    var phase := Monitor(r.Bundle(), trace);
    && phase != Broken
    && (outcome.Released? ==>
          && outcome.reloaded == reload && after.state == AtSucceeded
          && Includes(trace, ReleaseSteps(r, reload)) && EndsClean(trace)
          && phase == (if reload then Reloaded else Succeeded))
    && (!Preparable(before, r.production) ==>
          !outcome.Released? && BeforePrepared(phase) && !Preparable(after, r.production))
    && (Ran(Command.Activate, true) in trace ==> !Open(after.state))
    && (!Open(before.state) ==> !Open(after.state))
    && (!start.local ==> outcome == Failed && trace == [] && after == before)
    && (ready && start == Start(false, true, true) ==>
          && (outcome.Released? <==> Preparable(before, r.production))
          && (Unbound(before, r.production) ==> after.state == AtFailed))
  }

  /** Over any number of runs of one release, each cut off anywhere, with arbitrary changes of the release
      store between them: the rollback ref names the HEAD from before the first run, HEAD is only
      ever that commit or the release, and is the release once a run has completed it; every final file
      is the local one; every run is sound, with one and the same decision about the agent.  Once the
      state is no longer open, for instance after an activation, whether reported or lost, it is never
      open again, so no later run completes the release, activates it or restarts the agent.
      `before` and `after` are what is stored at the beginning and at the end of each run. */
  method RunRelease(h: Host, r: Release, starts: seq<Start>)
      returns (outcomes: seq<Outcome>, ghost traces: seq<seq<Event>>, ghost before: seq<Stored>, ghost after: seq<Stored>)
    requires r.Valid() && h.Valid() && CollisionFree(h.digest) && h.bundle == r.Bundle()
    requires h.rollback.None? && WellStaged(r, h.dir)
    modifies h`trace, h`phase, h`calm, h`dir, h`own, h`rollback, h`head, h`stored
    ensures h.Valid() && |outcomes| == |traces| == |before| == |after| == |starts|
    ensures h.rollback == None || h.rollback == Some(old(h.head))
    ensures h.head == old(h.head) || (h.head == r.target && h.rollback.Some?)
    ensures WellStaged(r, h.dir)
    ensures forall i :: 0 <= i < |starts| && outcomes[i].Released? ==> h.head == r.target && h.rollback == Some(old(h.head))
    ensures forall i :: 0 <= i < |starts| ==>
              SoundRun(r, old(Recoverable(h, r)), !r.production && h.repo.agentDiffers(old(h.head), r.target),
                       starts[i], outcomes[i], traces[i], before[i], after[i])
    ensures forall i, j :: 0 <= i < j < |starts| && !Open(after[i].state) ==> !Open(before[j].state)
  {
    hide Monitor, WellStaged, PlainDir, PlainMeta, PlainOwn, Recoverable, SoundRun, Open;
    outcomes, traces, before, after := [], [], [], [];
    ghost var reload := !r.production && h.repo.agentDiffers(h.head, r.target);
    for k := 0 to |starts|
      invariant h.Valid() && |outcomes| == |traces| == |before| == |after| == k && WellStaged(r, h.dir)
      invariant h.rollback == None || h.rollback == Some(old(h.head))
      invariant h.head == old(h.head) || (h.head == r.target && h.rollback.Some?)
      invariant old(Recoverable(h, r)) ==> Recoverable(h, r)
      invariant forall i :: 0 <= i < k && outcomes[i].Released? ==> h.head == r.target && h.rollback == Some(old(h.head))
      invariant forall i :: 0 <= i < k ==>
                  SoundRun(r, old(Recoverable(h, r)), reload, starts[i], outcomes[i], traces[i], before[i], after[i])
      invariant forall i, j :: 0 <= i < j < k && !Open(after[i].state) ==> !Open(before[j].state)
      invariant forall i :: 0 <= i < k && !Open(after[i].state) ==> !Open(h.stored.state)
    {
      DriftOnce(h, r);
      ghost var begin := h.stored;
      var outcome := RunOnce(h, r, starts[k], old(Recoverable(h, r)), old(h.head));
      outcomes, traces, before, after := outcomes + [outcome], traces + [h.trace], before + [begin], after + [h.stored];
    }
  }

  /** One of the runs; `origin` is HEAD from before the first one. */
  method RunOnce(h: Host, r: Release, start: Start, ghost ready: bool, ghost origin: Commit) returns (outcome: Outcome)
    requires r.Valid() && h.Valid() && CollisionFree(h.digest) && h.bundle == r.Bundle() && WellStaged(r, h.dir)
    requires h.rollback == None || h.rollback == Some(origin)
    requires h.head == origin || (h.head == r.target && h.rollback.Some?)
    requires ready ==> Recoverable(h, r)
    modifies h`trace, h`phase, h`calm, h`dir, h`own, h`rollback, h`head, h`stored
    ensures h.Valid() && WellStaged(r, h.dir) && MovedForward(h, r.target)
    ensures h.rollback == None || h.rollback == Some(origin)
    ensures h.head == origin || (h.head == r.target && h.rollback.Some?)
    ensures outcome.Released? ==> h.head == r.target && h.rollback == Some(origin)
    ensures ready ==> Recoverable(h, r)
    ensures !old(Open(h.stored.state)) ==> !Open(h.stored.state)
    ensures SoundRun(r, ready, !r.production && h.repo.agentDiffers(origin, r.target), start, outcome, h.trace, old(h.stored), h.stored)
  {
    hide Monitor, WellStaged, PlainDir, PlainMeta, PlainOwn, Recoverable, CanBecome, Preparable, Unbound, Open, BehindActivation,
      Includes, ReleaseSteps, EndsClean;
    outcome := DeployRelease(h, r, start);
    if !old(Open(h.stored.state)) { PastForGood(old(h.stored.state), h.stored.state); }
    Activation(h);
  }

  /** A run that has activated the release has left the open states. */
  lemma Activation(h: Host)
    requires h.Valid() && h.phase != Broken && (BehindActivation(h.phase) ==> !Open(h.stored.state))
    ensures Ran(Command.Activate, true) in h.trace ==> !Open(h.stored.state)
  {
    if Ran(Command.Activate, true) in h.trace {
      var i :| 0 <= i < |h.trace| && h.trace[i] == Ran(Command.Activate, true);
      ActivationShows(h.bundle, h.trace, i);
    }
  }

  /** A drift of the release store keeps what the runs have established. */
  method DriftOnce(h: Host, r: Release)
    requires r.Valid() && h.Valid()
    modifies h`stored
    ensures h.Valid() && (old(Recoverable(h, r)) ==> Recoverable(h, r))
    ensures !old(Open(h.stored.state)) ==> !Open(h.stored.state)
  {
    h.Drift();
    if !old(Open(h.stored.state)) { PastForGood(old(h.stored.state), h.stored.state); }
  }
}
