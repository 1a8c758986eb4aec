/** The remote host as the release driver sees it: the staging directory, the Git checkout and the
    release store.  A command may fail without effect, succeed, or take effect and be reported as
    failed; the last case also stands for a driver that is lost right after the command.  In a calm
    run every command answers and does what it is asked, unless the state of the host refuses it: for
    `prepare` and `activate`, the release state, the metadata stored with the release and what is
    stored beside it. */
module ReleaseHost {
  import opened Text
  import opened InventoryText
  import opened ReleaseStates
  import opened ReleaseTrace

  /** What Git knows: which commit is an ancestor of which, and between which commits the files of
      the vendor agent differ. */
  datatype Repo = Repo(ancestor: (Commit, Commit) -> bool, agentDiffers: (Commit, Commit) -> bool) {
    /** Ancestry is reflexive and has no cycles. */
    ghost predicate Valid() {
      && (forall c :: ancestor(c, c))
      && (forall c, d :: ancestor(c, d) && ancestor(d, c) ==> c == d)
    }
  }

  function PartName(name: string): string {
    name + ".part"
  }

  /** A file as it is sent: owned by the user, private, with one link. */
  function SentMeta(user: string): Meta {
    Meta("f", user, "600", "1")
  }

  predicate PlainMeta(m: Meta) {
    NUL !in m.kind && NUL !in m.owner && NUL !in m.mode && NUL !in m.links
  }

  /** File names are not empty and, like the other fields of an inventory, contain no NUL. */
  ghost predicate PlainDir(dir: map<string, File>) {
    forall n :: n in dir ==> n != "" && NUL !in n && PlainMeta(dir[n].meta)
  }

  /** There are files only in a directory that is there. */
  ghost predicate PlainOwn(own: Option<Meta>, dir: map<string, File>) {
    if own.Some? then PlainMeta(own.value) else dir == map[]
  }

  /** The inventory of a directory: its own line and one for each file. */
  ghost function Listed(own: Meta, dir: map<string, File>): map<string, Meta> {
    (map n | n in dir :: dir[n].meta)["" := own]
  }

  class Host {
    const digest: Content -> string
    const repo: Repo
    const fetched: Commit
    var calm: bool
    var own: Option<Meta>  // of the staging directory, if there is one
    var dir: map<string, File>
    var head: Commit
    var rollback: Option<Commit>
    var stored: Stored
    ghost const bundle: map<string, File>
    ghost var trace: seq<Event>
    ghost var phase: Phase

    constructor (digest: Content -> string, repo: Repo, fetched: Commit, own: Option<Meta>, dir: map<string, File>,
                 head: Commit, rollback: Option<Commit>, stored: Stored, ghost bundle: map<string, File>)
      requires PlainDir(dir) && PlainOwn(own, dir) && repo.Valid()
      ensures Valid() && this.digest == digest && this.repo == repo && this.fetched == fetched && this.own == own && this.dir == dir
      ensures this.head == head && this.rollback == rollback && this.stored == stored && this.bundle == bundle
    {
      this.digest, this.repo, this.fetched, this.own, this.dir := digest, repo, fetched, own, dir;
      this.head, this.rollback, this.stored := head, rollback, stored;
      this.bundle, trace, phase, calm := bundle, [], Staging, false;
    }

    ghost predicate Valid()
      reads this
    {
      PlainDir(dir) && PlainOwn(own, dir) && repo.Valid() && phase == Monitor(bundle, trace)
    }

    /** Nothing but the staging directory has changed. */
    twostate predicate SameGit()
      reads this
    {
      head == old(head) && rollback == old(rollback) && stored == old(stored)
    }

    /** The event has been recorded and the phase of the run moved accordingly. */
    twostate predicate Logged(e: Event)
      reads this
    {
      Valid() && trace == old(trace) + [e] && phase == Step(bundle, old(phase), e)
    }

    /** A run begins: its events are recorded afresh. */
    method Begin(calm: bool)
      requires Valid()
      modifies this`trace, this`phase, this`calm
      ensures Valid() && phase == Staging && trace == [] && this.calm == calm
    {
      trace, phase, this.calm := [], Staging, calm;
    }

    ghost method Note(e: Event)
      requires Valid()
      modifies this`trace, this`phase
      ensures Logged(e)
    {
      MonitorMore(bundle, trace, e);
      trace, phase := trace + [e], Step(bundle, phase, e);
    }

    // ----- commands that only look, or whose effect is outside the model -----

    method Observe(command: Command) returns (ok: bool)
      requires Valid()
      modifies this`trace, this`phase
      ensures Logged(Ran(command, ok)) && (calm ==> ok)
    {
      ok := *;
      ok := ok || calm;
      Note(Ran(command, ok));
    }

    /** `test -e`: 0 present, 1 absent, anything else a failure. */
    method TestFinal(name: string) returns (rc: int)
      requires Valid()
      modifies this`trace, this`phase
      ensures Logged(Ran(ReleaseTrace.TestFinal(name), rc == 0 || rc == 1))
      ensures (rc == 0 ==> name in dir) && (rc == 1 ==> name !in dir) && (calm ==> rc == 0 || rc == 1)
    {
      var answered: bool := *;
      answered := answered || calm;
      rc := if !answered then 255 else if name in dir then 0 else 1;
      Note(Ran(ReleaseTrace.TestFinal(name), answered));
    }

    method RemoteDigest(file: string) returns (d: Option<string>)
      requires Valid()
      modifies this`trace, this`phase
      ensures Logged(Ran(Digest(file), d.Some?))
      ensures d.Some? ==> file in dir && d.value == digest(dir[file].content)
      ensures calm && file in dir ==> d.Some?
    {
      var answered: bool := *;
      answered := answered || calm;
      d := if answered && file in dir then Some(digest(dir[file].content)) else None;
      Note(Ran(Digest(file), d.Some?));
    }

    /** `find`, listing the entries in any order. */
    method ListDirectory() returns (out: Option<string>)
      requires Valid()
      modifies this`trace, this`phase
      ensures Logged(Ran(Inventory, out.Some?))
      ensures out.Some? ==> own.Some? && ReadInventory(out.value) == Some(Listed(own.value, dir))
      ensures calm && own.Some? ==> out.Some?
    {
      var answered: bool := *;
      answered := answered || calm;
      if answered && own.Some? {
        var rows := ListRows(own.value, dir);
        InventoryRoundTrip(rows);
        out := Some(RenderInventory(rows));
      } else {
        out := None;
      }
      Note(Ran(Inventory, out.Some?));
    }

    method ReadHeadCommit() returns (c: Option<Commit>)
      requires Valid()
      modifies this`trace, this`phase
      ensures Logged(Ran(ReadHead, c.Some?)) && (c.Some? ==> c.value == head) && (calm ==> c.Some?)
    {
      var answered: bool := *;
      answered := answered || calm;
      c := if answered then Some(head) else None;
      Note(Ran(ReadHead, c.Some?));
    }

    /** Where the fetched branch points: anything, unless the run is calm. */
    method ReadRemoteCommit() returns (c: Option<Commit>)
      requires Valid()
      modifies this`trace, this`phase
      ensures Logged(if c.Some? then Answered(ReadRemoteRef, c.value) else Ran(ReadRemoteRef, false))
      ensures calm ==> c == Some(fetched)
    {
      c := *;
      if calm {
        c := Some(fetched);
      }
      Note(if c.Some? then Answered(ReadRemoteRef, c.value) else Ran(ReadRemoteRef, false));
    }

    method IsAncestor(of: Commit, target: Commit) returns (ok: bool)
      requires Valid()
      modifies this`trace, this`phase
      ensures Logged(Ran(CheckAncestor(of), ok)) && (ok ==> repo.ancestor(of, target))
      ensures calm && repo.ancestor(of, target) ==> ok
    {
      var answered: bool := *;
      answered := answered || calm;
      ok := answered && repo.ancestor(of, target);
      Note(Ran(CheckAncestor(of), ok));
    }

    /** `show-ref --verify --quiet`: 0 present, 1 absent, anything else a failure. */
    method ShowRollbackRef() returns (rc: int)
      requires Valid()
      modifies this`trace, this`phase
      ensures Logged(Ran(ShowRollback, rc == 0 || rc == 1))
      ensures (rc == 0 ==> rollback.Some?) && (rc == 1 ==> rollback.None?) && (calm ==> rc == 0 || rc == 1)
    {
      var answered: bool := *;
      answered := answered || calm;
      rc := if !answered then 255 else if rollback.Some? then 0 else 1;
      Note(Ran(ShowRollback, answered));
    }

    method ReadRollbackCommit() returns (c: Option<Commit>)
      requires Valid()
      modifies this`trace, this`phase
      ensures Logged(Ran(ReadRollback, c.Some?)) && (c.Some? ==> c == rollback) && (calm ==> c == rollback)
    {
      var answered: bool := *;
      answered := answered || calm;
      c := if answered then rollback else None;
      Note(Ran(ReadRollback, c.Some?));
    }

    /** `diff --quiet` over the agent files: 0 equal, 1 different, anything else a failure. */
    method DiffAgentFiles(from: Commit, target: Commit) returns (rc: int)
      requires Valid()
      modifies this`trace, this`phase
      ensures Logged(Ran(DiffAgent(from), rc == 0 || rc == 1))
      ensures (rc == 0 ==> !repo.agentDiffers(from, target)) && (rc == 1 ==> repo.agentDiffers(from, target))
      ensures calm ==> rc == 0 || rc == 1
    {
      var answered: bool := *;
      answered := answered || calm;
      rc := if !answered then 128 else if repo.agentDiffers(from, target) then 1 else 0;
      Note(Ran(DiffAgent(from), answered));
    }

    method ReadState() returns (s: Option<ReleaseState>)
      requires Valid()
      modifies this`trace, this`phase
      ensures Logged(if s.Some? then Reported(stored.state) else Ran(Status, false)) && (s.Some? ==> s.value == stored.state)
      ensures calm && stored.state != Absent ==> s.Some?
    {
      var answered: bool := *;
      answered := answered || calm;
      if answered && stored.state != Absent {
        s := Some(stored.state);
        Note(Reported(stored.state));
      } else {
        s := None;
        Note(Ran(Status, false));
      }
    }

    // ----- commands with an effect -----

    /** `install -d -m 0700`: creates the directory, or sets the mode of one that the user owns. */
    method InstallDirectory(user: string) returns (ok: bool)
      requires Valid() && NUL !in user
      modifies this`trace, this`phase, this`own
      ensures Logged(Ran(Install, ok))
      ensures own == old(own) || SafeDirectory(user, own)
      ensures ok ==> SafeDirectory(user, own)
      ensures old(own).None? || Owned(user, old(own).value) ==> (calm ==> ok)
      ensures old(own).Some? && !Owned(user, old(own).value) ==> own == old(own) && !ok
    {
      hide Monitor, PlainDir, PlainMeta, PlainOwn, DirectoryMeta, SafeDirectory, Owned;
      Installed(user, own, dir);
      var done: bool := *;
      done := (done || calm) && (own.None? || Owned(user, own.value));
      if done {
        own := Some(DirectoryMeta(user, own));
      }
      var reported: bool := *;
      ok := done && (reported || calm);
      Note(Ran(Install, ok));
    }

    /** `rsync --partial --inplace --chmod`: whatever it reports, the partial file may hold anything;
        if it reports success, the file is there with the owner and mode it was sent with. */
    method Upload(name: string, local: Content, user: string) returns (ok: bool)
      requires Valid() && NUL !in name && NUL !in user
      modifies this`trace, this`phase, this`dir
      ensures Logged(Ran(Rsync(name), ok))
      ensures dir - {PartName(name)} == old(dir) - {PartName(name)}
      ensures ok ==> PartName(name) in dir && dir[PartName(name)].meta == SentMeta(user)
      ensures calm && own.Some? ==> ok && dir[PartName(name)].content == local
    {
      hide Monitor, PlainDir, PartName;
      ok := *;
      var written: bool := *;
      var content: Content := *;
      var meta: Meta := *;
      if calm {
        ok, content := true, local;
      }
      ok, written := ok && own.Some?, written && own.Some?;
      if ok || !PlainMeta(meta) {
        meta := SentMeta(user);
      }
      PartWritten(dir, name, File(content, meta));
      if ok || written {
        dir := dir[PartName(name) := File(content, meta)];
      }
      Note(Ran(Rsync(name), ok));
    }

    /** `mv` of the partial file to its final name. */
    method MoveToFinal(name: string) returns (ok: bool)
      requires Valid() && NUL !in name && name != ""
      modifies this`trace, this`phase, this`dir
      ensures Logged(Ran(Rename(name), ok))
      ensures dir == old(dir) || (PartName(name) in old(dir) && dir == old(dir)[name := old(dir)[PartName(name)]] - {PartName(name)})
      ensures ok ==> PartName(name) in old(dir) && dir == old(dir)[name := old(dir)[PartName(name)]] - {PartName(name)}
      ensures calm && PartName(name) in old(dir) ==> ok
    {
      var moved: bool := *;
      moved := (moved || calm) && PartName(name) in dir;
      if moved {
        dir := dir[name := dir[PartName(name)]] - {PartName(name)};
      }
      var reported: bool := *;
      reported := reported || calm;
      ok := moved && reported;
      Note(Ran(Rename(name), ok));
    }

    method RemoveFile(name: string) returns (ok: bool)
      requires Valid()
      modifies this`trace, this`phase, this`dir
      ensures Logged(Ran(Remove(name), ok))
      ensures dir == old(dir) || dir == old(dir) - {name}
      ensures ok ==> name in old(dir) && dir == old(dir) - {name}
      ensures calm && name in old(dir) ==> ok
    {
      var removed: bool := *;
      removed := (removed || calm) && name in dir;
      if removed {
        dir := dir - {name};
      }
      var reported: bool := *;
      reported := reported || calm;
      ok := removed && reported;
      Note(Ran(Remove(name), ok));
    }

    /** `rmdir` fails on a directory that is not empty. */
    method RemoveEmptyDirectory() returns (ok: bool)
      requires Valid()
      modifies this`trace, this`phase, this`own
      ensures Logged(Ran(RemoveDirectory, ok)) && (own == old(own) || own == None)
      ensures ok ==> dir == map[] && own == None
      ensures calm && old(own).Some? && dir == map[] ==> ok
    {
      var removed: bool := *;
      removed := (removed || calm) && own.Some? && |dir| == 0;
      if removed {
        own := None;
      }
      var reported: bool := *;
      ok := removed && (reported || calm);
      Note(Ran(RemoveDirectory, ok));
    }

    /** `git branch` does not overwrite a branch that exists. */
    method CreateRollbackRef(at: Commit) returns (ok: bool)
      requires Valid()
      modifies this`trace, this`phase, this`rollback
      ensures Logged(Ran(CreateRollback(at), ok))
      ensures rollback == old(rollback) || (old(rollback).None? && rollback == Some(at))
      ensures ok ==> old(rollback).None? && rollback == Some(at)
      ensures calm && old(rollback).None? ==> ok
    {
      var created: bool := *;
      created := (created || calm) && rollback.None?;
      if created {
        rollback := Some(at);
      }
      var reported: bool := *;
      reported := reported || calm;
      ok := created && reported;
      Note(Ran(CreateRollback(at), ok));
    }

    /** `merge --ff-only`: moves HEAD forward, leaves it alone when it already contains the
        commit, and fails when the two have diverged. */
    method MergeFastForward(target: Commit) returns (ok: bool)
      requires Valid()
      modifies this`trace, this`phase, this`head
      ensures Logged(Ran(FastForward, ok))
      ensures head == old(head) || head == target
      ensures ok ==> repo.ancestor(target, head)
      ensures calm && repo.ancestor(old(head), target) ==> ok
    {
      var merged: bool := *;
      merged := merged || calm;
      if repo.ancestor(target, head) {
      } else if merged && repo.ancestor(head, target) {
        head := target;
      } else {
        merged := false;
      }
      var reported: bool := *;
      reported := reported || calm;
      ok := merged && reported;
      Note(Ran(FastForward, ok));
    }

    /** `prepare` of the release manager. */
    method PrepareRelease(production: bool) returns (ok: bool)
      requires Valid()
      modifies this`trace, this`phase, this`stored
      ensures Logged(Ran(Prepare, ok)) && PrepareStep(old(stored), stored, ok, calm, production)
    {
      ok := *;
      var next: Stored := *;
      if !PrepareStep(stored, next, ok, calm, production) {
        ok, next := calm && Preparable(stored, production), stored;
        if ok {
          next := Stored(AtPrepared, true, stored.clear);
        } else if calm && Unbound(stored, production) {
          next := stored.(state := AtFailed);
        }
      }
      stored := next;
      Note(Ran(Prepare, ok));
    }

    /** `activate` of the release manager. */
    method ActivateRelease(production: bool) returns (ok: bool)
      requires Valid()
      modifies this`trace, this`phase, this`stored
      ensures Logged(Ran(Activate, ok)) && ActivateStep(old(stored), stored, ok, calm, production)
    {
      var begun: bool := *;
      ok := false;
      if stored.state == AtPrepared && calm && Preparable(stored, production) {
        stored, ok := stored.(state := AtSucceeded), true;
      } else if stored.state == AtPrepared && begun {
        var state := Wander(AtActivating);
        stored := stored.(state := state);
        ok := *;
      }
      Note(Ran(Activate, ok));
    }

    /** Between two runs: an operator may resume the release or roll it back, and what is stored beside
        it, as well as the topology of the host, may change. */
    method Drift()
      requires Valid()
      modifies this`stored
      ensures Valid() && CanBecome(old(stored.state), stored.state)
    {
      var state := Wander(stored.state);
      var bound: bool, clear: bool := *, *;
      stored := Stored(state, bound, clear);
    }
  }

  lemma PartWritten(dir: map<string, File>, name: string, f: File)
    requires PlainDir(dir) && NUL !in name && PlainMeta(f.meta)
    ensures PlainDir(dir[PartName(name) := f])
    ensures dir[PartName(name) := f] - {PartName(name)} == dir - {PartName(name)}
  {
    assert PartName(name)[|name|] == '.';
  }

  predicate Owned(user: string, own: Meta) {
    own.kind == "d" && own.owner == user
  }

  predicate SafeDirectory(user: string, own: Option<Meta>) {
    own.Some? && Owned(user, own.value) && own.value.mode == "700"
  }

  /** The directory as `install` leaves it. */
  function DirectoryMeta(user: string, own: Option<Meta>): Meta {
    Meta("d", user, "700", if own.Some? then own.value.links else "2")
  }

  lemma Installed(user: string, own: Option<Meta>, dir: map<string, File>)
    requires NUL !in user && PlainOwn(own, dir)
    ensures PlainOwn(Some(DirectoryMeta(user, own)), dir) && SafeDirectory(user, Some(DirectoryMeta(user, own)))
  {
  }

  // ----- an inventory in some order -----

  /** The rows of a directory, in the order in which its entries happen to be taken. */
  method ListRows(own: Meta, dir: map<string, File>) returns (rows: seq<Row>)
    requires PlainDir(dir) && PlainMeta(own)
    ensures DistinctNames(rows) && Plain(Fields(rows)) && Listing(rows) == Listed(own, dir)
  {
    hide Fields, Listing, Plain, DistinctNames, Listed;
    rows := [];
    NoRows();
    RowMore([], Row("", own));
    rows := rows + [Row("", own)];
    var rest := dir.Keys;
    ghost var done := map[];
    ListedNothing(own);
    while rest != {}
      invariant rest <= dir.Keys && DistinctNames(rows) && Plain(Fields(rows))
      invariant done.Keys == dir.Keys - rest && forall n :: n in done ==> done[n] == dir[n]
      invariant Listing(rows) == Listed(own, done)
      decreases rest
    {
      var n :| n in rest;
      ListedMore(own, done, n, dir[n]);
      RowMore(rows, Row(n, dir[n].meta));
      rows := rows + [Row(n, dir[n].meta)];
      done := done[n := dir[n]];
      rest := rest - {n};
    }
    assert done == dir;
  }

  lemma ListedNothing(own: Meta)
    ensures Listed(own, map[]) == map["" := own]
  {
  }

  lemma ListedMore(own: Meta, done: map<string, File>, n: string, f: File)
    requires n != "" && n !in done
    ensures n !in Listed(own, done) && Listed(own, done[n := f]) == Listed(own, done)[n := f.meta]
  {
  }

  lemma NoRows()
    ensures DistinctNames([]) && Plain(Fields([])) && Listing([]) == map[]
  {
  }

  lemma RowMore(rows: seq<Row>, row: Row)
    requires DistinctNames(rows) && Plain(Fields(rows))
    requires row.name !in Listing(rows) && NUL !in row.name && PlainMeta(row.meta)
    ensures DistinctNames(rows + [row]) && Plain(Fields(rows + [row]))
    ensures Listing(rows + [row]) == Listing(rows)[row.name := row.meta]
  {
    assert (rows + [row])[..|rows|] == rows;
    assert Fields(rows + [row]) == Fields(rows) + RowFields(row);
    forall i | 0 <= i < |rows| ensures rows[i].name != row.name { ListingHas(rows, i); }
  }
}
