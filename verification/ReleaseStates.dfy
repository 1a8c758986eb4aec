/** The states of a release, as deploy/scripts/release_store.py keeps them and as `prepare` and
    `activate` of deploy/scripts/release_manager.py demand and leave them. */
module ReleaseStates {

  /** `Absent`: no release of that identifier has been stored yet. */
  datatype ReleaseState =
    | Absent | AtStaged | AtPrepared | AtActivating | AtSucceeded | AtRollingBack | AtRolledBack | AtFailed
    | AtRecoveryRequired

  /** The table of transitions; storing a release stages it. */
  function Moves(s: ReleaseState): set<ReleaseState> {
    match s
    case Absent => {AtStaged}
    case AtStaged => {AtPrepared, AtFailed}
    case AtPrepared => {AtActivating, AtFailed}
    case AtActivating => {AtSucceeded, AtRollingBack, AtRecoveryRequired}
    case AtRollingBack => {AtRolledBack, AtRecoveryRequired}
    case _ => {}
  }

  /** Any number of transitions. */
  ghost predicate CanBecome(s: ReleaseState, t: ReleaseState) {
    exists path :: IsHistory(path) && path[0] == s && path[|path| - 1] == t
  }

  ghost predicate IsHistory(path: seq<ReleaseState>) {
    path != [] && forall i, j :: 0 <= i < |path| && j == i + 1 && j < |path| ==> path[j] in Moves(path[i])
  }

  lemma StaysPossible(s: ReleaseState)
    ensures CanBecome(s, s)
  {
    assert IsHistory([s]) && [s][0] == s;
  }

  lemma OneMoreMove(s: ReleaseState, t: ReleaseState, u: ReleaseState)
    requires CanBecome(s, t) && u in Moves(t)
    ensures CanBecome(s, u)
  {
    var path :| IsHistory(path) && path[0] == s && path[|path| - 1] == t;
    var longer := path + [u];
    assert IsHistory(longer) && longer[0] == s && longer[|longer| - 1] == u;
  }

  lemma OneMoveBefore(s: ReleaseState, t: ReleaseState, u: ReleaseState)
    requires t in Moves(s) && CanBecome(t, u)
    ensures CanBecome(s, u)
  {
    var path :| IsHistory(path) && path[0] == t && path[|path| - 1] == u;
    var longer := [s] + path;
    assert IsHistory(longer) && longer[0] == s && longer[|longer| - 1] == u;
  }

  /** The same table read backwards: where a state can have come from. */
  predicate ComesFrom(t: ReleaseState, s: ReleaseState) {
    match t
    case Absent => false
    case AtStaged => s == Absent
    case AtPrepared => s == AtStaged
    case AtActivating => s == AtPrepared
    case AtSucceeded => s == AtActivating
    case AtRollingBack => s == AtActivating
    case AtRolledBack => s == AtRollingBack
    case AtFailed => s == AtStaged || s == AtPrepared
    case AtRecoveryRequired => s == AtActivating || s == AtRollingBack
  }

  lemma TableBackwards(s: ReleaseState, t: ReleaseState)
    ensures t in Moves(s) <==> ComesFrom(t, s)
  {
  }

  /** A release that has got as far as `succeeded`, from where it can be prepared, went through
      `prepared` and `activating` on the way. */
  lemma SucceededBy(path: seq<ReleaseState>)
    requires IsHistory(path) && Open(path[0]) && path[|path| - 1] == AtSucceeded
    ensures exists i :: 0 <= i < |path| - 2 && path[i] == AtPrepared && path[i + 1] == AtActivating && i + 2 == |path| - 1
  {
    var n := |path| - 1;
    assert n > 0;
    var b := n - 1;
    assert path[n] in Moves(path[b]);
    TableBackwards(path[b], path[n]);
    assert path[b] == AtActivating && b > 0;
    var a := b - 1;
    assert path[b] in Moves(path[a]);
    TableBackwards(path[a], path[b]);
    assert path[a] == AtPrepared && path[a + 1] == AtActivating;
  }

  /** What the release manager keeps that decides about `prepare`.  `bound`: the metadata stored with the
      release are those that `prepare` asks for, the kind of the release and the topology of the host.
      `clear`: nothing else that is stored stands in the way, that is, no bootstrap is unfinished, every
      entry beside the release can be read, and no other release has its images. */
  datatype Stored = Stored(state: ReleaseState, bound: bool, clear: bool)

  /** The states that `prepare` does not refuse by themselves. */
  predicate Open(s: ReleaseState) {
    s == Absent || s == AtStaged || s == AtPrepared
  }

  /** What `prepare` accepts.  On a development host no metadata are bound and no history is read. */
  predicate Preparable(s: Stored, production: bool) {
    Open(s.state) && (production ==> s.clear && (s.state == Absent || s.bound))
  }

  /** A staged release that `prepare` refuses because of its metadata. */
  predicate Unbound(s: Stored, production: bool) {
    production && s.state == AtStaged && s.clear && !s.bound
  }

  lemma {:induction false} HistoryStaysPast(path: seq<ReleaseState>, i: nat)
    requires IsHistory(path) && !Open(path[0]) && i < |path|
    ensures !Open(path[i])
  {
    if i > 0 {
      HistoryStaysPast(path, i - 1);
      var before := i - 1;
      assert path[i] in Moves(path[before]);
    }
  }

  /** No transition leads back to a state that can be prepared. */
  lemma PastForGood(s: ReleaseState, t: ReleaseState)
    requires CanBecome(s, t) && !Open(s)
    ensures !Open(t)
  {
    var path :| IsHistory(path) && path[0] == s && path[|path| - 1] == t;
    HistoryStaysPast(path, |path| - 1);
  }

  /** What `prepare` does to the store, and whether it reports success.  A release that it accepts it
      prepares, or it stops anywhere on the way, or it is lost after it is through.  A staged release with
      other metadata it marks as failed; everything else that it refuses it leaves alone. */
  predicate PrepareStep(s: Stored, t: Stored, ok: bool, calm: bool, production: bool) {
    if !Preparable(s, production) then
      var marked := s.(state := AtFailed);
      !ok && if Unbound(s, production) then t == marked || (t == s && !calm) else t == s
    else if calm then PreparedAs(s, t, production) && ok
    else (ok ==> t.state == AtPrepared) && (t == s || PreparedAs(s, t, production) || StoppedAs(s, t))
  }

  /** The preparation is through, and the metadata are bound. */
  predicate PreparedAs(s: Stored, t: Stored, production: bool) {
    t.state == AtPrepared && t.clear == s.clear && (production ==> t.bound)
  }

  /** The preparation has stopped on the way: inside the creation of the release, which leaves an entry
      that cannot be read; between the creation and the binding of the metadata, or behind it; or with
      an error. */
  predicate StoppedAs(s: Stored, t: Stored) {
    || (s.state == Absent && t == s.(clear := false))
    || (s.state == Absent && t.state == AtStaged && t.clear == s.clear)
    || (s.state != AtPrepared && t.state == AtFailed && t.clear == s.clear)
  }

  /** What `activate` does: it refuses unless the release is prepared; otherwise it may be stopped
      before it begins, or end anywhere behind `activating`. */
  ghost predicate ActivateStep(s: Stored, t: Stored, ok: bool, calm: bool, production: bool) {
    if s.state != AtPrepared then t == s && !ok
    else if calm && Preparable(s, production) then t == s.(state := AtSucceeded) && ok
    else (t == s && !ok) || (CanBecome(AtActivating, t.state) && t == s.(state := t.state))
  }

  /** Both commands move along the table. */
  lemma CommandsFollowTable(s: Stored, t: Stored, ok: bool, calm: bool, production: bool)
    requires PrepareStep(s, t, ok, calm, production) || ActivateStep(s, t, ok, calm, production)
    ensures CanBecome(s.state, t.state)
  {
    hide CanBecome;
    StaysPossible(s.state);
    StaysPossible(AtActivating);
    if PrepareStep(s, t, ok, calm, production) {
      if s.state == Absent {
        OneMoreMove(Absent, Absent, AtStaged);
      }
      if s.state == Absent || s.state == AtStaged {
        OneMoreMove(s.state, AtStaged, AtPrepared);
        OneMoreMove(s.state, AtStaged, AtFailed);
      }
    } else if s.state == AtPrepared && t != s {
      OneMoreMove(AtActivating, AtActivating, AtSucceeded);
      OneMoveBefore(AtPrepared, AtActivating, t.state);
    }
  }

  /** An activation that took effect leaves a state that cannot be prepared again, and it may take
      effect although it is reported as failed. */
  lemma LostActivation(s: Stored, t: Stored, ok: bool, calm: bool, production: bool)
    requires s.state == AtPrepared
    ensures ActivateStep(s, t, ok, calm, production) && (ok || t.state != AtPrepared) ==> !Open(t.state)
    ensures ActivateStep(s, s.(state := AtSucceeded), false, false, production)
  {
    StaysPossible(AtActivating);
    OneMoreMove(AtActivating, AtActivating, AtSucceeded);
    if CanBecome(AtActivating, t.state) {
      PastForGood(AtActivating, t.state);
    }
  }

  /** Without failures `prepare` succeeds exactly on what it accepts; what it refuses it does not make
      acceptable. */
  lemma PrepareExactly(s: Stored, t: Stored, ok: bool, calm: bool, production: bool)
    requires PrepareStep(s, t, ok, calm, production)
    ensures !Preparable(s, production) ==> !ok && !Preparable(t, production)
    ensures calm ==> (ok <==> Preparable(s, production))
    ensures ok ==> Preparable(t, production) && t.state == AtPrepared
  {
  }

  /** An attempt to prepare, in which something may fail or not. */
  predicate Attempt(s: Stored, t: Stored, ok: bool, production: bool) {
    PrepareStep(s, t, ok, false, production) || PrepareStep(s, t, ok, true, production)
  }

  /** A history of attempts, with what each reports. */
  ghost predicate Attempts(path: seq<Stored>, reports: seq<bool>, production: bool) {
    && |path| == |reports| + 1
    && forall i, j :: 0 <= i < |reports| && j == i + 1 ==> Attempt(path[i], path[j], reports[i], production)
  }

  /** So trying again never helps: of any number of attempts, once one finds the release unacceptable,
      none succeeds. */
  lemma {:induction false} RefusedForGood(path: seq<Stored>, reports: seq<bool>, production: bool, from: nat, i: nat)
    requires Attempts(path, reports, production) && from <= i < |reports| && !Preparable(path[from], production)
    ensures !reports[i] && !Preparable(path[i], production)
  {
    if from < i {
      var before := i - 1;
      RefusedForGood(path, reports, production, from, before);
      assert Attempt(path[before], path[i], reports[before], production);
    }
    var next := i + 1;
    assert Attempt(path[i], path[next], reports[i], production);
  }

  /** On a production host a preparation can be cut off between creating the release and binding its
      metadata.  What it leaves is staged, but no later attempt succeeds, however many there are, and one in
      which nothing fails marks the release as failed for good. */
  lemma LostStaging(s: Stored, t: Stored, path: seq<Stored>, reports: seq<bool>, i: nat)
    requires s.state == Absent && s.clear
    requires Attempts(path, reports, true) && path[0] == Stored(AtStaged, false, true) && i < |reports|
    ensures PrepareStep(s, path[0], false, false, true) && !reports[i]
    ensures PrepareStep(path[0], t, false, true, true) <==> t == path[0].(state := AtFailed)
  {
    RefusedForGood(path, reports, true, 0, i);
  }

  /** Or inside the creation.  Then nothing is stored yet, but the temporary entry that is left makes every
      later attempt fail, for this release and for any other, and changes nothing. */
  lemma LostCreation(s: Stored, path: seq<Stored>, reports: seq<bool>, i: nat)
    requires s.state == Absent && s.clear
    requires Attempts(path, reports, true) && !path[0].clear && i < |reports|
    ensures PrepareStep(s, s.(clear := false), false, false, true)
    ensures !reports[i] && path[i + 1] == path[0]
  {
    RefusedForGood(path, reports, true, 0, i);
    NothingChanges(path, reports, i + 1);
  }

  lemma {:induction false} NothingChanges(path: seq<Stored>, reports: seq<bool>, i: nat)
    requires Attempts(path, reports, true) && !path[0].clear && i < |path|
    ensures path[i] == path[0]
  {
    if i > 0 {
      var before := i - 1;
      NothingChanges(path, reports, before);
      assert Attempt(path[before], path[i], reports[before], true);
    }
  }

  /** Any number of arbitrary transitions. */
  method Wander(s: ReleaseState) returns (t: ReleaseState)
    ensures CanBecome(s, t)
  {
    t := s;
    StaysPossible(s);
    var steps: int := *;
    for i := 0 to if steps > 0 then steps else 0
      invariant CanBecome(s, t)
    {
      var next: ReleaseState := *;
      if next in Moves(t) {
        OneMoreMove(s, t, next);
        t := next;
      }
    }
  }
}
