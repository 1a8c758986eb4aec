/** What a run of the release driver may send to the remote host, in which order: a monitor over
    the events of one run, and what it means that the monitor never breaks. */
module ReleaseTrace {
  import opened InventoryText
  import opened ReleaseStates

  type Commit = string
  type Content = string

  datatype File = File(content: Content, meta: Meta)

  datatype Command =
    | Install | TestFinal(name: string) | Rsync(name: string) | Digest(file: string) | Rename(name: string) | Inventory
    | GitStatus | Fetch | ReadHead | ReadRemoteRef | CheckAncestor(of: Commit) | HostControl(operation: string)
    | ShowRollback | ReadRollback | CreateRollback(at: Commit) | DiffAgent(from: Commit) | FastForward
    | Prepare | Remove(name: string) | RemoveDirectory | Activate | Status
    | RestartAgent | CheckAgent | CheckService | Probe(url: string)

  /** A command with the result it reported or the text it answered with, the moment the driver has
      accepted the staged bundle, or the release state it has read. */
  datatype Event =
    | Ran(command: Command, ok: bool) | Answered(question: Command, text: string)
    | Accepted(dir: map<string, File>) | Reported(state: ReleaseState)

  datatype Phase = Staging | Staged | Switched | Prepared | Activated | Succeeded | Reloaded | Broken

  function Step(bundle: map<string, File>, p: Phase, e: Event): Phase {
    match e
    case Accepted(dir) => if p == Staging && dir == bundle then Staged else Broken
    case Answered(_, _) => p
    case Reported(state) => if p != Activated then Broken else if state == AtSucceeded then Succeeded else p
    case Ran(command, ok) =>
      match command
      case CreateRollback(_) => if p == Staged then p else Broken
      case FastForward => if p != Staged then Broken else if ok then Switched else p
      case Prepare => if p != Switched then Broken else if ok then Prepared else p
      case Remove(_) => if p == Prepared then p else Broken
      case RemoveDirectory => if p == Prepared then p else Broken
      case Activate => if p != Prepared then Broken else if ok then Activated else p
      case RestartAgent => if p != Succeeded then Broken else if ok then Reloaded else p
      case _ => p
  }

  /** The phase a run has reached. */
  function Monitor(bundle: map<string, File>, trace: seq<Event>): Phase {
    if trace == [] then Staging
    else Step(bundle, Monitor(bundle, trace[..|trace|-1]), trace[|trace|-1])
  }

  lemma MonitorMore(bundle: map<string, File>, trace: seq<Event>, e: Event)
    ensures Monitor(bundle, trace + [e]) == Step(bundle, Monitor(bundle, trace), e)
  {
    assert (trace + [e])[..|trace|] == trace;
  }

  lemma {:induction false} BrokenForGood(bundle: map<string, File>, trace: seq<Event>, i: nat)
    requires i <= |trace| && Monitor(bundle, trace) != Broken
    ensures Monitor(bundle, trace[..i]) != Broken
  {
    if i < |trace| {
      var before := trace[..|trace|-1];
      BrokenForGood(bundle, before, i);
      assert before[..i] == trace[..i];
    } else {
      assert trace[..i] == trace;
    }
  }

  /** The event that brought a run into its phase. */
  lemma {:induction false} EnteredBy(bundle: map<string, File>, trace: seq<Event>) returns (i: nat)
    requires Monitor(bundle, trace) !in {Staging, Broken}
    ensures i < |trace| && Monitor(bundle, trace[..i]) != Monitor(bundle, trace)
    ensures Step(bundle, Monitor(bundle, trace[..i]), trace[i]) == Monitor(bundle, trace)
  {
    i := |trace| - 1;
    if Monitor(bundle, trace[..i]) == Monitor(bundle, trace) {
      var before := trace[..i];
      i := EnteredBy(bundle, before);
      assert before[..i] == trace[..i];
    }
  }

  /** Once prepared, a run has accepted the closed bundle, then moved HEAD, then prepared. */
  lemma PreparedBy(bundle: map<string, File>, trace: seq<Event>) returns (a: nat, b: nat, c: nat)
    requires Monitor(bundle, trace) == Prepared
    ensures a < b < c < |trace|
    ensures trace[a] == Accepted(bundle) && trace[b] == Ran(FastForward, true) && trace[c] == Ran(Prepare, true)
  {
    c := EnteredBy(bundle, trace);
    b := EnteredBy(bundle, trace[..c]);
    assert trace[..c][..b] == trace[..b];
    a := EnteredBy(bundle, trace[..b]);
    assert trace[..b][..a] == trace[..a];
  }

  /** Activation is only ever sent after the bundle check, the fast-forward and the preparation
      of the same run have succeeded, in this order. */
  lemma ActivateOnlyWhenPrepared(bundle: map<string, File>, trace: seq<Event>, i: nat) returns (a: nat, b: nat, c: nat)
    requires Monitor(bundle, trace) != Broken && i < |trace| && trace[i].Ran? && trace[i].command == Activate
    ensures a < b < c < i
    ensures trace[a] == Accepted(bundle) && trace[b] == Ran(FastForward, true) && trace[c] == Ran(Prepare, true)
  {
    BrokenForGood(bundle, trace, i + 1);
    assert trace[..i+1][..i] == trace[..i];
    a, b, c := PreparedBy(bundle, trace[..i]);
  }

  /** Staged files are only removed after the preparation of the same run has succeeded. */
  lemma RemoveOnlyWhenPrepared(bundle: map<string, File>, trace: seq<Event>, i: nat) returns (c: nat)
    requires Monitor(bundle, trace) != Broken && i < |trace| && trace[i].Ran? && trace[i].command.Remove?
    ensures c < i && trace[c] == Ran(Prepare, true)
  {
    BrokenForGood(bundle, trace, i + 1);
    assert trace[..i+1][..i] == trace[..i];
    var a, b;
    a, b, c := PreparedBy(bundle, trace[..i]);
  }

  /** A run that ends reloaded has restarted the agent, successfully, after it had activated the
      release and read the state `succeeded`. */
  lemma ReloadedBy(bundle: map<string, File>, trace: seq<Event>) returns (a: nat, s: nat, r: nat)
    requires Monitor(bundle, trace) == Reloaded
    ensures a < s < r < |trace|
    ensures trace[a] == Ran(Activate, true) && trace[s] == Reported(AtSucceeded) && trace[r] == Ran(RestartAgent, true)
  {
    r := EnteredBy(bundle, trace);
    s := EnteredBy(bundle, trace[..r]);
    assert trace[..r][..s] == trace[..s];
    a := EnteredBy(bundle, trace[..s]);
    assert trace[..s][..a] == trace[..a];
  }

  /** The agent is never restarted before the state `succeeded` has been read. */
  lemma RestartOnlyWhenSucceeded(bundle: map<string, File>, trace: seq<Event>, i: nat) returns (s: nat)
    requires Monitor(bundle, trace) != Broken && i < |trace| && trace[i].Ran? && trace[i].command == RestartAgent
    ensures s < i && trace[s] == Reported(AtSucceeded)
  {
    BrokenForGood(bundle, trace, i + 1);
    assert trace[..i+1][..i] == trace[..i];
    s := EnteredBy(bundle, trace[..i]);
  }

  /** The phases before the preparation has succeeded. */
  predicate BeforePrepared(p: Phase) {
    p == Staging || p == Staged || p == Switched
  }

  /** A run that ends before it is prepared has sent neither an activation nor a restart of the agent,
      and removed nothing. */
  lemma {:induction false} NothingSentEarly(bundle: map<string, File>, trace: seq<Event>, i: nat)
    requires BeforePrepared(Monitor(bundle, trace)) && i < |trace| && trace[i].Ran?
    ensures trace[i].command != Activate && trace[i].command != RestartAgent && !trace[i].command.Remove?
    decreases |trace|
  {
    var n := |trace| - 1;
    assert BeforePrepared(Monitor(bundle, trace[..n]));
    if i < n {
      NothingSentEarly(bundle, trace[..n], i);
    }
  }

  /** The phases after a successful activation. */
  predicate BehindActivation(p: Phase) {
    p == Activated || p == Succeeded || p == Reloaded
  }

  /** A run that has activated the release ends in one of them. */
  lemma {:induction false} ActivationShows(bundle: map<string, File>, trace: seq<Event>, i: nat)
    requires Monitor(bundle, trace) != Broken && i < |trace| && trace[i] == Ran(Activate, true)
    ensures BehindActivation(Monitor(bundle, trace))
    decreases |trace|
  {
    var n := |trace| - 1;
    if i < n {
      ActivationShows(bundle, trace[..n], i);
    }
  }

  // ----- steps in order -----

  /** The steps are among the events, in this order, possibly with others between them. */
  ghost predicate Includes(trace: seq<Event>, steps: seq<Event>) {
    steps == [] ||
    (trace != [] &&
     var n, m := |trace| - 1, |steps| - 1;
     (trace[n] == steps[m] && Includes(trace[..n], steps[..m])) || Includes(trace[..n], steps))
  }

  /** Whatever steps the first trace includes, the second includes them with these behind. */
  ghost predicate Adds(before: seq<Event>, after: seq<Event>, steps: seq<Event>) {
    forall done :: Includes(before, done) ==> Includes(after, done + steps)
  }

  lemma AddsEvent(before: seq<Event>, e: Event)
    ensures Adds(before, before + [e], [e]) && Adds(before, before + [e], [])
  {
    var after := before + [e];
    assert after[..|before|] == before;
    forall done | Includes(before, done) ensures Includes(after, done + [e]) && Includes(after, done + []) {
      var steps := done + [e];
      assert steps[..|done|] == done;
      assert done + [] == done;
    }
  }

  lemma AddsNothing(trace: seq<Event>)
    ensures Adds(trace, trace, [])
  {
    forall done | Includes(trace, done) ensures Includes(trace, done + []) {
      assert done + [] == done;
    }
  }

  /** One more event, as a step or not. */
  lemma AddsMore(start: seq<Event>, before: seq<Event>, steps: seq<Event>, e: Event)
    requires Adds(start, before, steps)
    ensures Adds(start, before + [e], steps + [e]) && Adds(start, before + [e], steps)
  {
    AddsEvent(before, e);
    AddsThen(start, before, before + [e], steps, [e]);
    AddsThen(start, before, before + [e], steps, []);
    assert steps + [] == steps;
  }

  lemma {:induction false} AddsPrefix(before: seq<Event>, after: seq<Event>)
    requires before <= after
    ensures Adds(before, after, [])
    decreases |after|
  {
    if before == after {
      AddsNothing(before);
    } else {
      var n := |after| - 1;
      AddsPrefix(before, after[..n]);
      AddsMore(before, after[..n], [], after[n]);
      assert after[..n] + [after[n]] == after;
    }
  }

  lemma AddsThen(a: seq<Event>, b: seq<Event>, c: seq<Event>, first: seq<Event>, second: seq<Event>)
    requires Adds(a, b, first) && Adds(b, c, second)
    ensures Adds(a, c, first + second)
  {
    forall done | Includes(a, done) ensures Includes(c, done + (first + second)) {
      assert Includes(b, done + first);
      assert done + first + second == done + (first + second);
    }
  }

  lemma AddedSteps(trace: seq<Event>, steps: seq<Event>)
    requires Adds([], trace, steps)
    ensures Includes(trace, steps)
  {
    assert Includes([], []);
    assert [] + steps == steps;
  }

  /** What it means: the steps are at increasing positions. */
  lemma {:induction false} IncludedAt(trace: seq<Event>, steps: seq<Event>) returns (at: seq<nat>)
    requires Includes(trace, steps)
    ensures |at| == |steps| && forall i :: 0 <= i < |at| ==> at[i] < |trace| && trace[at[i]] == steps[i]
    ensures forall i, j :: 0 <= i < j < |at| ==> at[i] < at[j]
    decreases |trace|
  {
    at := [];
    if steps != [] {
      var n, m := |trace| - 1, |steps| - 1;
      if trace[n] == steps[m] && Includes(trace[..n], steps[..m]) {
        var before := IncludedAt(trace[..n], steps[..m]);
        at := before + [n];
      } else {
        at := IncludedAt(trace[..n], steps);
      }
    }
  }
}
