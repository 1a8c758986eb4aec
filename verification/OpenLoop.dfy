/** `run_open_loop` of scripts/perf_smoke.py: a producer that submits requests at fixed times and
    worker threads that carry them out, modelled as every possible interleaving of their atomic
    steps. */
module OpenLoop {
  import opened Text

  /** What the caller asks for; `started` is the clock reading at the beginning. */
  datatype Load = Load(offsets: seq<real>, maxWorkers: nat, lagLimit: real, started: real)

  /** The bounds the generator checks before it starts. */
  predicate ValidLoad(c: Load) {
    && c.maxWorkers >= 1 && c.lagLimit >= 0.0 && c.offsets != []
    && (forall i :: 0 <= i < |c.offsets| ==> c.offsets[i] >= 0.0)
    && (forall i, j :: 0 <= i < j < |c.offsets| ==> c.offsets[i] <= c.offsets[j])
  }

  /** How far a submitted request has come. */
  type Progress = n: nat | n <= 4
  const WAITING: Progress := 0
  const RUNNING: Progress := 1    // start recorded
  const HANDLED: Progress := 2    // the handler has returned or raised
  const COUNTED_OUT: Progress := 3  // completion recorded, in_flight decremented
  const FREED: Progress := 4      // permit returned, future done

  datatype Outcome<T> = Returned(value: T) | Raised

  datatype Start = Start(index: nat, time: real)

  datatype Producer = Looping | Checked | Holding | Counted | Joining | Done

  /** `leaked` and `stray` count the permit and the in_flight entry that a keyboard interrupt can
      leave behind between acquiring and submitting. */
  datatype State<T> = State(
    producer: Producer, permits: int, inFlight: int, peak: int, late: bool, interrupted: bool,
    slots: seq<Progress>, futures: nat, joined: nat, starts: seq<Start>, completions: seq<real>,
    outcomes: map<nat, Outcome<T>>, failures: nat, values: seq<T>, leaked: nat, stray: nat)

  function Initial<T>(c: Load): State<T> {
    State(Looping, c.maxWorkers, 0, 0, false, false, [], 0, 0, [], [], map[], 0, [], 0, 0)
  }

  function Lag(c: Load, s: Start): real
    requires s.index < |c.offsets|
  {
    var late := s.time - c.started - c.offsets[s.index];
    if late > 0.0 then late else 0.0
  }

  // ----- atomic steps -----

  datatype Action<T> =
    | CheckLate
    | Acquire
    | Count
    | Submit
    | Exhausted
    | Interrupt(counted: bool, queued: bool)
    | Begin(j: nat, time: real)
    | Handle(j: nat, outcome: Outcome<T>)
    | Complete(j: nat, time: real)
    | Release(j: nat)
    | Join(broken: bool)
    | Finish

  predicate Enabled<T>(c: Load, s: State<T>, a: Action<T>) {
    match a
    case CheckLate => s.producer == Looping && |s.slots| < |c.offsets|
    case Acquire => s.producer == Checked
    case Count => s.producer == Holding
    case Submit => s.producer == Counted
    case Exhausted => s.producer == Looping && |s.slots| == |c.offsets|
    case Interrupt(counted, queued) =>
      && s.producer != Joining && s.producer != Done
      && (counted ==> s.producer == Holding) && (queued ==> s.producer == Counted)
    case Begin(j, _) => j < |s.slots| && j < |c.offsets| && s.slots[j] == WAITING
    case Handle(j, _) => j < |s.slots| && s.slots[j] == RUNNING
    case Complete(j, _) => j < |s.slots| && s.slots[j] == HANDLED
    case Release(j) => j < |s.slots| && s.slots[j] == COUNTED_OUT
    case Join(broken) =>
      s.producer == Joining && s.joined < s.futures <= |s.slots| && (broken || s.slots[s.joined] == FREED)
    case Finish =>
      s.producer == Joining && s.joined == s.futures && forall j :: 0 <= j < |s.slots| ==> s.slots[j] == FREED
  }

  function Apply<T>(c: Load, s: State<T>, a: Action<T>): State<T>
    requires Enabled(c, s, a)
  {
    match a
    case CheckLate => s.(producer := if s.late then Joining else Checked)
    case Acquire =>
      if s.permits > 0 then s.(producer := Holding, permits := s.permits - 1) else s.(producer := Joining)
    case Count =>
      s.(producer := Counted, inFlight := s.inFlight + 1, peak := if s.inFlight + 1 > s.peak then s.inFlight + 1 else s.peak)
    case Submit => s.(producer := Looping, slots := s.slots + [WAITING], futures := |s.slots| + 1)
    case Exhausted => s.(producer := Joining)
    case Interrupt(counted, queued) =>
      var held := s.producer == Holding || s.producer == Counted;
      s.(producer := Joining, interrupted := true,
         inFlight := if counted then s.inFlight + 1 else s.inFlight,
         slots := if queued then s.slots + [WAITING] else s.slots,
         leaked := if held && !queued then s.leaked + 1 else s.leaked,
         stray := if counted || (s.producer == Counted && !queued) then s.stray + 1 else s.stray)
    case Begin(j, time) =>
      s.(slots := s.slots[j := RUNNING], starts := s.starts + [Start(j, time)],
         late := s.late || Lag(c, Start(j, time)) > c.lagLimit)
    case Handle(j, outcome) =>
      s.(slots := s.slots[j := HANDLED], outcomes := s.outcomes[j := outcome],
         failures := if outcome.Raised? then s.failures + 1 else s.failures)
    case Complete(j, time) =>
      s.(slots := s.slots[j := COUNTED_OUT], completions := s.completions + [time], inFlight := s.inFlight - 1)
    case Release(j) => s.(slots := s.slots[j := FREED], permits := s.permits + 1)
    case Join(broken) =>
      if broken then s.(joined := s.joined + 1, interrupted := true)
      else if s.joined in s.outcomes && s.outcomes[s.joined].Returned?
        then s.(joined := s.joined + 1, values := s.values + [s.outcomes[s.joined].value])
        else s.(joined := s.joined + 1)
    case Finish => s.(producer := Done)
  }

  /** The state after some actions, if each is possible when its turn comes. */
  function Run<T>(c: Load, actions: seq<Action<T>>): Option<State<T>> {
    if actions == [] then Some(Initial(c))
    else
      var before := Run(c, actions[..|actions|-1]);
      var a := actions[|actions|-1];
      if before.None? || !Enabled(c, before.value, a) then None else Some(Apply(c, before.value, a))
  }

  // ----- counting requests by progress -----

  /** How many requests have come at least as far as `p`. */
  function Reached(slots: seq<Progress>, p: Progress): nat {
    if slots == [] then 0 else Reached(slots[..|slots|-1], p) + if slots[|slots|-1] >= p then 1 else 0
  }

  lemma {:induction false} ReachedBounds(slots: seq<Progress>, p: Progress, q: Progress)
    requires p <= q
    ensures Reached(slots, q) <= Reached(slots, p) <= |slots|
  {
    if slots != [] { ReachedBounds(slots[..|slots|-1], p, q); }
  }

  lemma ReachedMore(slots: seq<Progress>, p: Progress)
    requires p > WAITING
    ensures Reached(slots + [WAITING], p) == Reached(slots, p)
  {
    assert (slots + [WAITING])[..|slots|] == slots;
  }

  /** One request moves one step on. */
  lemma {:induction false} ReachedStep(slots: seq<Progress>, j: nat, p: Progress)
    requires j < |slots| && slots[j] < 4
    ensures Reached(slots[j := slots[j] + 1], p) == Reached(slots, p) + if p == slots[j] + 1 then 1 else 0
  {
    var n := |slots| - 1;
    var next := slots[j := slots[j] + 1];
    if j == n {
      assert next[..n] == slots[..n];
    } else {
      assert next[..n] == slots[..n][j := slots[j] + 1];
      ReachedStep(slots[..n], j, p);
    }
  }

  lemma {:induction false} ReachedAll(slots: seq<Progress>, p: Progress)
    requires forall j :: 0 <= j < |slots| ==> slots[j] >= p
    ensures Reached(slots, p) == |slots|
  {
    if slots != [] { ReachedAll(slots[..|slots|-1], p); }
  }

  // ----- what every step keeps: permits and counters -----

  function Held(p: Producer): nat { if p == Holding || p == Counted then 1 else 0 }
  function CountedIn(p: Producer): nat { if p == Counted then 1 else 0 }

  /** Every permit is free, in the producer's hand, with a request, or leaked; every unit of
      in_flight belongs to a request between counting in and counting out. */
  ghost predicate Balanced<T>(c: Load, s: State<T>) {
    && s.permits == c.maxWorkers - Held(s.producer) - (|s.slots| - Reached(s.slots, FREED)) - s.leaked
    && s.inFlight == CountedIn(s.producer) + (|s.slots| - Reached(s.slots, COUNTED_OUT)) + s.stray
    && s.permits >= 0 && s.stray <= s.leaked
    && 0 <= s.peak <= c.maxWorkers
    && (s.leaked > 0 ==> s.interrupted)
    && |s.starts| == Reached(s.slots, RUNNING)
    && |s.completions| == Reached(s.slots, COUNTED_OUT)
    && s.joined <= s.futures <= |s.slots| <= |c.offsets|
    && ((s.producer == Checked || s.producer == Holding || s.producer == Counted) ==> |s.slots| < |c.offsets|)
    && (!s.interrupted ==> s.futures == |s.slots|)
  }

  lemma BalancedBounds<T>(c: Load, s: State<T>)
    requires Balanced(c, s)
    ensures 0 <= s.inFlight <= c.maxWorkers && 0 <= s.peak <= c.maxWorkers && 0 <= s.permits <= c.maxWorkers
    ensures |s.completions| <= |s.starts| <= |s.slots| <= |c.offsets|
  {
    ReachedBounds(s.slots, RUNNING, COUNTED_OUT);
    ReachedBounds(s.slots, COUNTED_OUT, FREED);
  }

  predicate IsWorker<T>(a: Action<T>) {
    a.Begin? || a.Handle? || a.Complete? || a.Release?
  }

  lemma BalancedWorker<T>(c: Load, s: State<T>, a: Action<T>)
    requires Balanced(c, s) && Enabled(c, s, a) && IsWorker(a)
    ensures Balanced(c, Apply(c, s, a))
  {
    hide Reached, Lag;
    ReachedStep(s.slots, a.j, RUNNING);
    ReachedStep(s.slots, a.j, COUNTED_OUT);
    ReachedStep(s.slots, a.j, FREED);
    ReachedBounds(s.slots[a.j := s.slots[a.j] + 1], COUNTED_OUT, FREED);
  }

  lemma BalancedInterrupt<T>(c: Load, s: State<T>, a: Action<T>)
    requires Balanced(c, s) && Enabled(c, s, a) && a.Interrupt?
    ensures Balanced(c, Apply(c, s, a))
  {
    hide Reached, Lag;
    ReachedMore(s.slots, RUNNING);
    ReachedMore(s.slots, COUNTED_OUT);
    ReachedMore(s.slots, FREED);
  }

  lemma BalancedProducer<T>(c: Load, s: State<T>, a: Action<T>)
    requires Balanced(c, s) && Enabled(c, s, a) && !IsWorker(a)
    ensures Balanced(c, Apply(c, s, a))
  {
    hide Reached, Lag;
    if a.Interrupt? {
      BalancedInterrupt(c, s, a);
    } else if a.Submit? {
      ReachedMore(s.slots, RUNNING);
      ReachedMore(s.slots, COUNTED_OUT);
      ReachedMore(s.slots, FREED);
    } else {
      ReachedBounds(s.slots, COUNTED_OUT, FREED);
    }
  }

  // ----- what every step keeps: the records -----

  /** The values of the first `k` requests that returned one, in the order of submission. */
  function Collected<T>(outcomes: map<nat, Outcome<T>>, k: nat): seq<T> {
    if k == 0 then []
    else if k - 1 in outcomes && outcomes[k-1].Returned? then Collected(outcomes, k - 1) + [outcomes[k-1].value]
    else Collected(outcomes, k - 1)
  }

  ghost function Failures<T>(outcomes: map<nat, Outcome<T>>): set<nat> {
    set j | j in outcomes && outcomes[j].Raised?
  }

  ghost predicate Recorded<T>(c: Load, s: State<T>) {
    && (forall k :: 0 <= k < |s.starts| ==> s.starts[k].index < |c.offsets|)
    && (s.late <==> exists k :: 0 <= k < |s.starts| && Lag(c, s.starts[k]) > c.lagLimit)
    && (forall j :: j in s.outcomes <==> 0 <= j < |s.slots| && s.slots[j] >= HANDLED)
    && s.failures == |Failures(s.outcomes)|
    && (!s.interrupted ==> s.joined <= |s.slots| && s.values == Collected(s.outcomes, s.joined))
    && (!s.interrupted ==> forall j :: 0 <= j < s.joined ==> s.slots[j] == FREED)
    && (s.producer == Done ==> s.joined == s.futures && forall j :: 0 <= j < |s.slots| ==> s.slots[j] == FREED)
  }

  lemma {:induction false} CollectedMore<T>(outcomes: map<nat, Outcome<T>>, k: nat, j: nat, o: Outcome<T>)
    requires k <= j
    ensures Collected(outcomes[j := o], k) == Collected(outcomes, k)
  {
    if k > 0 { CollectedMore(outcomes, k - 1, j, o); }
  }

  lemma FailuresMore<T>(outcomes: map<nat, Outcome<T>>, j: nat, o: Outcome<T>)
    requires j !in outcomes
    ensures |Failures(outcomes[j := o])| == |Failures(outcomes)| + if o.Raised? then 1 else 0
  {
    if o.Raised? {
      assert Failures(outcomes[j := o]) == Failures(outcomes) + {j};
    } else {
      assert Failures(outcomes[j := o]) == Failures(outcomes);
    }
  }

  lemma RecordedBegin<T>(c: Load, s: State<T>, a: Action<T>)
    requires Recorded(c, s) && Enabled(c, s, a) && a.Begin?
    ensures Recorded(c, Apply(c, s, a))
  {
    hide Lag, Collected, Failures;
    var s' := Apply(c, s, a);
    assert forall k :: 0 <= k < |s.starts| ==> s'.starts[k] == s.starts[k];
    assert s'.starts[|s.starts|] == Start(a.j, a.time);
  }

  lemma RecordedHandle<T>(c: Load, s: State<T>, a: Action<T>)
    requires Recorded(c, s) && Enabled(c, s, a) && a.Handle?
    ensures Recorded(c, Apply(c, s, a))
  {
    hide Lag, Collected, Failures;
    FailuresMore(s.outcomes, a.j, a.outcome);
    if !s.interrupted { CollectedMore(s.outcomes, s.joined, a.j, a.outcome); }
  }

  lemma RecordedJoin<T>(c: Load, s: State<T>, a: Action<T>)
    requires Recorded(c, s) && Enabled(c, s, a) && a.Join?
    ensures Recorded(c, Apply(c, s, a))
  {
    CollectedNext(s.outcomes, s.joined);
    hide Lag, Failures, Collected;
  }

  lemma CollectedNext<T>(outcomes: map<nat, Outcome<T>>, k: nat)
    ensures Collected(outcomes, k + 1) ==
            if k in outcomes && outcomes[k].Returned? then Collected(outcomes, k) + [outcomes[k].value]
            else Collected(outcomes, k)
  {
  }

  lemma RecordedEnd<T>(c: Load, s: State<T>, a: Action<T>)
    requires Recorded(c, s) && Enabled(c, s, a) && (a.Complete? || a.Release?)
    ensures Recorded(c, Apply(c, s, a))
  {
    hide Lag, Failures, Collected;
  }

  lemma RecordedProducer<T>(c: Load, s: State<T>, a: Action<T>)
    requires Recorded(c, s) && Balanced(c, s) && Enabled(c, s, a) && !IsWorker(a) && !a.Join?
    ensures Recorded(c, Apply(c, s, a))
  {
    hide Lag, Failures, Collected, Reached;
  }

  // ----- every reachable state -----

  ghost predicate Sound<T>(c: Load, s: State<T>) {
    Balanced(c, s) && Recorded(c, s)
  }

  lemma SoundStep<T>(c: Load, s: State<T>, a: Action<T>)
    requires Sound(c, s) && Enabled(c, s, a)
    ensures Sound(c, Apply(c, s, a))
  {
    hide Balanced, Recorded, Apply, Enabled;
    if IsWorker(a) { BalancedWorker(c, s, a); } else { BalancedProducer(c, s, a); }
    if a.Begin? { RecordedBegin(c, s, a); }
    else if a.Handle? { RecordedHandle(c, s, a); }
    else if a.Join? { RecordedJoin(c, s, a); }
    else if IsWorker(a) { RecordedEnd(c, s, a); }
    else { RecordedProducer(c, s, a); }
  }

  lemma SoundInitially<T>(c: Load)
    requires ValidLoad(c)
    ensures Sound<T>(c, Initial(c))
  {
    assert Failures<T>(map[]) == {};
  }

  lemma {:induction false} RunSound<T>(c: Load, actions: seq<Action<T>>)
    requires ValidLoad(c) && Run(c, actions).Some?
    ensures Sound(c, Run(c, actions).value)
  {
    hide Sound, Initial;
    if actions == [] {
      SoundInitially<T>(c);
    } else {
      var n := |actions| - 1;
      RunSound(c, actions[..n]);
      SoundStep(c, Run(c, actions[..n]).value, actions[n]);
    }
  }

  /** In every interleaving, at every moment: never more requests in flight than workers, never
      more starts than submissions or completions than starts, no permit too many. */
  lemma InFlightBounded<T>(c: Load, actions: seq<Action<T>>)
    requires ValidLoad(c) && Run(c, actions).Some?
    ensures var s := Run(c, actions).value;
      && 0 <= s.inFlight <= c.maxWorkers && 0 <= s.peak <= c.maxWorkers && 0 <= s.permits <= c.maxWorkers
      && |s.completions| <= |s.starts| <= |s.slots| <= |c.offsets|
  {
    hide Run, Balanced, Recorded;
    RunSound(c, actions);
    BalancedBounds(c, Run(c, actions).value);
  }

  /** When the generator is through, everything submitted has started and completed; without a
      keyboard interrupt all permits are back and nothing is counted in flight. */
  lemma Drained<T>(c: Load, actions: seq<Action<T>>)
    requires ValidLoad(c) && Run(c, actions).Some? && Run(c, actions).value.producer == Done
    ensures var s := Run(c, actions).value;
      && |s.starts| == |s.completions| == |s.slots|
      && s.permits + s.leaked == c.maxWorkers && s.inFlight == s.stray <= s.leaked
      && (!s.interrupted ==> s.permits == c.maxWorkers && s.inFlight == 0 && s.futures == |s.slots|)
  {
    RunSound(c, actions);
    hide Run, Reached, Lag, Collected, Failures;
    var s := Run(c, actions).value;
    ReachedAll(s.slots, RUNNING);
    ReachedAll(s.slots, COUNTED_OUT);
    ReachedAll(s.slots, FREED);
  }

  // ----- the generator always comes to its end -----

  function Rank(p: Producer): nat {
    match p case Looping => 0 case Checked => 1 case Holding => 2 case Counted => 3 case Joining => 4 case Done => 5
  }

  /** Every step moves something on for good. */
  function Advance<T>(s: State<T>): nat {
    Reached(s.slots, RUNNING) + Reached(s.slots, HANDLED) + Reached(s.slots, COUNTED_OUT) + Reached(s.slots, FREED)
    + 4 * |s.slots| + Rank(s.producer) + s.joined
  }

  lemma AdvanceStep<T>(c: Load, s: State<T>, a: Action<T>)
    requires Enabled(c, s, a)
    ensures Advance(Apply(c, s, a)) > Advance(s)
  {
    hide Reached, Lag;
    if IsWorker(a) {
      ReachedStep(s.slots, a.j, RUNNING);
      ReachedStep(s.slots, a.j, HANDLED);
      ReachedStep(s.slots, a.j, COUNTED_OUT);
      ReachedStep(s.slots, a.j, FREED);
    } else {
      ReachedMore(s.slots, RUNNING);
      ReachedMore(s.slots, HANDLED);
      ReachedMore(s.slots, COUNTED_OUT);
      ReachedMore(s.slots, FREED);
    }
  }

  lemma {:induction false} AdvanceCounts<T>(c: Load, actions: seq<Action<T>>)
    requires Run(c, actions).Some?
    ensures |actions| <= Advance(Run(c, actions).value)
  {
    hide Advance;
    if actions != [] {
      var n := |actions| - 1;
      AdvanceCounts(c, actions[..n]);
      AdvanceStep(c, Run(c, actions[..n]).value, actions[n]);
    }
  }

  /** No interleaving goes on for ever ... */
  lemma StepsBounded<T>(c: Load, actions: seq<Action<T>>)
    requires ValidLoad(c) && Run(c, actions).Some?
    ensures |actions| <= 9 * |c.offsets| + 5
  {
    hide Run, Reached;
    AdvanceCounts(c, actions);
    RunSound(c, actions);
    var s := Run(c, actions).value;
    ReachedBounds(s.slots, RUNNING, FREED);
    ReachedBounds(s.slots, HANDLED, FREED);
    ReachedBounds(s.slots, COUNTED_OUT, FREED);
    ReachedBounds(s.slots, FREED, FREED);
  }

  /** ... and none gets stuck before the end: without any interrupt there is a next step. */
  lemma NextStep<T>(c: Load, actions: seq<Action<T>>, o: Outcome<T>) returns (a: Action<T>)
    requires ValidLoad(c) && Run(c, actions).Some? && Run(c, actions).value.producer != Done
    ensures Enabled(c, Run(c, actions).value, a) && !a.Interrupt? && a != Join(true)
  {
    RunSound(c, actions);
    hide Run, Reached, Lag, Collected, Failures;
    var s := Run(c, actions).value;
    match s.producer
    case Looping => a := if |s.slots| < |c.offsets| then CheckLate else Exhausted;
    case Checked => a := Acquire;
    case Holding => a := Count;
    case Counted => a := Submit;
    case Joining =>
      if j :| 0 <= j < |s.slots| && s.slots[j] != FREED {
        a := match s.slots[j] case 0 => Begin(j, 0.0) case 1 => Handle(j, o) case 2 => Complete(j, 0.0) case _ => Release(j);
      } else {
        a := if s.joined < s.futures then Join(false) else Finish;
      }
  }

  // ----- the measurement -----

  function MaxOf(times: seq<real>, floor: real): (m: real)
    ensures m >= floor && (m == floor || m in times)
    ensures forall i :: 0 <= i < |times| ==> times[i] <= m
  {
    if times == [] then floor
    else
      var m := MaxOf(times[..|times|-1], floor);
      if times[|times|-1] > m then times[|times|-1] else m
  }

  function Larger(x: real, y: real): real { if x >= y then x else y }

  /** `max(times, default=floor)` where every time counts, also one below the default. */
  function MaxOrDefault(times: seq<real>, floor: real): real {
    if times == [] then floor else MaxOf(times[1..], times[0])
  }

  function Times(starts: seq<Start>): (t: seq<real>)
    ensures |t| == |starts| && forall i :: 0 <= i < |t| ==> t[i] == starts[i].time
  {
    seq(|starts|, i requires 0 <= i < |starts| => starts[i].time)
  }

  function Lags(c: Load, starts: seq<Start>): (t: seq<real>)
    requires forall k :: 0 <= k < |starts| ==> starts[k].index < |c.offsets|
    ensures |t| == |starts| && forall i :: 0 <= i < |t| ==> t[i] == Lag(c, starts[i])
  {
    seq(|starts|, i requires 0 <= i < |starts| => Lag(c, starts[i]))
  }

  const TINY := 0.000000001

  function Spacing(c: Load): real
    requires ValidLoad(c)
  {
    var n := |c.offsets|;
    (c.offsets[n-1] - c.offsets[0]) / (if n - 1 > 1 then n - 1 else 1) as real
  }

  function PlannedWindow(c: Load): real
    requires ValidLoad(c)
  {
    Larger(c.offsets[|c.offsets|-1] + Spacing(c), TINY)
  }

  /** Requests per second. */
  function Rate(requests: nat, window: real): real
    requires window > 0.0
  {
    requests as real / window
  }

  /** The part of the target that is left when the planned window is stretched by the lag. */
  function LeastRate(target: real, planned: real, lag: real): real
    requires planned > 0.0 && lag >= 0.0
  {
    target * planned / (planned + lag)
  }

  datatype Measurement = Measurement(
    targetRps: real, plannedWindow: real, launchWindow: real, completionWindow: real,
    startedRps: real, completedRps: real, maxLag: real, valid: bool)

  function Measure<T>(c: Load, s: State<T>): Measurement
    requires ValidLoad(c) && forall k :: 0 <= k < |s.starts| ==> s.starts[k].index < |c.offsets|
  {
    PlannedPositive(c);
    var planned := PlannedWindow(c);
    var launch := Larger(planned, MaxOrDefault(Times(s.starts), c.started) - c.started + Spacing(c));
    var completion := Larger(planned, MaxOrDefault(s.completions, c.started) - c.started);
    var maxLag := MaxOrDefault(Lags(c, s.starts), 0.0);
    Measurement(
      Rate(|c.offsets|, planned), planned, launch, completion, Rate(|s.starts|, launch), Rate(|s.completions|, completion),
      maxLag,
      |s.starts| == |c.offsets| && s.failures == 0 && !s.interrupted && maxLag <= c.lagLimit)
  }

  lemma RateAtMost(k: nat, n: nat, window: real, planned: real)
    requires k <= n && window >= planned > 0.0
    ensures Rate(k, window) <= Rate(n, planned)
  {
    assert k as real / window <= n as real / window;
    assert n as real / window <= n as real / planned by {
      assert n as real * planned <= n as real * window;
      DivideBoth(n as real, planned, window);
    }
  }

  lemma DivideBoth(x: real, p: real, w: real)
    requires 0.0 <= x && 0.0 < p <= w
    ensures x / w <= x / p
  {
    var b := x / p;
    assert b * p == x && b >= 0.0;
    assert b * w >= b * p;
    assert x / w <= b * w / w == b;
  }

  lemma ShortfallBounded(n: nat, planned: real, launch: real, lag: real)
    requires 0.0 < planned <= launch <= planned + lag
    ensures lag >= 0.0 && Rate(n, launch) >= LeastRate(Rate(n, planned), planned, lag)
  {
    var target := Rate(n, planned);
    assert target * planned == n as real;
    assert LeastRate(target, planned, lag) == n as real / (planned + lag);
    DivideBoth(n as real, launch, planned + lag);
  }

  lemma PlannedPositive(c: Load)
    requires ValidLoad(c)
    ensures PlannedWindow(c) >= TINY > 0.0 && Spacing(c) >= 0.0
    ensures PlannedWindow(c) >= c.offsets[|c.offsets|-1] + Spacing(c)
  {
    var n := |c.offsets|;
    assert c.offsets[n-1] >= c.offsets[0] by { if n > 1 { assert c.offsets[0] <= c.offsets[n-1]; } }
    QuotientNonNegative(c.offsets[n-1] - c.offsets[0], (if n - 1 > 1 then n - 1 else 1) as real);
  }

  lemma QuotientNonNegative(x: real, d: real)
    requires x >= 0.0 && d > 0.0
    ensures x / d >= 0.0
  {
  }

  /** The rates reported are never above the target, in any run, valid or not. */
  lemma RatesAtMostTarget<T>(c: Load, actions: seq<Action<T>>)
    requires ValidLoad(c) && Run(c, actions).Some?
    ensures Recorded(c, Run(c, actions).value)
    ensures var m := Measure(c, Run(c, actions).value); m.startedRps <= m.targetRps && m.completedRps <= m.targetRps
  {
    RunSound(c, actions);
    InFlightBounded(c, actions);
    hide Run;
    var s := Run(c, actions).value;
    var m := Measure(c, s);
    PlannedPositive(c);
    RateAtMost(|s.starts|, |c.offsets|, m.launchWindow, m.plannedWindow);
    RateAtMost(|s.completions|, |c.offsets|, m.completionWindow, m.plannedWindow);
  }

  lemma StartInTime(c: Load, start: Start, maxLag: real)
    requires ValidLoad(c) && start.index < |c.offsets| && Lag(c, start) <= maxLag
    ensures start.time - c.started <= c.offsets[|c.offsets|-1] + maxLag
  {
    var n := |c.offsets| - 1;
    if start.index < n { assert c.offsets[start.index] <= c.offsets[n]; }
  }

  lemma LaunchWindow<T>(c: Load, s: State<T>)
    requires ValidLoad(c) && Recorded(c, s) && s.starts != [] && Measure(c, s).maxLag <= c.lagLimit
    ensures Measure(c, s).launchWindow <= PlannedWindow(c) + c.lagLimit
  {
    PlannedPositive(c);
    hide PlannedWindow, Spacing, Lag;
    var times, lags := Times(s.starts), Lags(c, s.starts);
    var latest := MaxOrDefault(times, c.started);
    assert latest in times by { assert times[0] in times; }
    var k :| 0 <= k < |times| && times[k] == latest;
    assert lags[k] <= MaxOrDefault(lags, 0.0) by { if k > 0 { assert lags[k] == lags[1..][k-1]; } }
    StartInTime(c, s.starts[k], c.lagLimit);
  }

  lemma MeasureFields<T>(c: Load, s: State<T>)
    requires ValidLoad(c) && Recorded(c, s)
    ensures var m := Measure(c, s);
      && m.plannedWindow == PlannedWindow(c) && m.launchWindow >= m.plannedWindow
      && m.plannedWindow > 0.0 && m.targetRps == Rate(|c.offsets|, m.plannedWindow)
      && m.startedRps == Rate(|s.starts|, m.launchWindow)
      && (m.valid ==> |s.starts| == |c.offsets| && m.maxLag <= c.lagLimit)
  {
    PlannedPositive(c);
    hide PlannedWindow, Spacing, Lag, MaxOrDefault, Rate;
  }

  lemma OfferedIn<T>(c: Load, s: State<T>)
    requires ValidLoad(c) && Recorded(c, s) && Measure(c, s).valid
    ensures var m := Measure(c, s);
            m.plannedWindow > 0.0 && m.startedRps >= LeastRate(m.targetRps, m.plannedWindow, c.lagLimit)
  {
    PlannedPositive(c);
    MeasureFields(c, s);
    assert s.starts != [];
    LaunchWindow(c, s);
    hide Measure, PlannedWindow, Spacing, Rate, LeastRate;
    ShortfallBounded(|c.offsets|, PlannedWindow(c), Measure(c, s).launchWindow, c.lagLimit);
  }

  /** A valid measurement certifies offered load: the started rate falls short of the target at
      most by the allowed lag, spread over the planned window. */
  lemma ValidLoadWasOffered<T>(c: Load, actions: seq<Action<T>>)
    requires ValidLoad(c) && Run(c, actions).Some?
    ensures Recorded(c, Run(c, actions).value)
    ensures var m := Measure(c, Run(c, actions).value);
            m.valid ==> m.plannedWindow > 0.0 && m.startedRps >= LeastRate(m.targetRps, m.plannedWindow, c.lagLimit)
  {
    RunSound(c, actions);
    hide Run, Balanced, Measure, LeastRate;
    if Measure(c, Run(c, actions).value).valid {
      OfferedIn(c, Run(c, actions).value);
    }
  }

  // ----- the results -----

  lemma {:induction false} CollectedAll<T>(outcomes: map<nat, Outcome<T>>, k: nat)
    requires forall j :: 0 <= j < k ==> j in outcomes && outcomes[j].Returned?
    ensures |Collected(outcomes, k)| == k
    ensures forall j :: 0 <= j < k ==> Collected(outcomes, k)[j] == outcomes[j].value
  {
    if k > 0 { CollectedAll(outcomes, k - 1); }
  }

  lemma NoFailures<T>(outcomes: map<nat, Outcome<T>>)
    requires |Failures(outcomes)| == 0
    ensures forall j :: j in outcomes ==> outcomes[j].Returned?
  {
    forall j | j in outcomes ensures outcomes[j].Returned? {
      assert Failures(outcomes) == {};
      assert outcomes[j].Raised? ==> j in Failures(outcomes);
    }
  }

  /** A normal return holds exactly one handler result for every event, in the order of events. */
  lemma OneResultPerEvent<T>(c: Load, actions: seq<Action<T>>)
    requires ValidLoad(c) && Run(c, actions).Some? && Run(c, actions).value.producer == Done
    ensures Recorded(c, Run(c, actions).value)
    ensures var s := Run(c, actions).value;
            Measure(c, s).valid ==>
              && |s.values| == |c.offsets|
              && forall i :: 0 <= i < |c.offsets| ==> i in s.outcomes && s.outcomes[i] == Returned(s.values[i])
  {
    RunSound(c, actions);
    Drained(c, actions);
    hide Run, Reached, Lag;
    var s := Run(c, actions).value;
    if Measure(c, s).valid {
      NoFailures(s.outcomes);
      CollectedAll(s.outcomes, s.joined);
      hide Failures, Collected;
    }
  }

  // ----- what the measurement says about the run -----

  /** The starts and completions of a run, as they happened. */
  function StartsIn<T>(actions: seq<Action<T>>): seq<Start> {
    if actions == [] then []
    else
      var a := actions[|actions|-1];
      StartsIn(actions[..|actions|-1]) + if a.Begin? then [Start(a.j, a.time)] else []
  }

  function CompletionsIn<T>(actions: seq<Action<T>>): seq<real> {
    if actions == [] then []
    else
      var a := actions[|actions|-1];
      CompletionsIn(actions[..|actions|-1]) + if a.Complete? then [a.time] else []
  }

  /** What the handlers returned or raised, by request. */
  function OutcomesIn<T>(actions: seq<Action<T>>): map<nat, Outcome<T>> {
    if actions == [] then map[]
    else
      var a := actions[|actions|-1];
      var before := OutcomesIn(actions[..|actions|-1]);
      if a.Handle? then before[a.j := a.outcome] else before
  }

  /** A keyboard interrupt, of the producer or while it waits for a result. */
  ghost predicate InterruptedIn<T(!new)>(actions: seq<Action<T>>) {
    exists i :: 0 <= i < |actions| && (actions[i].Interrupt? || actions[i] == Join(true))
  }

  lemma InterruptedLater<T(!new)>(actions: seq<Action<T>>)
    requires actions != []
    ensures var n := |actions| - 1; var a := actions[n];
            InterruptedIn(actions) <==> InterruptedIn(actions[..n]) || a.Interrupt? || a == Join(true)
  {
    var n := |actions| - 1;
    if InterruptedIn(actions[..n]) {
      var i :| 0 <= i < n && (actions[..n][i].Interrupt? || actions[..n][i] == Join(true));
      assert actions[i] == actions[..n][i];
    }
    if InterruptedIn(actions) {
      var i :| 0 <= i < |actions| && (actions[i].Interrupt? || actions[i] == Join(true));
      if i < n { assert actions[..n][i] == actions[i]; }
    }
  }

  /** The records hold every start and every completion with its time, what every handler did, and whether
      there was an interrupt, and nothing else. */
  lemma {:induction false} RecordsComplete<T(!new)>(c: Load, actions: seq<Action<T>>)
    requires Run(c, actions).Some?
    ensures Run(c, actions).value.starts == StartsIn(actions) && Run(c, actions).value.completions == CompletionsIn(actions)
    ensures Run(c, actions).value.outcomes == OutcomesIn(actions)
    ensures Run(c, actions).value.interrupted <==> InterruptedIn(actions)
  {
    if actions != [] {
      var n := |actions| - 1;
      RecordsComplete(c, actions[..n]);
      RecordsStep(c, Run(c, actions[..n]).value, actions[n]);
      InterruptedLater(actions);
      hide Apply, Enabled, InterruptedIn;
    }
  }

  lemma RecordsStep<T>(c: Load, s: State<T>, a: Action<T>)
    requires Enabled(c, s, a)
    ensures Apply(c, s, a).starts == s.starts + if a.Begin? then [Start(a.j, a.time)] else []
    ensures Apply(c, s, a).completions == s.completions + if a.Complete? then [a.time] else []
    ensures Apply(c, s, a).outcomes == if a.Handle? then s.outcomes[a.j := a.outcome] else s.outcomes
    ensures Apply(c, s, a).interrupted == (s.interrupted || a.Interrupt? || a == Join(true))
  {
    hide Lag;
  }

  /** The mean distance between two requests; nothing for a single one. */
  ghost predicate IsSpacing(c: Load, gap: real) {
    var n := |c.offsets|;
    n >= 1 && if n == 1 then gap == 0.0 else gap * (n - 1) as real == c.offsets[n-1] - c.offsets[0]
  }

  lemma SpacingExactly(c: Load, gap: real)
    requires ValidLoad(c) && IsSpacing(c, gap)
    ensures gap == Spacing(c)
  {
    var n := |c.offsets|;
    if n > 1 {
      DivideBack(gap, (n - 1) as real);
    }
  }

  lemma DivideBack(x: real, d: real)
    requires d > 0.0
    ensures x * d / d == x
  {
  }

  /** The window covers the plan and every instant, and is no longer than that. */
  ghost predicate Covers(window: real, planned: real, ends: seq<real>) {
    && window >= planned && (forall k :: 0 <= k < |ends| ==> ends[k] <= window)
    && (window == planned || exists k :: 0 <= k < |ends| && ends[k] == window)
  }

  /** The times of the starts since the beginning, each with the spacing behind it. */
  function StartEnds(c: Load, starts: seq<Start>, gap: real): (r: seq<real>)
    ensures |r| == |starts| && forall k :: 0 <= k < |r| ==> r[k] == starts[k].time - c.started + gap
  {
    seq(|starts|, k requires 0 <= k < |starts| => starts[k].time - c.started + gap)
  }

  function CompletionEnds(c: Load, completions: seq<real>): (r: seq<real>)
    ensures |r| == |completions| && forall k :: 0 <= k < |r| ==> r[k] == completions[k] - c.started
  {
    seq(|completions|, k requires 0 <= k < |completions| => completions[k] - c.started)
  }

  lemma MaxOrDefaultMeaning(times: seq<real>, floor: real)
    ensures var m := MaxOrDefault(times, floor);
            && (times == [] ==> m == floor) && (forall k :: 0 <= k < |times| ==> times[k] <= m)
            && (times != [] ==> exists k :: 0 <= k < |times| && times[k] == m)
  {
    if times != [] {
      var m := MaxOf(times[1..], times[0]);
      forall k | 0 <= k < |times| ensures times[k] <= m {
        if k > 0 { assert times[k] == times[1..][k - 1]; }
      }
      if m != times[0] {
        var i :| 0 <= i < |times[1..]| && times[1..][i] == m;
        assert times[i + 1] == m;
      }
    }
  }

  lemma WindowCovers(window: real, planned: real, times: seq<real>, started: real, gap: real, ends: seq<real>)
    requires |ends| == |times| && forall k :: 0 <= k < |ends| ==> ends[k] == times[k] - started + gap
    requires planned >= gap && window == Larger(planned, MaxOrDefault(times, started) - started + gap)
    ensures Covers(window, planned, ends)
  {
    MaxOrDefaultMeaning(times, started);
    hide MaxOrDefault;
    if times != [] {
      var k :| 0 <= k < |times| && times[k] == MaxOrDefault(times, started);
      assert ends[k] == MaxOrDefault(times, started) - started + gap;
    }
  }

  /** The largest delay behind the plan; none counts less than nothing. */
  ghost predicate IsLargestLag(c: Load, starts: seq<Start>, lag: real)
    requires forall k :: 0 <= k < |starts| ==> starts[k].index < |c.offsets|
  {
    && lag >= 0.0
    && (forall k :: 0 <= k < |starts| ==> starts[k].time - c.started - c.offsets[starts[k].index] <= lag)
    && (lag == 0.0 || exists k :: 0 <= k < |starts| && starts[k].time - c.started - c.offsets[starts[k].index] == lag)
  }

  lemma LargestLag(c: Load, starts: seq<Start>)
    requires forall k :: 0 <= k < |starts| ==> starts[k].index < |c.offsets|
    ensures IsLargestLag(c, starts, MaxOrDefault(Lags(c, starts), 0.0))
  {
    var lags := Lags(c, starts);
    MaxOrDefaultMeaning(lags, 0.0);
    var m := MaxOrDefault(lags, 0.0);
    hide MaxOrDefault, Lags;
    assert forall k :: 0 <= k < |starts| ==> lags[k] == Lag(c, starts[k]) && lags[k] <= m;
    if m != 0.0 {
      var k :| 0 <= k < |lags| && lags[k] == m;
      assert Lag(c, starts[k]) == m;
    }
  }

  /** The windows cover the plan and every recorded start or completion, and no more. */
  ghost predicate TrueWindows(c: Load, starts: seq<Start>, completions: seq<real>, gap: real, m: Measurement)
    requires c.offsets != []
  {
    var last := c.offsets[|c.offsets|-1];
    && m.plannedWindow == (if last + gap >= 0.000000001 then last + gap else 0.000000001)
    && Covers(m.launchWindow, m.plannedWindow, StartEnds(c, starts, gap))
    && Covers(m.completionWindow, m.plannedWindow, CompletionEnds(c, completions))
  }

  /** The rates are the counts over these windows. */
  ghost predicate TrueRates(planned: nat, started: nat, completed: nat, m: Measurement) {
    && m.targetRps * m.plannedWindow == planned as real
    && m.startedRps * m.launchWindow == started as real
    && m.completedRps * m.completionWindow == completed as real
  }

  /** The lag is the largest delay, and the run is valid exactly if every request was started in time and
      returned, without an interrupt. */
  ghost predicate TrueVerdict<T>(c: Load, starts: seq<Start>, interrupted: bool, outcomes: map<nat, Outcome<T>>, m: Measurement)
    requires forall k :: 0 <= k < |starts| ==> starts[k].index < |c.offsets|
  {
    && IsLargestLag(c, starts, m.maxLag)
    && (m.valid <==>
          && |starts| == |c.offsets| && !interrupted && (forall j :: j in outcomes ==> outcomes[j].Returned?)
          && forall k :: 0 <= k < |starts| ==> starts[k].time - c.started - c.offsets[starts[k].index] <= c.lagLimit)
  }

  /** The measurement of any run, in terms of what happened in it. */
  lemma MeasuresTheRun<T(!new)>(c: Load, actions: seq<Action<T>>, gap: real)
    requires ValidLoad(c) && Run(c, actions).Some? && IsSpacing(c, gap)
    ensures Recorded(c, Run(c, actions).value)
    ensures forall k :: 0 <= k < |StartsIn(actions)| ==> StartsIn(actions)[k].index < |c.offsets|
    ensures var s := Run(c, actions).value; var m := Measure(c, s);
      && TrueWindows(c, StartsIn(actions), CompletionsIn(actions), gap, m)
      && TrueRates(|c.offsets|, |StartsIn(actions)|, |CompletionsIn(actions)|, m)
      && TrueVerdict(c, StartsIn(actions), InterruptedIn(actions), OutcomesIn(actions), m)
  {
    RunSound(c, actions);
    hide *;
    RecordsComplete(c, actions);
    SpacingExactly(c, gap);
    SoundParts(c, Run(c, actions).value);
    WindowsTrue(c, Run(c, actions).value);
    RatesTrue(c, Run(c, actions).value);
    VerdictTrue(c, Run(c, actions).value);
  }

  lemma SoundParts<T>(c: Load, s: State<T>)
    requires Sound(c, s)
    ensures Recorded(c, s) && forall k :: 0 <= k < |s.starts| ==> s.starts[k].index < |c.offsets|
  {
  }

  lemma WindowsTrue<T>(c: Load, s: State<T>)
    requires ValidLoad(c) && Recorded(c, s)
    ensures c.offsets != [] && TrueWindows(c, s.starts, s.completions, Spacing(c), Measure(c, s))
  {
    PlannedPositive(c);
    var m := Measure(c, s);
    var gap := Spacing(c);
    assert m.plannedWindow >= gap;
    assert m.launchWindow == Larger(m.plannedWindow, MaxOrDefault(Times(s.starts), c.started) - c.started + gap);
    assert m.completionWindow == Larger(m.plannedWindow, MaxOrDefault(s.completions, c.started) - c.started + 0.0);
    hide Spacing, MaxOrDefault, Covers, Measure, Larger, Recorded;
    WindowCovers(m.launchWindow, m.plannedWindow, Times(s.starts), c.started, gap, StartEnds(c, s.starts, gap));
    WindowCovers(m.completionWindow, m.plannedWindow, s.completions, c.started, 0.0, CompletionEnds(c, s.completions));
  }

  lemma RateFields<T>(c: Load, s: State<T>)
    requires ValidLoad(c) && Recorded(c, s)
    ensures var m := Measure(c, s);
      && m.plannedWindow > 0.0 && m.launchWindow > 0.0 && m.completionWindow > 0.0
      && m.targetRps == Rate(|c.offsets|, m.plannedWindow)
      && m.startedRps == Rate(|s.starts|, m.launchWindow)
      && m.completedRps == Rate(|s.completions|, m.completionWindow)
  {
    hide PlannedWindow, Spacing, Lag, MaxOrDefault, Rate, Collected, Failures;
    PlannedPositive(c);
  }

  lemma RatesTrue<T>(c: Load, s: State<T>)
    requires ValidLoad(c) && Recorded(c, s)
    ensures TrueRates(|c.offsets|, |s.starts|, |s.completions|, Measure(c, s))
  {
    hide TrueRates, Rate, PlannedWindow, Spacing, Lag, MaxOrDefault, Collected, Failures;
    RateFields(c, s);
    var m := Measure(c, s);
    hide Measure, Recorded;
    RateTimes(|c.offsets|, m.plannedWindow);
    RateTimes(|s.starts|, m.launchWindow);
    RateTimes(|s.completions|, m.completionWindow);
    RatesMeet(|c.offsets|, |s.starts|, |s.completions|, m);
  }

  lemma RatesMeet(planned: nat, started: nat, completed: nat, m: Measurement)
    requires m.targetRps * m.plannedWindow == planned as real
    requires m.startedRps * m.launchWindow == started as real
    requires m.completedRps * m.completionWindow == completed as real
    ensures TrueRates(planned, started, completed, m)
  {
  }

  lemma VerdictTrue<T>(c: Load, s: State<T>)
    requires ValidLoad(c) && Recorded(c, s)
    ensures forall k :: 0 <= k < |s.starts| ==> s.starts[k].index < |c.offsets|
    ensures TrueVerdict(c, s.starts, s.interrupted, s.outcomes, Measure(c, s))
  {
    LargestLag(c, s.starts);
    NoFailuresExactly(s.outcomes);
    hide Spacing, MaxOrDefault, Rate, PlannedWindow, Lags, Failures, Larger, Collected;
    var m := Measure(c, s);
    assert m.maxLag == MaxOrDefault(Lags(c, s.starts), 0.0);
  }

  lemma RateTimes(n: nat, window: real)
    requires window > 0.0
    ensures Rate(n, window) * window == n as real
  {
  }

  lemma NoFailuresExactly<T>(outcomes: map<nat, Outcome<T>>)
    ensures |Failures(outcomes)| == 0 <==> forall j :: j in outcomes ==> outcomes[j].Returned?
  {
    if |Failures(outcomes)| == 0 {
      NoFailures(outcomes);
    }
    if forall j :: j in outcomes ==> outcomes[j].Returned? {
      assert Failures(outcomes) == {};
    }
  }

  // ----- requests in flight, and when the producer gives up -----

  /** Requests counted in and not yet counted out, by the steps of the run. */
  function InFlightAfter<T>(actions: seq<Action<T>>): int {
    if actions == [] then 0
    else
      var a := actions[|actions|-1];
      InFlightAfter(actions[..|actions|-1])
      + (if a.Count? || (a.Interrupt? && a.counted) then 1 else if a.Complete? then -1 else 0)
  }

  /** The state after the first `i` steps. */
  lemma {:induction false} RunPrefix<T>(c: Load, actions: seq<Action<T>>, i: nat)
    requires Run(c, actions).Some? && i <= |actions|
    ensures Run(c, actions[..i]).Some?
    ensures i < |actions| ==> Enabled(c, Run(c, actions[..i]).value, actions[i])
    decreases |actions|
  {
    hide Enabled, Apply;
    if i == |actions| {
      assert actions[..i] == actions;
    } else {
      var n := |actions| - 1;
      if i < n {
        RunPrefix(c, actions[..n], i);
      }
      assert actions[..n][..i] == actions[..i];
    }
  }

  lemma {:induction false} InFlightTallied<T>(c: Load, actions: seq<Action<T>>)
    requires ValidLoad(c) && Run(c, actions).Some?
    ensures Run(c, actions).value.inFlight == InFlightAfter(actions) <= Run(c, actions).value.peak + Run(c, actions).value.stray
    decreases |actions|
  {
    if actions == [] {
      return;
    }
    hide *;
    var n := |actions| - 1;
    var before := RunStep(c, actions);
    InFlightTallied(c, before);
    RunSound(c, before);
    PeakStep(c, Run(c, before).value, actions[n]);
    InFlightNext(actions);
  }

  /** Without an interrupt there are never more requests in flight than the reported peak; an interrupt
      can count one in before the peak is updated. */
  lemma {:induction false} NeverAbovePeak<T>(c: Load, actions: seq<Action<T>>, i: nat)
    requires ValidLoad(c) && Run(c, actions).Some? && i <= |actions|
    ensures InFlightAfter(actions[..i]) <= Run(c, actions).value.peak + Run(c, actions).value.stray
    decreases |actions|
  {
    hide *;
    InFlightTallied(c, actions);
    if i == |actions| {
      PrefixOfPrefix(actions, i, i);
    } else {
      var n := |actions| - 1;
      var before := RunStep(c, actions);
      NeverAbovePeak(c, before, i);
      InFlightTallied(c, before);
      RunSound(c, before);
      PeakStep(c, Run(c, before).value, actions[n]);
      PrefixOfPrefix(actions, n, i);
    }
  }

  /** And the reported peak was reached. */
  lemma {:induction false} PeakReached<T>(c: Load, actions: seq<Action<T>>) returns (i: nat)
    requires ValidLoad(c) && Run(c, actions).Some?
    ensures i <= |actions| && InFlightAfter(actions[..i]) == Run(c, actions).value.peak
    decreases |actions|
  {
    i := |actions|;
    PrefixOfPrefix(actions, i, i);
    if actions != [] {
      hide *;
      var n := |actions| - 1;
      var before := RunStep(c, actions);
      InFlightTallied(c, before);
      InFlightTallied(c, actions);
      RunSound(c, before);
      PeakStep(c, Run(c, before).value, actions[n]);
      if Run(c, actions).value.peak != Run(c, actions).value.inFlight {
        i := PeakReached(c, before);
        PrefixOfPrefix(actions, n, i);
      }
    }
  }

  lemma PrefixOfPrefix<T>(s: seq<T>, n: nat, i: nat)
    requires n <= |s| && i <= |s|
    ensures i <= n ==> s[..n][..i] == s[..i]
    ensures s[..|s|] == s
  {
  }

  lemma RunStep<T>(c: Load, actions: seq<Action<T>>) returns (before: seq<Action<T>>)
    requires actions != [] && Run(c, actions).Some?
    ensures var n := |actions| - 1; var s := Run(c, actions[..n]);
            && before == actions[..n] && s.Some? && Enabled(c, s.value, actions[n])
            && Run(c, actions).value == Apply(c, s.value, actions[n])
  {
    before := actions[..|actions| - 1];
    hide Apply, Enabled;
  }

  lemma InFlightNext<T>(actions: seq<Action<T>>)
    requires actions != []
    ensures var n := |actions| - 1; var a := actions[n];
            InFlightAfter(actions) == InFlightAfter(actions[..n])
            + (if a.Count? || (a.Interrupt? && a.counted) then 1 else if a.Complete? then -1 else 0)
  {
  }

  lemma PeakStep<T>(c: Load, s: State<T>, a: Action<T>)
    requires Enabled(c, s, a) && s.inFlight <= s.peak + s.stray && Sound(c, s)
    ensures var t := Apply(c, s, a);
      && t.inFlight == s.inFlight + (if a.Count? || (a.Interrupt? && a.counted) then 1 else if a.Complete? then -1 else 0)
      && t.inFlight <= t.peak + t.stray && s.peak <= t.peak && s.stray <= t.stray
      && (t.peak == s.peak || t.peak == t.inFlight)
  {
    hide Lag, Reached, Recorded;
  }

  /** Submitted requests, and the one that the producer has let through. */
  function Admitted<T>(s: State<T>): nat {
    |s.slots| + if s.producer == Checked || s.producer == Holding || s.producer == Counted then 1 else 0
  }

  /** Once a start has been late, at most the request already let through is submitted. */
  lemma {:induction false} LateStops<T>(c: Load, actions: seq<Action<T>>, i: nat)
    requires ValidLoad(c) && Run(c, actions).Some? && i <= |actions|
    requires Run(c, actions[..i]).Some? && Run(c, actions[..i]).value.late
    ensures Run(c, actions).value.late
    ensures |Run(c, actions).value.slots| <= Admitted(Run(c, actions).value) <= Admitted(Run(c, actions[..i]).value)
    decreases |actions|
  {
    hide *;
    AdmittedAtLeast(Run(c, actions).value);
    PrefixOfPrefix(actions, if actions == [] then 0 else |actions| - 1, i);
    if i < |actions| {
      var n := |actions| - 1;
      var before := RunStep(c, actions);
      LateStops(c, before, i);
      AdmittedStep(c, Run(c, before).value, actions[n]);
    }
  }

  lemma AdmittedAtLeast<T>(s: State<T>)
    ensures |s.slots| <= Admitted(s) <= |s.slots| + 1
  {
  }

  lemma AdmittedStep<T>(c: Load, s: State<T>, a: Action<T>)
    requires Enabled(c, s, a) && s.late
    ensures Apply(c, s, a).late && Admitted(Apply(c, s, a)) <= Admitted(s)
  {
    hide Lag;
  }

  /** A reason for the producer to stop submitting: a late start, or no free worker. */
  ghost predicate GivesUpAt<T(!new)>(c: Load, actions: seq<Action<T>>, i: int) {
    && 0 <= i < |actions|
    && var s := Run(c, actions[..i]);
    && s.Some? && ((actions[i] == CheckLate && s.value.late) || (actions[i] == Acquire && s.value.permits == 0))
  }

  /** Without an interrupt the producer leaves out requests only for such a reason. */
  lemma {:induction false} StopsOnlyFor<T(!new)>(c: Load, actions: seq<Action<T>>)
    requires ValidLoad(c) && Run(c, actions).Some?
    ensures Stopped(c, Run(c, actions).value) ==> exists i :: GivesUpAt(c, actions, i)
  {
    if actions != [] && Stopped(c, Run(c, actions).value) {
      hide *;
      var n := |actions| - 1;
      var before := RunStep(c, actions);
      RunSound(c, before);
      StopStep(c, Run(c, before).value, actions[n]);
      if Stopped(c, Run(c, before).value) {
        StopsOnlyFor(c, before);
        var i :| GivesUpAt(c, before, i);
        GaveUpEarlier(c, actions, n, i);
      } else {
        GivesUpNow(c, actions);
      }
    }
  }

  lemma GaveUpEarlier<T(!new)>(c: Load, actions: seq<Action<T>>, n: nat, i: int)
    requires n <= |actions| && GivesUpAt(c, actions[..n], i)
    ensures GivesUpAt(c, actions, i)
  {
    PrefixOfPrefix(actions, n, i);
    hide Run;
  }

  lemma GivesUpNow<T(!new)>(c: Load, actions: seq<Action<T>>)
    requires actions != [] && Run(c, actions[..|actions| - 1]).Some?
    requires var n := |actions| - 1; var s := Run(c, actions[..n]).value;
             (actions[n] == CheckLate && s.late) || (actions[n] == Acquire && s.permits == 0)
    ensures GivesUpAt(c, actions, |actions| - 1)
  {
    hide Run;
  }

  /** The producer is through although there are requests left, and not because of an interrupt. */
  predicate Stopped<T>(c: Load, s: State<T>) {
    (s.producer == Joining || s.producer == Done) && !s.interrupted && |s.slots| < |c.offsets|
  }

  lemma StopStep<T>(c: Load, s: State<T>, a: Action<T>)
    requires Enabled(c, s, a) && Sound(c, s)
    ensures Stopped(c, Apply(c, s, a)) && !Stopped(c, s) ==> (a == CheckLate && s.late) || (a == Acquire && s.permits == 0)
  {
    hide Lag, Reached, Recorded;
  }
}
