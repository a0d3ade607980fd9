/** The backend lifecycle manager as a transition system.  Every block the program
    runs under its lock is one atomic event; docker, health and log answers are
    chosen freely by the environment.  Live worker threads are a list, so that
    "at most one worker" is a theorem and not a modelling choice. */
module BackendLifecycle {

  datatype Phase =
    | Disabled | Idle | StartRequested | Starting | Running | Healthy | Failed | Stopping | Stopped | Unknown

  /** Where a live worker thread stands between two locked blocks. */
  datatype Worker =
    | Probing      // start: about to ask whether a container is already up
    | Launching    // start: container being run
    | Waiting      // start: health-check loop
    | Checking     // start: GPU verification
    | Failing      // start: an exception is on its way to the handler
    | Finishing    // start: only the finally block is left
    | StopWorking  // stop: docker stop and rm

  datatype Manager = Manager(
    phase: Phase,
    busy: bool,
    autostart: bool,
    healthOk: bool,
    containerRunning: bool,
    workers: seq<Worker>,
    delayed: nat)            // autostart threads still sleeping

  datatype Event =
    | Start
    | Stop
    | BeginAutostart
    | DelayElapsed
    | RuntimeFailure
    | Step(worker: nat, ok: bool, raised: bool)

  predicate RunningPhase(p: Phase) {
    p in {StartRequested, Starting, Running, Healthy}
  }

  const STARTABLE_PHASES: set<Phase> := {Idle, Failed, Stopped, Unknown}

  function Initial(autostart: bool): Manager {
    Manager(if autostart then Idle else Disabled, false, autostart, false, false, [], 0)
  }

  /** The test of start(), in the program's own terms. */
  predicate StartAccepted(m: Manager) {
    m.phase != Disabled && !RunningPhase(m.phase) && !m.busy
  }

  /** The test of stop(), in the program's own terms. */
  predicate StopAccepted(m: Manager) {
    m.phase != Disabled && m.phase !in {Stopping, Stopped, Idle} && !m.busy
  }

  function Without(workers: seq<Worker>, i: nat): seq<Worker>
    requires i < |workers|
  {
    workers[..i] + workers[i + 1..]
  }

  function Launch(m: Manager, phase: Phase, w: Worker): Manager {
    m.(busy := true, phase := phase, workers := m.workers + [w])
  }

  /** One locked block of worker i: ok is the answer it got from outside, raised says
      that the code in between threw instead. */
  function Advance(m: Manager, i: nat, ok: bool, raised: bool): Manager
    requires i < |m.workers|
  {
    match m.workers[i]
    case Probing =>
      if raised then m.(workers := m.workers[i := Failing])
      else if ok then m.(phase := Running, containerRunning := true, workers := m.workers[i := Checking])
      else m.(phase := Starting, workers := m.workers[i := Launching])
    case Launching =>
      if raised || !ok then m.(workers := m.workers[i := Failing])
      else m.(phase := Running, containerRunning := true, workers := m.workers[i := Waiting])
    case Waiting =>
      if raised || !ok then m.(workers := m.workers[i := Failing])
      else m.(workers := m.workers[i := Checking])
    case Checking =>
      if raised then m.(workers := m.workers[i := Failing])
      else if ok then m.(phase := Healthy, healthOk := true, workers := m.workers[i := Finishing])
      else m.(phase := Failed, healthOk := false, workers := m.workers[i := Finishing])
    case Failing =>
      m.(phase := Failed, containerRunning := false, healthOk := false, workers := m.workers[i := Finishing])
    case Finishing =>
      m.(busy := false, workers := Without(m.workers, i))
    case StopWorking =>
      m.(phase := Stopped, containerRunning := false, healthOk := false, busy := false,
         workers := Without(m.workers, i))
  }

  function Apply(m: Manager, e: Event): Manager {
    match e
    case Start => if StartAccepted(m) then Launch(m, StartRequested, Probing) else m
    case Stop => if StopAccepted(m) then Launch(m, Stopping, StopWorking) else m
    case BeginAutostart => if m.phase != Idle || !m.autostart then m else m.(delayed := m.delayed + 1)
    case DelayElapsed =>
      if m.delayed == 0 then m
      else
        var m' := m.(delayed := m.delayed - 1);
        if m.phase != Idle || m.busy then m' else Launch(m', StartRequested, Probing)
    case RuntimeFailure => m.(phase := Failed, healthOk := false, containerRunning := false)
    case Step(i, ok, raised) => if i < |m.workers| then Advance(m, i, ok, raised) else m
  }

  function Run(m: Manager, es: seq<Event>): Manager
    decreases |es|
  {
    if es == [] then m else Run(Apply(m, es[0]), es[1..])
  }

  lemma {:induction false} RunAppend(m: Manager, es: seq<Event>, fs: seq<Event>)
    ensures Run(m, es + fs) == Run(Run(m, es), fs)
    decreases |es|
  {
    if es == [] {
      assert es + fs == fs;
    } else {
      assert (es + fs)[1..] == es[1..] + fs;
      RunAppend(Apply(m, es[0]), es[1..], fs);
    }
  }

  // ---------------------------------------------------------------------------
  // Mutual exclusion
  // ---------------------------------------------------------------------------

  /** Phases a worker can be in the middle of; a runtime failure may be reported at
      any time. */
  predicate Fits(w: Worker, p: Phase) {
    p == Failed ||
    match w
    case Probing => p == StartRequested
    case Launching => p == Starting
    case Waiting => p == Running
    case Checking => p == Running
    case Failing => p in {StartRequested, Starting, Running}
    case Finishing => p == Healthy
    case StopWorking => p == Stopping
  }

  predicate Invariant(m: Manager) {
    && |m.workers| == (if m.busy then 1 else 0)
    && (m.phase in {StartRequested, Starting, Running, Stopping} ==> m.busy)
    && (m.busy ==> Fits(m.workers[0], m.phase))
    && m.phase != Unknown
    && (m.phase == Healthy ==> m.healthOk)
    && (m.healthOk ==> m.phase in {Healthy, Stopping})
  }

  lemma AdvanceKeepsInvariant(m: Manager, i: nat, ok: bool, raised: bool)
    requires Invariant(m) && i < |m.workers|
    ensures Invariant(Advance(m, i, ok, raised))
  {
    assert i == 0 && m.workers == [m.workers[0]];
  }

  lemma ApplyKeepsInvariant(m: Manager, e: Event)
    requires Invariant(m)
    ensures Invariant(Apply(m, e))
  {
    if e.Step? && e.worker < |m.workers| {
      AdvanceKeepsInvariant(m, e.worker, e.ok, e.raised);
    }
  }

  /** In every interleaving of requests, delayed autostarts, failure reports and
      worker steps: at most one worker lives, the busy flag holds exactly while it
      does, a transitional phase implies it, and the health flag agrees with the
      phase. */
  lemma {:induction false} EveryRunKeepsInvariant(m: Manager, es: seq<Event>)
    requires Invariant(m)
    ensures Invariant(Run(m, es))
    decreases |es|
  {
    if es != [] {
      ApplyKeepsInvariant(m, es[0]);
      EveryRunKeepsInvariant(Apply(m, es[0]), es[1..]);
    }
  }

  /** start() is accepted exactly from the declared startable phases when idle, and
      stop() exactly from a healthy or failed idle backend, although the code tests
      other sets. */
  lemma AcceptanceSets(autostart: bool, es: seq<Event>)
    ensures var m := Run(Initial(autostart), es);
            (StartAccepted(m) <==> m.phase in STARTABLE_PHASES && !m.busy) &&
            (StopAccepted(m) <==> m.phase in {Healthy, Failed} && !m.busy)
  {
    EveryRunKeepsInvariant(Initial(autostart), es);
  }

  // ---------------------------------------------------------------------------
  // Workers end
  // ---------------------------------------------------------------------------

  /** Locked blocks a worker can still run. */
  function Remaining(w: Worker): nat {
    match w
    case Probing => 6
    case Launching => 5
    case Waiting => 4
    case Checking => 3
    case Failing => 2
    case Finishing => 1
    case StopWorking => 1
  }

  function Potential(m: Manager): nat {
    if m.workers == [] then 0 else Remaining(m.workers[0])
  }

  predicate Advances(m: Manager, e: Event) {
    e.Step? && e.worker < |m.workers|
  }

  predicate IsLaunch(m: Manager, e: Event) {
    !m.busy && Apply(m, e).busy
  }

  lemma EventPays(m: Manager, e: Event)
    requires Invariant(m)
    ensures (if Advances(m, e) then 1 else 0) + Potential(Apply(m, e)) <=
            Potential(m) + (if IsLaunch(m, e) then 6 else 0)
  {
    if e.Step? {
      assert Advances(m, e) ==> m.workers == [m.workers[0]];
    }
  }

  /** Events that advance a live worker in the run from m. */
  function StepsTaken(m: Manager, es: seq<Event>): nat
    decreases |es|
  {
    if es == [] then 0 else (if Advances(m, es[0]) then 1 else 0) + StepsTaken(Apply(m, es[0]), es[1..])
  }

  /** Requests and autostarts that launched a worker in the run from m. */
  function Launches(m: Manager, es: seq<Event>): nat
    decreases |es|
  {
    if es == [] then 0 else (if IsLaunch(m, es[0]) then 1 else 0) + Launches(Apply(m, es[0]), es[1..])
  }

  /** However the environment answers, launches pay for all worker steps at six each:
      no worker runs on, and a busy flag cannot outlive six steps of its worker. */
  lemma {:induction false} LaunchesPayForSteps(m: Manager, es: seq<Event>)
    requires Invariant(m)
    ensures StepsTaken(m, es) + Potential(Run(m, es)) <= Potential(m) + 6 * Launches(m, es)
    decreases |es|
  {
    if es != [] {
      ApplyKeepsInvariant(m, es[0]);
      EventPays(m, es[0]);
      LaunchesPayForSteps(Apply(m, es[0]), es[1..]);
    }
  }

  /** A worker that is given six steps has released the busy flag in between, whatever
      else happened meanwhile. */
  lemma BusyIsReleased(m: Manager, es: seq<Event>)
    requires Invariant(m) && m.busy && StepsTaken(m, es) >= 6
    ensures Launches(m, es) > 0 || !Run(m, es).busy
  {
    LaunchesPayForSteps(m, es);
    EveryRunKeepsInvariant(m, es);
  }

  // ---------------------------------------------------------------------------
  // What a runtime-failure report can do
  // ---------------------------------------------------------------------------

  predicate NoFailureReport(es: seq<Event>) {
    forall e :: e in es ==> e != RuntimeFailure
  }

  lemma {:induction false} NeverDisabledAgain(m: Manager, es: seq<Event>)
    requires m.phase != Disabled
    ensures Run(m, es).phase != Disabled
    decreases |es|
  {
    if es != [] {
      NeverDisabledAgain(Apply(m, es[0]), es[1..]);
    }
  }

  /** A manager created with autostart off stays as it is exactly as long as no
      runtime failure is reported. */
  lemma {:induction false} DisabledStaysDisabled(es: seq<Event>)
    ensures NoFailureReport(es) <==> Run(Initial(false), es) == Initial(false)
    decreases |es|
  {
    if es != [] {
      if es[0] == RuntimeFailure {
        assert es[0] in es;
        NeverDisabledAgain(Apply(Initial(false), es[0]), es[1..]);
      } else {
        DisabledStaysDisabled(es[1..]);
        assert forall e :: e in es <==> e == es[0] || e in es[1..];
      }
    }
  }

  /** A reported failure turns the disabled backend into a failed one, and start()
      accepts a failed one. */
  lemma FailureReportEnables()
    ensures StartAccepted(Run(Initial(false), [RuntimeFailure]))
    ensures Run(Initial(false), [RuntimeFailure, Start]).workers == [Probing]
  {
    assert [RuntimeFailure, Start][1..] == [Start];
    assert Run(Apply(Initial(false), RuntimeFailure), [Start]) ==
           Apply(Apply(Initial(false), RuntimeFailure), Start);
  }

  /** The worker in front has marked the container as running and is still checking. */
  predicate InChecks(m: Manager) {
    m.workers != [] && m.workers[0] in {Waiting, Checking}
  }

  /** Whether a failure report has hit the worker since it last marked the container as
      running: reports during the checks set this, a new start and a new container
      clear it. */
  function HitAfter(m: Manager, hit: bool, e: Event): bool {
    if e == RuntimeFailure then hit || InChecks(m)
    else if Advances(m, e) && m.workers[e.worker] in {Probing, Launching} then false
    else hit
  }

  /** The checks end in success although a report has hit them. */
  predicate OverridesReport(m: Manager, hit: bool, e: Event) {
    hit && Advances(m, e) && m.workers[e.worker] == Checking && e.ok && !e.raised
  }

  predicate NoReportOverridden(m: Manager, hit: bool, es: seq<Event>)
    decreases |es|
  {
    es == [] || (!OverridesReport(m, hit, es[0]) && NoReportOverridden(Apply(m, es[0]), HitAfter(m, hit, es[0]), es[1..]))
  }

  /** A healthy backend is reported with a running container. */
  predicate Honest(m: Manager) {
    m.phase == Healthy ==> m.containerRunning
  }

  predicate AlwaysHonest(m: Manager, es: seq<Event>)
    decreases |es|
  {
    Honest(m) && (es == [] || AlwaysHonest(Apply(m, es[0]), es[1..]))
  }

  predicate Tracks(m: Manager, hit: bool) {
    InChecks(m) ==> m.containerRunning == !hit
  }

  /** The one event that leaves a healthy backend without a running container is a
      success of the checks that overrides a report. */
  lemma OnlyOverridingBreaksHonesty(m: Manager, hit: bool, e: Event)
    requires Invariant(m) && Honest(m) && Tracks(m, hit)
    ensures Honest(Apply(m, e)) <==> !OverridesReport(m, hit, e)
    ensures Tracks(Apply(m, e), HitAfter(m, hit, e))
  {
    if e.Step? {
      assert e.worker < |m.workers| ==> m.workers == [m.workers[0]];
    }
  }

  /** Over any run, a healthy backend is at every moment reported with a running
      container if and only if no success of the checks overrides a failure report that
      hit them after the container was marked as running. */
  lemma {:induction false} HonestIffNoReportOverridden(m: Manager, hit: bool, es: seq<Event>)
    requires Invariant(m) && Honest(m) && Tracks(m, hit)
    ensures AlwaysHonest(m, es) <==> NoReportOverridden(m, hit, es)
    decreases |es|
  {
    if es != [] {
      ApplyKeepsInvariant(m, es[0]);
      OnlyOverridingBreaksHonesty(m, hit, es[0]);
      if !OverridesReport(m, hit, es[0]) {
        HonestIffNoReportOverridden(Apply(m, es[0]), HitAfter(m, hit, es[0]), es[1..]);
      }
    }
  }

  /** From the start of the program. */
  lemma HealthyHasContainer(autostart: bool, es: seq<Event>)
    ensures AlwaysHonest(Initial(autostart), es) <==> NoReportOverridden(Initial(autostart), false, es)
  {
    HonestIffNoReportOverridden(Initial(autostart), false, es);
  }

  /** A report during the checks is overwritten by their success, which leaves a healthy
      backend whose container is reported as not running. */
  lemma ReportDuringStartIsLost()
    ensures var m := Run(Initial(true), [Start, Step(0, true, false), RuntimeFailure, Step(0, true, false)]);
            m.phase == Healthy && m.healthOk && !m.containerRunning
  {
    var a := Apply(Initial(true), Start);
    var b := Apply(a, Step(0, true, false));
    var c := Apply(b, RuntimeFailure);
    var d := Apply(c, Step(0, true, false));
    var es := [Start, Step(0, true, false), RuntimeFailure, Step(0, true, false)];
    assert es[1..][1..][1..][1..] == [];
    assert Run(d, []) == d;
    assert Run(c, es[3..]) == d;
    assert es[2..][1..] == es[3..];
    assert Run(b, es[2..]) == Run(c, es[3..]);
    assert es[1..][1..] == es[2..];
    assert Run(a, es[1..]) == Run(b, es[2..]);
  }
}
