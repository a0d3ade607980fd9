/** What becomes of a start worker, read off the answers it gets from docker, the health
    endpoint and the checks, whatever else happens meanwhile. */
module BackendOutcomes {
  import opened BackendLifecycle

  /** One answer to the worker: yes or no, or an exception instead. */
  datatype Answer = Answer(ok: bool, raised: bool)

  const YES := Answer(true, false)
  const NO := Answer(false, false)

  /** The answers to the worker in a stretch of events. */
  function Answers(es: seq<Event>): seq<Answer> {
    if es == [] then []
    else if es[0].Step? && es[0].worker == 0 then [Answer(es[0].ok, es[0].raised)] + Answers(es[1..])
    else Answers(es[1..])
  }

  /** At some moment of the run the backend becomes healthy. */
  predicate BecomesHealthy(m: Manager, es: seq<Event>)
    decreases |es|
  {
    es != [] &&
    ((m.phase != Healthy && Apply(m, es[0]).phase == Healthy) || BecomesHealthy(Apply(m, es[0]), es[1..]))
  }

  predicate NoLaunch(m: Manager, es: seq<Event>)
    decreases |es|
  {
    es == [] || (!IsLaunch(m, es[0]) && NoLaunch(Apply(m, es[0]), es[1..]))
  }

  /** The answers by which a worker at this place makes the backend healthy. */
  predicate Succeeds(w: Worker, answers: seq<Answer>) {
    match w
    case Probing => [YES, YES] <= answers || [NO, YES, YES, YES] <= answers
    case Launching => [YES, YES, YES] <= answers
    case Waiting => [YES, YES] <= answers
    case Checking => [YES] <= answers
    case _ => false
  }

  lemma SucceedsNext(w: Worker, a: Answer, rest: seq<Answer>)
    ensures Succeeds(w, [a] + rest) <==>
            match w
            case Probing => !a.raised && Succeeds(if a.ok then Checking else Launching, rest)
            case Launching => a == YES && Succeeds(Waiting, rest)
            case Waiting => a == YES && Succeeds(Checking, rest)
            case Checking => a == YES
            case _ => false
  {
    assert forall p: seq<Answer>, b :: [b] + p <= [a] + rest <==> a == b && p <= rest by {
      forall p: seq<Answer>, b ensures [b] + p <= [a] + rest <==> a == b && p <= rest {
        PrefixNext(b, p, a, rest);
      }
    }
    assert [YES, YES] == [YES] + [YES] && [NO, YES, YES, YES] == [NO] + [YES, YES, YES];
    assert [YES, YES, YES] == [YES] + [YES, YES] && [YES] == [YES] + [];
  }

  lemma PrefixNext(b: Answer, p: seq<Answer>, a: Answer, rest: seq<Answer>)
    ensures [b] + p <= [a] + rest <==> a == b && p <= rest
  {
    if [b] + p <= [a] + rest {
      assert ([b] + p)[0] == ([a] + rest)[0];
      assert ([a] + rest)[1..] == rest && ([b] + p)[1..] == p;
      assert ([a] + rest)[..|p| + 1] == [b] + p;
      assert rest[..|p|] == p;
    }
    if a == b && p <= rest {
      assert ([a] + rest)[..|p| + 1] == [b] + p;
    }
  }

  /** Until something else is launched, only the worker's answers matter. */
  lemma {:induction false} HealthyIffSucceeds(m: Manager, es: seq<Event>)
    requires Invariant(m) && NoLaunch(m, es)
    ensures BecomesHealthy(m, es) <==> m.workers != [] && Succeeds(m.workers[0], Answers(es))
    decreases |es|
  {
    if es != [] {
      var e, m' := es[0], Apply(m, es[0]);
      ApplyKeepsInvariant(m, e);
      HealthyIffSucceeds(m', es[1..]);
      if m.workers != [] && e.Step? && e.worker == 0 {
        assert m.workers == [m.workers[0]];
        SucceedsNext(m.workers[0], Answer(e.ok, e.raised), Answers(es[1..]));
      }
    }
  }

  /** A start worker, launched by a request or by the delayed autostart, brings the backend
      to healthy if and only if its answers are yes, yes (reconnected, checks passed) or
      no, yes, yes, yes (launched, became healthy, checks passed). */
  lemma StartSucceedsIff(m: Manager, launch: Event, es: seq<Event>)
    requires Invariant(m) && (launch == Start || launch == DelayElapsed) && IsLaunch(m, launch)
    requires NoLaunch(Apply(m, launch), es)
    ensures BecomesHealthy(Apply(m, launch), es) <==>
            [YES, YES] <= Answers(es) || [NO, YES, YES, YES] <= Answers(es)
  {
    ApplyKeepsInvariant(m, launch);
    assert Apply(m, launch).workers == [] + [Probing];
    HealthyIffSucceeds(Apply(m, launch), es);
  }

  /** A stop worker never does. */
  lemma StopNeverSucceeds(m: Manager, es: seq<Event>)
    requires Invariant(m) && IsLaunch(m, Stop) && NoLaunch(Apply(m, Stop), es)
    ensures !BecomesHealthy(Apply(m, Stop), es)
  {
    ApplyKeepsInvariant(m, Stop);
    assert Apply(m, Stop).workers == [] + [StopWorking];
    HealthyIffSucceeds(Apply(m, Stop), es);
  }

  /** The container was marked as running, and no exception came after that. */
  predicate ReachesVerdict(w: Worker, answers: seq<Answer>) {
    match w
    case Probing =>
      (|answers| >= 2 && answers[0] == YES && !answers[1].raised) ||
      (|answers| >= 4 && answers[0] == NO && answers[1] == YES && answers[2] == YES && !answers[3].raised)
    case Launching => |answers| >= 3 && answers[0] == YES && answers[1] == YES && !answers[2].raised
    case Waiting => |answers| >= 2 && answers[0] == YES && !answers[1].raised
    case Checking => |answers| >= 1 && !answers[0].raised
    case _ => false
  }

  lemma VerdictNext(w: Worker, a: Answer, rest: seq<Answer>)
    ensures ReachesVerdict(w, [a] + rest) <==>
            match w
            case Probing => !a.raised && ReachesVerdict(if a.ok then Checking else Launching, rest)
            case Launching => a == YES && ReachesVerdict(Waiting, rest)
            case Waiting => a == YES && ReachesVerdict(Checking, rest)
            case Checking => !a.raised
            case _ => false
  {
  }

  /** While a worker lives nothing but its steps and failure reports changes anything. */
  lemma OthersWait(m: Manager, e: Event)
    requires Invariant(m) && m.busy && e != RuntimeFailure && !(e.Step? && e.worker == 0)
    ensures Apply(m, e) == m.(delayed := Apply(m, e).delayed)
  {
  }

  /** What a start worker leaves once it has ended, with no failure reported meanwhile: a
      healthy or a failed backend, and a container reported as running exactly when the
      checks came to a verdict. */
  lemma {:induction false} StartLeaves(m: Manager, es: seq<Event>)
    requires Invariant(m) && NoLaunch(m, es) && NoFailureReport(es)
    requires m.workers != [] && m.workers[0] in {Probing, Launching, Waiting, Checking, Failing}
    requires m.workers[0] in {Waiting, Checking} ==> m.containerRunning
    requires Run(m, es).workers == []
    ensures var m', w, answers := Run(m, es), m.workers[0], Answers(es);
            m'.phase == (if Succeeds(w, answers) then Healthy else Failed) &&
            (m'.containerRunning <==> ReachesVerdict(w, answers)) && !m'.busy
    decreases |es|, 0
  {
    var e, m' := es[0], Apply(m, es[0]);
    assert e in es && forall x :: x in es[1..] ==> x in es;
    ApplyKeepsInvariant(m, e);
    if e.Step? && e.worker == 0 {
      StepLeaves(m, e, es[1..]);
    } else {
      OthersWait(m, e);
      StartLeaves(m', es[1..]);
    }
  }

  lemma {:induction false} StepLeaves(m: Manager, e: Event, rest: seq<Event>)
    requires Invariant(m) && e.Step? && e.worker == 0 && NoLaunch(Apply(m, e), rest) && NoFailureReport(rest)
    requires m.workers != [] && m.workers[0] in {Probing, Launching, Waiting, Checking, Failing}
    requires m.workers[0] in {Waiting, Checking} ==> m.containerRunning
    requires Run(Apply(m, e), rest).workers == []
    ensures var m', w, answers := Run(Apply(m, e), rest), m.workers[0], [Answer(e.ok, e.raised)] + Answers(rest);
            m'.phase == (if Succeeds(w, answers) then Healthy else Failed) &&
            (m'.containerRunning <==> ReachesVerdict(w, answers)) && !m'.busy
    decreases |rest|, 1
  {
    var m' := Apply(m, e);
    ApplyKeepsInvariant(m, e);
    assert m.workers == [m.workers[0]];
    SucceedsNext(m.workers[0], Answer(e.ok, e.raised), Answers(rest));
    VerdictNext(m.workers[0], Answer(e.ok, e.raised), Answers(rest));
    if m'.workers[0] == Finishing {
      FinishingLeaves(m', rest);
    } else {
      StartLeaves(m', rest);
    }
  }

  lemma {:induction false} FinishingLeaves(m: Manager, es: seq<Event>)
    requires Invariant(m) && NoLaunch(m, es) && NoFailureReport(es) && (m.workers == [] || m.workers == [Finishing])
    requires Run(m, es).workers == []
    ensures var m' := Run(m, es); m'.phase == m.phase && m'.containerRunning == m.containerRunning && !m'.busy
    decreases |es|
  {
    if es != [] {
      assert es[0] in es && forall x :: x in es[1..] ==> x in es;
      ApplyKeepsInvariant(m, es[0]);
      FinishingLeaves(Apply(m, es[0]), es[1..]);
    }
  }

  // ---------------------------------------------------------------------------
  // Autostarts
  // ---------------------------------------------------------------------------

  /** Autostarts queued in the run: asked for while idle and enabled. */
  function Queued(m: Manager, es: seq<Event>): nat
    decreases |es|
  {
    if es == [] then 0
    else (if es[0].BeginAutostart? && m.phase == Idle && m.autostart then 1 else 0) + Queued(Apply(m, es[0]), es[1..])
  }

  /** Sleeping autostarts that woke up. */
  function Woken(m: Manager, es: seq<Event>): nat
    decreases |es|
  {
    if es == [] then 0
    else (if es[0].DelayElapsed? && m.delayed > 0 then 1 else 0) + Woken(Apply(m, es[0]), es[1..])
  }

  /** Those that went on to launch a worker: they found the backend idle and free. */
  function Autostarted(m: Manager, es: seq<Event>): nat
    decreases |es|
  {
    if es == [] then 0
    else (if es[0].DelayElapsed? && IsLaunch(m, es[0]) then 1 else 0) + Autostarted(Apply(m, es[0]), es[1..])
  }

  lemma AutostartLaunchesIff(m: Manager)
    ensures IsLaunch(m, DelayElapsed) <==> m.delayed > 0 && m.phase == Idle && !m.busy
  {
  }

  /** One event queues or wakes at most one autostart, and launches only by waking one. */
  lemma AutostartStep(m: Manager, e: Event)
    ensures Apply(m, e).autostart == m.autostart
    ensures Apply(m, e).delayed ==
            m.delayed + (if e.BeginAutostart? && m.phase == Idle && m.autostart then 1 else 0)
                      - (if e.DelayElapsed? && m.delayed > 0 then 1 else 0)
    ensures e.DelayElapsed? && IsLaunch(m, e) ==> m.delayed > 0
  {
  }

  /** Over any run every autostart that was queued sleeps still or woke up once, only those
      that woke up launched anything, and with autostart off none is ever queued. */
  lemma {:induction false} AutostartsAccount(m: Manager, es: seq<Event>)
    ensures m.delayed + Queued(m, es) == Run(m, es).delayed + Woken(m, es)
    ensures Autostarted(m, es) <= Woken(m, es)
    ensures !m.autostart ==> Queued(m, es) == 0
    decreases |es|
  {
    if es != [] {
      var next := Apply(m, es[0]);
      AutostartsAccount(next, es[1..]);
      AutostartStep(m, es[0]);
    }
  }
}
