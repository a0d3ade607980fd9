/** The docker container behind the lifecycle manager: what the manager's workers and
    others do to it, and whether a stopped backend has really lost it. */
module BackendContainer {
  import opened BackendLifecycle

  datatype World = World(
    manager: Manager,
    containerUp: bool)   // the container itself, not what the manager reports

  datatype Happening =
    // removed says whether a docker rm -f in this stretch of a worker succeeded.
    | Manages(event: Event, removed: bool)
    // The container dies, or somebody else starts it.
    | Outside(up: bool)

  /** A start worker that finds no healthy container removes what there is; docker run
      may bring a container up and time out all the same; a stop worker ignores whether
      its docker rm -f succeeded. */
  function ContainerAfter(w: World, e: Event, removed: bool): bool {
    if !Advances(w.manager, e) then w.containerUp
    else
      match w.manager.workers[e.worker]
      case Probing => if e.ok && !e.raised then w.containerUp else w.containerUp && !removed
      case Launching => w.containerUp || e.ok
      case StopWorking => w.containerUp && !removed
      case _ => w.containerUp
  }

  function After(w: World, h: Happening): World {
    match h
    case Manages(e, removed) => World(Apply(w.manager, e), ContainerAfter(w, e, removed))
    case Outside(up) => w.(containerUp := up)
  }

  function AfterAll(w: World, hs: seq<Happening>): World
    decreases |hs|
  {
    if hs == [] then w else AfterAll(After(w, hs[0]), hs[1..])
  }

  /** A backend is reported as stopped only when its container is gone. */
  predicate StoppedIsGone(w: World) {
    w.manager.phase == Stopped ==> !w.containerUp
  }

  predicate AlwaysGone(w: World, hs: seq<Happening>)
    decreases |hs|
  {
    StoppedIsGone(w) && (hs == [] || AlwaysGone(After(w, hs[0]), hs[1..]))
  }

  /** A stop worker ends without having removed the container, or somebody else starts
      it while the backend is stopped. */
  predicate LeavesContainer(w: World, h: Happening) {
    match h
    case Manages(e, removed) =>
      Advances(w.manager, e) && w.manager.workers[e.worker] == StopWorking && w.containerUp && !removed
    case Outside(up) => up && w.manager.phase == Stopped
  }

  predicate NoneLeft(w: World, hs: seq<Happening>)
    decreases |hs|
  {
    hs == [] || (!LeavesContainer(w, hs[0]) && NoneLeft(After(w, hs[0]), hs[1..]))
  }

  lemma GoneUnlessLeft(w: World, h: Happening)
    requires Invariant(w.manager) && StoppedIsGone(w)
    ensures StoppedIsGone(After(w, h)) <==> !LeavesContainer(w, h)
  {
    if h.Manages? && h.event.Step? {
      assert h.event.worker < |w.manager.workers| ==> w.manager.workers == [w.manager.workers[0]];
    }
  }

  /** Over any run, a stopped backend has at every moment lost its container if and only
      if no stop ends with a failed removal of a container that is there, and nobody
      else starts the container of a stopped backend. */
  lemma {:induction false} GoneIffNoneLeft(w: World, hs: seq<Happening>)
    requires Invariant(w.manager) && StoppedIsGone(w)
    ensures AlwaysGone(w, hs) <==> NoneLeft(w, hs)
    decreases |hs|
  {
    if hs != [] {
      GoneUnlessLeft(w, hs[0]);
      if hs[0].Manages? {
        ApplyKeepsInvariant(w.manager, hs[0].event);
      }
      if !LeavesContainer(w, hs[0]) {
        GoneIffNoneLeft(After(w, hs[0]), hs[1..]);
      }
    }
  }

  lemma {:induction false} AfterAllAppend(w: World, x: seq<Happening>, y: seq<Happening>)
    ensures AfterAll(w, x + y) == AfterAll(AfterAll(w, x), y)
    decreases |x|
  {
    if x == [] {
      assert x + y == y;
    } else {
      assert (x + y)[1..] == x[1..] + y;
      AfterAllAppend(After(w, x[0]), x[1..], y);
    }
  }

  function Reconnect(): seq<Happening> {
    [Manages(Start, false), Manages(Step(0, true, false), false), Manages(Step(0, true, false), false),
     Manages(Step(0, true, false), false)]
  }

  function FailingStop(): seq<Happening> {
    [Manages(Stop, false), Manages(Step(0, true, false), false)]
  }

  const CONNECTED := World(Manager(Healthy, false, true, true, true, [], 0), true)

  lemma ReconnectConnects()
    ensures AfterAll(World(Initial(true), true), Reconnect()) == CONNECTED
  {
    var hs := Reconnect();
    var w1 := World(Manager(StartRequested, true, true, false, false, [Probing], 0), true);
    var w2 := World(Manager(Running, true, true, false, true, [Checking], 0), true);
    var w3 := World(Manager(Healthy, true, true, true, true, [Finishing], 0), true);
    assert After(World(Initial(true), true), hs[0]) == w1;
    assert After(w1, hs[1]) == w2 && After(w2, hs[2]) == w3 && After(w3, hs[3]) == CONNECTED;
    assert hs[4..] == [] && AfterAll(CONNECTED, hs[4..]) == CONNECTED;
    assert hs[3..][1..] == hs[4..] && AfterAll(w3, hs[3..]) == CONNECTED;
    assert hs[2..][1..] == hs[3..] && AfterAll(w2, hs[2..]) == CONNECTED;
    assert hs[1..][1..] == hs[2..] && AfterAll(w1, hs[1..]) == CONNECTED;
  }

  /** A reconnected backend is stopped, docker rm -f fails, and the backend is reported
      as stopped, without a running container, while the container is still up. */
  lemma FailedRemovalIsReportedAsStopped()
    ensures var w := AfterAll(World(Initial(true), true), Reconnect() + FailingStop());
            w.manager.phase == Stopped && !w.manager.containerRunning && w.containerUp
  {
    ReconnectConnects();
    AfterAllAppend(World(Initial(true), true), Reconnect(), FailingStop());
    var hs := FailingStop();
    assert hs[1..][1..] == [] && AfterAll(CONNECTED, hs) == After(After(CONNECTED, hs[0]), hs[1]);
  }

  // ---------------------------------------------------------------------------
  // A serving backend has its container, and a launch does not run beside an old one
  // ---------------------------------------------------------------------------

  predicate ServingIsUp(w: World) {
    w.manager.phase in {Running, Healthy} ==> w.containerUp
  }

  /** The container of a serving backend dies, or reconnecting or the checks succeed
      without one. */
  predicate LosesContainer(w: World, h: Happening) {
    match h
    case Manages(e, _) =>
      Advances(w.manager, e) && w.manager.workers[e.worker] in {Probing, Checking} && e.ok && !e.raised && !w.containerUp
    case Outside(up) => !up && w.manager.phase in {Running, Healthy}
  }

  /** A worker is about to run docker only when no container is there. */
  predicate LaunchIsFresh(w: World) {
    w.manager.workers != [] && w.manager.workers[0] == Launching ==> !w.containerUp
  }

  /** The worker goes on to launch without having removed the old container, or somebody
      else starts one first. */
  predicate KeepsOld(w: World, h: Happening) {
    match h
    case Manages(e, removed) =>
      Advances(w.manager, e) && w.manager.workers[e.worker] == Probing && !e.ok && !e.raised && w.containerUp && !removed
    case Outside(up) => up && w.manager.workers != [] && w.manager.workers[0] == Launching
  }

  lemma ServingUnlessLost(w: World, h: Happening)
    requires Invariant(w.manager) && ServingIsUp(w)
    ensures ServingIsUp(After(w, h)) <==> !LosesContainer(w, h)
  {
    if h.Manages? && h.event.Step? {
      assert h.event.worker < |w.manager.workers| ==> w.manager.workers == [w.manager.workers[0]];
    }
  }

  lemma FreshUnlessKept(w: World, h: Happening)
    requires Invariant(w.manager) && LaunchIsFresh(w)
    ensures LaunchIsFresh(After(w, h)) <==> !KeepsOld(w, h)
  {
    if h.Manages? && h.event.Step? {
      assert h.event.worker < |w.manager.workers| ==> w.manager.workers == [w.manager.workers[0]];
    }
  }

  predicate AlwaysBacked(w: World, hs: seq<Happening>)
    decreases |hs|
  {
    ServingIsUp(w) && LaunchIsFresh(w) && (hs == [] || AlwaysBacked(After(w, hs[0]), hs[1..]))
  }

  predicate NoneLost(w: World, hs: seq<Happening>)
    decreases |hs|
  {
    hs == [] || (!LosesContainer(w, hs[0]) && !KeepsOld(w, hs[0]) && NoneLost(After(w, hs[0]), hs[1..]))
  }

  /** Over any run, at every moment a running or healthy backend has its container and a
      launch finds none, if and only if no container of a serving backend dies, none is
      missing when reconnecting or the checks succeed, and none is left over from before or
      started by somebody else when docker is to be run. */
  lemma {:induction false} BackedIffNoneLost(w: World, hs: seq<Happening>)
    requires Invariant(w.manager) && ServingIsUp(w) && LaunchIsFresh(w)
    ensures AlwaysBacked(w, hs) <==> NoneLost(w, hs)
    decreases |hs|
  {
    if hs != [] {
      ServingUnlessLost(w, hs[0]);
      FreshUnlessKept(w, hs[0]);
      if hs[0].Manages? {
        ApplyKeepsInvariant(w.manager, hs[0].event);
      }
      if !LosesContainer(w, hs[0]) && !KeepsOld(w, hs[0]) {
        BackedIffNoneLost(After(w, hs[0]), hs[1..]);
      }
    }
  }
}
