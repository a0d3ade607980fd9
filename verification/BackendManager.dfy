/** The lifecycle manager object itself: the locked blocks of its public methods and
    of its worker threads, each proved to be one event of BackendLifecycle, and the
    GPU verification loop of the start worker. */
module BackendManagerObject {
  import opened BackendLifecycle

  class BackendManager {
    var phase: Phase
    var busy: bool
    var autostart: bool
    var healthOk: bool
    var containerRunning: bool
    // Threads spawned by this object that have not ended.
    var workers: seq<Worker>
    var delayed: nat

    function View(): Manager
      reads this
    {
      Manager(phase, busy, autostart, healthOk, containerRunning, workers, delayed)
    }

    constructor (autostart: bool)
      ensures View() == Initial(autostart)
    {
      phase := if autostart then Idle else Disabled;
      this.autostart := autostart;
      busy, healthOk, containerRunning, workers, delayed := false, false, false, [], 0;
    }

    method RecordRuntimeFailure()
      modifies this
      ensures View() == Apply(old(View()), RuntimeFailure)
    {
      phase := Failed;
      healthOk := false;
      containerRunning := false;
    }

    method QueueAutostart()
      modifies this
      ensures View() == Apply(old(View()), BeginAutostart)
    {
      if phase != Idle || !autostart {
        return;
      }
      delayed := delayed + 1;
    }

    /** The response says whether the request was taken. */
    method RequestStart() returns (ok: bool)
      modifies this
      ensures ok == StartAccepted(old(View()))
      ensures View() == Apply(old(View()), Start)
    {
      if phase == Disabled {
        return false;
      }
      if RunningPhase(phase) || busy {
        return false;
      }
      busy := true;
      phase := StartRequested;
      workers := workers + [Probing];
      ok := true;
    }

    method RequestStop() returns (ok: bool)
      modifies this
      ensures ok == StopAccepted(old(View()))
      ensures View() == Apply(old(View()), Stop)
    {
      if phase == Disabled {
        return false;
      }
      if phase in {Stopping, Stopped, Idle} {
        return false;
      }
      if busy {
        return false;
      }
      busy := true;
      phase := Stopping;
      workers := workers + [StopWorking];
      ok := true;
    }

    /** The sleeping autostart thread wakes up, and goes on as a start worker or ends. */
    method AutostartAfterDelay()
      requires delayed > 0
      modifies this
      ensures View() == Apply(old(View()), DelayElapsed)
    {
      delayed := delayed - 1;
      if phase != Idle || busy {
        return;
      }
      busy := true;
      phase := StartRequested;
      workers := workers + [Probing];
    }

    /** The next locked block of worker i, given the answer it got from docker, the
        health endpoint or the GPU check, or an exception. */
    method WorkerStep(i: nat, ok: bool, raised: bool)
      requires i < |workers|
      modifies this
      ensures View() == Apply(old(View()), Step(i, ok, raised))
    {
      var next := Finishing;
      match workers[i] {
        case Probing =>
          if raised {
            next := Failing;
          } else if ok {
            phase, containerRunning, next := Running, true, Checking;
          } else {
            phase, next := Starting, Launching;
          }
        case Launching =>
          if raised || !ok {
            next := Failing;
          } else {
            phase, containerRunning, next := Running, true, Waiting;
          }
        case Waiting =>
          next := if raised || !ok then Failing else Checking;
        case Checking =>
          if raised {
            next := Failing;
          } else if ok {
            phase, healthOk := Healthy, true;
          } else {
            phase, healthOk := Failed, false;
          }
        case Failing =>
          phase, containerRunning, healthOk := Failed, false, false;
        case Finishing =>
          busy, workers := false, Without(workers, i);
          return;
        case StopWorking =>
          phase, containerRunning, healthOk, busy := Stopped, false, false, false;
          workers := Without(workers, i);
          return;
      }
      workers := workers[i := next];
    }
  }

  // ---------------------------------------------------------------------------
  // GPU verification after health passed
  // ---------------------------------------------------------------------------

  datatype GpuState = Gpu | CpuFallback | HardFailure | NoSignal

  /** One look at the container logs, with the model inventory's answer beside it. */
  datatype Probe = Probe(logs: GpuState, inventoryHasGpu: bool)

  function Seen(p: Probe): GpuState {
    if p.logs in {NoSignal, HardFailure} && p.inventoryHasGpu then Gpu else p.logs
  }

  /** The logs show the GPU, or the inventory has it and the logs do not show CPU buffers. */
  predicate ShowsGpu(p: Probe) {
    p.logs == Gpu || (p.inventoryHasGpu && p.logs != CpuFallback)
  }

  /** Probe i is the first that shows the GPU, and the container was alive before
      every retry up to it. */
  predicate ConfirmedAt(probes: seq<Probe>, alive: seq<bool>, i: nat)
    requires |probes| == |alive| + 1
  {
    i < |probes| && ShowsGpu(probes[i]) &&
    (forall j :: 0 <= j < i ==> !ShowsGpu(probes[j]) && alive[j])
  }

  /** The container had died before retry i, and the GPU had not been seen by then. */
  predicate DiedAt(probes: seq<Probe>, alive: seq<bool>, i: nat)
    requires |probes| == |alive| + 1
  {
    i < |alive| && !alive[i] &&
    (forall j :: 0 <= j <= i ==> !ShowsGpu(probes[j])) && (forall j :: 0 <= j < i ==> alive[j])
  }

  /** alive[i] and probes[i + 1] are what retry i would be told. */
  method VerifyGpu(requireGpu: bool, probes: seq<Probe>, alive: seq<bool>) returns (healthy: bool, state: GpuState)
    requires |probes| == |alive| + 1
    // Without the requirement the first look is only reported.
    ensures !requireGpu ==> healthy && state == if ShowsGpu(probes[0]) then Gpu else probes[0].logs
    // With it, the GPU state is reached exactly when some probe in the window confirmed it,
    ensures requireGpu ==> (state == Gpu <==> exists i: nat :: ConfirmedAt(probes, alive, i))
    // and the backend is refused exactly when its container died in the window, or
    // the whole window went by and its last look was a hard failure or CPU buffers.
    ensures requireGpu ==>
              (!healthy <==>
               (exists i: nat :: DiedAt(probes, alive, i)) ||
               ((forall j :: 0 <= j < |probes| ==> !ShowsGpu(probes[j])) && (forall j :: 0 <= j < |alive| ==> alive[j]) &&
                probes[|alive|].logs in {CpuFallback, HardFailure}))
  {
    state := Seen(probes[0]);
    if requireGpu && state != Gpu {
      var k := 0;
      while k < |alive| && state != Gpu
        invariant k <= |alive|
        invariant state == Seen(probes[k])
        invariant forall j :: 0 <= j < k ==> Seen(probes[j]) != Gpu && alive[j]
      {
        if !alive[k] {
          assert DiedAt(probes, alive, k);
          assert forall i: nat :: !ConfirmedAt(probes, alive, i);
          return false, HardFailure;
        }
        state := Seen(probes[k + 1]);
        k := k + 1;
      }
      if state == Gpu {
        assert ConfirmedAt(probes, alive, k);
      }
    } else if requireGpu {
      assert ConfirmedAt(probes, alive, 0);
    }
    healthy := !(requireGpu && state in {CpuFallback, HardFailure});
  }
}
