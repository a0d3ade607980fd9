/** The recovery trigger endpoint under concurrent requests.  Every acquisition of the
    recovery state's lock is one atomic act: a request reads the in-progress flag and
    the gate of its action, dangerous actions read both again for the planner, and only
    later is the action marked as started. */
module RecoveryEndpoint {
  import opened Recovery

  const CLEAR_FAILURE := "clear_failure"
  const RELOAD := "reload_selected_model"
  const DANGEROUS_ACTIONS := {"start_backend", "restart_backend", RELOAD, "select_model"}

  datatype Check = Flag | Gate

  function Checks(action: string): seq<Check> {
    if action in DANGEROUS_ACTIONS then [Flag, Gate, Gate, Flag] else [Flag, Gate]
  }

  datatype Stage =
    | Checking(left: seq<Check>)  // not marked yet
    | Running                     // marked as started
    | Cleared                     // a clear_failure request that has cleared the state

  /** A request inside the endpoint, with the positions in the log of writes at which it
      read the flag first and last, read the gate last, was marked and cleared. */
  datatype Request = Request(
    action: string,
    stage: Stage,
    firstAt: nat,
    flagAt: nat,
    gateAt: nat,
    markedAt: nat,
    clearedAt: nat)

  datatype World = World(
    book: Book,                    // the recovery state
    log: seq<Event>,               // all writes to it
    requests: map<nat, Request>,
    clock: real)

  datatype Act =
    | Arrive(r: nat, action: string)  // the first check, of the flag
    | Look(r: nat)                    // the next check
    | Leave(r: nat)                   // refused for a reason outside the recovery state
    | Mark(r: nat)
    | ClearState(r: nat)
    | Report(r: nat, ok: bool)        // mark_completed or mark_failed
    | Pass(d: real)                   // time passes

  function Start(t: real): World { World(FRESH, [], map[], t) }

  predicate IsChecking(w: World, r: nat) {
    r in w.requests && w.requests[r].stage.Checking?
  }

  predicate InFlight(w: World, r: nat) {
    r in w.requests && !w.requests[r].stage.Checking?
  }

  function Write(p: Policy, w: World, e: Event): World
    requires |p.schedule| > 0
  {
    w.(book := Step(p, w.book, e), log := w.log + [e])
  }

  function With(w: World, r: nat, q: Request): World {
    w.(requests := w.requests[r := q])
  }

  function Drop(w: World, r: nat): World {
    w.(requests := w.requests - {r})
  }

  /** The next check refuses the request. */
  predicate Blocked(w: World, q: Request)
    requires q.stage.Checking? && q.stage.left != []
  {
    if q.stage.left[0] == Flag then w.book.inProgress else BackoffActive(w.book, q.action, w.clock)
  }

  function Passed(w: World, q: Request): Request
    requires q.stage.Checking? && q.stage.left != []
  {
    var q' := q.(stage := Checking(q.stage.left[1..]));
    if q.stage.left[0] == Flag then q'.(flagAt := |w.log|) else q'.(gateAt := |w.log|)
  }

  /** Acts that do not apply have no effect. */
  function Next(p: Policy, w: World, act: Act): World
    requires |p.schedule| > 0
  {
    match act
    case Arrive(r, a) =>
      if r in w.requests || w.book.inProgress then w
      else With(w, r, Request(a, Checking(Checks(a)[1..]), |w.log|, |w.log|, |w.log|, 0, 0))
    case Look(r) =>
      if !IsChecking(w, r) || w.requests[r].stage.left == [] then w
      else if Blocked(w, w.requests[r]) then Drop(w, r)
      else With(w, r, Passed(w, w.requests[r]))
    case Leave(r) => if IsChecking(w, r) then Drop(w, r) else w
    case Mark(r) =>
      if !Marks(w, act) then w
      else
        var q := w.requests[r];
        With(Write(p, w, Begin(q.action, w.clock)), r, q.(stage := Running, markedAt := |w.log|))
    case ClearState(r) =>
      if !InFlight(w, r) || !w.requests[r].stage.Running? || w.requests[r].action != CLEAR_FAILURE then w
      else With(Write(p, w, ClearAll), r, w.requests[r].(stage := Cleared, clearedAt := |w.log|))
    case Report(r, ok) =>
      if Fails(w, act) then Drop(Write(p, w, Fail(w.requests[r].action, w.clock)), r)
      else if Succeeds(w, act) then Drop(Write(p, w, Succeed(w.requests[r].action, w.clock)), r)
      else w
    case Pass(d) => if d > 0.0 then w.(clock := w.clock + d) else w
  }

  predicate Marks(w: World, act: Act) {
    act.Mark? && IsChecking(w, act.r) && w.requests[act.r].stage.left == []
  }

  predicate Fails(w: World, act: Act) {
    act.Report? && !act.ok && InFlight(w, act.r) && w.requests[act.r].action != CLEAR_FAILURE
  }

  /** Clearing cannot fail, so its request succeeds once it has cleared. */
  predicate Succeeds(w: World, act: Act) {
    act.Report? && InFlight(w, act.r) &&
    if w.requests[act.r].action == CLEAR_FAILURE then w.requests[act.r].stage.Cleared? else act.ok
  }

  function Run(p: Policy, w: World, acts: seq<Act>): World
    requires |p.schedule| > 0
    decreases |acts|
  {
    if acts == [] then w else Run(p, Next(p, w, acts[0]), acts[1..])
  }

  lemma {:induction false} RunAppend(p: Policy, w: World, x: seq<Act>, y: seq<Act>)
    requires |p.schedule| > 0
    ensures Run(p, w, x + y) == Run(p, Run(p, w, x), y)
    decreases |x|
  {
    if x == [] {
      assert x + y == y;
    } else {
      assert (x + y)[1..] == x[1..] + y;
      RunAppend(p, Next(p, w, x[0]), x[1..], y);
    }
  }

  // ---------------------------------------------------------------------------
  // What every run keeps
  // ---------------------------------------------------------------------------

  predicate HasSeenGate(q: Request) {
    q.stage.Checking? ==> Gate !in q.stage.left
  }

  predicate WellPlaced(w: World, q: Request) {
    q.firstAt <= q.flagAt <= |w.log| && q.firstAt <= q.gateAt <= |w.log| &&
    (!q.stage.Checking? ==> q.markedAt < |w.log| && w.log[q.markedAt].Begin?) &&
    (q.stage.Cleared? ==> q.clearedAt < |w.log| && q.action == CLEAR_FAILURE)
  }

  /** A request past its last look at the gate found it open then, and would still find
      it open if nothing had been written since. */
  predicate GateWasOpen(p: Policy, w: World, q: Request)
    requires |p.schedule| > 0 && WellPlaced(w, q)
  {
    HasSeenGate(q) ==> !BackoffActive(After(p, w.log[..q.gateAt]), q.action, w.clock)
  }

  predicate Sound(p: Policy, w: World, q: Request)
    requires |p.schedule| > 0
  {
    WellPlaced(w, q) && GateWasOpen(p, w, q)
  }

  predicate Consistent(p: Policy, w: World)
    requires |p.schedule| > 0
  {
    w.book == After(p, w.log) &&
    forall r :: r in w.requests ==> Sound(p, w, w.requests[r])
  }

  lemma WriteKeepsSound(p: Policy, w: World, e: Event, q: Request)
    requires |p.schedule| > 0 && Sound(p, w, q)
    ensures Sound(p, Write(p, w, e), q)
  {
    assert (w.log + [e])[..q.gateAt] == w.log[..q.gateAt];
  }

  lemma WriteKeepsBook(p: Policy, w: World, e: Event)
    requires |p.schedule| > 0 && w.book == After(p, w.log)
    ensures Write(p, w, e).book == After(p, Write(p, w, e).log)
  {
    assert Init(w.log + [e]) == w.log;
  }

  lemma PassedIsSound(p: Policy, w: World, q: Request)
    requires |p.schedule| > 0 && w.book == After(p, w.log) && Sound(p, w, q) && q.stage.Checking? && q.stage.left != []
    requires !Blocked(w, q)
    ensures Sound(p, w, Passed(w, q))
  {
    var left := q.stage.left;
    assert left == [left[0]] + left[1..];
    assert w.log[..|w.log|] == w.log;
  }

  lemma ArrivalIsSound(p: Policy, w: World, a: string)
    requires |p.schedule| > 0
    ensures Sound(p, w, Request(a, Checking(Checks(a)[1..]), |w.log|, |w.log|, |w.log|, 0, 0))
  {
    assert Checks(a)[1..][0] == Gate;
  }

  /** Reading adds at most one request, or moves one on. */
  lemma ReaderKeepsConsistent(p: Policy, w: World, w': World, r: nat)
    requires |p.schedule| > 0 && Consistent(p, w) && w'.book == w.book && w'.log == w.log && w'.clock == w.clock
    requires forall s :: s in w'.requests && s != r ==> s in w.requests && w'.requests[s] == w.requests[s]
    requires r in w'.requests ==> Sound(p, w, w'.requests[r])
    ensures Consistent(p, w')
  {
    forall s | s in w'.requests ensures Sound(p, w', w'.requests[s]) {
      assert Sound(p, w, w'.requests[s]);
    }
  }

  lemma TimeKeepsConsistent(p: Policy, w: World, d: real)
    requires |p.schedule| > 0 && Consistent(p, w) && d > 0.0
    ensures Consistent(p, w.(clock := w.clock + d))
  {
    var w' := w.(clock := w.clock + d);
    forall s | s in w'.requests ensures Sound(p, w', w'.requests[s]) {
      assert Sound(p, w, w.requests[s]);
    }
  }

  lemma ReadKeepsConsistent(p: Policy, w: World, act: Act)
    requires |p.schedule| > 0 && Consistent(p, w) && (act.Arrive? || act.Look? || act.Leave? || act.Pass?)
    ensures Consistent(p, Next(p, w, act))
  {
    var w' := Next(p, w, act);
    if w' != w {
      match act
      case Arrive(r, a) =>
        ArrivalIsSound(p, w, a);
        ReaderKeepsConsistent(p, w, w', r);
      case Look(r) =>
        assert Sound(p, w, w.requests[r]);
        if !Blocked(w, w.requests[r]) {
          PassedIsSound(p, w, w.requests[r]);
        }
        ReaderKeepsConsistent(p, w, w', r);
      case Leave(r) => ReaderKeepsConsistent(p, w, w', r);
      case Pass(d) => TimeKeepsConsistent(p, w, d);
    }
  }

  /** A write on behalf of one request, which is then gone or keeps its checks. */
  lemma WriteKeepsConsistent(p: Policy, w: World, e: Event, w': World)
    requires |p.schedule| > 0 && Consistent(p, w)
    requires w' == Write(p, w, e).(requests := w'.requests)
    requires forall r :: r in w'.requests ==> r in w.requests
    requires forall r :: r in w'.requests && w'.requests[r] != w.requests[r] ==> Sound(p, w', w'.requests[r])
    ensures Consistent(p, w')
  {
    WriteKeepsBook(p, w, e);
    forall r | r in w'.requests ensures Sound(p, w', w'.requests[r]) {
      assert Sound(p, w, w.requests[r]);
      WriteKeepsSound(p, w, e, w.requests[r]);
    }
  }

  lemma MarkKeepsConsistent(p: Policy, w: World, act: Act)
    requires |p.schedule| > 0 && Consistent(p, w) && Marks(w, act)
    ensures Consistent(p, Next(p, w, act))
  {
    var q := w.requests[act.r];
    assert Sound(p, w, q);
    WriteKeepsSound(p, w, Begin(q.action, w.clock), q);
    WriteKeepsConsistent(p, w, Begin(q.action, w.clock), Next(p, w, act));
  }

  lemma ClearKeepsConsistent(p: Policy, w: World, act: Act)
    requires |p.schedule| > 0 && Consistent(p, w) && act.ClearState? && Next(p, w, act) != w
    ensures Consistent(p, Next(p, w, act))
  {
    assert Sound(p, w, w.requests[act.r]);
    WriteKeepsSound(p, w, ClearAll, w.requests[act.r]);
    WriteKeepsConsistent(p, w, ClearAll, Next(p, w, act));
  }

  lemma ReportKeepsConsistent(p: Policy, w: World, act: Act)
    requires |p.schedule| > 0 && Consistent(p, w) && (Fails(w, act) || Succeeds(w, act))
    ensures Consistent(p, Next(p, w, act))
  {
    var a := w.requests[act.r].action;
    WriteKeepsConsistent(p, w, if Fails(w, act) then Fail(a, w.clock) else Succeed(a, w.clock), Next(p, w, act));
  }

  lemma NextKeepsConsistent(p: Policy, w: World, act: Act)
    requires |p.schedule| > 0 && Consistent(p, w)
    ensures Consistent(p, Next(p, w, act))
  {
    if Next(p, w, act) != w {
      match act
      case Mark(_) => MarkKeepsConsistent(p, w, act);
      case ClearState(_) => ClearKeepsConsistent(p, w, act);
      case Report(_, _) => ReportKeepsConsistent(p, w, act);
      case _ => ReadKeepsConsistent(p, w, act);
    }
  }

  // ---------------------------------------------------------------------------
  // Exclusion
  // ---------------------------------------------------------------------------

  /** Nothing is in flight. */
  ghost predicate Quiet(w: World) {
    forall r :: !InFlight(w, r)
  }

  /** Every action is marked as started while no other one is in flight. */
  ghost predicate Exclusive(p: Policy, w: World, acts: seq<Act>)
    requires |p.schedule| > 0
    decreases |acts|
  {
    acts == [] || ((Marks(w, acts[0]) ==> Quiet(w)) && Exclusive(p, Next(p, w, acts[0]), acts[1..]))
  }

  /** Some action was marked after this request last read the flag, and still runs. */
  ghost predicate Overtaken(w: World, q: Request) {
    exists r :: InFlight(w, r) && w.requests[r].markedAt >= q.flagAt
  }

  /** This request last read the flag after a clear_failure request had cleared it, and
      that one has not reported yet. */
  ghost predicate SlippedIn(w: World, q: Request) {
    exists r :: InFlight(w, r) && w.requests[r].stage.Cleared? && w.requests[r].clearedAt < q.flagAt
  }

  ghost predicate MarkedInTurn(p: Policy, w: World, acts: seq<Act>)
    requires |p.schedule| > 0
    decreases |acts|
  {
    acts == [] ||
    ((Marks(w, acts[0]) ==> !Overtaken(w, w.requests[acts[0].r]) && !SlippedIn(w, w.requests[acts[0].r])) &&
     MarkedInTurn(p, Next(p, w, acts[0]), acts[1..]))
  }

  /** What was marked before position k has cleared the flag before k as well. */
  predicate ClearedBefore(q: Request, k: nat) {
    q.markedAt < k ==> q.stage.Cleared? && q.clearedAt < k
  }

  /** While actions exclude each other: the flag tells whether one is running and has
      not cleared it, and whoever read the flag as free saw only cleared ones. */
  ghost predicate Alone(w: World) {
    (forall r, s :: InFlight(w, r) && InFlight(w, s) ==> r == s) &&
    (w.book.inProgress <==> exists r :: InFlight(w, r) && w.requests[r].stage.Running?) &&
    (forall r, s :: InFlight(w, r) && IsChecking(w, s) ==>
       ClearedBefore(w.requests[r], w.requests[s].flagAt) && ClearedBefore(w.requests[r], w.requests[s].firstAt))
  }

  lemma NextKeepsAlone(p: Policy, w: World, act: Act)
    requires |p.schedule| > 0 && Consistent(p, w) && Alone(w) && (Marks(w, act) ==> Quiet(w))
    ensures Alone(Next(p, w, act))
  {
    match act
    case Arrive(_, _) => ReadKeepsAlone(p, w, act);
    case Look(_) => ReadKeepsAlone(p, w, act);
    case Leave(_) => ReadKeepsAlone(p, w, act);
    case Pass(_) => ReadKeepsAlone(p, w, act);
    case Mark(_) => MarkKeepsAlone(p, w, act);
    case ClearState(_) => ClearKeepsAlone(p, w, act);
    case Report(_, _) => ReportKeepsAlone(p, w, act);
  }

  /** A request keeps the positions at which it read the flag, or has just read it as
      free. */
  predicate ReadsOn(w: World, w': World, s: nat) {
    IsChecking(w', s) ==>
      var q := w'.requests[s];
      (IsChecking(w, s) && q.firstAt == w.requests[s].firstAt && q.flagAt == w.requests[s].flagAt) ||
      (!w.book.inProgress && q.flagAt == |w.log| &&
       (q.firstAt == |w.log| || (IsChecking(w, s) && q.firstAt == w.requests[s].firstAt)))
  }

  lemma ReadersKeepAlone(p: Policy, w: World, w': World)
    requires |p.schedule| > 0 && Consistent(p, w) && Alone(w)
    requires w'.book == w.book && w'.log == w.log
    requires forall r :: InFlight(w', r) <==> InFlight(w, r)
    requires forall r :: InFlight(w, r) ==> r in w'.requests && w'.requests[r] == w.requests[r]
    requires forall s :: ReadsOn(w, w', s)
    ensures Alone(w')
  {
    forall r, s | InFlight(w', r) && IsChecking(w', s)
      ensures ClearedBefore(w'.requests[r], w'.requests[s].flagAt) &&
              ClearedBefore(w'.requests[r], w'.requests[s].firstAt)
    {
      assert InFlight(w, r) && Sound(p, w, w.requests[r]) && ReadsOn(w, w', s);
    }
    forall r, s | InFlight(w', r) && InFlight(w', s) ensures r == s {
      assert InFlight(w, r) && InFlight(w, s);
    }
    if w.book.inProgress {
      var r :| InFlight(w, r) && w.requests[r].stage.Running?;
      assert InFlight(w', r);
    } else {
      forall r | InFlight(w', r) ensures !w'.requests[r].stage.Running? {
        assert InFlight(w, r);
      }
    }
  }

  lemma ReadsOnly(p: Policy, w: World, act: Act)
    requires |p.schedule| > 0 && (act.Arrive? || act.Look? || act.Leave? || act.Pass?)
    ensures var w' := Next(p, w, act);
            w'.book == w.book && w'.log == w.log &&
            (forall r :: InFlight(w', r) <==> InFlight(w, r)) &&
            (forall r :: InFlight(w, r) ==> r in w'.requests && w'.requests[r] == w.requests[r]) &&
            (forall s :: ReadsOn(w, w', s))
  {
    var w' := Next(p, w, act);
    if act.Arrive? && w' != w {
      assert w'.requests == w.requests[act.r := w'.requests[act.r]];
    } else if act.Look? && w' != w {
      assert w'.requests == w.requests - {act.r} || w'.requests == w.requests[act.r := w'.requests[act.r]];
    }
  }

  lemma ReadKeepsAlone(p: Policy, w: World, act: Act)
    requires |p.schedule| > 0 && Consistent(p, w) && Alone(w) && (act.Arrive? || act.Look? || act.Leave? || act.Pass?)
    ensures Alone(Next(p, w, act))
  {
    ReadsOnly(p, w, act);
    ReadersKeepAlone(p, w, Next(p, w, act));
  }

  lemma MarkKeepsAlone(p: Policy, w: World, act: Act)
    requires |p.schedule| > 0 && Consistent(p, w) && Alone(w) && act.Mark? && (Marks(w, act) ==> Quiet(w))
    ensures Alone(Next(p, w, act))
  {
    var w' := Next(p, w, act);
    if Marks(w, act) {
      forall r | InFlight(w', r) ensures r == act.r {
        assert !InFlight(w, r);
      }
      assert InFlight(w', act.r);
      assert forall s :: IsChecking(w', s) ==> w'.requests[s] == w.requests[s] && Sound(p, w, w.requests[s]);
    }
  }

  lemma ClearKeepsAlone(p: Policy, w: World, act: Act)
    requires |p.schedule| > 0 && Consistent(p, w) && Alone(w) && act.ClearState?
    ensures Alone(Next(p, w, act))
  {
    var w' := Next(p, w, act);
    if w' != w {
      forall r | InFlight(w', r) ensures r == act.r {
        assert InFlight(w, r) && InFlight(w, act.r);
      }
      forall s | IsChecking(w', s)
        ensures ClearedBefore(w'.requests[act.r], w'.requests[s].flagAt) &&
                ClearedBefore(w'.requests[act.r], w'.requests[s].firstAt)
      {
        assert Sound(p, w, w.requests[s]) && IsChecking(w, s) && InFlight(w, act.r);
      }
    }
  }

  lemma ReportKeepsAlone(p: Policy, w: World, act: Act)
    requires |p.schedule| > 0 && Consistent(p, w) && Alone(w) && act.Report?
    ensures Alone(Next(p, w, act))
  {
    var w' := Next(p, w, act);
    if w' != w {
      var reporter := act.r;
      assert InFlight(w, reporter) && reporter !in w'.requests;
      assert forall r :: InFlight(w', r) ==> InFlight(w, r);
      assert Quiet(w');
    }
  }

  /** Whoever is in flight when a request marks was marked after the request read the
      flag, or had cleared the flag before. */
  lemma OnlyTwoWaysIn(w: World, q: Request)
    requires Alone(w) && (exists s :: IsChecking(w, s) && w.requests[s] == q)
    ensures Quiet(w) <==> !Overtaken(w, q) && !SlippedIn(w, q)
  {
    var s :| IsChecking(w, s) && w.requests[s] == q;
    if !Quiet(w) {
      var r :| InFlight(w, r);
      assert ClearedBefore(w.requests[r], w.requests[s].flagAt);
    }
  }

  /** Actions exclude each other in a run if and only if no request marks its action
      while another one runs that was marked after the request last read the flag, or
      that had cleared the flag before. */
  lemma {:induction false} ExclusiveIff(p: Policy, w: World, acts: seq<Act>)
    requires |p.schedule| > 0 && Consistent(p, w) && Alone(w)
    ensures Exclusive(p, w, acts) <==> MarkedInTurn(p, w, acts)
    decreases |acts|
  {
    if acts != [] {
      if Marks(w, acts[0]) {
        OnlyTwoWaysIn(w, w.requests[acts[0].r]);
      }
      if Marks(w, acts[0]) ==> Quiet(w) {
        NextKeepsConsistent(p, w, acts[0]);
        NextKeepsAlone(p, w, acts[0]);
        ExclusiveIff(p, Next(p, w, acts[0]), acts[1..]);
      }
    }
  }

  // ---------------------------------------------------------------------------
  // Spacing
  // ---------------------------------------------------------------------------

  predicate IsReset(e: Event, a: string) {
    e == ClearAll || e == Clear(a) || (e.Succeed? && e.action == a)
  }

  predicate Resets(es: seq<Event>, a: string) {
    exists i :: 0 <= i < |es| && IsReset(es[i], a)
  }

  lemma ResetsSnoc(es: seq<Event>, e: Event, a: string)
    ensures Resets(es + [e], a) <==> Resets(es, a) || IsReset(e, a)
  {
    var all := es + [e];
    if Resets(es, a) {
      var i :| 0 <= i < |es| && IsReset(es[i], a);
      assert IsReset(all[i], a);
    }
    assert all[|es|] == e;
  }

  lemma {:induction false} FailureTimesAppend(x: seq<Event>, y: seq<Event>, a: string)
    ensures FailureTimes(x + y, a) == (if Resets(y, a) then [] else FailureTimes(x, a)) + FailureTimes(y, a)
    decreases |y|
  {
    if y == [] {
      assert x + y == x;
    } else {
      assert Init(x + y) == x + Init(y) && Last(x + y) == Last(y) && y == Init(y) + [Last(y)];
      FailureTimesAppend(x, Init(y), a);
      ResetsSnoc(Init(y), Last(y), a);
    }
  }

  /** The action failed, for another request, since this one last read the gate, and
      has not been reset since. */
  predicate Beaten(w: World, q: Request)
    requires q.gateAt <= |w.log|
  {
    FailureTimes(w.log[q.gateAt..], q.action) != []
  }

  /** The report of a failure that another one has beaten, and whose backoff runs. */
  predicate TooSoon(w: World, act: Act, a: string)
    requires forall r :: r in w.requests ==> w.requests[r].gateAt <= |w.log|
  {
    Fails(w, act) && w.requests[act.r].action == a && Beaten(w, w.requests[act.r]) && BackoffActive(w.book, a, w.clock)
  }

  ghost predicate NeverTooSoon(p: Policy, w: World, acts: seq<Act>, a: string)
    requires |p.schedule| > 0 && Consistent(p, w)
    decreases |acts|
  {
    acts == [] ||
    (NextKeepsConsistent(p, w, acts[0]);
     !TooSoon(w, acts[0], a) && NeverTooSoon(p, Next(p, w, acts[0]), acts[1..], a))
  }

  /** Equal failures, equal gates. */
  lemma SameFailuresSameGate(p: Policy, x: seq<Event>, y: seq<Event>, a: string, t: real)
    requires |p.schedule| > 0 && FailureTimes(x, a) == FailureTimes(y, a)
    ensures BackoffActive(After(p, x), a, t) <==> BackoffActive(After(p, y), a, t)
  {
    StateFromHistory(p, x, a);
    StateFromHistory(p, y, a);
  }

  lemma OnlyBeatenFailTooSoon(p: Policy, w: World, act: Act)
    requires |p.schedule| > 0 && Consistent(p, w) && Fails(w, act)
    ensures var a := w.requests[act.r].action; FailsInTime(p, w.log, a, w.clock) <==> !TooSoon(w, act, a)
  {
    var q := w.requests[act.r];
    assert Sound(p, w, q);
    var before, since := w.log[..q.gateAt], w.log[q.gateAt..];
    assert w.log == before + since;
    FailureTimesAppend(before, since, q.action);
    if !Beaten(w, q) && FailureTimes(w.log, q.action) != [] {
      assert FailureTimes(before, q.action) + [] == FailureTimes(before, q.action);
      SameFailuresSameGate(p, w.log, before, q.action, w.clock);
    }
  }

  lemma WritesOne(p: Policy, w: World, act: Act)
    requires |p.schedule| > 0
    ensures var log' := Next(p, w, act).log;
            if Fails(w, act) then log' == w.log + [Fail(w.requests[act.r].action, w.clock)]
            else log' == w.log || (|log'| == |w.log| + 1 && log'[..|w.log|] == w.log && !Last(log').Fail?)
  {
  }

  lemma NextKeepsApart(p: Policy, w: World, act: Act, a: string)
    requires |p.schedule| > 0 && Consistent(p, w)
    ensures KeptApart(p, Next(p, w, act).log, a) <==> KeptApart(p, w.log, a) && !TooSoon(w, act, a)
  {
    WritesOne(p, w, act);
    var log' := Next(p, w, act).log;
    if log' != w.log {
      assert Init(log') == w.log;
      KeptApartIff(p, w.log, a);
      KeptApartIff(p, log', a);
      if Fails(w, act) && w.requests[act.r].action == a {
        OnlyBeatenFailTooSoon(p, w, act);
      }
    }
  }

  /** In every run of the endpoint the failures of an action keep apart, and within
      max_attempts + 1, if and only if none is reported that was beaten by another
      failure of the action, since its own last look at the gate, whose backoff still
      runs. */
  lemma {:induction false} KeptApartIffNeverTooSoon(p: Policy, w: World, acts: seq<Act>, a: string)
    requires |p.schedule| > 0 && Consistent(p, w)
    ensures KeptApart(p, Run(p, w, acts).log, a) <==> KeptApart(p, w.log, a) && NeverTooSoon(p, w, acts, a)
    decreases |acts|
  {
    if acts != [] {
      NextKeepsConsistent(p, w, acts[0]);
      NextKeepsApart(p, w, acts[0], a);
      KeptApartIffNeverTooSoon(p, Next(p, w, acts[0]), acts[1..], a);
    }
  }

  // ---------------------------------------------------------------------------
  // Runs that keep both
  // ---------------------------------------------------------------------------

  predicate NoBeginSince(log: seq<Event>, k: nat) {
    forall i :: k <= i < |log| ==> !log[i].Begin?
  }

  predicate NoFailSince(log: seq<Event>, k: nat) {
    forall i :: k <= i < |log| ==> !log[i].Fail?
  }

  /** No request marks its action after another one was marked during its checks, or
      between another one's clearing and reporting. */
  ghost predicate Undisturbed(p: Policy, w: World, acts: seq<Act>)
    requires |p.schedule| > 0
    decreases |acts|
  {
    acts == [] ||
    ((Marks(w, acts[0]) ==> MarksUndisturbed(w, w.requests[acts[0].r])) && Undisturbed(p, Next(p, w, acts[0]), acts[1..]))
  }

  ghost predicate MarksUndisturbed(w: World, q: Request) {
    NoBeginSince(w.log, q.firstAt) && !SlippedIn(w, q)
  }

  /** Nothing fails during undisturbed checks, nor during an attempt. */
  predicate CalmFor(log: seq<Event>, q: Request) {
    if q.stage.Checking? then NoBeginSince(log, q.firstAt) ==> NoFailSince(log, q.firstAt)
    else NoFailSince(log, q.gateAt)
  }

  predicate Calm(w: World) {
    forall r :: r in w.requests ==> CalmFor(w.log, w.requests[r])
  }

  lemma UndisturbedIsQuiet(p: Policy, w: World, s: nat)
    requires |p.schedule| > 0 && Consistent(p, w) && Alone(w) && IsChecking(w, s) && MarksUndisturbed(w, w.requests[s])
    ensures Quiet(w)
  {
    assert Sound(p, w, w.requests[s]);
    forall r | InFlight(w, r) ensures w.requests[r].markedAt < w.requests[s].flagAt {
      assert Sound(p, w, w.requests[r]);
    }
    OnlyTwoWaysIn(w, w.requests[s]);
  }

  lemma SinceSnoc(log: seq<Event>, e: Event, k: nat)
    requires k <= |log|
    ensures NoBeginSince(log + [e], k) <==> NoBeginSince(log, k) && !e.Begin?
    ensures NoFailSince(log + [e], k) <==> NoFailSince(log, k) && !e.Fail?
  {
    var log' := log + [e];
    assert log'[|log|] == e && forall i :: 0 <= i < |log| ==> log'[i] == log[i];
  }

  lemma ReadKeepsCalm(p: Policy, w: World, act: Act)
    requires |p.schedule| > 0 && Consistent(p, w) && Calm(w) && (act.Arrive? || act.Look? || act.Leave? || act.Pass?)
    ensures Calm(Next(p, w, act))
  {
    ReadsOnly(p, w, act);
    var w' := Next(p, w, act);
    forall s | s in w'.requests ensures CalmFor(w'.log, w'.requests[s]) {
      assert ReadsOn(w, w', s);
      if InFlight(w', s) {
        assert InFlight(w, s);
      }
    }
  }

  lemma MarkKeepsCalm(p: Policy, w: World, act: Act)
    requires |p.schedule| > 0 && Consistent(p, w) && Alone(w) && Calm(w)
    requires Marks(w, act) && MarksUndisturbed(w, w.requests[act.r])
    ensures Calm(Next(p, w, act))
  {
    UndisturbedIsQuiet(p, w, act.r);
    var w' := Next(p, w, act);
    forall s | s in w'.requests ensures CalmFor(w'.log, w'.requests[s]) {
      var q := w.requests[s];
      assert Sound(p, w, q) && !InFlight(w, s) && CalmFor(w.log, q);
      SinceSnoc(w.log, Begin(w.requests[act.r].action, w.clock), q.firstAt);
      SinceSnoc(w.log, Begin(w.requests[act.r].action, w.clock), q.gateAt);
    }
  }

  /** A write that begins and fails nothing. */
  lemma WriteKeepsCalm(p: Policy, w: World, e: Event, q: Request)
    requires |p.schedule| > 0 && Sound(p, w, q) && CalmFor(w.log, q) && !e.Begin? && !e.Fail?
    ensures CalmFor(w.log + [e], q)
  {
    SinceSnoc(w.log, e, q.firstAt);
    SinceSnoc(w.log, e, q.gateAt);
  }

  lemma ClearKeepsCalm(p: Policy, w: World, act: Act)
    requires |p.schedule| > 0 && Consistent(p, w) && Calm(w) && act.ClearState?
    ensures Calm(Next(p, w, act))
  {
    var w' := Next(p, w, act);
    if w' != w {
      forall s | s in w'.requests ensures CalmFor(w'.log, w'.requests[s]) {
        assert Sound(p, w, w.requests[s]) && CalmFor(w.log, w.requests[s]);
        WriteKeepsCalm(p, w, ClearAll, w.requests[s]);
      }
    }
  }

  lemma ReportKeepsCalm(p: Policy, w: World, act: Act)
    requires |p.schedule| > 0 && Consistent(p, w) && Alone(w) && Calm(w) && act.Report?
    ensures Calm(Next(p, w, act))
  {
    var w' := Next(p, w, act);
    if w' != w {
      var e := w'.log[|w.log|];
      assert w'.log == w.log + [e];
      forall s | s in w'.requests ensures CalmFor(w'.log, w'.requests[s]) {
        assert s != act.r && w'.requests[s] == w.requests[s];
        assert Sound(p, w, w.requests[s]) && CalmFor(w.log, w.requests[s]);
        if Fails(w, act) {
          FailureIsNotDuring(p, w, act, s);
          SinceSnoc(w.log, e, w.requests[s].firstAt);
        } else {
          WriteKeepsCalm(p, w, e, w.requests[s]);
        }
      }
    }
  }

  lemma NextKeepsCalm(p: Policy, w: World, act: Act)
    requires |p.schedule| > 0 && Consistent(p, w) && Alone(w) && Calm(w)
    requires Marks(w, act) ==> MarksUndisturbed(w, w.requests[act.r])
    ensures Calm(Next(p, w, act))
  {
    match act
    case Arrive(_, _) => ReadKeepsCalm(p, w, act);
    case Look(_) => ReadKeepsCalm(p, w, act);
    case Leave(_) => ReadKeepsCalm(p, w, act);
    case Pass(_) => ReadKeepsCalm(p, w, act);
    case Mark(_) => if Marks(w, act) { MarkKeepsCalm(p, w, act); }
    case ClearState(_) => ClearKeepsCalm(p, w, act);
    case Report(_, _) => ReportKeepsCalm(p, w, act);
  }

  /** A failing action was marked during the checks of any other request, or those
      began before. */
  lemma FailureIsNotDuring(p: Policy, w: World, act: Act, s: nat)
    requires |p.schedule| > 0 && Consistent(p, w) && Alone(w) && Fails(w, act) && s in w.requests && s != act.r
    ensures IsChecking(w, s) && !NoBeginSince(w.log, w.requests[s].firstAt)
  {
    var q := w.requests[act.r];
    assert Sound(p, w, q) && Sound(p, w, w.requests[s]);
    assert !InFlight(w, s);
    assert ClearedBefore(q, w.requests[s].firstAt);
    assert w.log[q.markedAt].Begin?;
  }

  lemma {:induction false} NoFailNoTimes(es: seq<Event>, a: string)
    requires forall i :: 0 <= i < |es| ==> !es[i].Fail?
    ensures FailureTimes(es, a) == []
    decreases |es|
  {
    if es != [] {
      NoFailNoTimes(Init(es), a);
    }
  }

  lemma CalmIsNotTooSoon(p: Policy, w: World, act: Act, a: string)
    requires |p.schedule| > 0 && Consistent(p, w) && Calm(w)
    ensures !TooSoon(w, act, a)
  {
    if Fails(w, act) {
      var q := w.requests[act.r];
      assert Sound(p, w, q) && NoFailSince(w.log, q.gateAt);
      NoFailNoTimes(w.log[q.gateAt..], q.action);
    }
  }

  lemma {:induction false} UndisturbedKeepsBoth(p: Policy, w: World, acts: seq<Act>, a: string)
    requires |p.schedule| > 0 && Consistent(p, w) && Alone(w) && Calm(w) && Undisturbed(p, w, acts)
    ensures Exclusive(p, w, acts) && NeverTooSoon(p, w, acts, a)
    decreases |acts|
  {
    if acts != [] {
      if Marks(w, acts[0]) {
        UndisturbedIsQuiet(p, w, acts[0].r);
      }
      CalmIsNotTooSoon(p, w, acts[0], a);
      NextKeepsConsistent(p, w, acts[0]);
      NextKeepsAlone(p, w, acts[0]);
      NextKeepsCalm(p, w, acts[0]);
      UndisturbedKeepsBoth(p, Next(p, w, acts[0]), acts[1..], a);
    }
  }

  /** From the start, with clearing at any time its request runs: undisturbed checks
      make actions exclude each other, and give the failures of every action between
      resets their full spacing and bound. */
  lemma UndisturbedRuns(p: Policy, t: real, acts: seq<Act>, a: string)
    requires |p.schedule| > 0 && Undisturbed(p, Start(t), acts)
    ensures Exclusive(p, Start(t), acts)
    ensures var ts := FailureTimes(Run(p, Start(t), acts).log, a); Spaced(p, ts) && Bounded(p, ts)
  {
    UndisturbedKeepsBoth(p, Start(t), acts, a);
    KeptApartIffNeverTooSoon(p, Start(t), acts, a);
    KeptApartNow(p, Run(p, Start(t), acts).log, a);
    ApartIsSpaced(p, FailureTimes(Run(p, Start(t), acts).log, a));
  }

  // ---------------------------------------------------------------------------
  // The checks of one request
  // ---------------------------------------------------------------------------

  function Looks(acts: seq<Act>, r: nat): nat {
    if acts == [] then 0 else (if acts[0] == Look(r) then 1 else 0) + Looks(acts[1..], r)
  }

  /** The request does not arrive again. */
  predicate NoArrival(acts: seq<Act>, r: nat) {
    forall i :: 0 <= i < |acts| ==> !(acts[i].Arrive? && acts[i].r == r)
  }

  function Rest(left: seq<Check>, k: nat): seq<Check> {
    if k < |left| then left[k..] else []
  }

  lemma OtherRequestStays(p: Policy, w: World, act: Act, r: nat)
    requires |p.schedule| > 0 && act != Look(r) && !(act.Arrive? && act.r == r)
    requires IsChecking(Next(p, w, act), r)
    ensures IsChecking(w, r) && Next(p, w, act).requests[r] == w.requests[r]
  {
  }

  lemma {:induction false} LeftAfterLooks(p: Policy, w: World, acts: seq<Act>, r: nat)
    requires |p.schedule| > 0 && NoArrival(acts, r) && IsChecking(Run(p, w, acts), r)
    ensures IsChecking(w, r)
    ensures var before, after := w.requests[r], Run(p, w, acts).requests[r];
            after.action == before.action && after.stage.left == Rest(before.stage.left, Looks(acts, r))
    decreases |acts|
  {
    if acts != [] {
      assert NoArrival(acts[1..], r);
      var next := Next(p, w, acts[0]);
      LeftAfterLooks(p, next, acts[1..], r);
      if acts[0] != Look(r) {
        OtherRequestStays(p, w, acts[0], r);
      }
    }
  }

  /** After its arrival a request for a dangerous action is refused by a closed gate at its
      first two looks and by the flag at its third, and any other by a closed gate at its
      only one; it can be marked once it has looked that often, and no earlier. */
  lemma ChecksInOrder(p: Policy, w: World, acts: seq<Act>, r: nat, action: string)
    requires |p.schedule| > 0 && r !in w.requests && !w.book.inProgress && NoArrival(acts, r)
    requires IsChecking(Run(p, Next(p, w, Arrive(r, action)), acts), r)
    ensures var now := Run(p, Next(p, w, Arrive(r, action)), acts);
            var dangerous := action in {"start_backend", "restart_backend", "reload_selected_model", "select_model"};
            (r in Next(p, now, Look(r)).requests <==>
               match Looks(acts, r)
               case 0 => !BackoffActive(now.book, action, now.clock)
               case 1 => dangerous ==> !BackoffActive(now.book, action, now.clock)
               case 2 => dangerous ==> !now.book.inProgress
               case _ => true) &&
            (InFlight(Next(p, now, Mark(r)), r) <==> Looks(acts, r) >= if dangerous then 3 else 1)
  {
    LeftAfterLooks(p, Next(p, w, Arrive(r, action)), acts, r);
  }

  /** What a request writes to the recovery state: its start when it is marked, clearing
      when that is its action and before it reports, and one outcome as it leaves, success
      or failure as answered, which for clearing is always success. */
  lemma RequestWrites(p: Policy, w: World, r: nat, ok: bool)
    requires |p.schedule| > 0 && r in w.requests
    ensures var a, stage := w.requests[r].action, w.requests[r].stage;
            Next(p, w, Mark(r)).log == (if stage == Checking([]) then w.log + [Begin(a, w.clock)] else w.log) &&
            Next(p, w, ClearState(r)).log == (if stage == Running && a == "clear_failure" then w.log + [ClearAll] else w.log) &&
            (if stage.Cleared? && a == "clear_failure" then
               Next(p, w, Report(r, ok)).log == w.log + [Succeed(a, w.clock)] && r !in Next(p, w, Report(r, ok)).requests
             else if !stage.Checking? && a != "clear_failure" then
               Next(p, w, Report(r, ok)).log == w.log + [if ok then Succeed(a, w.clock) else Fail(a, w.clock)] &&
               r !in Next(p, w, Report(r, ok)).requests
             else Next(p, w, Report(r, ok)) == w)
  {
  }

  // ---------------------------------------------------------------------------
  // Starts and outcomes balance
  // ---------------------------------------------------------------------------

  function Begun(log: seq<Event>): nat {
    if log == [] then 0 else Begun(log[..|log| - 1]) + if log[|log| - 1].Begin? then 1 else 0
  }

  function Ended(log: seq<Event>): nat {
    if log == [] then 0
    else Ended(log[..|log| - 1]) + if log[|log| - 1].Fail? || log[|log| - 1].Succeed? then 1 else 0
  }

  function Flying(w: World): set<nat> {
    set r | r in w.requests && !w.requests[r].stage.Checking?
  }

  predicate Balanced(w: World) {
    Begun(w.log) == Ended(w.log) + |Flying(w)|
  }

  lemma WrittenCounts(log: seq<Event>, e: Event)
    ensures Begun(log + [e]) == Begun(log) + if e.Begin? then 1 else 0
    ensures Ended(log + [e]) == Ended(log) + if e.Fail? || e.Succeed? then 1 else 0
  {
    assert (log + [e])[..|log|] == log;
  }

  lemma MarkBalances(p: Policy, w: World, r: nat)
    requires |p.schedule| > 0 && Balanced(w)
    ensures Balanced(Next(p, w, Mark(r)))
  {
    var w' := Next(p, w, Mark(r));
    if w' != w {
      WrittenCounts(w.log, Begin(w.requests[r].action, w.clock));
      assert Flying(w') == Flying(w) + {r} && r !in Flying(w);
    }
  }

  lemma ClearBalances(p: Policy, w: World, r: nat)
    requires |p.schedule| > 0 && Balanced(w)
    ensures Balanced(Next(p, w, ClearState(r)))
  {
    WrittenCounts(w.log, ClearAll);
    assert Flying(Next(p, w, ClearState(r))) == Flying(w);
  }

  lemma ReportBalances(p: Policy, w: World, r: nat, ok: bool)
    requires |p.schedule| > 0 && Balanced(w)
    ensures Balanced(Next(p, w, Report(r, ok)))
  {
    var w' := Next(p, w, Report(r, ok));
    RequestWritesIfThere(p, w, r, ok);
    if w' != w {
      WrittenCounts(w.log, w'.log[|w.log|]);
      assert Flying(w') == Flying(w) - {r} && r in Flying(w);
    }
  }

  lemma RequestWritesIfThere(p: Policy, w: World, r: nat, ok: bool)
    requires |p.schedule| > 0
    ensures var w' := Next(p, w, Report(r, ok));
            w' == w ||
            (|w'.log| == |w.log| + 1 && w'.log == w.log + [w'.log[|w.log|]] &&
             (w'.log[|w.log|].Fail? || w'.log[|w.log|].Succeed?))
  {
    var act := Report(r, ok);
    if Fails(w, act) {
      assert Next(p, w, act).log == w.log + [Fail(w.requests[r].action, w.clock)];
    } else if Succeeds(w, act) {
      assert Next(p, w, act).log == w.log + [Succeed(w.requests[r].action, w.clock)];
    }
  }

  lemma OthersBalance(p: Policy, w: World, act: Act)
    requires |p.schedule| > 0 && Balanced(w) && (act.Arrive? || act.Look? || act.Leave? || act.Pass?)
    ensures Balanced(Next(p, w, act))
  {
    assert Flying(Next(p, w, act)) == Flying(w);
  }

  /** In every run from the start, each recorded start of an action has its one recorded
      outcome, or belongs to a request that still runs. */
  lemma {:induction false} StartsAndOutcomesBalance(p: Policy, w: World, acts: seq<Act>)
    requires |p.schedule| > 0 && Balanced(w)
    ensures Balanced(Run(p, w, acts))
    decreases |acts|
  {
    if acts != [] {
      match acts[0] {
        case Mark(r) => MarkBalances(p, w, r);
        case ClearState(r) => ClearBalances(p, w, r);
        case Report(r, ok) => ReportBalances(p, w, r, ok);
        case _ => OthersBalance(p, w, acts[0]);
      }
      StartsAndOutcomesBalance(p, Next(p, w, acts[0]), acts[1..]);
    }
  }
}
