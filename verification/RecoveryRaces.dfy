/** Runs of the recovery trigger endpoint in which actions do not exclude each other, or
    failures are not spaced. */
module RecoveryRaces {
  import opened Recovery
  import opened RecoveryEndpoint

  function ReloadChecks(r: nat): seq<Act> {
    [Arrive(r, RELOAD), Look(r), Look(r), Look(r)]
  }

  /** A reload request passes its four checks when the flag is free and the gate open. */
  lemma ReloadPasses(p: Policy, w: World, r: nat)
    requires |p.schedule| > 0 && r !in w.requests
    requires !w.book.inProgress && !BackoffActive(w.book, RELOAD, w.clock)
    ensures var n := |w.log|;
            Run(p, w, ReloadChecks(r)) == With(w, r, Request(RELOAD, Checking([]), n, n, n, 0, 0))
  {
    var n := |w.log|;
    var acts := ReloadChecks(r);
    var w1 := Next(p, w, acts[0]);
    assert w1 == With(w, r, Request(RELOAD, Checking([Gate, Gate, Flag]), n, n, n, 0, 0));
    var w2 := Next(p, w1, acts[1]);
    assert w2 == With(w, r, Request(RELOAD, Checking([Gate, Flag]), n, n, n, 0, 0));
    var w3 := Next(p, w2, acts[2]);
    assert w3 == With(w, r, Request(RELOAD, Checking([Flag]), n, n, n, 0, 0));
    FourSteps(p, w, acts[0], acts[1], acts[2], acts[3]);
  }

  lemma ThreeSteps(p: Policy, w: World, a: Act, b: Act, c: Act)
    requires |p.schedule| > 0
    ensures Run(p, w, [a, b, c]) == Next(p, Next(p, Next(p, w, a), b), c)
  {
    var w1 := Next(p, w, a);
    var w2 := Next(p, w1, b);
    assert [a, b, c][1..] == [b, c] && Run(p, w, [a, b, c]) == Run(p, w1, [b, c]);
    assert [b, c][1..] == [c] && Run(p, w1, [b, c]) == Run(p, w2, [c]);
    assert [c][1..] == [] && Run(p, Next(p, w2, c), []) == Next(p, w2, c);
  }

  lemma FourSteps(p: Policy, w: World, a: Act, b: Act, c: Act, d: Act)
    requires |p.schedule| > 0
    ensures Run(p, w, [a, b, c, d]) == Next(p, Next(p, Next(p, Next(p, w, a), b), c), d)
  {
    assert [a, b, c, d][1..] == [b, c, d] && Run(p, w, [a, b, c, d]) == Run(p, Next(p, w, a), [b, c, d]);
    ThreeSteps(p, Next(p, w, a), b, c, d);
  }

  lemma {:induction false} ExclusiveAppend(p: Policy, w: World, x: seq<Act>, y: seq<Act>)
    requires |p.schedule| > 0
    ensures Exclusive(p, w, x + y) <==> Exclusive(p, w, x) && Exclusive(p, Run(p, w, x), y)
    decreases |x|
  {
    if x == [] {
      assert x + y == y;
    } else {
      assert (x + y)[1..] == x[1..] + y;
      ExclusiveAppend(p, Next(p, w, x[0]), x[1..], y);
    }
  }

  /** A run in two parts. */
  lemma InTwoParts(p: Policy, w: World, head: seq<Act>, tail: seq<Act>, exclusive: bool)
    requires |p.schedule| > 0 && p.schedule[0] > 0
    requires FailureTimes(Run(p, Run(p, w, head), tail).log, RELOAD) == [0.0, 0.0]
    requires if exclusive then Exclusive(p, w, head) && Exclusive(p, Run(p, w, head), tail)
             else !Exclusive(p, Run(p, w, head), tail)
    ensures Exclusive(p, w, head + tail) == exclusive && !KeptApart(p, Run(p, w, head + tail).log, RELOAD)
  {
    RunAppend(p, w, head, tail);
    ExclusiveAppend(p, w, head, tail);
    TwoFailuresAtOnce(p, Run(p, w, head + tail).log, RELOAD, 0.0);
  }

  /** Two requests check before either is marked. */
  function BothChecked(): seq<Act> {
    ReloadChecks(1) + ReloadChecks(2)
  }

  function Ready(): Request { Request(RELOAD, Checking([]), 0, 0, 0, 0, 0) }

  lemma BothReady(p: Policy)
    requires |p.schedule| > 0
    ensures Run(p, Start(0.0), BothChecked()) == With(With(Start(0.0), 1, Ready()), 2, Ready())
  {
    ReloadPasses(p, Start(0.0), 1);
    ReloadPasses(p, With(Start(0.0), 1, Ready()), 2);
    RunAppend(p, Start(0.0), ReloadChecks(1), ReloadChecks(2));
  }

  lemma TwoFailuresAtOnce(p: Policy, es: seq<Event>, a: string, t: real)
    requires |p.schedule| > 0 && p.schedule[0] > 0 && FailureTimes(es, a) == [t, t]
    ensures !KeptApart(p, es, a) && !Spaced(p, [t, t])
  {
    assert [t, t][1] - [t, t][0] < p.schedule[0] as real;
    assert Sum(p.schedule[..1]) == p.schedule[0] by { SumNext(p.schedule, 1); }
  }

  lemma {:induction false} FailureTimesSnoc(es: seq<Event>, e: Event, a: string)
    ensures FailureTimes(es + [e], a) ==
            match e
            case Fail(b, t) => if a == b then FailureTimes(es, a) + [t] else FailureTimes(es, a)
            case Succeed(b, _) => if a == b then [] else FailureTimes(es, a)
            case Clear(b) => if a == b then [] else FailureTimes(es, a)
            case ClearAll => []
            case Begin(_, _) => FailureTimes(es, a)
  {
    assert Init(es + [e]) == es && Last(es + [e]) == e;
  }

  function BothMarked(p: Policy): World
    requires |p.schedule| > 0
  {
    var begun := Begin(RELOAD, 0.0);
    var running := Ready().(stage := Running);
    World(Step(p, Step(p, FRESH, begun), begun), [begun, begun], map[1 := running, 2 := running.(markedAt := 1)], 0.0)
  }

  lemma BothMark(p: Policy, w: World)
    requires |p.schedule| > 0 && w == With(With(Start(0.0), 1, Ready()), 2, Ready())
    ensures var w1 := Next(p, w, Mark(1));
            Marks(w1, Mark(2)) && !Quiet(w1) && Next(p, w1, Mark(2)) == BothMarked(p)
  {
    var w1 := Next(p, w, Mark(1));
    assert w1.log == [Begin(RELOAD, 0.0)] && InFlight(w1, 1);
    var w2 := Next(p, w1, Mark(2));
    assert w2.log == [Begin(RELOAD, 0.0), Begin(RELOAD, 0.0)];
    assert w2.requests == BothMarked(p).requests;
  }

  lemma BothFail(p: Policy, w: World)
    requires |p.schedule| > 0 && InFlight(w, 1) && InFlight(w, 2) && w.clock == 0.0
    requires w.requests[1].action == RELOAD && w.requests[2].action == RELOAD
    ensures FailureTimes(Next(p, Next(p, w, Report(1, false)), Report(2, false)).log, RELOAD) ==
            FailureTimes(w.log, RELOAD) + [0.0, 0.0]
  {
    var w1 := Next(p, w, Report(1, false));
    assert w1.log == w.log + [Fail(RELOAD, 0.0)];
    assert Next(p, w1, Report(2, false)).log == w1.log + [Fail(RELOAD, 0.0)];
    FailureTimesSnoc(w.log, Fail(RELOAD, 0.0), RELOAD);
    FailureTimesSnoc(w1.log, Fail(RELOAD, 0.0), RELOAD);
  }

  function AtOnce(): seq<Act> { [Mark(1), Mark(2), Report(1, false), Report(2, false)] }

  lemma SecondMarkIsNotAlone(p: Policy, w: World)
    requires |p.schedule| > 0 && Marks(Next(p, w, Mark(1)), Mark(2)) && !Quiet(Next(p, w, Mark(1)))
    ensures !Exclusive(p, w, AtOnce())
  {
    assert AtOnce()[1..][0] == Mark(2);
    assert !Exclusive(p, Next(p, w, Mark(1)), AtOnce()[1..]);
  }

  lemma AtOnceFailsTwice(p: Policy, w: World)
    requires |p.schedule| > 0 && Next(p, Next(p, w, Mark(1)), Mark(2)) == BothMarked(p)
    ensures FailureTimes(Run(p, w, AtOnce()).log, RELOAD) == [0.0, 0.0]
  {
    FourSteps(p, w, Mark(1), Mark(2), Report(1, false), Report(2, false));
    BothFail(p, BothMarked(p));
    NoFailNoTimes(BothMarked(p).log, RELOAD);
    assert [] + [0.0, 0.0] == [0.0, 0.0];
  }

  /** The flag alone does not make actions exclude each other: both requests mark, run
      and fail at once. */
  lemma RaceBreaksExclusion(p: Policy)
    requires |p.schedule| > 0 && p.schedule[0] > 0
    ensures var acts := BothChecked() + AtOnce();
            !Exclusive(p, Start(0.0), acts) && !KeptApart(p, Run(p, Start(0.0), acts).log, RELOAD)
  {
    BothReady(p);
    var w := Run(p, Start(0.0), BothChecked());
    BothMark(p, w);
    SecondMarkIsNotAlone(p, w);
    AtOnceFailsTwice(p, w);
    InTwoParts(p, Start(0.0), BothChecked(), AtOnce(), false);
  }

  lemma {:induction false} ReadsAreExclusive(p: Policy, w: World, acts: seq<Act>)
    requires |p.schedule| > 0 && forall act :: act in acts ==> !act.Mark?
    ensures Exclusive(p, w, acts)
    decreases |acts|
  {
    if acts != [] {
      assert acts[0] in acts && forall act :: act in acts[1..] ==> act in acts;
      ReadsAreExclusive(p, Next(p, w, acts[0]), acts[1..]);
    }
  }

  function FirstFailed(p: Policy): World
    requires |p.schedule| > 0
  {
    var log := [Begin(RELOAD, 0.0), Fail(RELOAD, 0.0)];
    World(Step(p, Step(p, FRESH, log[0]), log[1]), log, map[2 := Ready()], 0.0)
  }

  lemma FirstFails(p: Policy, w: World)
    requires |p.schedule| > 0 && w == With(With(Start(0.0), 1, Ready()), 2, Ready())
    ensures Marks(w, Mark(1)) && Quiet(w) && Next(p, Next(p, w, Mark(1)), Report(1, false)) == FirstFailed(p)
  {
    var w1 := Next(p, w, Mark(1));
    assert w1.log == [Begin(RELOAD, 0.0)];
    var w2 := Next(p, w1, Report(1, false));
    assert w2.log == [Begin(RELOAD, 0.0), Fail(RELOAD, 0.0)];
    assert w2.requests == map[2 := Ready()];
  }

  lemma SecondFails(p: Policy)
    requires |p.schedule| > 0
    ensures Quiet(FirstFailed(p))
    ensures FailureTimes(Next(p, Next(p, FirstFailed(p), Mark(2)), Report(2, false)).log, RELOAD) == [0.0, 0.0]
  {
    var w := FirstFailed(p);
    var w1 := Next(p, w, Mark(2));
    assert w1.log == w.log + [Begin(RELOAD, 0.0)] && InFlight(w1, 2) && w1.requests[2].action == RELOAD;
    var w2 := Next(p, w1, Report(2, false));
    assert w2.log == w1.log + [Fail(RELOAD, 0.0)];
    FailureTimesSnoc(w1.log, Fail(RELOAD, 0.0), RELOAD);
    FailureTimesSnoc(w.log, Begin(RELOAD, 0.0), RELOAD);
    FirstFailureTimes(RELOAD, 0.0);
  }

  lemma FirstFailureTimes(a: string, t: real)
    ensures FailureTimes([Begin(a, t), Fail(a, t)], a) == [t]
  {
    var begun := [Begin(a, t)];
    assert [Begin(a, t), Fail(a, t)] == begun + [Fail(a, t)];
    FailureTimesSnoc(begun, Fail(a, t), a);
    NoFailNoTimes(begun, a);
  }

  function InTurn(): seq<Act> { [Mark(1), Report(1, false), Mark(2), Report(2, false)] }

  lemma InTurnIsExclusive(p: Policy, w: World)
    requires |p.schedule| > 0 && Quiet(w) && Next(p, Next(p, w, Mark(1)), Report(1, false)) == FirstFailed(p)
    ensures Exclusive(p, w, InTurn())
  {
    var tail := InTurn();
    SecondFails(p);
    assert tail[2..][1..] == [Report(2, false)];
    ReadsAreExclusive(p, Next(p, FirstFailed(p), Mark(2)), tail[2..][1..]);
    assert Exclusive(p, FirstFailed(p), tail[2..]);
    assert tail[1..][1..] == tail[2..];
    assert Exclusive(p, Next(p, w, Mark(1)), tail[1..]);
  }

  lemma InTurnFailsTwice(p: Policy, w: World)
    requires |p.schedule| > 0 && Next(p, Next(p, w, Mark(1)), Report(1, false)) == FirstFailed(p)
    ensures FailureTimes(Run(p, w, InTurn()).log, RELOAD) == [0.0, 0.0]
  {
    FourSteps(p, w, Mark(1), Report(1, false), Mark(2), Report(2, false));
    SecondFails(p);
  }

  lemma ChecksAreExclusive(p: Policy)
    requires |p.schedule| > 0
    ensures Exclusive(p, Start(0.0), BothChecked())
  {
    assert forall act :: act in ReloadChecks(1) || act in ReloadChecks(2) ==> !act.Mark?;
    ReadsAreExclusive(p, Start(0.0), BothChecked());
  }

  /** Exclusion is not enough for spacing: the second request looked at the gate before
      the first one failed, and runs after it. */
  lemma ExclusionIsNotEnough(p: Policy)
    requires |p.schedule| > 0 && p.schedule[0] > 0
    ensures var acts := BothChecked() + InTurn();
            Exclusive(p, Start(0.0), acts) && !KeptApart(p, Run(p, Start(0.0), acts).log, RELOAD)
  {
    BothReady(p);
    var w := Run(p, Start(0.0), BothChecked());
    ChecksAreExclusive(p);
    FirstFails(p, w);
    InTurnIsExclusive(p, w);
    InTurnFailsTwice(p, w);
    InTwoParts(p, Start(0.0), BothChecked(), InTurn(), true);
  }

  // One request clears everything; a second one starts a reload before the first has
  // reported, whose report frees the flag for a third one.
  function Clearing(): seq<Act> { [Arrive(1, CLEAR_FAILURE), Look(1), Mark(1), ClearState(1)] }

  const CLEARED := Request(CLEAR_FAILURE, Stage.Cleared, 0, 0, 0, 0, 1)
  const CLEARED_LOG := [Begin(CLEAR_FAILURE, 0.0), ClearAll]

  lemma ClearingClears(p: Policy)
    requires |p.schedule| > 0
    ensures Run(p, Start(0.0), Clearing()) == World(FRESH, CLEARED_LOG, map[1 := CLEARED], 0.0)
  {
    var acts := Clearing();
    FourSteps(p, Start(0.0), acts[0], acts[1], acts[2], acts[3]);
    var w1 := Next(p, Start(0.0), acts[0]);
    assert w1 == With(Start(0.0), 1, Request(CLEAR_FAILURE, Checking([Gate]), 0, 0, 0, 0, 0));
    var w2 := Next(p, w1, acts[1]);
    assert w2 == With(Start(0.0), 1, Request(CLEAR_FAILURE, Checking([]), 0, 0, 0, 0, 0));
    var w3 := Next(p, w2, acts[2]);
    assert w3.requests == map[1 := Request(CLEAR_FAILURE, Running, 0, 0, 0, 0, 0)];
    assert w3.log == [Begin(CLEAR_FAILURE, 0.0)];
    var w4 := Next(p, w3, acts[3]);
    assert w4.requests == map[1 := CLEARED] && w4.log == CLEARED_LOG;
  }

  function ReadyAt(n: nat): Request { Request(RELOAD, Checking([]), n, n, n, 0, 0) }

  /** The second request marks while the first one has not reported; the report frees
      the flag. */
  lemma FlagIsFreed(p: Policy, w: World)
    requires |p.schedule| > 0 && w == World(FRESH, CLEARED_LOG, map[1 := CLEARED, 2 := ReadyAt(2)], 0.0)
    ensures Marks(w, Mark(2)) && !Quiet(w)
    ensures var w' := Run(p, w, [Mark(2), Report(1, true)]);
            w'.log == CLEARED_LOG + [Begin(RELOAD, 0.0), Succeed(CLEAR_FAILURE, 0.0)] && w'.clock == 0.0 &&
            w'.requests == map[2 := ReadyAt(2).(stage := Running, markedAt := 2)] &&
            !w'.book.inProgress && !BackoffActive(w'.book, RELOAD, 0.0)
  {
    assert InFlight(w, 1);
    var w1 := Next(p, w, Mark(2));
    assert w1.log == CLEARED_LOG + [Begin(RELOAD, 0.0)];
    assert [Mark(2), Report(1, true)][1..] == [Report(1, true)] && [Report(1, true)][1..] == [];
    var w2 := Next(p, w1, Report(1, true));
    assert Run(p, w1, [Report(1, true)]) == Run(p, w2, []);
    assert w2.log == w1.log + [Succeed(CLEAR_FAILURE, 0.0)];
    assert w2.requests == map[2 := ReadyAt(2).(stage := Running, markedAt := 2)];
  }

  function SecondReload(): seq<Act> { [Mark(2), Report(1, true)] + ReloadChecks(3) }

  function BothReloadsFail(): seq<Act> { [Mark(3), Report(2, false), Report(3, false)] }

  lemma ReloadsFail(p: Policy, w: World)
    requires |p.schedule| > 0 && InFlight(w, 2) && w.requests[2].action == RELOAD && w.clock == 0.0
    requires IsChecking(w, 3) && w.requests[3].stage.left == [] && w.requests[3].action == RELOAD
    ensures FailureTimes(Run(p, w, BothReloadsFail()).log, RELOAD) == FailureTimes(w.log, RELOAD) + [0.0, 0.0]
  {
    var w1 := Next(p, w, Mark(3));
    var w2 := Next(p, w1, Report(2, false));
    ThreeSteps(p, w, Mark(3), Report(2, false), Report(3, false));
    assert w1.log == w.log + [Begin(RELOAD, 0.0)];
    assert w2.log == w1.log + [Fail(RELOAD, 0.0)];
    assert Next(p, w2, Report(3, false)).log == w2.log + [Fail(RELOAD, 0.0)];
    FailureTimesSnoc(w.log, Begin(RELOAD, 0.0), RELOAD);
    FailureTimesSnoc(w1.log, Fail(RELOAD, 0.0), RELOAD);
    FailureTimesSnoc(w2.log, Fail(RELOAD, 0.0), RELOAD);
  }

  function SlipsIn(): World { World(FRESH, CLEARED_LOG, map[1 := CLEARED, 2 := ReadyAt(2)], 0.0) }

  lemma SecondSlipsIn(p: Policy)
    requires |p.schedule| > 0
    ensures Run(p, Start(0.0), Clearing() + ReloadChecks(2)) == SlipsIn()
  {
    ClearingClears(p);
    RunAppend(p, Start(0.0), Clearing(), ReloadChecks(2));
    ReloadPasses(p, World(FRESH, CLEARED_LOG, map[1 := CLEARED], 0.0), 2);
    assert map[1 := CLEARED][2 := ReadyAt(2)] == map[1 := CLEARED, 2 := ReadyAt(2)];
  }

  lemma ThirdFollows(p: Policy)
    requires |p.schedule| > 0
    ensures FailureTimes(Run(p, SlipsIn(), SecondReload() + BothReloadsFail()).log, RELOAD) == [0.0, 0.0]
  {
    RunAppend(p, SlipsIn(), SecondReload(), BothReloadsFail());
    ThirdIsReady(p);
    var w := Run(p, SlipsIn(), SecondReload());
    ReloadsFail(p, w);
    NoFailNoTimes(w.log, RELOAD);
    assert [] + [0.0, 0.0] == [0.0, 0.0];
  }

  lemma ThirdIsReady(p: Policy)
    requires |p.schedule| > 0
    ensures var w := Run(p, SlipsIn(), SecondReload());
            InFlight(w, 2) && w.requests[2].action == RELOAD && w.clock == 0.0 &&
            IsChecking(w, 3) && w.requests[3].stage.left == [] && w.requests[3].action == RELOAD &&
            forall i :: 0 <= i < |w.log| ==> !w.log[i].Fail?
  {
    FlagIsFreed(p, SlipsIn());
    RunAppend(p, SlipsIn(), [Mark(2), Report(1, true)], ReloadChecks(3));
    ReloadPasses(p, Run(p, SlipsIn(), [Mark(2), Report(1, true)]), 3);
  }

  /** A clear_failure request breaks both, even if every request marks at once after its
      own checks. */
  lemma ClearingBreaksExclusion(p: Policy)
    requires |p.schedule| > 0 && p.schedule[0] > 0
    ensures var acts := Clearing() + ReloadChecks(2) + (SecondReload() + BothReloadsFail());
            !Exclusive(p, Start(0.0), acts) && !KeptApart(p, Run(p, Start(0.0), acts).log, RELOAD)
  {
    SecondSlipsIn(p);
    FlagIsFreed(p, SlipsIn());
    assert (SecondReload() + BothReloadsFail())[0] == Mark(2);
    ThirdFollows(p);
    InTwoParts(p, Start(0.0), Clearing() + ReloadChecks(2), SecondReload() + BothReloadsFail(), false);
  }
}
