/** Per-action recovery attempts, backoff and the manual-intervention latch. */
module Recovery {
  import opened Common

  datatype Policy = Policy(schedule: seq<int>, maxAttempts: int)

  /** The in-memory state; the dictionaries may lack an action. */
  datatype Book = Book(
    attempts: map<string, nat>,
    backoffUntil: map<string, real>,
    manualRequired: map<string, bool>,
    inProgress: bool,
    currentAction: string)

  datatype Event =
    | Begin(action: string, at: real)
    | Fail(action: string, at: real)
    | Succeed(action: string, at: real)
    | Clear(action: string)
    | ClearAll

  const FRESH := Book(map[], map[], map[], false, "")

  function Without<T>(m: map<string, T>, k: string): map<string, T> {
    map x | x in m && x != k :: m[x]
  }

  /** The index into the schedule is clamped to its last entry. */
  function Delay(schedule: seq<int>, failure: nat): int
    requires |schedule| > 0
  {
    schedule[if failure < |schedule| then failure else |schedule| - 1]
  }

  predicate BackoffActive(b: Book, action: string, now: real) {
    Get(b.manualRequired, action, false) || now < Get(b.backoffUntil, action, 0.0)
  }

  function Step(p: Policy, b: Book, e: Event): Book
    requires |p.schedule| > 0
  {
    match e
    case Begin(a, _) => b.(inProgress := true, currentAction := a)
    case Succeed(a, _) =>
      b.(inProgress := false, currentAction := "", attempts := b.attempts[a := 0],
         backoffUntil := b.backoffUntil[a := 0.0], manualRequired := Without(b.manualRequired, a))
    case Fail(a, t) =>
      var count := Get(b.attempts, a, 0) + 1;
      var b' := b.(inProgress := false, currentAction := "", attempts := b.attempts[a := count]);
      if count > p.maxAttempts then
        b'.(manualRequired := b.manualRequired[a := true], backoffUntil := b.backoffUntil[a := 0.0])
      else
        b'.(backoffUntil := b.backoffUntil[a := t + Delay(p.schedule, count - 1) as real])
    case Clear(a) =>
      var b' := b.(attempts := Without(b.attempts, a), backoffUntil := Without(b.backoffUntil, a),
                   manualRequired := Without(b.manualRequired, a));
      if b.currentAction == a then b'.(inProgress := false, currentAction := "") else b'
    case ClearAll => FRESH
  }

  // ---------------------------------------------------------------------------
  // The object
  // ---------------------------------------------------------------------------

  class RecoveryRuntimeState {
    const policy: Policy
    var attempts: map<string, nat>
    var backoffUntil: map<string, real>
    var manualRequired: map<string, bool>
    var inProgress: bool
    var currentAction: string

    function View(): Book
      reads this
    {
      Book(attempts, backoffUntil, manualRequired, inProgress, currentAction)
    }

    constructor (policy: Policy)
      ensures this.policy == policy && View() == FRESH
    {
      this.policy := policy;
      attempts, backoffUntil, manualRequired, inProgress, currentAction := map[], map[], map[], false, "";
    }

    method IsBackoffActive(action: string, now: real) returns (active: bool)
      ensures active == BackoffActive(View(), action, now)
    {
      if action in manualRequired && manualRequired[action] {
        return true;
      }
      active := now < Get(backoffUntil, action, 0.0);
    }

    method MarkStarted(action: string, now: real)
      requires |policy.schedule| > 0
      modifies this
      ensures View() == Step(policy, old(View()), Begin(action, now))
    {
      inProgress, currentAction := true, action;
    }

    method MarkCompleted(action: string, now: real)
      requires |policy.schedule| > 0
      modifies this
      ensures View() == Step(policy, old(View()), Succeed(action, now))
    {
      inProgress, currentAction := false, "";
      attempts := attempts[action := 0];
      backoffUntil := backoffUntil[action := 0.0];
      manualRequired := Without(manualRequired, action);
    }

    method MarkFailed(action: string, now: real)
      requires |policy.schedule| > 0
      modifies this
      ensures View() == Step(policy, old(View()), Fail(action, now))
    {
      inProgress, currentAction := false, "";
      var count := Get(attempts, action, 0) + 1;
      attempts := attempts[action := count];
      if count > policy.maxAttempts {
        manualRequired := manualRequired[action := true];
        backoffUntil := backoffUntil[action := 0.0];
      } else {
        var idx := if count - 1 < |policy.schedule| - 1 then count - 1 else |policy.schedule| - 1;
        backoffUntil := backoffUntil[action := now + policy.schedule[idx] as real];
      }
    }

    method ClearState(action: Option<string>)
      requires |policy.schedule| > 0
      modifies this
      ensures View() == Step(policy, old(View()), if action.Some? then Clear(action.value) else ClearAll)
    {
      if action.None? {
        inProgress, currentAction := false, "";
        attempts, backoffUntil, manualRequired := map[], map[], map[];
      } else {
        attempts := Without(attempts, action.value);
        backoffUntil := Without(backoffUntil, action.value);
        manualRequired := Without(manualRequired, action.value);
        if currentAction == action.value {
          inProgress, currentAction := false, "";
        }
      }
    }
  }

  /** Environment configuration: a list of integers, or nothing where parsing failed;
      anything unusable gives the default schedule. */
  const DEFAULT_SCHEDULE := [30, 120, 300]

  function ParsedSchedule(parts: Option<seq<int>>): (s: seq<int>)
    ensures |s| > 0 && forall i :: 0 <= i < |s| ==> s[i] >= 1
    ensures s == [30, 120, 300] || parts == Some(s)
    ensures parts.Some? && parts.value != [] && (forall i :: 0 <= i < |parts.value| ==> parts.value[i] >= 1) <==> parts == Some(s)
  {
    if parts.None? || parts.value == [] || exists i :: 0 <= i < |parts.value| && parts.value[i] <= 0
    then DEFAULT_SCHEDULE
    else parts.value
  }

  // ---------------------------------------------------------------------------
  // Reading the state off the history
  // ---------------------------------------------------------------------------

  function Init(es: seq<Event>): seq<Event>
    requires es != []
  {
    es[..|es| - 1]
  }

  function Last(es: seq<Event>): Event
    requires es != []
  {
    es[|es| - 1]
  }

  function After(p: Policy, es: seq<Event>): Book
    requires |p.schedule| > 0
    decreases |es|
  {
    if es == [] then FRESH else Step(p, After(p, Init(es)), Last(es))
  }

  /** When the action failed since its last success or clearing. */
  function FailureTimes(es: seq<Event>, a: string): seq<real>
    decreases |es|
  {
    if es == [] then []
    else
      match Last(es)
      case Fail(b, t) => if a == b then FailureTimes(Init(es), a) + [t] else FailureTimes(Init(es), a)
      case Succeed(b, _) => if a == b then [] else FailureTimes(Init(es), a)
      case Clear(b) => if a == b then [] else FailureTimes(Init(es), a)
      case ClearAll => []
      case Begin(_, _) => FailureTimes(Init(es), a)
  }

  /** The entries of action a, given the times of its failures since its last reset: the
      latch holds exactly when there are more than maxAttempts, and until then failure n
      waits for entry n of the schedule, or for the last one beyond its end. */
  predicate Reflects(p: Policy, b: Book, a: string, ts: seq<real>)
    requires |p.schedule| > 0
  {
    Get(b.attempts, a, 0) == |ts| &&
    (Get(b.manualRequired, a, false) <==> |ts| > 0 && |ts| > p.maxAttempts) &&
    Get(b.backoffUntil, a, 0.0) ==
    if |ts| == 0 || |ts| > p.maxAttempts then 0.0
    else if |ts| <= |p.schedule| then ts[|ts| - 1] + p.schedule[|ts| - 1] as real
    else ts[|ts| - 1] + p.schedule[|p.schedule| - 1] as real
  }

  lemma StepReflects(p: Policy, b: Book, e: Event, a: string, ts: seq<real>)
    requires |p.schedule| > 0 && Reflects(p, b, a, ts)
    ensures match e
            case Fail(c, t) => Reflects(p, Step(p, b, e), a, if a == c then ts + [t] else ts)
            case Succeed(c, _) => Reflects(p, Step(p, b, e), a, if a == c then [] else ts)
            case Clear(c) => Reflects(p, Step(p, b, e), a, if a == c then [] else ts)
            case ClearAll => Reflects(p, Step(p, b, e), a, [])
            case Begin(_, _) => Reflects(p, Step(p, b, e), a, ts)
  {
    if e.Fail? && e.action == a {
      var count := |ts| + 1;
      assert Get(Step(p, b, e).attempts, a, 0) == count;
    }
  }

  /** Attempt count, backoff deadline and the manual latch of an action depend on its
      failures since the last reset and on nothing else, in every interleaving with
      other actions. */
  lemma {:induction false} StateFromHistory(p: Policy, es: seq<Event>, a: string)
    requires |p.schedule| > 0
    ensures Reflects(p, After(p, es), a, FailureTimes(es, a))
    decreases |es|
  {
    if es != [] {
      StateFromHistory(p, Init(es), a);
      StepReflects(p, After(p, Init(es)), Last(es), a, FailureTimes(Init(es), a));
    }
  }

  predicate Unmarks(e: Event, a: string) {
    e.Begin? || e.Fail? || e.Succeed? || e == ClearAll || e == Clear(a)
  }

  /** Action a was marked as started, and since then nothing was marked or reported, and
      neither it nor everything was cleared. */
  predicate Marked(es: seq<Event>, a: string) {
    exists i :: 0 <= i < |es| && es[i].Begin? && es[i].action == a &&
                forall j :: i < j < |es| ==> !Unmarks(es[j], a)
  }

  lemma MarkedSnoc(es: seq<Event>, a: string)
    requires es != []
    ensures Marked(es, a) <==>
            (Last(es).Begin? && Last(es).action == a) || (Marked(Init(es), a) && !Unmarks(Last(es), a))
  {
    var n := |es| - 1;
    if Last(es).Begin? && Last(es).action == a {
      assert es[n].Begin?;
    } else if Marked(Init(es), a) && !Unmarks(Last(es), a) {
      var i :| 0 <= i < n && Init(es)[i].Begin? && Init(es)[i].action == a &&
               forall j :: i < j < n ==> !Unmarks(Init(es)[j], a);
      assert es[i] == Init(es)[i];
      forall j | i < j < |es| ensures !Unmarks(es[j], a) {
        if j < n {
          assert es[j] == Init(es)[j];
        }
      }
    }
    if Marked(es, a) && !(Last(es).Begin? && Last(es).action == a) {
      var i :| 0 <= i < |es| && es[i].Begin? && es[i].action == a && forall j :: i < j < |es| ==> !Unmarks(es[j], a);
      assert i < n && Init(es)[i] == es[i];
      assert forall j :: i < j < n ==> Init(es)[j] == es[j];
    }
  }

  /** The in-progress flag names the action marked last, until anything is reported or it
      is cleared. */
  lemma {:induction false} FlagFromHistory(p: Policy, es: seq<Event>, a: string)
    requires |p.schedule| > 0
    ensures var b := After(p, es);
            (b.inProgress && b.currentAction == a <==> Marked(es, a)) && (b.inProgress || b.currentAction == "")
    decreases |es|
  {
    if es != [] {
      FlagFromHistory(p, Init(es), a);
      MarkedSnoc(es, a);
    }
  }

  // ---------------------------------------------------------------------------
  // Spacing of failures
  // ---------------------------------------------------------------------------

  /** Each failure comes no earlier than the one before it by the schedule's next entry,
      or by its last one when it is used up. */
  predicate Apart(p: Policy, ts: seq<real>)
    requires |p.schedule| > 0
  {
    forall k :: 0 < k < |ts| ==>
      ts[k] - ts[k - 1] >= if k <= |p.schedule| then p.schedule[k - 1] as real else p.schedule[|p.schedule| - 1] as real
  }

  predicate Bounded(p: Policy, ts: seq<real>) {
    |ts| <= 1 || |ts| <= p.maxAttempts + 1
  }

  /** At every moment the failures of the action since its last reset are apart and
      at most maxAttempts + 1. */
  predicate KeptApart(p: Policy, es: seq<Event>, a: string)
    requires |p.schedule| > 0
    decreases |es|
  {
    es == [] ||
    (KeptApart(p, Init(es), a) && Apart(p, FailureTimes(es, a)) && Bounded(p, FailureTimes(es, a)))
  }

  /** A first failure, or one recorded while is_backoff_active would answer no. */
  predicate FailsInTime(p: Policy, es: seq<Event>, a: string, t: real)
    requires |p.schedule| > 0
  {
    FailureTimes(es, a) != [] ==> !BackoffActive(After(p, es), a, t)
  }

  predicate AllFailInTime(p: Policy, es: seq<Event>, a: string)
    requires |p.schedule| > 0
    decreases |es|
  {
    es == [] ||
    (AllFailInTime(p, Init(es), a) &&
     (Last(es).Fail? && Last(es).action == a ==> FailsInTime(p, Init(es), a, Last(es).at)))
  }

  lemma ApartSnoc(p: Policy, ts: seq<real>, t: real)
    requires |p.schedule| > 0
    ensures Apart(p, ts + [t]) <==>
            Apart(p, ts) &&
            (ts != [] ==>
               t - ts[|ts| - 1] >= if |ts| <= |p.schedule| then p.schedule[|ts| - 1] as real
                                   else p.schedule[|p.schedule| - 1] as real)
  {
    var all := ts + [t];
    if Apart(p, all) {
      forall k | 0 < k < |ts|
        ensures ts[k] - ts[k - 1] >= if k <= |p.schedule| then p.schedule[k - 1] as real
                                     else p.schedule[|p.schedule| - 1] as real
      {
        assert all[k] == ts[k] && all[k - 1] == ts[k - 1];
      }
      assert ts != [] ==> all[|ts|] == t && all[|ts| - 1] == ts[|ts| - 1];
    }
  }

  /** Failures keep apart, and within the bound, if and only if every repeated one is
      recorded while the gate of its action is open. */
  lemma {:induction false} KeptApartIff(p: Policy, es: seq<Event>, a: string)
    requires |p.schedule| > 0
    ensures KeptApart(p, es, a) <==> AllFailInTime(p, es, a)
    decreases |es|
  {
    if es != [] {
      KeptApartIff(p, Init(es), a);
      if KeptApart(p, Init(es), a) {
        KeptApartNow(p, Init(es), a);
      }
      if Last(es).Fail? && Last(es).action == a {
        StateFromHistory(p, Init(es), a);
        ApartSnoc(p, FailureTimes(Init(es), a), Last(es).at);
      }
    }
  }

  lemma KeptApartNow(p: Policy, es: seq<Event>, a: string)
    requires |p.schedule| > 0 && KeptApart(p, es, a)
    ensures Apart(p, FailureTimes(es, a)) && Bounded(p, FailureTimes(es, a))
  {
  }

  function Sum(s: seq<int>): int {
    if s == [] then 0 else Sum(s[..|s| - 1]) + s[|s| - 1]
  }

  /** Failure number k + 1 comes no earlier than the first one plus the first k entries of
      the schedule, and its last entry once more for each failure beyond its end. */
  predicate Spaced(p: Policy, ts: seq<real>)
    requires |p.schedule| > 0
  {
    forall k :: 0 <= k < |ts| ==>
      ts[k] - ts[0] >= if k <= |p.schedule| then Sum(p.schedule[..k]) as real
                       else (Sum(p.schedule) + (k - |p.schedule|) * p.schedule[|p.schedule| - 1]) as real
  }

  lemma SumNext(s: seq<int>, k: nat)
    requires 0 < k <= |s|
    ensures Sum(s[..k]) == Sum(s[..k - 1]) + s[k - 1]
  {
    assert s[..k][..k - 1] == s[..k - 1];
  }

  lemma {:induction false} ApartIsSpaced(p: Policy, ts: seq<real>)
    requires |p.schedule| > 0 && Apart(p, ts)
    ensures Spaced(p, ts)
    decreases |ts|
  {
    if ts != [] {
      var n := |ts| - 1;
      assert ts == ts[..n] + [ts[n]];
      ApartSnoc(p, ts[..n], ts[n]);
      ApartIsSpaced(p, ts[..n]);
      forall k | 0 <= k < |ts|
        ensures ts[k] - ts[0] >= if k <= |p.schedule| then Sum(p.schedule[..k]) as real
                                 else (Sum(p.schedule) + (k - |p.schedule|) * p.schedule[|p.schedule| - 1]) as real
      {
        if k < n {
          assert ts[..n][k] == ts[k];
        } else if k > 0 {
          assert ts[..n][k - 1] == ts[k - 1] && ts[..n][0] == ts[0];
          LastIsSpaced(p, k, ts[k - 1] - ts[0], ts[k] - ts[k - 1]);
        }
      }
    }
  }

  lemma LastIsSpaced(p: Policy, k: nat, before: real, step: real)
    requires |p.schedule| > 0 && k > 0
    requires before >= if k - 1 <= |p.schedule| then Sum(p.schedule[..k - 1]) as real
                       else (Sum(p.schedule) + (k - 1 - |p.schedule|) * p.schedule[|p.schedule| - 1]) as real
    requires step >= if k <= |p.schedule| then p.schedule[k - 1] as real else p.schedule[|p.schedule| - 1] as real
    ensures before + step >= if k <= |p.schedule| then Sum(p.schedule[..k]) as real
                             else (Sum(p.schedule) + (k - |p.schedule|) * p.schedule[|p.schedule| - 1]) as real
  {
    var last := p.schedule[|p.schedule| - 1];
    if k <= |p.schedule| {
      SumNext(p.schedule, k);
    } else {
      assert p.schedule[..|p.schedule|] == p.schedule;
      assert (k - |p.schedule|) * last == (k - 1 - |p.schedule|) * last + last;
    }
  }

  /** Start time of the latest attempt of the action that found the gate open, if the
      action has not failed since then. */
  function OpenAttempt(p: Policy, es: seq<Event>, a: string): Option<real>
    requires |p.schedule| > 0
    decreases |es|
  {
    if es == [] then None
    else
      match Last(es)
      case Begin(b, s) =>
        if a == b && !BackoffActive(After(p, Init(es)), a, s) then Some(s) else OpenAttempt(p, Init(es), a)
      case Fail(b, _) => if a == b then None else OpenAttempt(p, Init(es), a)
      case _ => OpenAttempt(p, Init(es), a)
  }

  /** Every repeated failure belongs to an attempt that began, with the gate open,
      after the previous failure was recorded. */
  predicate Gated(p: Policy, es: seq<Event>, a: string)
    requires |p.schedule| > 0
    decreases |es|
  {
    es == [] ||
    (Gated(p, Init(es), a) &&
     (Last(es).Fail? && Last(es).action == a && FailureTimes(Init(es), a) != [] ==>
        OpenAttempt(p, Init(es), a).Some? && OpenAttempt(p, Init(es), a).value <= Last(es).at))
  }

  lemma {:induction false} OpenAttemptIsAfterBackoff(p: Policy, es: seq<Event>, a: string)
    requires |p.schedule| > 0 && OpenAttempt(p, es, a).Some?
    ensures !BackoffActive(After(p, es), a, OpenAttempt(p, es, a).value) || FailureTimes(es, a) == []
    decreases |es|
  {
    var last := Last(es);
    if last.Begin? && last.action == a && !BackoffActive(After(p, Init(es)), a, last.at) {
    } else {
      OpenAttemptIsAfterBackoff(p, Init(es), a);
    }
  }

  lemma {:induction false} GatedFailsInTime(p: Policy, es: seq<Event>, a: string)
    requires |p.schedule| > 0 && Gated(p, es, a)
    ensures AllFailInTime(p, es, a)
    decreases |es|
  {
    if es != [] {
      GatedFailsInTime(p, Init(es), a);
      if Last(es).Fail? && Last(es).action == a && FailureTimes(Init(es), a) != [] {
        OpenAttemptIsAfterBackoff(p, Init(es), a);
      }
    }
  }

  /** Between resets: at most maxAttempts + 1 failures, and failure number k + 1 no
      earlier than the first one plus the first k clamped schedule entries. */
  lemma FailuresAreSpaced(p: Policy, es: seq<Event>, a: string)
    requires |p.schedule| > 0 && Gated(p, es, a)
    ensures Spaced(p, FailureTimes(es, a)) && Bounded(p, FailureTimes(es, a))
  {
    GatedFailsInTime(p, es, a);
    KeptApartIff(p, es, a);
    KeptApartNow(p, es, a);
    ApartIsSpaced(p, FailureTimes(es, a));
  }
}
