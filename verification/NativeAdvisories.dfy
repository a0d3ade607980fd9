/** Advisories about native tool calls: what is counted during a turn, when a
    warning is due, and how the counters are rebuilt from the input history. */
module NativeAdvisories {
  import opened Common

  /** A tool call, with the values that hashing and argument parsing yield for it. */
  datatype Call = Call(
    name: string,
    commandSignature: string,   // hash of tool name and arguments
    argSignature: string,       // hash of the arguments alone
    escalates: bool,            // asks for escalated sandbox permissions
    readPaths: set<string>,
    writePaths: set<string>)

  const NATIVE_TOOLS := {
    "exec_command", "write_stdin", "shell_command", "update_plan", "request_user_input", "request_permissions",
    "view_image", "get_goal", "create_goal", "update_goal", "shell", "container.exec"}

  const COMMAND_TOOLS := {"exec_command", "shell_command", "shell", "container.exec"}

  predicate IsNative(c: Call) { c.name in NATIVE_TOOLS }

  predicate IsCommand(c: Call) { c.name in COMMAND_TOOLS }

  datatype Thresholds = Thresholds(failures: nat, repeats: nat, calls: nat, escalations: nat)

  /** Namespace, kind and signature of a warning. */
  type Warning = (string, string, string)

  const TOTAL_WARNING: Warning := ("__native_total__", "excessive_call_count", "total")
  const ESCALATION_WARNING: Warning := ("__escalation__", "repeated_escalation", "total")

  function FailureWarning(c: Call): Warning { (c.name, "repeated_failing_command", c.commandSignature) }

  function RepeatWarning(c: Call): Warning { (c.name, "repeated_same_tool_args", c.argSignature) }

  datatype Counters = Counters(
    calls: nat,
    failures: map<string, nat>,
    argCalls: map<(string, string), nat>,
    escalations: nat,
    warned: set<Warning>)

  const NO_CALLS := Counters(0, map[], map[], 0, {})

  function Recorded(s: Counters, c: Call): Counters {
    if !IsNative(c) then s
    else
      var key := (c.name, c.argSignature);
      s.(calls := s.calls + 1,
         argCalls := s.argCalls[key := Get(s.argCalls, key, 0) + 1],
         escalations := s.escalations + if IsCommand(c) && c.escalates then 1 else 0)
  }

  function Offer(due: bool, w: Warning, others: seq<Warning>): seq<Warning> {
    if due then [w] + others else others
  }

  /** The warnings the counters call for, in the order they are considered. */
  function Due(s: Counters, c: Call, t: Thresholds): seq<Warning> {
    if !IsNative(c) then []
    else
      Offer(s.calls >= t.calls, TOTAL_WARNING,
        Offer(s.escalations >= t.escalations, ESCALATION_WARNING,
          Offer(IsCommand(c) && Get(s.failures, c.commandSignature, 0) >= t.failures, FailureWarning(c),
            Offer(Get(s.argCalls, (c.name, c.argSignature), 0) >= t.repeats, RepeatWarning(c), []))))
  }

  function FirstNew(due: seq<Warning>, warned: set<Warning>): (w: Option<Warning>)
    ensures w.Some? ==> w.value in due && w.value !in warned
    ensures w.None? ==> forall d :: d in due ==> d in warned
  {
    if due == [] then None
    else if due[0] !in warned then Some(due[0])
    else FirstNew(due[1..], warned)
  }

  function Advisory(s: Counters, c: Call, t: Thresholds): Option<Warning> {
    FirstNew(Due(s, c, t), s.warned)
  }

  function Checked(s: Counters, c: Call, t: Thresholds): Counters {
    match Advisory(s, c, t)
    case None => s
    case Some(w) => s.(warned := s.warned + {w})
  }

  lemma FirstNewOffered(due: bool, w: Warning, others: seq<Warning>, warned: set<Warning>)
    ensures FirstNew(Offer(due, w, others), warned) ==
            if due && w !in warned then Some(w) else FirstNew(others, warned)
  {
    assert ([w] + others)[1..] == others;
  }

  /** The advisory is decided by the first due warning that is new. */
  lemma AdvisoryCascade(s: Counters, c: Call, t: Thresholds)
    requires IsNative(c)
    ensures Advisory(s, c, t) ==
            if s.calls >= t.calls && TOTAL_WARNING !in s.warned then Some(TOTAL_WARNING)
            else if s.escalations >= t.escalations && ESCALATION_WARNING !in s.warned then Some(ESCALATION_WARNING)
            else if IsCommand(c) && Get(s.failures, c.commandSignature, 0) >= t.failures && FailureWarning(c) !in s.warned
            then Some(FailureWarning(c))
            else if Get(s.argCalls, (c.name, c.argSignature), 0) >= t.repeats && RepeatWarning(c) !in s.warned
            then Some(RepeatWarning(c))
            else None
  {
    var fail := IsCommand(c) && Get(s.failures, c.commandSignature, 0) >= t.failures;
    var repeated := Get(s.argCalls, (c.name, c.argSignature), 0) >= t.repeats;
    var last := Offer(repeated, RepeatWarning(c), []);
    var lastTwo := Offer(fail, FailureWarning(c), last);
    var lastThree := Offer(s.escalations >= t.escalations, ESCALATION_WARNING, lastTwo);
    FirstNewOffered(s.calls >= t.calls, TOTAL_WARNING, lastThree, s.warned);
    FirstNewOffered(s.escalations >= t.escalations, ESCALATION_WARNING, lastTwo, s.warned);
    FirstNewOffered(fail, FailureWarning(c), last, s.warned);
    FirstNewOffered(repeated, RepeatWarning(c), [], s.warned);
  }

  // ---------------------------------------------------------------------------
  // Input history
  // ---------------------------------------------------------------------------

  /** Items of the request input; an id or output that is absent is empty, and an
      output that carries no exit code has none. */
  datatype Item =
    | CallItem(call: Call, id: string)
    | OutputItem(callId: string, exitCode: Option<int>)
    | OtherItem

  /** The calls of the history recorded one by one, as the running proxy does it. */
  function Replayed(items: seq<Item>): Counters {
    if items == [] then NO_CALLS
    else
      var before := Replayed(items[..|items| - 1]);
      var last := items[|items| - 1];
      if last.CallItem? then Recorded(before, last.call) else before
  }

  /** Command signatures by call id; a reused id means the last call that used it. */
  function Joined(items: seq<Item>): map<string, string> {
    if items == [] then map[]
    else
      var before := Joined(items[..|items| - 1]);
      var last := items[|items| - 1];
      if last.CallItem? && IsCommand(last.call) && last.id != ""
      then before[last.id := last.call.commandSignature]
      else before
  }

  /** The exit code item i reports for the command signature, through the join. */
  predicate Exits(items: seq<Item>, join: map<string, string>, signature: string, i: int, zero: bool) {
    0 <= i < |items| && items[i].OutputItem? && Get(join, items[i].callId, "") == signature && signature != "" &&
    items[i].exitCode.Some? && (items[i].exitCode.value == 0 <==> zero)
  }

  /** Item i is a failure of the signature that no later success has wiped out. */
  predicate Outstanding(items: seq<Item>, join: map<string, string>, signature: string, i: int) {
    Exits(items, join, signature, i, false) && forall j :: i < j < |items| ==> !Exits(items, join, signature, j, true)
  }

  ghost function FailuresSinceSuccess(items: seq<Item>, join: map<string, string>, signature: string): set<int> {
    set i | 0 <= i < |items| && Outstanding(items, join, signature, i)
  }

  lemma ExitsSnoc(items: seq<Item>, item: Item, join: map<string, string>, signature: string, i: int, zero: bool)
    requires i < |items|
    ensures Exits(items + [item], join, signature, i, zero) <==> Exits(items, join, signature, i, zero)
  {
  }

  lemma OutstandingSnoc(items: seq<Item>, item: Item, join: map<string, string>, signature: string, i: int)
    requires 0 <= i < |items|
    ensures Outstanding(items + [item], join, signature, i) <==>
            Outstanding(items, join, signature, i) && !Exits(items + [item], join, signature, |items|, true)
  {
    var all := items + [item];
    forall j, zero | j < |items|
      ensures Exits(all, join, signature, j, zero) <==> Exits(items, join, signature, j, zero)
    {
      ExitsSnoc(items, item, join, signature, j, zero);
    }
  }

  /** Reading one more item: a zero exit empties the failures of its signature, a
      non-zero exit adds one to them. */
  lemma FailuresSnoc(items: seq<Item>, item: Item, join: map<string, string>, signature: string)
    ensures var all := items + [item]; var before := FailuresSinceSuccess(items, join, signature);
            |FailuresSinceSuccess(all, join, signature)| ==
            if Exits(all, join, signature, |items|, true) then 0
            else if Exits(all, join, signature, |items|, false) then |before| + 1
            else |before|
  {
    var all, n := items + [item], |items|;
    var before, after := FailuresSinceSuccess(items, join, signature), FailuresSinceSuccess(all, join, signature);
    forall i | 0 <= i < n
      ensures i in after <==> i in before && !Exits(all, join, signature, n, true)
    {
      OutstandingSnoc(items, item, join, signature, i);
    }
    assert n in after <==> Exits(all, join, signature, n, false);
    if Exits(all, join, signature, n, true) {
      assert after == {};
    } else if Exits(all, join, signature, n, false) {
      assert after == before + {n};
    } else {
      assert after == before;
    }
  }

  // ---------------------------------------------------------------------------
  // The state object
  // ---------------------------------------------------------------------------

  class AdvisoryState {
    const thresholds: Thresholds
    var calls: nat
    var failures: map<string, nat>
    var argCalls: map<(string, string), nat>
    var escalations: nat
    var warned: set<Warning>

    function View(): Counters
      reads this
    {
      Counters(calls, failures, argCalls, escalations, warned)
    }

    constructor (thresholds: Thresholds)
      ensures this.thresholds == thresholds && View() == NO_CALLS
    {
      this.thresholds := thresholds;
      calls, failures, argCalls, escalations, warned := 0, map[], map[], 0, {};
    }

    method Record(c: Call)
      modifies this
      ensures View() == Recorded(old(View()), c)
    {
      if c.name in NATIVE_TOOLS {
        calls := calls + 1;
        var key := (c.name, c.argSignature);
        argCalls := argCalls[key := Get(argCalls, key, 0) + 1];
        if c.name in COMMAND_TOOLS && c.escalates {
          escalations := escalations + 1;
        }
      }
    }

    /** The first due warning that has not been given yet; giving it marks it. */
    method Check(c: Call) returns (w: Option<Warning>)
      modifies this
      ensures w == Advisory(old(View()), c, thresholds)
      ensures View() == Checked(old(View()), c, thresholds)
    {
      if c.name !in NATIVE_TOOLS {
        return None;
      }
      AdvisoryCascade(View(), c, thresholds);
      if calls >= thresholds.calls && TOTAL_WARNING !in warned {
        warned := warned + {TOTAL_WARNING};
        return Some(TOTAL_WARNING);
      }
      if escalations >= thresholds.escalations && ESCALATION_WARNING !in warned {
        warned := warned + {ESCALATION_WARNING};
        return Some(ESCALATION_WARNING);
      }
      if c.name in COMMAND_TOOLS {
        var failCount := Get(failures, c.commandSignature, 0);
        if failCount >= thresholds.failures && FailureWarning(c) !in warned {
          warned := warned + {FailureWarning(c)};
          return Some(FailureWarning(c));
        }
      }
      var callCount := Get(argCalls, (c.name, c.argSignature), 0);
      if callCount >= thresholds.repeats && RepeatWarning(c) !in warned {
        warned := warned + {RepeatWarning(c)};
        return Some(RepeatWarning(c));
      }
      return None;
    }

    /** Seeding a fresh state from the history: the counts are those of recording its
        calls one by one, and each command's failure count is the number of its
        non-zero exits since its last zero exit. */
    method Seed(items: seq<Item>)
      requires View() == NO_CALLS
      modifies this
      ensures View() == Replayed(items).(failures := failures)
      ensures forall s ::
                Get(failures, s, 0) == |FailuresSinceSuccess(items, Joined(items), s)|
    {
      var join: map<string, string> := map[];
      for i := 0 to |items|
        invariant View() == Replayed(items[..i])
        invariant failures == map[]
        invariant join == Joined(items[..i])
      {
        assert items[..i + 1][..i] == items[..i];
        var item := items[i];
        if item.CallItem? {
          Record(item.call);
          if item.call.name in COMMAND_TOOLS && item.id != "" {
            join := join[item.id := item.call.commandSignature];
          }
        }
      }
      assert items[..|items|] == items;
      for i := 0 to |items|
        invariant View() == Replayed(items).(failures := failures)
        invariant forall s :: Get(failures, s, 0) == |FailuresSinceSuccess(items[..i], join, s)|
      {
        CountOutput(items[i], join);
        assert items[..i + 1] == items[..i] + [items[i]];
        forall s ensures Get(failures, s, 0) == |FailuresSinceSuccess(items[..i + 1], join, s)| {
          FailuresSnoc(items[..i], items[i], join, s);
        }
      }
    }

    /** Reading one output of the history. */
    method CountOutput(item: Item, join: map<string, string>)
      modifies this`failures
      ensures forall s ::
                Get(failures, s, 0) ==
                if item.OutputItem? && s != "" && Get(join, item.callId, "") == s && item.exitCode.Some?
                then (if item.exitCode.value == 0 then 0 else Get(old(failures), s, 0) + 1)
                else Get(old(failures), s, 0)
    {
      if item.OutputItem? {
        var signature := Get(join, item.callId, "");
        if signature != "" && item.exitCode.Some? {
          if item.exitCode.value != 0 {
            failures := failures[signature := Get(failures, signature, 0) + 1];
          } else {
            failures := failures[signature := 0];
          }
        }
      }
    }
  }
}
