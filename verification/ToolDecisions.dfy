/** What happens to a completed tool call: error, local execution, pass-through, or
    an advisory in its place.  The main result is that advisories run out. */
module ToolDecisions {
  import opened NativeAdvisories

  /** Paths read, written and warned about, and those known from the input history. */
  datatype ReadState = ReadState(read: set<string>, written: set<string>, warned: set<string>, history: set<string>)

  datatype Session = Session(files: ReadState, native: Counters)

  datatype Decision =
    | Error
    | ProxyLocal
    | Public
    | ReadSignal(paths: set<string>)
    | NativeSignal(warning: Warning)

  /** Tools removed from the declaration list, executed by the proxy itself, or
      converted by a protocol adapter. */
  datatype Registry = Registry(dropped: set<string>, local: set<string>, adapted: set<string>)

  predicate IsSignal(d: Decision) { d.ReadSignal? || d.NativeSignal? }

  // ---------------------------------------------------------------------------
  // Repeated reads
  // ---------------------------------------------------------------------------

  predicate Repeated(s: ReadState, p: string) {
    p in s.read && p !in s.written && p !in s.warned
  }

  function RepeatedPaths(s: ReadState, c: Call): set<string> {
    set p | p in c.readPaths && Repeated(s, p)
  }

  datatype Scope = NoScope | InputHistory | CurrentRun | Mixed

  /** Collects the repeated paths of a call and where they were read before. */
  method RepeatedReadSignal(c: Call, s: ReadState) returns (repeated: set<string>, scope: Scope)
    ensures repeated == RepeatedPaths(s, c)
    ensures forall p :: p in repeated <==> p in c.readPaths && p in s.read && p !in s.written && p !in s.warned
    ensures scope == NoScope <==> repeated == {}
    ensures scope == InputHistory <==> repeated != {} && repeated <= s.history
    ensures scope == CurrentRun <==> repeated != {} && repeated !! s.history
  {
    repeated := {};
    var left, hasHistory, hasCurrent := c.readPaths, false, false;
    while left != {}
      invariant left <= c.readPaths
      invariant repeated == set p | p in c.readPaths - left && Repeated(s, p)
      invariant hasHistory <==> exists p :: p in repeated && p in s.history
      invariant hasCurrent <==> exists p :: p in repeated && p !in s.history
      decreases left
    {
      var p :| p in left;
      if p in s.read && p !in s.written {
        if p !in s.warned {
          repeated := repeated + {p};
          if p in s.history {
            hasHistory := true;
          } else {
            hasCurrent := true;
          }
        }
      }
      left := left - {p};
    }
    scope := if hasHistory && hasCurrent then Mixed
             else if hasHistory then InputHistory
             else if hasCurrent then CurrentRun
             else NoScope;
  }

  function RecordedFiles(s: ReadState, c: Call): ReadState {
    s.(read := s.read + c.readPaths, written := s.written + c.writePaths)
  }

  // ---------------------------------------------------------------------------
  // Decisions
  // ---------------------------------------------------------------------------

  /** coerces is the answer of the executor or adapter that would have to repair the
      arguments; one that does not try always succeeds. */
  function Decide(r: Registry, t: Thresholds, s: Session, c: Call, coerces: bool): Decision {
    if c.name != "" && c.name in r.dropped then Error
    else if c.name in r.local then (if coerces then ProxyLocal else Error)
    else if c.name in r.adapted then (if coerces then Public else Error)
    else if !IsNative(c) then Error
    else if RepeatedPaths(s.files, c) != {} then ReadSignal(RepeatedPaths(s.files, c))
    else
      match Advisory(s.native, c, t)
      case Some(w) => NativeSignal(w)
      case None => Public
  }

  /** The caller's turn: only a call that is passed through is recorded. */
  function Next(r: Registry, t: Thresholds, s: Session, c: Call, coerces: bool): Session {
    match Decide(r, t, s, c, coerces)
    case ReadSignal(paths) => s.(files := s.files.(warned := s.files.warned + paths))
    case NativeSignal(w) => s.(native := s.native.(warned := s.native.warned + {w}))
    case Public => Session(RecordedFiles(s.files, c), Recorded(s.native, c))
    case _ => s
  }

  /** The decision as it is taken, on the two state objects of the request. */
  class ReadTracker {
    var read: set<string>
    var written: set<string>
    var warned: set<string>
    var history: set<string>

    function View(): ReadState
      reads this
    {
      ReadState(read, written, warned, history)
    }

    /** Seeding: every call of the input history is recorded, and all its reads count
        as history. */
    constructor (items: seq<Item>)
      ensures View() == ReadState(ReadIn(items), WrittenIn(items), {}, ReadIn(items))
    {
      read, written, warned, history := {}, {}, {}, {};
      new;
      for i := 0 to |items|
        invariant warned == {} && history == {}
        invariant read == ReadIn(items[..i]) && written == WrittenIn(items[..i])
      {
        assert items[..i + 1] == items[..i] + [items[i]];
        if items[i].CallItem? {
          Record(items[i].call);
        }
      }
      assert items[..|items|] == items;
      history := history + read;
    }

    method Record(c: Call)
      modifies this
      ensures View() == RecordedFiles(old(View()), c)
    {
      read := read + c.readPaths;
      written := written + c.writePaths;
    }
  }

  function ReadIn(items: seq<Item>): set<string> {
    set i, p | 0 <= i < |items| && items[i].CallItem? && p in items[i].call.readPaths :: p
  }

  function WrittenIn(items: seq<Item>): set<string> {
    set i, p | 0 <= i < |items| && items[i].CallItem? && p in items[i].call.writePaths :: p
  }

  method CompletedCallDecision(r: Registry, c: Call, coerces: bool, files: ReadTracker, native: AdvisoryState)
    returns (d: Decision)
    modifies files, native
    ensures d == Decide(r, native.thresholds, old(Session(files.View(), native.View())), c, coerces)
    ensures d != Public ==>
              Session(files.View(), native.View()) ==
              Next(r, native.thresholds, old(Session(files.View(), native.View())), c, coerces)
    ensures d == Public ==> files.View() == old(files.View()) && native.View() == old(native.View())
  {
    if c.name != "" && c.name in r.dropped {
      return Error;
    }
    if c.name in r.local {
      return if coerces then ProxyLocal else Error;
    }
    if c.name in r.adapted {
      return if coerces then Public else Error;
    }
    if c.name !in NATIVE_TOOLS {
      return Error;
    }
    var repeated, _ := RepeatedReadSignal(c, files.View());
    if repeated != {} {
      files.warned := files.warned + repeated;
      return ReadSignal(repeated);
    }
    var w := native.Check(c);
    d := match w case Some(x) => NativeSignal(x) case None => Public;
  }

  // ---------------------------------------------------------------------------
  // Advisories run out
  // ---------------------------------------------------------------------------

  datatype Completed = Completed(call: Call, coerces: bool)

  function Run(r: Registry, t: Thresholds, s: Session, calls: seq<Completed>): Session
    decreases |calls|
  {
    if calls == [] then s else Run(r, t, Next(r, t, s, calls[0].call, calls[0].coerces), calls[1..])
  }

  function Signals(r: Registry, t: Thresholds, s: Session, calls: seq<Completed>): nat
    decreases |calls|
  {
    if calls == [] then 0
    else
      (if IsSignal(Decide(r, t, s, calls[0].call, calls[0].coerces)) then 1 else 0) +
      Signals(r, t, Next(r, t, s, calls[0].call, calls[0].coerces), calls[1..])
  }

  /** Everything a warning can be about in these calls. */
  function ReadPaths(calls: seq<Completed>): set<string> {
    set i, p | 0 <= i < |calls| && p in calls[i].call.readPaths :: p
  }

  function CommandSignatures(calls: seq<Completed>): set<Warning> {
    set i | 0 <= i < |calls| && IsCommand(calls[i].call) :: FailureWarning(calls[i].call)
  }

  function ArgumentSignatures(calls: seq<Completed>): set<Warning> {
    set i | 0 <= i < |calls| && IsNative(calls[i].call) :: RepeatWarning(calls[i].call)
  }

  /** The warnings still possible: none that was given before is possible again. */
  function OpenPaths(s: Session, calls: seq<Completed>): set<string> {
    ReadPaths(calls) - s.files.warned
  }

  function OpenWarnings(s: Session, calls: seq<Completed>): set<Warning> {
    {TOTAL_WARNING, ESCALATION_WARNING} + CommandSignatures(calls) + ArgumentSignatures(calls) - s.native.warned
  }

  lemma SubsetSize<T>(a: set<T>, b: set<T>)
    requires a <= b
    ensures |a| <= |b|
    ensures a < b ==> |a| < |b|
  {
    assert b == a + (b - a);
    assert |b| == |a| + |b - a|;
    if a < b {
      assert b - a != {};
    }
  }

  lemma DueIsOpen(s: Counters, c: Call, t: Thresholds, w: Warning)
    requires w in Due(s, c, t)
    ensures IsNative(c)
    ensures w in {TOTAL_WARNING, ESCALATION_WARNING, RepeatWarning(c)} || (IsCommand(c) && w == FailureWarning(c))
  {
  }

  lemma FewerCallsFewerWarnings(calls: seq<Completed>)
    requires calls != []
    ensures ReadPaths(calls[1..]) <= ReadPaths(calls)
    ensures CommandSignatures(calls[1..]) <= CommandSignatures(calls)
    ensures ArgumentSignatures(calls[1..]) <= ArgumentSignatures(calls)
  {
    assert forall i :: 0 <= i < |calls| - 1 ==> calls[1..][i] == calls[i + 1];
  }

  lemma SignalWasOpen(r: Registry, t: Thresholds, s: Session, calls: seq<Completed>)
    requires calls != []
    ensures match Decide(r, t, s, calls[0].call, calls[0].coerces)
            case ReadSignal(paths) => paths != {} && paths <= OpenPaths(s, calls)
            case NativeSignal(w) => w in OpenWarnings(s, calls)
            case _ => true
  {
    var c := calls[0].call;
    var d := Decide(r, t, s, c, calls[0].coerces);
    if d.NativeSignal? {
      DueIsOpen(s.native, c, t, d.warning);
      assert RepeatWarning(c) in ArgumentSignatures(calls);
      assert IsCommand(c) ==> FailureWarning(c) in CommandSignatures(calls);
    }
  }

  lemma LessAfterRemoval<T>(before: set<T>, after: set<T>, gone: set<T>)
    requires after <= before - gone
    ensures |after| <= |before|
    ensures gone * before != {} ==> |after| < |before|
  {
    SubsetSize(after, before);
    if gone * before != {} {
      var x :| x in gone * before;
      assert x in before && x !in after;
    }
  }

  function PathsOf(d: Decision): set<string> {
    if d.ReadSignal? then d.paths else {}
  }

  function WarningsOf(d: Decision): set<Warning> {
    if d.NativeSignal? then {d.warning} else {}
  }

  lemma NextWarned(r: Registry, t: Thresholds, s: Session, c: Call, coerces: bool)
    ensures var d, s' := Decide(r, t, s, c, coerces), Next(r, t, s, c, coerces);
            s'.files.warned == s.files.warned + PathsOf(d) && s'.native.warned == s.native.warned + WarningsOf(d)
  {
  }

  /** Each signal uses up a warning that was open, and nothing reopens one. */
  lemma SignalClosesOne(r: Registry, t: Thresholds, s: Session, calls: seq<Completed>)
    requires calls != []
    ensures var s' := Next(r, t, s, calls[0].call, calls[0].coerces);
            |OpenPaths(s', calls[1..])| + |OpenWarnings(s', calls[1..])| +
            (if IsSignal(Decide(r, t, s, calls[0].call, calls[0].coerces)) then 1 else 0) <=
            |OpenPaths(s, calls)| + |OpenWarnings(s, calls)|
  {
    var d := Decide(r, t, s, calls[0].call, calls[0].coerces);
    var s' := Next(r, t, s, calls[0].call, calls[0].coerces);
    FewerCallsFewerWarnings(calls);
    SignalWasOpen(r, t, s, calls);
    NextWarned(r, t, s, calls[0].call, calls[0].coerces);
    LessAfterRemoval(OpenPaths(s, calls), OpenPaths(s', calls[1..]), PathsOf(d));
    LessAfterRemoval(OpenWarnings(s, calls), OpenWarnings(s', calls[1..]), WarningsOf(d));
  }

  lemma {:induction false} SignalsAreOpenWarnings(r: Registry, t: Thresholds, s: Session, calls: seq<Completed>)
    ensures Signals(r, t, s, calls) <= |OpenPaths(s, calls)| + |OpenWarnings(s, calls)|
    decreases |calls|
  {
    if calls != [] {
      SignalClosesOne(r, t, s, calls);
      SignalsAreOpenWarnings(r, t, Next(r, t, s, calls[0].call, calls[0].coerces), calls[1..]);
    }
  }

  /** Over any run, from any state: at most one signal for each distinct path read,
      two for the turn totals, one for each distinct (tool, command) and one for each
      distinct (tool, arguments). */
  lemma FiniteSuppression(r: Registry, t: Thresholds, s: Session, calls: seq<Completed>)
    ensures Signals(r, t, s, calls) <=
            |ReadPaths(calls)| + 2 + |CommandSignatures(calls)| + |ArgumentSignatures(calls)|
  {
    SignalsAreOpenWarnings(r, t, s, calls);
    SubsetSize(OpenPaths(s, calls), ReadPaths(calls));
    var totals := {TOTAL_WARNING, ESCALATION_WARNING};
    var commands, arguments := CommandSignatures(calls), ArgumentSignatures(calls);
    SubsetSize(OpenWarnings(s, calls), totals + commands + arguments);
    SubsetSize(totals, {TOTAL_WARNING} + {ESCALATION_WARNING});
    assert |totals + commands + arguments| <= |totals| + |commands| + |arguments| by {
      assert |totals + commands| == |totals| + |commands| - |totals * commands|;
      assert |totals + commands + arguments| == |totals + commands| + |arguments| - |(totals + commands) * arguments|;
    }
  }

  /** The same call, again and again. */
  function Retries(c: Completed, n: nat): (calls: seq<Completed>)
    ensures |calls| == n && forall i :: 0 <= i < n ==> calls[i] == c
  {
    seq(n, i => c)
  }

  /** A native call that no other rule takes is passed through before the retries
      exceed the paths it reads by five. */
  lemma RetriesGetThrough(r: Registry, t: Thresholds, s: Session, c: Completed)
    requires IsNative(c.call) && c.call.name !in r.dropped + r.local + r.adapted
    ensures var n := |c.call.readPaths| + 5;
            exists k: nat :: k < n && Decide(r, t, Run(r, t, s, Retries(c, k)), c.call, c.coerces) == Public
  {
    var n := |c.call.readPaths| + 5;
    var calls := Retries(c, n);
    FiniteSuppression(r, t, s, calls);
    assert ReadPaths(calls) <= c.call.readPaths;
    SubsetSize(ReadPaths(calls), c.call.readPaths);
    assert CommandSignatures(calls) <= {FailureWarning(c.call)};
    SubsetSize(CommandSignatures(calls), {FailureWarning(c.call)});
    assert ArgumentSignatures(calls) <= {RepeatWarning(c.call)};
    SubsetSize(ArgumentSignatures(calls), {RepeatWarning(c.call)});
    if forall k: nat :: k < n ==> IsSignal(Decide(r, t, Run(r, t, s, Retries(c, k)), c.call, c.coerces)) {
      AllSignals(r, t, s, c, n);
      assert false;
    }
    var k: nat :| k < n && !IsSignal(Decide(r, t, Run(r, t, s, Retries(c, k)), c.call, c.coerces));
  }

  lemma {:induction false} AllSignals(r: Registry, t: Thresholds, s: Session, c: Completed, n: nat)
    requires forall k: nat :: k < n ==> IsSignal(Decide(r, t, Run(r, t, s, Retries(c, k)), c.call, c.coerces))
    ensures Signals(r, t, s, Retries(c, n)) == n
    decreases n
  {
    if n > 0 {
      var s' := Next(r, t, s, c.call, c.coerces);
      assert Retries(c, n)[1..] == Retries(c, n - 1);
      assert Run(r, t, s, Retries(c, 0)) == s;
      forall k: nat | k < n - 1
        ensures IsSignal(Decide(r, t, Run(r, t, s', Retries(c, k)), c.call, c.coerces))
      {
        assert Retries(c, k + 1)[1..] == Retries(c, k);
        assert Run(r, t, s, Retries(c, k + 1)) == Run(r, t, s', Retries(c, k));
      }
      AllSignals(r, t, s', c, n - 1);
    }
  }
}
