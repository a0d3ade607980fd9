/** The persisted model selection, its load observations and its rollback memory. */
module ModelSelection {
  import opened Common

  /** What names a model. */
  datatype Identity = Identity(key: string, backendId: string, title: string)

  datatype State = State(
    selected: Identity,
    source: string,
    at: string,
    reason: string,
    lastResult: string,
    lastLoaded: string,
    lastGood: Identity,
    lastGoodSource: string,
    failed: Identity)

  const NOBODY := Identity("", "", "")
  const EMPTY := State(NOBODY, "", "", "", "", "", NOBODY, "", NOBODY)

  const SELECTED_SOURCES := {"operator", "qz_codex", "env_seed", "config_default", "fallback", "migration"}
  const STATUS_SNAPSHOT := "status_snapshot"

  // ---------------------------------------------------------------------------
  // Reading the file back
  // ---------------------------------------------------------------------------

  predicate IsSpace(c: char) { c in {' ', '\t', '\n', '\r', '\U{0B}', '\U{0C}'} }

  function StripLeft(s: string): string {
    if s != "" && IsSpace(s[0]) then StripLeft(s[1..]) else s
  }

  function StripRight(s: string): string {
    if s != "" && IsSpace(s[|s| - 1]) then StripRight(s[..|s| - 1]) else s
  }

  function Strip(s: string): string { StripRight(StripLeft(s)) }

  lemma {:induction false} StripRightEnds(s: string)
    ensures StripRight(s) <= s && (StripRight(s) != "" ==> !IsSpace(StripRight(s)[|StripRight(s)| - 1]))
    decreases |s|
  {
    if s != "" && IsSpace(s[|s| - 1]) {
      StripRightEnds(s[..|s| - 1]);
    }
  }

  lemma {:induction false} StripLeftStarts(s: string)
    ensures StripLeft(s) != "" ==> !IsSpace(StripLeft(s)[0])
    decreases |s|
  {
    if s != "" && IsSpace(s[0]) {
      StripLeftStarts(s[1..]);
    }
  }

  /** A stripped value is read back as it is. */
  lemma StripTwice(s: string)
    ensures Strip(Strip(s)) == Strip(s)
  {
    StripLeftStarts(s);
    StripRightEnds(StripLeft(s));
  }

  function StripIdentity(i: Identity): Identity {
    Identity(Strip(i.key), Strip(i.backendId), Strip(i.title))
  }

  /** load_model_state on a file that holds s: every string field is stripped. */
  function Load(s: State): State {
    State(StripIdentity(s.selected), Strip(s.source), Strip(s.at), Strip(s.reason), Strip(s.lastResult),
          Strip(s.lastLoaded), StripIdentity(s.lastGood), Strip(s.lastGoodSource), StripIdentity(s.failed))
  }

  lemma LoadTwice(s: State)
    ensures Load(Load(s)) == Load(s)
  {
    StripTwice(s.selected.key); StripTwice(s.selected.backendId); StripTwice(s.selected.title);
    StripTwice(s.source); StripTwice(s.at); StripTwice(s.reason); StripTwice(s.lastResult); StripTwice(s.lastLoaded);
    StripTwice(s.lastGood.key); StripTwice(s.lastGood.backendId); StripTwice(s.lastGood.title);
    StripTwice(s.lastGoodSource);
    StripTwice(s.failed.key); StripTwice(s.failed.backendId); StripTwice(s.failed.title);
  }

  // ---------------------------------------------------------------------------
  // Operations on the state
  // ---------------------------------------------------------------------------

  predicate Named(i: Identity) { i.key != "" || i.backendId != "" }

  predicate Canonical(s: State) { s.source in SELECTED_SOURCES }

  /** A catalog entry as the router sees it: its identity, and its own backend id and
      label where it has them. */
  datatype Entry = Entry(key: string, backendId: string, title: string)

  function BackendOf(e: Entry): string { if e.backendId != "" then e.backendId else e.key }

  /** The new content of the file when a selection is persisted. */
  function Persisted(file: State, e: Entry, reason: string, source: string, now: string): State {
    var was := Load(file);
    var asked := Identity(e.key, BackendOf(e), Strip(e.title));
    if source == STATUS_SNAPSHOT && Canonical(was) then
      was.(at := if was.at != "" then was.at else now, reason := if was.reason != "" then was.reason else reason)
    else if Canonical(was) && was.selected.backendId != "" && was.selected.backendId == asked.backendId then
      was.(selected := asked, at := if was.at != "" then was.at else now,
           reason := if was.reason != "" then was.reason else reason)
    else
      was.(selected := asked, source := source, at := now, reason := reason)
  }

  function LoadSucceeded(s: State, loaded: string): State {
    var s' := s.(lastResult := "loaded", lastLoaded := Strip(loaded), failed := NOBODY);
    if Named(s.selected) then s'.(lastGood := s.selected, lastGoodSource := s.source) else s'
  }

  predicate RollsBack(s: State, rollback: bool) { rollback && Named(s.lastGood) }

  function LoadFailed(s: State, rollback: bool, now: string): State {
    var s' := s.(failed := s.selected, lastResult := "failed");
    if RollsBack(s, rollback) then
      s'.(selected := s.lastGood, source := if s.lastGoodSource != "" then s.lastGoodSource else "fallback", at := now,
          reason := "rolled back from failed candidate " +
                    if s.selected.key != "" then s.selected.key
                    else if s.selected.backendId != "" then s.selected.backendId
                    else "<unknown>")
    else s'
  }

  function Observed(s: State, loaded: Option<string>, result: Option<string>): State {
    s.(lastLoaded := if loaded.Some? then Strip(loaded.value) else s.lastLoaded,
       lastResult := if result.Some? then Strip(result.value) else s.lastResult)
  }

  /** The file after a probe has compared the selection with what it saw. */
  function Drifted(file: State, e: Entry, now: string): State {
    if (file.selected.key != e.key || file.selected.backendId != BackendOf(e)) && e.key != ""
    then Persisted(file, e, "status reconciliation", STATUS_SNAPSHOT, now)
    else file
  }

  /** The probe goes on to record a successful load. */
  predicate RecordsFirst(seen: State, e: Entry, ready: bool) {
    ready && BackendOf(e) != "" && Load(seen).lastGood.backendId == ""
  }

  /** The model-state part of a status probe: a drifted selection is persisted as an
      observation, and the first healthy probe without a recovery point creates one. */
  function Reconciled(file: State, e: Entry, ready: bool, loaded: string, now: string): State {
    var seen := Drifted(file, e, now);
    if RecordsFirst(seen, e, ready) then LoadSucceeded(Load(seen), loaded) else seen
  }

  datatype Op =
    | Persist(entry: Entry, reason: string, source: string, now: string)
    | Success(loaded: string)
    | Failure(rollback: bool, now: string)
    | Observe(seen: Option<string>, result: Option<string>)
    | Probe(entry: Entry, ready: bool, loaded: string, now: string)

  function Apply(file: State, op: Op): State {
    match op
    case Persist(e, reason, source, now) => Persisted(file, e, reason, source, now)
    case Success(loaded) => LoadSucceeded(Load(file), loaded)
    case Failure(rollback, now) => LoadFailed(Load(file), rollback, now)
    case Observe(loaded, result) => Observed(Load(file), loaded, result)
    case Probe(e, ready, loaded, now) => Reconciled(file, e, ready, loaded, now)
  }

  function Run(file: State, ops: seq<Op>): State {
    if ops == [] then file else Apply(Run(file, ops[..|ops| - 1]), ops[|ops| - 1])
  }

  /** The router's side: it reads the state file and overwrites it. */
  class Router {
    var file: State

    constructor ()
      ensures file == EMPTY
    {
      file := EMPTY;
    }

    method PersistModelState(e: Entry, reason: string, source: string, now: string)
      modifies this
      ensures file == Apply(old(file), Persist(e, reason, source, now))
    {
      var existing := Load(file);
      var key, backendId, title := e.key, BackendOf(e), Strip(e.title);
      var newSource, newAt, newReason := source, now, reason;
      if source == STATUS_SNAPSHOT && existing.source in SELECTED_SOURCES {
        newSource := existing.source;
        newAt := if existing.at != "" then existing.at else newAt;
        newReason := if existing.reason != "" then existing.reason else newReason;
        key, backendId, title := existing.selected.key, existing.selected.backendId, existing.selected.title;
      } else if existing.source in SELECTED_SOURCES && existing.selected.backendId != "" &&
                existing.selected.backendId == backendId {
        newSource := existing.source;
        newAt := if existing.at != "" then existing.at else newAt;
        newReason := if existing.reason != "" then existing.reason else newReason;
      }
      file := State(Identity(key, backendId, title), newSource, newAt, newReason, existing.lastResult, existing.lastLoaded,
                    existing.lastGood, existing.lastGoodSource, existing.failed);
    }

    method ReconcileStatus(e: Entry, ready: bool, loaded: string, now: string)
      modifies this
      ensures file == Apply(old(file), Probe(e, ready, loaded, now))
    {
      if (file.selected.key != e.key || file.selected.backendId != BackendOf(e)) && e.key != "" {
        PersistModelState(e, "status reconciliation", STATUS_SNAPSHOT, now);
      }
      if ready && BackendOf(e) != "" {
        var current := Load(file);
        if current.lastGood.backendId == "" {
          file := LoadSucceeded(current, loaded);
        }
      }
    }
  }

  // ---------------------------------------------------------------------------
  // The recovery point
  // ---------------------------------------------------------------------------

  /** What mark_load_success records as good in this state. */
  function Recorded(s: State): set<Identity> {
    if Named(s.selected) then {s.selected} else {}
  }

  /** Selections that mark_load_success has recorded in the run, called for a load or by
      the first healthy probe without a recovery point; and nobody. */
  function Confirmed(file: State, ops: seq<Op>): set<Identity> {
    if ops == [] then {NOBODY}
    else
      var init := ops[..|ops| - 1];
      var before := Run(file, init);
      match ops[|ops| - 1]
      case Success(_) => Confirmed(file, init) + Recorded(Load(before))
      case Probe(e, ready, _, now) =>
        var seen := Drifted(before, e, now);
        Confirmed(file, init) + if RecordsFirst(seen, e, ready) then Recorded(Load(seen)) else {}
      case _ => Confirmed(file, init)
  }

  lemma EmptyLoads()
    ensures Load(EMPTY) == EMPTY
  {
    assert Strip("") == "";
  }

  lemma PersistedKeepsGood(file: State, e: Entry, reason: string, source: string, now: string)
    ensures Load(Persisted(file, e, reason, source, now)).lastGood == Load(file).lastGood
    ensures Load(Persisted(file, e, reason, source, now)).lastGoodSource == Load(file).lastGoodSource
  {
    var g := file.lastGood;
    var after := Persisted(file, e, reason, source, now);
    assert after.lastGood == StripIdentity(g) && after.lastGoodSource == Strip(file.lastGoodSource);
    StripTwice(g.key); StripTwice(g.backendId); StripTwice(g.title); StripTwice(file.lastGoodSource);
  }

  lemma SucceededGood(s: State, loaded: string)
    requires Load(s) == s
    ensures Load(LoadSucceeded(s, loaded)).lastGood == if Named(s.selected) then s.selected else s.lastGood
    ensures Load(LoadSucceeded(s, loaded)).selected == s.selected && Load(LoadSucceeded(s, loaded)).source == s.source
  {
  }

  /** In every run from an empty file the recovery point is empty or a selection that
      an earlier mark_load_success recorded. */
  lemma {:induction false} GoodIsConfirmed(ops: seq<Op>)
    ensures Load(Run(EMPTY, ops)).lastGood in Confirmed(EMPTY, ops)
    decreases |ops|
  {
    EmptyLoads();
    if ops != [] {
      var init, op := ops[..|ops| - 1], ops[|ops| - 1];
      var file := Run(EMPTY, init);
      GoodIsConfirmed(init);
      LoadTwice(file);
      match op
      case Persist(e, reason, source, now) => PersistedKeepsGood(file, e, reason, source, now);
      case Success(loaded) => SucceededGood(Load(file), loaded);
      case Failure(rollback, now) =>
      case Observe(loaded, result) =>
      case Probe(e, ready, loaded, now) =>
        PersistedKeepsGood(file, e, "status reconciliation", STATUS_SNAPSHOT, now);
        LoadTwice(Drifted(file, e, now));
        SucceededGood(Load(Drifted(file, e, now)), loaded);
    }
  }

  /** A failed load with rollback lands on the recovery point, a confirmed selection;
      without one the selection stays. */
  lemma RollbackLandsOnConfirmed(ops: seq<Op>, rollback: bool, now: string)
    ensures var before := Load(Run(EMPTY, ops)); var after := Load(Run(EMPTY, ops + [Failure(rollback, now)]));
            if RollsBack(before, rollback)
            then after.selected == before.lastGood && after.selected in Confirmed(EMPTY, ops) && Named(after.selected)
            else after.selected == before.selected
  {
    assert (ops + [Failure(rollback, now)])[..|ops|] == ops;
    GoodIsConfirmed(ops);
    LoadTwice(Run(EMPTY, ops));
  }

  // ---------------------------------------------------------------------------
  // Status probes
  // ---------------------------------------------------------------------------

  predicate OnlyProbes(ops: seq<Op>) {
    forall op :: op in ops ==> op.Probe?
  }

  lemma SnapshotKeepsSelection(file: State, e: Entry, reason: string, now: string)
    requires Canonical(Load(file))
    ensures var after := Load(Persisted(file, e, reason, STATUS_SNAPSHOT, now));
            after.selected == Load(file).selected && after.source == Load(file).source
  {
    var i := file.selected;
    StripTwice(i.key); StripTwice(i.backendId); StripTwice(i.title); StripTwice(file.source);
  }

  lemma ProbeKeepsSelection(file: State, e: Entry, ready: bool, loaded: string, now: string)
    requires Canonical(Load(file))
    ensures var after := Load(Reconciled(file, e, ready, loaded, now));
            after.selected == Load(file).selected && after.source == Load(file).source
  {
    var file' := Drifted(file, e, now);
    SnapshotKeepsSelection(file, e, "status reconciliation", now);
    assert Load(file').selected == Load(file).selected && Load(file').source == Load(file).source;
    assert Load(Load(file')) == Load(file') by { LoadTwice(file'); }
    SucceededGood(Load(file'), loaded);
  }

  /** Any number of status probes leaves a selection with a canonical source as it is:
      key, backend id, label and source. */
  lemma {:induction false} ProbesKeepSelection(file: State, ops: seq<Op>)
    requires Canonical(Load(file)) && OnlyProbes(ops)
    ensures Load(Run(file, ops)).selected == Load(file).selected && Load(Run(file, ops)).source == Load(file).source
    decreases |ops|
  {
    if ops != [] {
      var init, op := ops[..|ops| - 1], ops[|ops| - 1];
      assert op in ops && forall x :: x in init ==> x in ops;
      ProbesKeepSelection(file, init);
      ProbeKeepsSelection(Run(file, init), op.entry, op.ready, op.loaded, op.now);
    }
  }

  /** The recovery point a healthy probe creates is the backend it probed exactly when
      the persisted selection already named that backend, or gave way to it, being not
      canonical while the probe had a key: a canonical selection is recorded as good although another backend was probed. */
  lemma ProbeRecordsProbedIff(file: State, e: Entry, loaded: string, now: string)
    requires Load(file).lastGood.backendId == "" && BackendOf(e) != ""
    ensures var after := Load(Reconciled(file, e, true, loaded, now));
            after.lastGood.backendId == Strip(BackendOf(e)) <==>
            (e.key != "" && !Canonical(Load(file))) || Load(file).selected.backendId == Strip(BackendOf(e))
  {
    LoadTwice(file);
    StripTwice(BackendOf(e));
    LoadTwice(Drifted(file, e, now));
    PersistedKeepsGood(file, e, "status reconciliation", STATUS_SNAPSHOT, now);
    SucceededGood(Load(Drifted(file, e, now)), loaded);
    if Canonical(Load(file)) {
      SnapshotKeepsSelection(file, e, "status reconciliation", now);
    }
  }

  function OperatorChoice(reason: string, now: string): Op {
    Persist(Entry("a", "", "A"), reason, "operator", now)
  }

  lemma OperatorChoiceIsKept(reason: string, now: string)
    ensures var file := Run(EMPTY, [OperatorChoice(reason, now)]);
            Load(file).selected == Identity("a", "a", "A") && Canonical(Load(file)) && Load(file).lastGood == NOBODY
  {
    var op := OperatorChoice(reason, now);
    assert [op][..0] == [] && Run(EMPTY, []) == EMPTY;
    EmptyLoads();
    assert Strip("a") == "a" && Strip("A") == "A" && Strip("operator") == "operator";
  }

  /** With an operator's selection of one model persisted, a healthy probe that saw
      another one records the operator's as loaded. */
  lemma ProbeRecordsUnprobed(reason: string, loaded: string, now: string)
    ensures var probe := Probe(Entry("b", "", "B"), true, loaded, now);
            Load(Run(EMPTY, [OperatorChoice(reason, now), probe])).lastGood == Identity("a", "a", "A")
  {
    var choice, b := OperatorChoice(reason, now), Entry("b", "", "B");
    var file := Run(EMPTY, [choice]);
    assert [choice, Probe(b, true, loaded, now)][..1] == [choice];
    OperatorChoiceIsKept(reason, now);
    SnapshotKeepsSelection(file, b, "status reconciliation", now);
    PersistedKeepsGood(file, b, "status reconciliation", STATUS_SNAPSHOT, now);
    LoadTwice(Drifted(file, b, now));
    SucceededGood(Load(Drifted(file, b, now)), loaded);
  }
}
