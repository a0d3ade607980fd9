/** The persisted selection read off the history of a run: which choice stands, where it
    came from, and what the load reports say. */
module ModelHistory {
  import opened Common
  import opened ModelSelection

  predicate Blank(c: char) {
    c == ' ' || c == '\t' || c == '\n' || c == '\r' || c == '\U{0B}' || c == '\U{0C}'
  }

  lemma {:induction false} LeftIsTrimmed(s: string) returns (i: nat)
    ensures i <= |s| && StripLeft(s) == s[i..] && (forall k :: 0 <= k < i ==> Blank(s[k])) && (i < |s| ==> !Blank(s[i]))
  {
    if s != "" && IsSpace(s[0]) {
      i := LeftIsTrimmed(s[1..]);
      i := i + 1;
    } else {
      i := 0;
    }
  }

  lemma {:induction false} RightIsTrimmed(s: string) returns (j: nat)
    ensures j <= |s| && StripRight(s) == s[..j] && (forall k :: j <= k < |s| ==> Blank(s[k])) && (j > 0 ==> !Blank(s[j - 1]))
    decreases |s|
  {
    if s != "" && IsSpace(s[|s| - 1]) {
      j := RightIsTrimmed(s[..|s| - 1]);
    } else {
      j := |s|;
      assert s[..j] == s;
    }
  }

  /** A stripped string is what lies between the blanks at both ends. */
  lemma StripTrims(s: string) returns (i: nat, j: nat)
    ensures i <= j <= |s| && Strip(s) == s[i..j]
    ensures forall k :: 0 <= k < i || j <= k < |s| ==> Blank(s[k])
    ensures i < j ==> !Blank(s[i]) && !Blank(s[j - 1])
  {
    i := LeftIsTrimmed(s);
    var n := RightIsTrimmed(s[i..]);
    j := i + n;
    assert s[i..][..n] == s[i..j];
    forall k | j <= k < |s| ensures Blank(s[k]) {
      assert s[k] == s[i..][k - i];
    }
  }

  predicate IsCanonicalSource(source: string) {
    source == "operator" || source == "qz_codex" || source == "env_seed" || source == "config_default" ||
    source == "fallback" || source == "migration"
  }

  /** What a catalog entry is loaded back as: its key is its backend id when it has none. */
  function NameOf(e: Entry): Identity {
    Identity(Strip(e.key), Strip(if e.backendId == "" then e.key else e.backendId), Strip(e.title))
  }

  /** A deliberate write, as opposed to one by a status probe. */
  predicate IsChoice(op: Op) {
    op.Persist? && op.source != "status_snapshot"
  }

  /** A canonical selection already names the entry's backend. */
  predicate AlreadyNamed(s: State, e: Entry) {
    IsCanonicalSource(s.source) && s.selected.backendId != "" &&
    s.selected.backendId == if e.backendId == "" then e.key else e.backendId
  }

  lemma LoadIsFixed(file: State)
    ensures var s := Load(file);
            Strip(s.selected.key) == s.selected.key && Strip(s.selected.backendId) == s.selected.backendId &&
            Strip(s.selected.title) == s.selected.title && Strip(s.source) == s.source && Strip(s.at) == s.at &&
            Strip(s.reason) == s.reason
    ensures Load(Load(file)) == Load(file)
  {
    LoadTwice(file);
    assert Load(Load(file)).selected == Load(file).selected;
  }

  /** Load reports and recovery memory. */
  predicate SameReports(a: State, b: State) {
    a.lastResult == b.lastResult && a.lastLoaded == b.lastLoaded && a.lastGood == b.lastGood &&
    a.lastGoodSource == b.lastGoodSource && a.failed == b.failed
  }

  /** After any file, a choice is what is selected; its provenance is kept exactly when a
      canonical selection already named that backend; and nothing else changes. */
  lemma ChoiceIsSelected(file: State, op: Op)
    requires IsChoice(op)
    ensures var was, s := Load(file), Load(Apply(file, op));
            s.selected == NameOf(op.entry) && SameReports(s, was) &&
            if AlreadyNamed(was, op.entry)
            then s.source == was.source && s.at == (if was.at == "" then Strip(op.now) else was.at) &&
                 s.reason == (if was.reason == "" then Strip(op.reason) else was.reason)
            else s.source == Strip(op.source) && s.at == Strip(op.now) && s.reason == Strip(op.reason)
  {
    LoadIsFixed(file);
    StripTwice(op.entry.title);
  }

  lemma Unpadded(s: string)
    requires s != "" && !IsSpace(s[0]) && !IsSpace(s[|s| - 1])
    ensures Strip(s) == s
  {
  }

  lemma SnapshotOverCanonical(file: State, op: Op)
    requires op.Persist? && op.source == "status_snapshot" && IsCanonicalSource(Load(file).source)
    ensures var was, s := Load(file), Load(Apply(file, op));
            SameReports(s, was) && s.selected == was.selected && s.source == was.source &&
            s.at == (if was.at == "" then Strip(op.now) else was.at) &&
            s.reason == (if was.reason == "" then Strip(op.reason) else was.reason)
  {
    LoadIsFixed(file);
  }

  lemma SnapshotOverOther(file: State, op: Op)
    requires op.Persist? && op.source == "status_snapshot" && !IsCanonicalSource(Load(file).source)
    ensures var was, s := Load(file), Load(Apply(file, op));
            SameReports(s, was) && s.selected == NameOf(op.entry) && s.source == "status_snapshot" &&
            s.at == Strip(op.now) && s.reason == Strip(op.reason)
  {
    LoadIsFixed(file);
    StripTwice(op.entry.title);
    Unpadded("status_snapshot");
  }

  /** A write by a status probe leaves a canonical selection alone, and otherwise selects
      what the probe saw. */
  lemma SnapshotYields(file: State, op: Op)
    requires op.Persist? && op.source == "status_snapshot"
    ensures var was, s := Load(file), Load(Apply(file, op));
            if IsCanonicalSource(was.source) then s.selected == was.selected && s.source == was.source
            else s.selected == NameOf(op.entry) && s.source == "status_snapshot"
  {
    if IsCanonicalSource(Load(file).source) {
      SnapshotOverCanonical(file, op);
    } else {
      SnapshotOverOther(file, op);
    }
  }

  predicate Drifts(file: State, e: Entry) {
    e.key != "" &&
    (file.selected.key != e.key || file.selected.backendId != if e.backendId == "" then e.key else e.backendId)
  }

  /** Anything but a choice that replaces the selection: a rollback, or a probe of a file
      without a canonical selection. */
  predicate Supplants(file: State, op: Op) {
    var was := Load(file);
    match op
    case Failure(rollback, _) => rollback && (was.lastGood.key != "" || was.lastGood.backendId != "")
    case Persist(_, _, source, _) => source == "status_snapshot" && !IsCanonicalSource(was.source)
    case Probe(e, _, _, _) => Drifts(file, e) && !IsCanonicalSource(was.source)
    case _ => false
  }

  lemma ProbeIsSnapshot(file: State, e: Entry, now: string)
    ensures Drifted(file, e, now) ==
            if Drifts(file, e) then Apply(file, Persist(e, "status reconciliation", "status_snapshot", now)) else file
  {
  }

  /** What a supplanting operation puts in its place. */
  lemma SupplantedBy(file: State, op: Op)
    requires Supplants(file, op)
    ensures Load(Apply(file, op)).selected == if op.Failure? then Load(file).lastGood else NameOf(op.entry)
  {
    match op
    case Failure(_, _) =>
      LoadTwice(file);
    case Persist(_, _, _, _) => SnapshotYields(file, op);
    case Probe(e, ready, loaded, now) =>
      ProbeIsSnapshot(file, e, now);
      SnapshotYields(file, Persist(e, "status reconciliation", "status_snapshot", now));
      LoadTwice(Drifted(file, e, now));
      SucceededGood(Load(Drifted(file, e, now)), loaded);
  }

  lemma OthersKeepSelection(file: State, op: Op)
    requires !IsChoice(op) && !Supplants(file, op)
    ensures Load(Apply(file, op)).selected == Load(file).selected && Load(Apply(file, op)).source == Load(file).source
  {
    LoadIsFixed(file);
    match op
    case Persist(_, _, _, _) => SnapshotYields(file, op);
    case Success(loaded) => SucceededGood(Load(file), loaded);
    case Failure(_, _) =>
    case Observe(_, _) =>
    case Probe(e, ready, loaded, now) =>
      ProbeIsSnapshot(file, e, now);
      if Drifts(file, e) {
        SnapshotYields(file, Persist(e, "status reconciliation", "status_snapshot", now));
      }
      LoadTwice(Drifted(file, e, now));
      SucceededGood(Load(Drifted(file, e, now)), loaded);
  }

  predicate Undisputed(file: State, ops: seq<Op>) {
    ops == [] ||
    (Undisputed(file, ops[..|ops| - 1]) && !IsChoice(ops[|ops| - 1]) &&
     !Supplants(Run(file, ops[..|ops| - 1]), ops[|ops| - 1]))
  }

  lemma {:induction false} SelectionStands(file: State, ops: seq<Op>)
    requires Undisputed(file, ops)
    ensures Load(Run(file, ops)).selected == Load(file).selected && Load(Run(file, ops)).source == Load(file).source
    decreases |ops|
  {
    if ops != [] {
      SelectionStands(file, ops[..|ops| - 1]);
      OthersKeepSelection(Run(file, ops[..|ops| - 1]), ops[|ops| - 1]);
    }
  }

  lemma {:induction false} RunAppend(file: State, a: seq<Op>, b: seq<Op>)
    ensures Run(file, a + b) == Run(Run(file, a), b)
    decreases |b|
  {
    if b == [] {
      assert a + b == a;
    } else {
      assert (a + b)[..|a + b| - 1] == a + b[..|b| - 1];
      RunAppend(file, a, b[..|b| - 1]);
    }
  }

  /** In every run the selection is that of the last choice, unless a rollback or a probe
      of a file without a canonical selection came after it. */
  lemma LastChoiceStands(file: State, before: seq<Op>, op: Op, after: seq<Op>)
    requires IsChoice(op) && Undisputed(Run(file, before + [op]), after)
    ensures Load(Run(file, before + [op] + after)).selected == NameOf(op.entry)
  {
    assert (before + [op])[..|before|] == before;
    RunAppend(file, before + [op], after);
    ChoiceIsSelected(Run(file, before), op);
    SelectionStands(Run(file, before + [op]), after);
  }

  // ---------------------------------------------------------------------------
  // Load reports
  // ---------------------------------------------------------------------------

  predicate SameSelection(a: State, b: State) {
    a.selected == b.selected && a.source == b.source && a.at == b.at && a.reason == b.reason
  }

  /** A reported success clears the failed candidate and makes a named selection the
      recovery point. */
  lemma SuccessIsReported(file: State, loaded: string)
    ensures var was, s := Load(file), Load(Apply(file, Success(loaded)));
            SameSelection(s, was) && s.lastResult == "loaded" && s.lastLoaded == Strip(loaded) &&
            s.failed == Identity("", "", "") &&
            if was.selected.key == "" && was.selected.backendId == ""
            then s.lastGood == was.lastGood && s.lastGoodSource == was.lastGoodSource
            else s.lastGood == was.selected && s.lastGoodSource == was.source
  {
    LoadTwice(file);
    StripTwice(loaded);
    Unpadded("loaded");
  }

  /** A reported failure names the candidate that failed and, when asked to, goes back to
      the recovery point with its provenance. */
  lemma FailureIsReported(file: State, rollback: bool, now: string)
    ensures var was, s := Load(file), Load(Apply(file, Failure(rollback, now)));
            s.failed == was.selected && s.lastResult == "failed" && s.lastLoaded == was.lastLoaded &&
            s.lastGood == was.lastGood && s.lastGoodSource == was.lastGoodSource &&
            if rollback && (was.lastGood.key != "" || was.lastGood.backendId != "")
            then s.selected == was.lastGood && s.at == Strip(now) &&
                 s.source == (if was.lastGoodSource == "" then "fallback" else was.lastGoodSource) &&
                 s.reason == Strip("rolled back from failed candidate " +
                                   if was.selected.key != "" then was.selected.key
                                   else if was.selected.backendId == "" then "<unknown>"
                                   else was.selected.backendId)
            else SameSelection(s, was)
  {
    LoadTwice(file);
    Unpadded("failed");
    Unpadded("fallback");
  }

  /** An observation changes what it names, and nothing else. */
  lemma ObservationIsReported(file: State, loaded: Option<string>, result: Option<string>)
    ensures var was, s := Load(file), Load(Apply(file, Observe(loaded, result)));
            SameSelection(s, was) && s.lastGood == was.lastGood && s.lastGoodSource == was.lastGoodSource &&
            s.failed == was.failed &&
            s.lastLoaded == (if loaded.None? then was.lastLoaded else Strip(loaded.value)) &&
            s.lastResult == (if result.None? then was.lastResult else Strip(result.value))
  {
    LoadTwice(file);
    if loaded.Some? {
      StripTwice(loaded.value);
    }
    if result.Some? {
      StripTwice(result.value);
    }
  }

  /** A probe reports a success, and makes the selection it leaves the recovery point,
      only when the backend is ready and there is no recovery point yet. */
  lemma ProbeIsReported(file: State, e: Entry, ready: bool, loaded: string, now: string)
    ensures var was, s := Load(file), Load(Apply(file, Probe(e, ready, loaded, now)));
            if ready && (e.key != "" || e.backendId != "") && was.lastGood.backendId == ""
            then s.lastResult == "loaded" && s.lastLoaded == Strip(loaded) && s.failed == Identity("", "", "") &&
                 s.lastGood == (if s.selected.key == "" && s.selected.backendId == "" then was.lastGood else s.selected)
            else SameReports(s, was)
  {
    var seen := Drifted(file, e, now);
    ProbeIsSnapshot(file, e, now);
    LoadTwice(file);
    if Drifts(file, e) {
      var write := Persist(e, "status reconciliation", "status_snapshot", now);
      if IsCanonicalSource(Load(file).source) {
        SnapshotOverCanonical(file, write);
      } else {
        SnapshotOverOther(file, write);
      }
    }
    LoadTwice(seen);
    SuccessIsReported(seen, loaded);
  }
}
