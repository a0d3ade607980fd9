/** Decisions about completed calls, read off the history: the request's input, and what
    was decided about the calls before. */
module ToolHistory {
  import opened Common
  import opened NativeAdvisories
  import opened ToolDecisions

  /** A session seeded from the input history. */
  function Seeded(items: seq<Item>, native: Counters): Session {
    Session(ReadState(ReadIn(items), WrittenIn(items), {}, ReadIn(items)), native)
  }

  /** What was decided about call k. */
  function DecisionAt(r: Registry, t: Thresholds, s: Session, calls: seq<Completed>, k: nat): Decision
    requires k < |calls|
  {
    Decide(r, t, Run(r, t, s, calls[..k]), calls[k].call, calls[k].coerces)
  }

  lemma {:induction false} RunSnoc(r: Registry, t: Thresholds, s: Session, calls: seq<Completed>, c: Completed)
    ensures Run(r, t, s, calls + [c]) == Next(r, t, Run(r, t, s, calls), c.call, c.coerces)
    decreases |calls|
  {
    if calls == [] {
      assert [] + [c] == [c] && [c][1..] == [];
    } else {
      assert (calls + [c])[1..] == calls[1..] + [c];
      RunSnoc(r, t, Next(r, t, s, calls[0].call, calls[0].coerces), calls[1..], c);
    }
  }

  lemma RunTo(r: Registry, t: Thresholds, s: Session, calls: seq<Completed>, k: nat)
    requires k < |calls|
    ensures Run(r, t, s, calls[..k + 1]) == Next(r, t, Run(r, t, s, calls[..k]), calls[k].call, calls[k].coerces)
  {
    assert calls[..k + 1] == calls[..k] + [calls[k]];
    RunSnoc(r, t, s, calls[..k], calls[k]);
  }

  // ---------------------------------------------------------------------------
  // Repeated reads
  // ---------------------------------------------------------------------------

  /** Call j was passed through to the client. */
  predicate PassedAt(r: Registry, t: Thresholds, s: Session, calls: seq<Completed>, j: int) {
    0 <= j < |calls| && DecisionAt(r, t, s, calls, j) == Public
  }

  predicate SignalledAt(r: Registry, t: Thresholds, s: Session, calls: seq<Completed>, j: int, p: string) {
    0 <= j < |calls| && DecisionAt(r, t, s, calls, j).ReadSignal? && p in DecisionAt(r, t, s, calls, j).paths
  }

  predicate ReadBefore(r: Registry, t: Thresholds, s: Session, items: seq<Item>, calls: seq<Completed>, k: nat, p: string) {
    (exists i :: 0 <= i < |items| && items[i].CallItem? && p in items[i].call.readPaths) ||
    (exists j :: 0 <= j < k && PassedAt(r, t, s, calls, j) && p in calls[j].call.readPaths)
  }

  predicate WrittenBefore(r: Registry, t: Thresholds, s: Session, items: seq<Item>, calls: seq<Completed>, k: nat, p: string) {
    (exists i :: 0 <= i < |items| && items[i].CallItem? && p in items[i].call.writePaths) ||
    (exists j :: 0 <= j < k && PassedAt(r, t, s, calls, j) && p in calls[j].call.writePaths)
  }

  predicate SignalledBefore(r: Registry, t: Thresholds, s: Session, calls: seq<Completed>, k: nat, p: string) {
    exists j :: 0 <= j < k && SignalledAt(r, t, s, calls, j, p)
  }

  /** The call reads a path that was read before, and neither written nor signalled. */
  predicate RereadAt(r: Registry, t: Thresholds, s: Session, items: seq<Item>, calls: seq<Completed>, k: nat, p: string)
    requires k < |calls|
  {
    p in calls[k].call.readPaths && ReadBefore(r, t, s, items, calls, k, p) &&
    !WrittenBefore(r, t, s, items, calls, k, p) && !SignalledBefore(r, t, s, calls, k, p)
  }

  /** What the tracker holds about a path after k calls. */
  lemma {:induction false} TrackedFromHistory(r: Registry, t: Thresholds, items: seq<Item>, native: Counters,
                                              calls: seq<Completed>, k: nat, p: string)
    requires k <= |calls|
    ensures var s := Seeded(items, native); var files := Run(r, t, s, calls[..k]).files;
            (p in files.read <==> ReadBefore(r, t, s, items, calls, k, p)) &&
            (p in files.written <==> WrittenBefore(r, t, s, items, calls, k, p)) &&
            (p in files.warned <==> SignalledBefore(r, t, s, calls, k, p))
    decreases k
  {
    if k > 0 {
      TrackedFromHistory(r, t, items, native, calls, k - 1, p);
      TrackedOneMore(r, t, items, native, calls, k - 1, p);
      RunTo(r, t, Seeded(items, native), calls, k - 1);
    }
  }

  lemma TrackedOneMore(r: Registry, t: Thresholds, items: seq<Item>, native: Counters, calls: seq<Completed>, k: nat,
                       p: string)
    requires k < |calls|
    ensures var s := Seeded(items, native);
            (ReadBefore(r, t, s, items, calls, k + 1, p) <==>
             ReadBefore(r, t, s, items, calls, k, p) || (PassedAt(r, t, s, calls, k) && p in calls[k].call.readPaths)) &&
            (WrittenBefore(r, t, s, items, calls, k + 1, p) <==>
             WrittenBefore(r, t, s, items, calls, k, p) || (PassedAt(r, t, s, calls, k) && p in calls[k].call.writePaths)) &&
            (SignalledBefore(r, t, s, calls, k + 1, p) <==>
             SignalledBefore(r, t, s, calls, k, p) || SignalledAt(r, t, s, calls, k, p))
  {
  }

  /** No earlier rule takes the call. */
  predicate IsLeftToClient(r: Registry, c: Call) {
    IsNative(c) && c.name !in r.dropped && c.name !in r.local && c.name !in r.adapted
  }

  lemma NativeIsNamed(c: Call)
    requires IsNative(c)
    ensures c.name != ""
  {
    assert forall name :: name in NATIVE_TOOLS ==> |name| > 0;
  }

  /** Decide on a call that no earlier rule takes. */
  lemma LeftToClientDecision(r: Registry, t: Thresholds, s: Session, c: Call, coerces: bool)
    ensures var d := Decide(r, t, s, c, coerces);
            if !IsLeftToClient(r, c) then !IsSignal(d)
            else if RepeatedPaths(s.files, c) != {} then d == ReadSignal(RepeatedPaths(s.files, c))
            else d == match Advisory(s.native, c, t) case Some(w) => NativeSignal(w) case None => Public
  {
    if IsNative(c) {
      NativeIsNamed(c);
    }
  }

  /** A path is signalled if and only if the call reads it, an input call or an earlier
      passed call read it, none of them wrote it, no earlier signal named it, and no
      earlier rule takes the call. */
  lemma ReadSignalIff(r: Registry, t: Thresholds, items: seq<Item>, native: Counters, calls: seq<Completed>, k: nat, p: string)
    requires k < |calls|
    ensures var s := Seeded(items, native); var d := DecisionAt(r, t, s, calls, k);
            d.ReadSignal? && p in d.paths <==>
            IsLeftToClient(r, calls[k].call) && RereadAt(r, t, s, items, calls, k, p)
  {
    var s := Seeded(items, native);
    TrackedFromHistory(r, t, items, native, calls, k, p);
    LeftToClientDecision(r, t, Run(r, t, s, calls[..k]), calls[k].call, calls[k].coerces);
    assert p in RepeatedPaths(Run(r, t, s, calls[..k]).files, calls[k].call) <==> RereadAt(r, t, s, items, calls, k, p);
  }

  // ---------------------------------------------------------------------------
  // Native advisories
  // ---------------------------------------------------------------------------

  predicate NativeAt(r: Registry, t: Thresholds, s: Session, calls: seq<Completed>, j: int) {
    PassedAt(r, t, s, calls, j) && IsNative(calls[j].call)
  }

  predicate SameAt(r: Registry, t: Thresholds, s: Session, calls: seq<Completed>, j: int, name: string, signature: string) {
    NativeAt(r, t, s, calls, j) && calls[j].call.name == name && calls[j].call.argSignature == signature
  }

  predicate EscalatedAt(r: Registry, t: Thresholds, s: Session, calls: seq<Completed>, j: int) {
    NativeAt(r, t, s, calls, j) && IsCommand(calls[j].call) && calls[j].call.escalates
  }

  function PassedNative(r: Registry, t: Thresholds, s: Session, calls: seq<Completed>, k: nat): set<int> {
    set j | 0 <= j < k && NativeAt(r, t, s, calls, j)
  }

  function PassedSame(r: Registry, t: Thresholds, s: Session, calls: seq<Completed>, k: nat, name: string,
                      signature: string): set<int> {
    set j | 0 <= j < k && SameAt(r, t, s, calls, j, name, signature)
  }

  function PassedEscalated(r: Registry, t: Thresholds, s: Session, calls: seq<Completed>, k: nat): set<int> {
    set j | 0 <= j < k && EscalatedAt(r, t, s, calls, j)
  }

  predicate AdvisedAt(r: Registry, t: Thresholds, s: Session, calls: seq<Completed>, j: int, w: Warning) {
    0 <= j < |calls| && DecisionAt(r, t, s, calls, j) == NativeSignal(w)
  }

  predicate AdvisedBefore(r: Registry, t: Thresholds, s: Session, calls: seq<Completed>, k: nat, w: Warning) {
    exists j :: 0 <= j < k && AdvisedAt(r, t, s, calls, j, w)
  }

  lemma OneMore(before: set<int>, after: set<int>, k: int, yes: bool)
    requires before <= after <= before + {k}
    requires k !in before && (k in after <==> yes)
    ensures |after| == |before| + if yes then 1 else 0
  {
    if yes {
      assert after == before + {k};
    } else {
      assert after == before;
    }
  }

  lemma NativeOneMore(r: Registry, t: Thresholds, s: Session, calls: seq<Completed>, k: nat)
    ensures |PassedNative(r, t, s, calls, k + 1)| ==
            |PassedNative(r, t, s, calls, k)| + if NativeAt(r, t, s, calls, k) then 1 else 0
  {
    OneMore(PassedNative(r, t, s, calls, k), PassedNative(r, t, s, calls, k + 1), k, NativeAt(r, t, s, calls, k));
  }

  lemma EscalatedOneMore(r: Registry, t: Thresholds, s: Session, calls: seq<Completed>, k: nat)
    ensures |PassedEscalated(r, t, s, calls, k + 1)| ==
            |PassedEscalated(r, t, s, calls, k)| + if EscalatedAt(r, t, s, calls, k) then 1 else 0
  {
    OneMore(PassedEscalated(r, t, s, calls, k), PassedEscalated(r, t, s, calls, k + 1), k, EscalatedAt(r, t, s, calls, k));
  }

  lemma SameOneMore(r: Registry, t: Thresholds, s: Session, calls: seq<Completed>, k: nat, name: string, signature: string)
    ensures |PassedSame(r, t, s, calls, k + 1, name, signature)| ==
            |PassedSame(r, t, s, calls, k, name, signature)| + if SameAt(r, t, s, calls, k, name, signature) then 1 else 0
  {
    OneMore(PassedSame(r, t, s, calls, k, name, signature), PassedSame(r, t, s, calls, k + 1, name, signature), k,
            SameAt(r, t, s, calls, k, name, signature));
  }

  /** What one decision does to the counters. */
  lemma NextCounts(r: Registry, t: Thresholds, s: Session, c: Call, coerces: bool, name: string, signature: string)
    ensures var d, s' := Decide(r, t, s, c, coerces), Next(r, t, s, c, coerces);
            var counts := d == Public && IsNative(c);
            s'.native.calls == s.native.calls + (if counts then 1 else 0) &&
            s'.native.escalations == s.native.escalations + (if counts && IsCommand(c) && c.escalates then 1 else 0) &&
            Get(s'.native.argCalls, (name, signature), 0) ==
            Get(s.native.argCalls, (name, signature), 0) +
            (if counts && c.name == name && c.argSignature == signature then 1 else 0) &&
            s'.native.failures == s.native.failures
  {
  }

  lemma {:induction false} CallsFromHistory(r: Registry, t: Thresholds, s: Session, calls: seq<Completed>, k: nat)
    requires k <= |calls|
    ensures Run(r, t, s, calls[..k]).native.calls == s.native.calls + |PassedNative(r, t, s, calls, k)|
    ensures Run(r, t, s, calls[..k]).native.failures == s.native.failures
    decreases k
  {
    if k == 0 {
      assert PassedNative(r, t, s, calls, 0) == {};
    } else {
      var c := calls[k - 1];
      CallsFromHistory(r, t, s, calls, k - 1);
      RunTo(r, t, s, calls, k - 1);
      NextCounts(r, t, Run(r, t, s, calls[..k - 1]), c.call, c.coerces, "", "");
      NativeOneMore(r, t, s, calls, k - 1);
    }
  }

  lemma {:induction false} EscalationsFromHistory(r: Registry, t: Thresholds, s: Session, calls: seq<Completed>, k: nat)
    requires k <= |calls|
    ensures Run(r, t, s, calls[..k]).native.escalations == s.native.escalations + |PassedEscalated(r, t, s, calls, k)|
    decreases k
  {
    if k == 0 {
      assert PassedEscalated(r, t, s, calls, 0) == {};
    } else {
      var c := calls[k - 1];
      EscalationsFromHistory(r, t, s, calls, k - 1);
      RunTo(r, t, s, calls, k - 1);
      NextCounts(r, t, Run(r, t, s, calls[..k - 1]), c.call, c.coerces, "", "");
      EscalatedOneMore(r, t, s, calls, k - 1);
    }
  }

  lemma {:induction false} SameCallsFromHistory(r: Registry, t: Thresholds, s: Session, calls: seq<Completed>, k: nat,
                                                name: string, signature: string)
    requires k <= |calls|
    ensures Get(Run(r, t, s, calls[..k]).native.argCalls, (name, signature), 0) ==
            Get(s.native.argCalls, (name, signature), 0) + |PassedSame(r, t, s, calls, k, name, signature)|
    decreases k
  {
    if k == 0 {
      assert PassedSame(r, t, s, calls, 0, name, signature) == {};
    } else {
      var c := calls[k - 1];
      SameCallsFromHistory(r, t, s, calls, k - 1, name, signature);
      RunTo(r, t, s, calls, k - 1);
      NextCounts(r, t, Run(r, t, s, calls[..k - 1]), c.call, c.coerces, name, signature);
      SameOneMore(r, t, s, calls, k - 1, name, signature);
    }
  }

  lemma {:induction false} WarnedFromHistory(r: Registry, t: Thresholds, s: Session, calls: seq<Completed>, k: nat, w: Warning)
    requires k <= |calls|
    ensures w in Run(r, t, s, calls[..k]).native.warned <==> w in s.native.warned || AdvisedBefore(r, t, s, calls, k, w)
    decreases k
  {
    if k > 0 {
      var c := calls[k - 1];
      WarnedFromHistory(r, t, s, calls, k - 1, w);
      RunTo(r, t, s, calls, k - 1);
      NextWarned(r, t, Run(r, t, s, calls[..k - 1]), c.call, c.coerces);
      assert AdvisedBefore(r, t, s, calls, k, w) <==>
             AdvisedBefore(r, t, s, calls, k - 1, w) || AdvisedAt(r, t, s, calls, k - 1, w);
    }
  }

  /** The warning was not given at the start of the run nor in it. */
  predicate IsNew(r: Registry, t: Thresholds, s: Session, calls: seq<Completed>, k: nat, w: Warning) {
    w !in s.native.warned && !AdvisedBefore(r, t, s, calls, k, w)
  }

  predicate Rereads(r: Registry, t: Thresholds, s: Session, items: seq<Item>, calls: seq<Completed>, k: nat)
    requires k < |calls|
  {
    exists p :: p in calls[k].call.readPaths && RereadAt(r, t, s, items, calls, k, p)
  }

  /** A call left to the client that rereads nothing is answered by the first warning
      that the history calls for and that is new, and otherwise passed through. */
  lemma AdvisoryFromHistory(r: Registry, t: Thresholds, items: seq<Item>, native: Counters, calls: seq<Completed>, k: nat)
    requires k < |calls| && IsLeftToClient(r, calls[k].call) && !Rereads(r, t, Seeded(items, native), items, calls, k)
    ensures var s, c := Seeded(items, native), calls[k].call;
            DecisionAt(r, t, s, calls, k) ==
            if native.calls + |PassedNative(r, t, s, calls, k)| >= t.calls && IsNew(r, t, s, calls, k, TOTAL_WARNING)
            then NativeSignal(TOTAL_WARNING)
            else if native.escalations + |PassedEscalated(r, t, s, calls, k)| >= t.escalations &&
                    IsNew(r, t, s, calls, k, ESCALATION_WARNING)
            then NativeSignal(ESCALATION_WARNING)
            else if IsCommand(c) && Get(native.failures, c.commandSignature, 0) >= t.failures &&
                    IsNew(r, t, s, calls, k, FailureWarning(c))
            then NativeSignal(FailureWarning(c))
            else if Get(native.argCalls, (c.name, c.argSignature), 0) +
                    |PassedSame(r, t, s, calls, k, c.name, c.argSignature)| >= t.repeats &&
                    IsNew(r, t, s, calls, k, RepeatWarning(c))
            then NativeSignal(RepeatWarning(c))
            else Public
  {
    var s, c := Seeded(items, native), calls[k].call;
    var now := Run(r, t, s, calls[..k]);
    NothingReread(r, t, items, native, calls, k);
    LeftToClientDecision(r, t, now, c, calls[k].coerces);
    CallsFromHistory(r, t, s, calls, k);
    EscalationsFromHistory(r, t, s, calls, k);
    SameCallsFromHistory(r, t, s, calls, k, c.name, c.argSignature);
    WarnedFromHistory(r, t, s, calls, k, TOTAL_WARNING);
    WarnedFromHistory(r, t, s, calls, k, ESCALATION_WARNING);
    WarnedFromHistory(r, t, s, calls, k, FailureWarning(c));
    WarnedFromHistory(r, t, s, calls, k, RepeatWarning(c));
    AdvisoryCascade(now.native, c, t);
  }

  lemma NothingReread(r: Registry, t: Thresholds, items: seq<Item>, native: Counters, calls: seq<Completed>, k: nat)
    requires k < |calls| && !Rereads(r, t, Seeded(items, native), items, calls, k)
    ensures RepeatedPaths(Run(r, t, Seeded(items, native), calls[..k]).files, calls[k].call) == {}
  {
    forall p | p in calls[k].call.readPaths
      ensures p !in RepeatedPaths(Run(r, t, Seeded(items, native), calls[..k]).files, calls[k].call)
    {
      TrackedFromHistory(r, t, items, native, calls, k, p);
    }
  }

  /** The rules before: a dropped tool is an error, then the proxy's own tools and the
      adapted ones go their way if their arguments can be repaired, and what is left is
      an error unless the client knows it. */
  lemma EarlierRules(r: Registry, t: Thresholds, s: Session, calls: seq<Completed>, k: nat)
    requires k < |calls| && !IsLeftToClient(r, calls[k].call)
    ensures var c := calls[k].call; var d := DecisionAt(r, t, s, calls, k);
            (d == ProxyLocal <==>
             (c.name == "" || c.name !in r.dropped) && c.name in r.local && calls[k].coerces) &&
            (d == Public <==>
             (c.name == "" || c.name !in r.dropped) && c.name !in r.local && c.name in r.adapted && calls[k].coerces) &&
            (d == Error <==> d != ProxyLocal && d != Public)
  {
  }

  // ---------------------------------------------------------------------------
  // The input history
  // ---------------------------------------------------------------------------

  predicate NativeItem(items: seq<Item>, i: int) {
    0 <= i < |items| && items[i].CallItem? && IsNative(items[i].call)
  }

  predicate SameItem(items: seq<Item>, i: int, name: string, signature: string) {
    NativeItem(items, i) && items[i].call.name == name && items[i].call.argSignature == signature
  }

  predicate EscalatedItem(items: seq<Item>, i: int) {
    NativeItem(items, i) && IsCommand(items[i].call) && items[i].call.escalates
  }

  function NativeIn(items: seq<Item>): set<int> {
    set i | 0 <= i < |items| && NativeItem(items, i)
  }

  function SameIn(items: seq<Item>, name: string, signature: string): set<int> {
    set i | 0 <= i < |items| && SameItem(items, i, name, signature)
  }

  function EscalatedIn(items: seq<Item>): set<int> {
    set i | 0 <= i < |items| && EscalatedItem(items, i)
  }

  lemma ItemsSnoc(items: seq<Item>, item: Item, i: int, name: string, signature: string)
    requires i != |items|
    ensures NativeItem(items + [item], i) <==> NativeItem(items, i)
    ensures SameItem(items + [item], i, name, signature) <==> SameItem(items, i, name, signature)
    ensures EscalatedItem(items + [item], i) <==> EscalatedItem(items, i)
  {
  }

  /** What one more item does to the counts. */
  lemma CountsSnoc(items: seq<Item>, item: Item, name: string, signature: string)
    ensures var all, n := items + [item], |items|;
            |NativeIn(all)| == |NativeIn(items)| + (if NativeItem(all, n) then 1 else 0) &&
            |SameIn(all, name, signature)| ==
            |SameIn(items, name, signature)| + (if SameItem(all, n, name, signature) then 1 else 0) &&
            |EscalatedIn(all)| == |EscalatedIn(items)| + (if EscalatedItem(all, n) then 1 else 0)
  {
    var all, n := items + [item], |items|;
    forall i | i != n
      ensures i in NativeIn(all) <==> i in NativeIn(items)
      ensures i in SameIn(all, name, signature) <==> i in SameIn(items, name, signature)
      ensures i in EscalatedIn(all) <==> i in EscalatedIn(items)
    {
      ItemsSnoc(items, item, i, name, signature);
    }
    OneMore(NativeIn(items), NativeIn(all), n, NativeItem(all, n));
    OneMore(SameIn(items, name, signature), SameIn(all, name, signature), n, SameItem(all, n, name, signature));
    OneMore(EscalatedIn(items), EscalatedIn(all), n, EscalatedItem(all, n));
  }

  /** Replaying the input counts each native call in it once. */
  lemma {:induction false} ReplayedCounts(items: seq<Item>, name: string, signature: string)
    ensures var s := Replayed(items);
            s.calls == |NativeIn(items)| && s.escalations == |EscalatedIn(items)| && s.warned == {} && s.failures == map[] &&
            Get(s.argCalls, (name, signature), 0) == |SameIn(items, name, signature)|
    decreases |items|
  {
    if items != [] {
      var n := |items| - 1;
      assert items == items[..n] + [items[n]];
      ReplayedCounts(items[..n], name, signature);
      CountsSnoc(items[..n], items[n], name, signature);
    }
  }

  /** Item i is the last command call with this id. */
  predicate LastCommand(items: seq<Item>, id: string, i: nat) {
    i < |items| && items[i].CallItem? && items[i].id == id && IsCommand(items[i].call) &&
    forall j :: i < j < |items| && items[j].CallItem? && IsCommand(items[j].call) ==> items[j].id != id
  }

  lemma LastCommandSnoc(items: seq<Item>, item: Item, id: string, i: nat)
    requires i < |items|
    ensures LastCommand(items + [item], id, i) <==>
            LastCommand(items, id, i) && !(item.CallItem? && IsCommand(item.call) && item.id == id)
  {
    var all := items + [item];
    assert all[|items|] == item && forall j :: 0 <= j < |items| ==> all[j] == items[j];
  }

  /** An output is joined with the last command call that used its id, if any did. */
  lemma {:induction false} JoinedIsLastCommand(items: seq<Item>, id: string)
    ensures id in Joined(items) <==> id != "" && exists i: nat :: LastCommand(items, id, i)
    ensures forall i: nat :: id != "" && LastCommand(items, id, i) ==>
              id in Joined(items) && Joined(items)[id] == items[i].call.commandSignature
    decreases |items|
  {
    if items != [] {
      var n := |items| - 1;
      var init := items[..n];
      JoinedIsLastCommand(init, id);
      assert items == init + [items[n]];
      forall i: nat | i < n
        ensures LastCommand(items, id, i) <==>
                LastCommand(init, id, i) && !(items[n].CallItem? && IsCommand(items[n].call) && items[n].id == id)
      {
        LastCommandSnoc(init, items[n], id, i);
      }
      if items[n].CallItem? && IsCommand(items[n].call) && items[n].id == id {
        assert LastCommand(items, id, n);
      } else {
        assert forall i: nat :: LastCommand(items, id, i) ==> i < n;
        assert forall i: nat :: LastCommand(init, id, i) ==> i < n && LastCommand(items, id, i);
      }
    }
  }
}
