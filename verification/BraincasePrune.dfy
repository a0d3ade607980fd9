/** Reporting on and applying a retention policy to the store. */
module BraincasePrune {
  import opened Common
  import opened BraincaseStore
  import opened BraincaseDb
  import R = BraincaseRetention

  datatype Filter = Filter(domain: Option<string>, status: Option<string>, retention: Option<string>)

  /** What the listing query selects; the retention class is filtered afterwards. */
  predicate Listable(f: Filter, r: Record) {
    (f.domain.Some? ==> r.memoryDomain == f.domain.value) && (f.status.Some? ==> r.status == f.status.value)
  }

  function Max(a: nat, b: nat): nat { if a > b then a else b }

  /** An answer to the listing query: rows of the table, each once, and all that
      qualify unless the limit was reached. */
  predicate IsListing(rows: map<string, Row>, f: Filter, limit: nat, rs: seq<Record>) {
    |rs| <= limit &&
    (forall i :: 0 <= i < |rs| ==> rs[i].id in rows && rows[rs[i].id].record == rs[i] && Listable(f, rs[i])) &&
    (forall i, j :: 0 <= i < j < |rs| ==> rs[i].id != rs[j].id) &&
    (|rs| < limit ==> forall id :: id in rows && Listable(f, rows[id].record) ==> rows[id].record in rs)
  }

  predicate Due(r: Record, now: int, policy: R.Policy, f: Filter) {
    (f.retention.Some? ==> r.retention == f.retention.value) && R.Verdict(r, now, policy).action == R.Action.Retire
  }

  /** Ids the report proposes to retire, at most limit of them. */
  function Proposed(rs: seq<Record>, now: int, policy: R.Policy, f: Filter, limit: nat): (ids: seq<string>)
    ensures |ids| <= limit && |ids| <= |rs|
  {
    if rs == [] then []
    else
      var before := Proposed(rs[..|rs| - 1], now, policy, f, limit);
      var r := rs[|rs| - 1];
      if Due(r, now, policy, f) && |before| < limit then before + [r.id] else before
  }

  function CountOf(rs: seq<Record>, now: int, policy: R.Policy, f: Filter, action: R.Action): nat {
    if rs == [] then 0
    else
      var r := rs[|rs| - 1];
      CountOf(rs[..|rs| - 1], now, policy, f, action) +
      if (f.retention.Some? ==> r.retention == f.retention.value) && R.Verdict(r, now, policy).action == action then 1 else 0
  }

  /** retention_report_records with the retire filter. */
  method Report(rs: seq<Record>, now: int, policy: R.Policy, f: Filter, limit: nat)
    returns (ids: seq<string>, keep: nat, stale: nat, retire: nat)
    ensures ids == Proposed(rs, now, policy, f, limit)
    ensures keep == CountOf(rs, now, policy, f, R.Action.Keep)
    ensures stale == CountOf(rs, now, policy, f, R.Action.Stale)
    ensures retire == CountOf(rs, now, policy, f, R.Action.Retire)
  {
    ids, keep, stale, retire := [], 0, 0, 0;
    for i := 0 to |rs|
      invariant ids == Proposed(rs[..i], now, policy, f, limit)
      invariant keep == CountOf(rs[..i], now, policy, f, R.Action.Keep)
      invariant stale == CountOf(rs[..i], now, policy, f, R.Action.Stale)
      invariant retire == CountOf(rs[..i], now, policy, f, R.Action.Retire)
    {
      assert rs[..i + 1][..i] == rs[..i];
      if f.retention.Some? && rs[i].retention != f.retention.value {
        continue;
      }
      var d := R.DecideRetention(rs[i], now, policy);
      match d.action {
        case Keep => keep := keep + 1;
        case Stale => stale := stale + 1;
        case Retire =>
          retire := retire + 1;
          if |ids| < limit {
            ids := ids + [rs[i].id];
          }
      }
    }
    assert rs[..|rs|] == rs;
  }

  /** Record i is of the asked retention class and its verdict is the action. */
  predicate CountsFor(rs: seq<Record>, i: int, now: int, policy: R.Policy, f: Filter, action: R.Action) {
    0 <= i < |rs| && (f.retention.None? || f.retention.value == rs[i].retention) &&
    R.Verdict(rs[i], now, policy).action == action
  }

  function Places(rs: seq<Record>, now: int, policy: R.Policy, f: Filter, action: R.Action): set<int> {
    set i | 0 <= i < |rs| && CountsFor(rs, i, now, policy, f, action)
  }

  lemma PlacesSnoc(rs: seq<Record>, now: int, policy: R.Policy, f: Filter, action: R.Action)
    requires rs != []
    ensures var n := |rs| - 1; var before := Places(rs[..n], now, policy, f, action);
            n !in before &&
            Places(rs, now, policy, f, action) == if CountsFor(rs, n, now, policy, f, action) then before + {n} else before
  {
    var n := |rs| - 1;
    assert forall i :: 0 <= i < n ==> rs[..n][i] == rs[i];
  }

  /** The report counts the records of each verdict. */
  lemma {:induction false} CountIsCardinality(rs: seq<Record>, now: int, policy: R.Policy, f: Filter, action: R.Action)
    ensures CountOf(rs, now, policy, f, action) == |Places(rs, now, policy, f, action)|
    decreases |rs|
  {
    if rs != [] {
      CountIsCardinality(rs[..|rs| - 1], now, policy, f, action);
      PlacesSnoc(rs, now, policy, f, action);
    }
  }

  lemma {:induction false} ProposedSize(rs: seq<Record>, now: int, policy: R.Policy, f: Filter, limit: nat)
    ensures var due := CountOf(rs, now, policy, f, R.Action.Retire);
            |Proposed(rs, now, policy, f, limit)| == if due < limit then due else limit
    decreases |rs|
  {
    if rs != [] {
      ProposedSize(rs[..|rs| - 1], now, policy, f, limit);
    }
  }

  lemma ProposedSnoc(rs: seq<Record>, now: int, policy: R.Policy, f: Filter, limit: nat)
    requires rs != []
    ensures var n := |rs| - 1; var before, after := Proposed(rs[..n], now, policy, f, limit), Proposed(rs, now, policy, f, limit);
            before <= after &&
            (CountsFor(rs, n, now, policy, f, R.Action.Retire) && |before| < limit ==> after == before + [rs[n].id])
  {
  }

  /** Record i, if it is to be retired with k such records before it, is proposed at
      place k. */
  ghost predicate ProposedAt(rs: seq<Record>, now: int, policy: R.Policy, f: Filter, limit: nat, i: nat)
    requires i <= |rs|
  {
    var ids, k := Proposed(rs, now, policy, f, limit), CountOf(rs[..i], now, policy, f, R.Action.Retire);
    i < |rs| && k < |ids| && ids[k] == rs[i].id
  }

  lemma ProposedLast(rs: seq<Record>, now: int, policy: R.Policy, f: Filter, limit: nat)
    requires rs != [] && CountsFor(rs, |rs| - 1, now, policy, f, R.Action.Retire)
    requires CountOf(rs[..|rs| - 1], now, policy, f, R.Action.Retire) < limit
    ensures ProposedAt(rs, now, policy, f, limit, |rs| - 1)
  {
    ProposedSize(rs[..|rs| - 1], now, policy, f, limit);
    ProposedSnoc(rs, now, policy, f, limit);
  }

  lemma ProposedEarlier(rs: seq<Record>, now: int, policy: R.Policy, f: Filter, limit: nat, i: nat)
    requires i < |rs| - 1 && ProposedAt(rs[..|rs| - 1], now, policy, f, limit, i)
    ensures ProposedAt(rs, now, policy, f, limit, i)
  {
    var init := rs[..|rs| - 1];
    assert init[..i] == rs[..i] && init[i] == rs[i];
    ProposedSnoc(rs, now, policy, f, limit);
  }

  lemma CountsForInit(rs: seq<Record>, i: nat, now: int, policy: R.Policy, f: Filter, action: R.Action)
    requires i < |rs| - 1 && CountsFor(rs, i, now, policy, f, action)
    ensures CountsFor(rs[..|rs| - 1], i, now, policy, f, action)
  {
    assert rs[..|rs| - 1][i] == rs[i];
  }

  /** The report proposes the records with the verdict Retire in the order of the listing,
      until the limit. */
  lemma {:induction false} ProposedInOrder(rs: seq<Record>, now: int, policy: R.Policy, f: Filter, limit: nat, i: nat)
    requires CountsFor(rs, i, now, policy, f, R.Action.Retire)
    requires CountOf(rs[..i], now, policy, f, R.Action.Retire) < limit
    ensures ProposedAt(rs, now, policy, f, limit, i)
    decreases |rs|
  {
    var n := |rs| - 1;
    if i < n {
      assert rs[..n][..i] == rs[..i];
      CountsForInit(rs, i, now, policy, f, R.Action.Retire);
      ProposedInOrder(rs[..n], now, policy, f, limit, i);
      ProposedEarlier(rs, now, policy, f, limit, i);
    } else {
      ProposedLast(rs, now, policy, f, limit);
    }
  }

  lemma {:induction false} ProposedMembers(rs: seq<Record>, now: int, policy: R.Policy, f: Filter, limit: nat, r: Record)
    requires |rs| <= limit && r in rs && Due(r, now, policy, f)
    ensures r.id in Proposed(rs, now, policy, f, limit)
    decreases |rs|
  {
    var n := |rs| - 1;
    assert |Proposed(rs[..n], now, policy, f, limit)| <= n;
    if r in rs[..n] {
      ProposedMembers(rs[..n], now, policy, f, limit, r);
    } else {
      assert rs == rs[..n] + [rs[n]];
    }
  }

  // ---------------------------------------------------------------------------
  // Applying
  // ---------------------------------------------------------------------------

  function RetiredRow(row: Row, now: int): Row {
    row.(record := row.record.(status := "retired", updatedAt := now))
  }

  /** What applying decisions about these ids leaves: exactly the named records whose
      verdict on the present row is retirement are retired. */
  predicate Pruned(before: map<string, Row>, after: map<string, Row>, ids: seq<string>, now: int, policy: R.Policy) {
    before.Keys == after.Keys &&
    forall id :: id in before ==>
      after[id] == if id in ids && R.Verdict(before[id].record, now, policy).action == R.Action.Retire
                   then RetiredRow(before[id], now) else before[id]
  }

  lemma PrunedOneMore(before: map<string, Row>, after: map<string, Row>, ids: seq<string>, id: string, now: int,
                      policy: R.Policy)
    requires Pruned(before, after, ids, now, policy)
    ensures id in after && R.Verdict(after[id].record, now, policy).action == R.Action.Retire ==>
              Pruned(before, after[id := RetiredRow(after[id], now)], ids + [id], now, policy)
    ensures !(id in after && R.Verdict(after[id].record, now, policy).action == R.Action.Retire) ==>
              Pruned(before, after, ids + [id], now, policy)
  {
    assert forall x :: x in ids + [id] <==> x in ids || x == id;
  }

  datatype Skip = MissingRecord | ActiveDurableProtected | AlreadyInactive | DecisionChanged

  /** One proposed id is looked up and judged again right before it is retired. */
  method ApplyDecision(db: BrainCaseDB, id: string, now: int, policy: R.Policy, reason: string) returns (skip: Option<Skip>)
    requires db.enabled
    modifies db
    ensures skip.None? <==>
              id in old(db.rows) && R.Verdict(old(db.rows)[id].record, now, policy).action == R.Action.Retire
    ensures skip == Some(MissingRecord) <==> id !in old(db.rows)
    ensures id in old(db.rows) && skip.Some? ==>
              var r := old(db.rows)[id].record;
              skip.value == if r.status == "active" && r.retention == "durable" then ActiveDurableProtected
                            else if r.status == "retired" || r.status == "superseded" then AlreadyInactive
                            else DecisionChanged
    ensures db.View() == if skip.None? then Apply(old(db.View()), Retire(id, reason, now)) else old(db.View())
  {
    var current := db.GetStateRecord(id);
    if current.None? {
      return Some(MissingRecord);
    }
    if current.value.status == "active" && current.value.retention == "durable" {
      return Some(ActiveDurableProtected);
    }
    if current.value.status == "retired" || current.value.status == "superseded" {
      return Some(AlreadyInactive);
    }
    var d := R.DecideRetention(current.value, now, policy);
    if d.action != R.Action.Retire {
      return Some(DecisionChanged);
    }
    var _ := db.RetireStateRecord(id, reason, now);
    skip := None;
  }

  /** The list of ids may be stale, and may name anything. */
  method ApplyDecisions(db: BrainCaseDB, ids: seq<string>, now: int, policy: R.Policy, reason: string)
    returns (retired: seq<string>, skipped: seq<(string, Skip)>)
    requires db.enabled
    modifies db
    ensures Pruned(old(db.rows), db.rows, ids, now, policy)
    ensures db.index == old(db.index)
    ensures |retired| + |skipped| == |ids|
    ensures |db.revisions| == |old(db.revisions)| + |retired|
    ensures forall id :: id in retired <==>
              id in ids && id in old(db.rows) && R.Verdict(old(db.rows)[id].record, now, policy).action == R.Action.Retire
  {
    retired, skipped := [], [];
    ghost var before := db.rows;
    for i := 0 to |ids|
      invariant Pruned(before, db.rows, ids[..i], now, policy)
      invariant db.index == old(db.index)
      invariant |retired| + |skipped| == i
      invariant |db.revisions| == |old(db.revisions)| + |retired|
      invariant forall id :: id in retired <==>
                  id in ids[..i] && id in before && R.Verdict(before[id].record, now, policy).action == R.Action.Retire
    {
      assert ids[..i + 1] == ids[..i] + [ids[i]];
      PrunedOneMore(before, db.rows, ids[..i], ids[i], now, policy);
      var skip := ApplyDecision(db, ids[i], now, policy, reason);
      if skip.Some? {
        skipped := skipped + [(ids[i], skip.value)];
      } else {
        retired := retired + [ids[i]];
      }
    }
    assert ids[..|ids|] == ids;
  }

  /** apply_retention_prune on an enabled database; listing is the answer to its
      query. */
  method Prune(db: BrainCaseDB, listing: seq<Record>, now: int, policy: R.Policy, f: Filter, limit: nat, reason: string)
    returns (retired: seq<string>, skipped: seq<(string, Skip)>)
    requires db.enabled && IsListing(db.rows, f, Max(limit * 4, 200), listing)
    modifies db
    ensures Pruned(old(db.rows), db.rows, Proposed(listing, now, policy, f, limit), now, policy)
    ensures |retired| + |skipped| == |Proposed(listing, now, policy, f, limit)|
    ensures forall id :: id in retired <==>
              id in Proposed(listing, now, policy, f, limit) && id in old(db.rows) &&
              R.Verdict(old(db.rows)[id].record, now, policy).action == R.Action.Retire
  {
    var ids, _, _, _ := Report(listing, now, policy, f, limit);
    retired, skipped := ApplyDecisions(db, ids, now, policy, reason);
  }

  /** Pruning never touches an active durable record, and what it retires qualified
      under the policy just then. */
  lemma PruneIsSafe(before: map<string, Row>, after: map<string, Row>, ids: seq<string>, now: int, policy: R.Policy, id: string)
    requires Pruned(before, after, ids, now, policy) && id in before
    ensures after[id] != before[id] ==>
              after[id] == before[id].(record := before[id].record.(status := "retired", updatedAt := now)) && id in ids &&
              !(before[id].record.status == "active" && before[id].record.retention == "durable") &&
              before[id].record.status != "retired" && before[id].record.status != "superseded" &&
              R.AsksToRetire(policy, before[id].record, now - before[id].record.updatedAt)
  {
    R.RetireIff(before[id].record, now, policy);
  }

  lemma {:induction false} ProposedAreListed(rs: seq<Record>, now: int, policy: R.Policy, f: Filter, limit: nat, id: string)
    requires id in Proposed(rs, now, policy, f, limit)
    ensures exists i :: 0 <= i < |rs| && rs[i].id == id && Due(rs[i], now, policy, f)
    decreases |rs|
  {
    var n := |rs| - 1;
    if id in Proposed(rs[..n], now, policy, f, limit) {
      ProposedAreListed(rs[..n], now, policy, f, limit, id);
      var i :| 0 <= i < n && rs[..n][i].id == id && Due(rs[..n][i], now, policy, f);
      assert rs[i] == rs[..n][i];
    } else {
      assert rs[n].id == id;
    }
  }

  /** Pruning only touches records of the domain, status and retention class asked for. */
  lemma PruneFollowsFilter(before: map<string, Row>, after: map<string, Row>, listing: seq<Record>, now: int, policy: R.Policy,
                           f: Filter, limit: nat, id: string)
    requires IsListing(before, f, Max(limit * 4, 200), listing)
    requires Pruned(before, after, Proposed(listing, now, policy, f, limit), now, policy)
    requires id in before && after[id] != before[id]
    ensures f.domain.Some? ==> before[id].record.memoryDomain == f.domain.value
    ensures f.status.Some? ==> before[id].record.status == f.status.value
    ensures f.retention.Some? ==> before[id].record.retention == f.retention.value
  {
    ProposedAreListed(listing, now, policy, f, limit, id);
  }

  lemma {:induction false} ListingSize(rows: map<string, Row>, rs: seq<Record>, ids: set<string>)
    requires forall i :: 0 <= i < |rs| ==> rs[i].id in ids
    requires forall i, j :: 0 <= i < j < |rs| ==> rs[i].id != rs[j].id
    ensures |rs| <= |ids|
    decreases |rs|
  {
    if rs != [] {
      var n := |rs| - 1;
      ListingSize(rows, rs[..n], ids - {rs[n].id});
    }
  }

  /** When the limit covers the store, a second prune with the same arguments has
      nothing to propose, whatever order its listing comes in. */
  lemma SecondPruneIsIdle(before: map<string, Row>, after: map<string, Row>, first: seq<Record>, second: seq<Record>,
                          now: int, policy: R.Policy, f: Filter, limit: nat)
    requires |before| <= limit
    requires IsListing(before, f, Max(limit * 4, 200), first) && IsListing(after, f, Max(limit * 4, 200), second)
    requires Pruned(before, after, Proposed(first, now, policy, f, limit), now, policy)
    ensures Proposed(second, now, policy, f, limit) == []
  {
    assert |before.Keys| == |before|;
    ListingSize(before, first, before.Keys);
    forall i | 0 <= i < |second| ensures !Due(second[i], now, policy, f) {
      var id := second[i].id;
      if after[id] == before[id] && Due(second[i], now, policy, f) {
        assert before[id].record in first;
        ProposedMembers(first, now, policy, f, limit, before[id].record);
      }
    }
    NothingDue(second, now, policy, f, limit);
  }

  lemma {:induction false} NothingDue(rs: seq<Record>, now: int, policy: R.Policy, f: Filter, limit: nat)
    requires forall i :: 0 <= i < |rs| ==> !Due(rs[i], now, policy, f)
    ensures Proposed(rs, now, policy, f, limit) == []
    decreases |rs|
  {
    if rs != [] {
      NothingDue(rs[..|rs| - 1], now, policy, f, limit);
    }
  }
}
