/** When a stored record can reach the model: over whole runs of the store, and
    through the review interface. */
module BraincaseVisibility {
  import opened Common
  import opened BraincaseStore
  import opened BraincaseDb
  import opened BraincaseRender
  import opened BraincaseBudget
  import opened BraincaseHistory

  predicate Renderable(s: Store, id: string) {
    id in s.rows && s.rows[id].record.status == "active" && s.rows[id].record.visibility == "renderable"
  }

  predicate Shows(r: Record) { r.status == "active" && r.visibility == "renderable" }

  /** The operation leaves this record active and renderable: it stores it so, or
      promotes it so. */
  predicate Exposes(op: Op, id: string) {
    match op
    case Put(r, _) => r.id == id && Shows(r)
    case Supersede(replaced, r, _, _, _) => r.id == id && r.id != replaced && Shows(r)
    case Promote(p, status, visibility, _, _) => p == id && status == "active" && visibility == "renderable"
    case _ => false
  }

  lemma OnlyExposingOpsShow(s: Store, op: Op, id: string)
    requires Renderable(Apply(s, op), id) && !Renderable(s, id)
    ensures Exposes(op, id)
  {
    if op.Access? {
      AccessedKeepsRecords(s.rows, op.ids, op.at);
    }
  }

  /** A record that is not renderable at the start of a run, and that no operation of
      the run stores or promotes as active and renderable, is not renderable at its
      end, whatever else the run does. */
  lemma {:induction false} HiddenStaysHidden(s: Store, ops: seq<Op>, id: string)
    requires !Renderable(s, id) && forall op :: op in ops ==> !Exposes(op, id)
    ensures !Renderable(Run(s, ops), id)
    decreases |ops|
  {
    if ops != [] {
      assert ops[0] in ops && forall op :: op in ops[1..] ==> op in ops;
      if Renderable(Apply(s, ops[0]), id) {
        OnlyExposingOpsShow(s, ops[0], id);
      }
      HiddenStaysHidden(Apply(s, ops[0]), ops[1..], id);
    }
  }

  /** Records read back from the store. */
  predicate FromStore(s: Store, records: seq<Record>) {
    forall i :: 0 <= i < |records| ==> records[i].id in s.rows && s.rows[records[i].id].record == records[i]
  }

  lemma SourcesAreRenderable(s: Store, records: seq<Record>, purpose: string, domain: string, tokens: int,
                             tiers: Option<seq<string>>, id: string)
    requires FromStore(s, records) && id in Rendered(records, purpose, domain, tokens, tiers).sources
    ensures Renderable(s, id)
  {
    SourcesAreEligible(records, purpose, domain, tokens, tiers, id);
    var r :| r in records && r.id == id && Eligible(r, domain, tiers);
    var i :| 0 <= i < |records| && records[i] == r;
  }

  /** What the write tool stores, whatever status or visibility was asked for. */
  function Candidate(r: Record, now: int): Record {
    r.(claim := Clipped(r.claim, 2000), summary := Clipped(r.summary, 1000), status := "candidate", visibility := "internal",
       createdAt := now, updatedAt := now, supersedes := None, supersededBy := None)
  }

  function Clipped(s: string, n: nat): string {
    if |s| > n then s[..n] else s
  }

  /** A stored candidate, field by field: cut texts, candidate and internal, both times now,
      no links, and the rest as asked for. */
  lemma CandidateSays(s: Store, r: Record, now: int, sync: Sync)
    ensures var c := Apply(s, Put(Candidate(r, now), sync)).rows;
            r.id in c &&
            c[r.id].record ==
            Record(r.id, r.schema, r.memoryDomain, r.tier, r.recordType,
                   if |r.claim| <= 2000 then r.claim else r.claim[..2000],
                   if |r.summary| <= 1000 then r.summary else r.summary[..1000],
                   "candidate", "internal", r.confidence, r.importance, r.retention, now, now, r.sourceRefs, r.tags,
                   None, None, r.metadata)
  {
  }

  /** A candidate written by the model, whatever it asked for, is never a source of a
      packet until something stores it anew or promotes it as active and renderable. */
  lemma CandidateIsNotRendered(s: Store, r: Record, now: int, sync: Sync, ops: seq<Op>, records: seq<Record>,
                               purpose: string, domain: string, tokens: int, tiers: Option<seq<string>>)
    requires forall op :: op in ops ==> !Exposes(op, r.id)
    requires FromStore(Run(Apply(s, Put(Candidate(r, now), sync)), ops), records)
    ensures r.id !in Rendered(records, purpose, domain, tokens, tiers).sources
  {
    var s' := Run(Apply(s, Put(Candidate(r, now), sync)), ops);
    HiddenStaysHidden(Apply(s, Put(Candidate(r, now), sync)), ops, r.id);
    if r.id in Rendered(records, purpose, domain, tokens, tiers).sources {
      SourcesAreRenderable(s', records, purpose, domain, tokens, tiers, r.id);
    }
  }

  // ---------------------------------------------------------------------------
  // Recall modes
  // ---------------------------------------------------------------------------

  const RECALL_MODE_TIERS: map<string, seq<string>> := map[
    "task" := ["working_state", "project_state", "preference_constraint_memory", "procedural_memory"],
    "project" := ["project_state", "preference_constraint_memory", "procedural_memory", "artifact_memory"],
    "procedure" := ["procedural_memory", "preference_constraint_memory"],
    "artifact" := ["artifact_memory", "episodic_memory"],
    "open_loops" := ["working_state", "project_state"]]

  /** Tiers the memory manager may move a record to. */
  const MANAGER_TIERS := {"short_term", "medium_term", "long_term"}

  predicate Retiers(op: Op, id: string) {
    op.Patch? && op.id == id && op.tier.Some?
  }

  lemma {:induction false} TierIsKept(s: Store, ops: seq<Op>, id: string)
    requires id in s.rows && forall op :: op in ops ==> !Retiers(op, id) && !Writes(op, id)
    ensures id in Run(s, ops).rows && Run(s, ops).rows[id].record.tier == s.rows[id].record.tier
    decreases |ops|
  {
    if ops != [] {
      assert ops[0] in ops && forall op :: op in ops[1..] ==> op in ops;
      if ops[0].Access? {
        AccessedKeepsRecords(s.rows, ops[0].ids, ops[0].at);
      }
      TierIsKept(Apply(s, ops[0]), ops[1..], id);
    }
  }

  lemma ManagerTiersAreUnrouted(tier: string, mode: string)
    requires tier in MANAGER_TIERS && mode in RECALL_MODE_TIERS
    ensures tier !in RECALL_MODE_TIERS[mode]
  {
    assert tier[0] == 's' || tier[0] == 'm' || tier[0] == 'l';
    forall t | t in RECALL_MODE_TIERS[mode] ensures t[0] in {'w', 'p', 'a', 'e'} {
      assert mode in {"task", "project", "procedure", "artifact", "open_loops"};
    }
  }

  /** The manager's tiers belong to no recall mode: a record it has re-tiered is out of
      every mode's packets, however the caller narrows the tiers, also after a promotion,
      until it is re-tiered again or stored anew. */
  lemma RetieredIsNotRecalled(s: Store, id: string, tier: string, reason: string, at: int, ops: seq<Op>, mode: string,
                              narrowed: seq<string>, records: seq<Record>, purpose: string, domain: string, tokens: int)
    requires id in s.rows && tier in MANAGER_TIERS && mode in RECALL_MODE_TIERS
    requires forall t :: t in narrowed ==> t in RECALL_MODE_TIERS[mode]
    requires forall op :: op in ops ==> !Retiers(op, id) && !Writes(op, id)
    requires FromStore(Run(Apply(s, Patch(id, Some(tier), None, None, reason, at)), ops), records)
    ensures id !in Rendered(records, purpose, domain, tokens, Some(narrowed)).sources
  {
    var s1 := Apply(s, Patch(id, Some(tier), None, None, reason, at));
    TierIsKept(s1, ops, id);
    ManagerTiersAreUnrouted(tier, mode);
    var tiers := Some(narrowed);
    if id in Rendered(records, purpose, domain, tokens, tiers).sources {
      SourcesAreEligible(records, purpose, domain, tokens, tiers, id);
    }
  }

  // ---------------------------------------------------------------------------
  // Review
  // ---------------------------------------------------------------------------

  predicate IsInactive(s: Store, id: string) {
    id in s.rows && Inactive(s.rows[id].record.status)
  }

  datatype ReviewOutcome = Disabled | InvalidVisibility | NotFound | NotCandidate | WrongDomain | RedactionFailed | WouldDo | Done

  /** promote_candidate_record: only candidates, only to active, and not past the
      domain guard or the redaction check, whose answer is redacted. */
  method PromoteCandidate(db: BrainCaseDB, id: string, visibility: string, reason: string, now: int,
                          allowed: Option<seq<string>>, redacted: bool, dryRun: bool)
    returns (outcome: ReviewOutcome)
    modifies db
    ensures outcome == Done <==>
              db.enabled && !dryRun && redacted && visibility in {"renderable", "internal"} &&
              id in old(db.rows) && old(db.rows)[id].record.status == "candidate" &&
              (allowed.Some? ==> old(db.rows)[id].record.memoryDomain in allowed.value)
    ensures db.View() == if outcome == Done then Apply(old(db.View()), Promote(id, "active", visibility, reason, now))
                         else old(db.View())
  {
    if !db.enabled {
      return Disabled;
    }
    if visibility !in {"renderable", "internal"} {
      return InvalidVisibility;
    }
    var r := db.GetStateRecord(id);
    if r.None? {
      return NotFound;
    }
    if r.value.status != "candidate" {
      return NotCandidate;
    }
    if allowed.Some? && r.value.memoryDomain !in allowed.value {
      return WrongDomain;
    }
    if !redacted {
      return RedactionFailed;
    }
    if dryRun {
      return WouldDo;
    }
    var _ := db.PromoteStateRecord(id, "active", visibility, reason, now);
    outcome := Done;
  }

  /** reject_candidate_record: a candidate is retired; nothing else is touched. */
  method RejectCandidate(db: BrainCaseDB, id: string, reason: string, now: int, dryRun: bool) returns (outcome: ReviewOutcome)
    modifies db
    ensures outcome == Done <==>
              db.enabled && !dryRun && id in old(db.rows) && old(db.rows)[id].record.status == "candidate"
    ensures db.View() == if outcome == Done then Apply(old(db.View()), Retire(id, reason, now)) else old(db.View())
  {
    if !db.enabled {
      return Disabled;
    }
    var r := db.GetStateRecord(id);
    if r.None? {
      return NotFound;
    }
    if r.value.status != "candidate" {
      return NotCandidate;
    }
    if dryRun {
      return WouldDo;
    }
    var _ := db.RetireStateRecord(id, reason, now);
    outcome := Done;
  }

  /** Operations on the store when only the review interface promotes and stored ids
      are new: a promotion meets a candidate. */
  predicate Reviewed(s: Store, op: Op) {
    match op
    case Promote(id, status, _, _, _) => id in s.rows ==> s.rows[id].record.status == "candidate" && status == "active"
    case Put(r, _) => r.id !in s.rows
    case Supersede(_, r, _, _, _) => r.id !in s.rows
    case _ => true
  }

  predicate ReviewedRun(s: Store, ops: seq<Op>)
    decreases |ops|
  {
    ops == [] || (Reviewed(s, ops[0]) && ReviewedRun(Apply(s, ops[0]), ops[1..]))
  }

  /** The three ways back: a promotion to a status that is not inactive, storing the
      record anew with one, or storing it anew with one as the successor of another. */
  predicate Revives(s: Store, op: Op, id: string) {
    match op
    case Promote(p, status, _, _, _) => p == id && !Inactive(status)
    case Put(r, _) => r.id == id && !Inactive(r.status)
    case Supersede(replaced, r, _, _, _) => r.id == id && replaced in s.rows && replaced != id && !Inactive(r.status)
    case _ => false
  }

  /** No other operation brings an inactive record back, and each of these does. */
  lemma RevivesIff(s: Store, op: Op, id: string)
    requires IsInactive(s, id)
    ensures IsInactive(Apply(s, op), id) <==> !Revives(s, op, id)
  {
    if op.Access? {
      AccessedKeepsRecords(s.rows, op.ids, op.at);
    }
  }

  predicate StaysInactive(s: Store, ops: seq<Op>, id: string)
    decreases |ops|
  {
    IsInactive(s, id) && (ops == [] || StaysInactive(Apply(s, ops[0]), ops[1..], id))
  }

  predicate IsRevived(s: Store, ops: seq<Op>, id: string)
    decreases |ops|
  {
    ops != [] && (Revives(s, ops[0], id) || IsRevived(Apply(s, ops[0]), ops[1..], id))
  }

  /** Over any run a retired or superseded record stays inactive at every moment if and
      only if no operation of the run revives it. */
  lemma {:induction false} InactiveIffNeverRevived(s: Store, ops: seq<Op>, id: string)
    requires IsInactive(s, id)
    ensures StaysInactive(s, ops, id) <==> !IsRevived(s, ops, id)
    ensures StaysInactive(s, ops, id) ==> IsInactive(Run(s, ops), id) && !Renderable(Run(s, ops), id)
    decreases |ops|
  {
    if ops != [] {
      RevivesIff(s, ops[0], id);
      if !Revives(s, ops[0], id) {
        InactiveIffNeverRevived(Apply(s, ops[0]), ops[1..], id);
      }
    }
  }

  lemma {:induction false} ReviewedNeverRevives(s: Store, ops: seq<Op>, id: string)
    requires IsInactive(s, id) && ReviewedRun(s, ops)
    ensures !IsRevived(s, ops, id)
    decreases |ops|
  {
    if ops != [] {
      RevivesIff(s, ops[0], id);
      ReviewedNeverRevives(Apply(s, ops[0]), ops[1..], id);
    }
  }

  /** If only the review interface promotes and stored ids are new, retired and
      superseded records never come back, and are never rendered. */
  lemma InactiveIsAbsorbing(s: Store, ops: seq<Op>, id: string)
    requires IsInactive(s, id) && ReviewedRun(s, ops)
    ensures IsInactive(Run(s, ops), id) && !Renderable(Run(s, ops), id)
  {
    ReviewedNeverRevives(s, ops, id);
    InactiveIffNeverRevived(s, ops, id);
  }

  /** bc_promote_tool sets active without looking at the status: a record that the
      review interface rejected is rendered again. */
  lemma RejectedIsPromoted(r: Record, why: string, at: int)
    requires r.status == "candidate"
    ensures var ops := [Put(r, Synced), Retire(r.id, why, at), Promote(r.id, "active", "renderable", why, at)];
            IsInactive(Run(EMPTY, ops[..2]), r.id) && Renderable(Run(EMPTY, ops), r.id)
  {
    var put, retire, promote := Put(r, Synced), Retire(r.id, why, at), Promote(r.id, "active", "renderable", why, at);
    var ops := [put, retire, promote];
    assert ops[..2] == [put, retire] && [put, retire][1..] == [retire] && [retire][1..] == [];
    assert ops[1..] == [retire, promote] && [retire, promote][1..] == [promote] && [promote][1..] == [];
    var s1 := Apply(EMPTY, put);
    var s2 := Apply(s1, retire);
    var s3 := Apply(s2, promote);
    assert Run(s2, []) == s2 && Run(s1, [retire]) == s2;
    assert Run(s3, []) == s3 && Run(s2, [promote]) == s3 && Run(s1, [retire, promote]) == s3;
  }
}
