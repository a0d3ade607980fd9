/** The BrainCase database object.  Each method is proved to carry out exactly one
    operation of BraincaseStore, or to refuse without any effect. */
module BraincaseDb {
  import opened Common
  import opened BraincaseStore

  lemma {:induction false} IndexOfSnoc(rows: map<string, Row>, order: seq<string>, id: string)
    requires (forall x :: x in order ==> x in rows) && id in rows
    ensures IndexOf(rows, order + [id]) == IndexOf(rows, order) + [IndexRowOf(rows[id].record)]
    decreases |order|
  {
    if order == [] {
      assert [] + [id] == [id] && [id][1..] == [];
    } else {
      assert (order + [id])[1..] == order[1..] + [id];
      IndexOfSnoc(rows, order[1..], id);
    }
  }

  /** Keys that a dictionary to be stored must not have. */
  const FORBIDDEN_FIELDS :=
    {"raw_prompt", "raw_request_body", "request_body", "full_log", "telemetry_event", "stream_event"}

  predicate Storable(keys: set<string>) {
    keys !! FORBIDDEN_FIELDS
  }

  lemma LinkedIsStorable(keys: set<string>)
    requires Storable(keys)
    ensures Storable(keys + {"supersedes"})
  {
  }

  /** Keys of a dictionary that get_state_record returns. */
  const RECORD_KEYS :=
    {"record_id", "schema", "memory_domain", "tier", "record_type", "claim", "summary", "status", "visibility",
     "confidence", "importance", "retention", "created_at_ms", "updated_at_ms", "source_refs", "tags", "supersedes",
     "superseded_by", "metadata"}

  class BrainCaseDB {
    const enabled: bool
    var rows: map<string, Row>
    var index: seq<IndexRow>
    var revisions: seq<Revision>
    var indexOn: bool

    function View(): Store
      reads this
    {
      Store(rows, index, revisions, indexOn)
    }

    constructor (enabled: bool)
      ensures this.enabled == enabled && View() == EMPTY
    {
      this.enabled := enabled;
      rows, index, revisions, indexOn := map[], [], [], true;
    }

    /** get_state_record: the record without its access columns. */
    method GetStateRecord(id: string) returns (r: Option<Record>)
      ensures r == if enabled && id in rows then Some(rows[id].record) else None
    {
      r := if enabled && id in rows then Some(rows[id].record) else None;
    }

    method SyncIndex(r: Record, sync: Sync)
      modifies this`index, this`indexOn
      ensures index == SyncedIndex(old(index), r, sync)
      ensures indexOn == (old(indexOn) && sync.Synced?)
    {
      if sync != FailedAtDelete {
        index := DeleteRows(index, r.id);
        if sync == Synced {
          index := index + [IndexRowOf(r)];
        }
      }
      if sync != Synced {
        indexOn := false;
      }
    }

    /** keys are those of the dictionary that holds the record. */
    method PutStateRecord(r: Record, keys: set<string>, sync: Sync) returns (ok: bool)
      modifies this
      ensures ok == (enabled && Storable(keys))
      ensures View() == if ok then Apply(old(View()), Put(r, sync)) else old(View())
    {
      if !enabled {
        return false;
      }
      if !Storable(keys) {
        return false;
      }
      rows := rows[r.id := Row(r, None, 0)];
      if indexOn {
        SyncIndex(r, sync);
      }
      ok := true;
    }

    method RetireStateRecord(id: string, reason: string, at: int) returns (ok: bool)
      modifies this
      ensures ok == (enabled && Accepts(old(View()), Retire(id, reason, at)))
      ensures View() == if ok then Apply(old(View()), Retire(id, reason, at)) else old(View())
    {
      var was := GetStateRecord(id);
      if was.None? {
        return false;
      }
      revisions := revisions + [Revision(id, Retired, was.value, None, reason, at)];
      rows := rows[id := rows[id].(record := rows[id].record.(status := "retired", updatedAt := at))];
      ok := true;
    }

    method PromoteStateRecord(id: string, status: string, visibility: string, reason: string, at: int) returns (ok: bool)
      modifies this
      ensures ok == (enabled && Accepts(old(View()), Promote(id, status, visibility, reason, at)))
      ensures View() == if ok then Apply(old(View()), Promote(id, status, visibility, reason, at)) else old(View())
    {
      var was := GetStateRecord(id);
      if was.None? {
        return false;
      }
      var snapshot := was.value.(status := status, visibility := visibility, updatedAt := at);
      revisions := revisions + [Revision(id, Promoted, was.value, Some(snapshot), reason, at)];
      rows := rows[id := rows[id].(record := rows[id].record.(status := status, visibility := visibility, updatedAt := at))];
      ok := true;
    }

    method PatchStateRecord(id: string, tier: Option<string>, importance: Option<real>, tags: Option<seq<string>>,
                            reason: string, at: int)
      returns (ok: bool)
      modifies this
      ensures ok == (enabled && Accepts(old(View()), Patch(id, tier, importance, tags, reason, at)))
      ensures View() == if ok then Apply(old(View()), Patch(id, tier, importance, tags, reason, at)) else old(View())
    {
      if !enabled || (tier.None? && importance.None? && tags.None?) {
        return false;
      }
      var was := GetStateRecord(id);
      if was.None? {
        return false;
      }
      var snapshot := was.value.(updatedAt := at);
      if tier.Some? {
        snapshot := snapshot.(tier := tier.value);
      }
      if importance.Some? {
        snapshot := snapshot.(importance := importance.value);
      }
      if tags.Some? {
        snapshot := snapshot.(tags := tags.value);
      }
      rows := rows[id := rows[id].(record := snapshot)];
      revisions := revisions + [Revision(id, Patched, was.value, Some(snapshot), reason, at)];
      ok := true;
    }

    method SupersedeStateRecord(id: string, r: Record, keys: set<string>, reason: string, at: int, sync: Sync)
      returns (ok: bool)
      modifies this
      ensures ok == (enabled && Storable(keys) && Accepts(old(View()), Supersede(id, r, reason, at, sync)))
      ensures View() == if ok then Apply(old(View()), Supersede(id, r, reason, at, sync)) else old(View())
    {
      if !enabled || !Storable(keys) {
        return false;
      }
      var was := GetStateRecord(id);
      if was.None? {
        return false;
      }
      LinkedIsStorable(keys);
      var linked := r.(supersedes := Some(id));
      var stored := PutStateRecord(linked, keys + {"supersedes"}, sync);
      if !stored {
        return false;
      }
      revisions := revisions + [Revision(id, Superseded, was.value, None, reason, at)];
      var row := rows[id];
      rows := rows[id := row.(record := row.record.(status := "superseded", supersededBy := Some(r.id), updatedAt := at))];
      ok := true;
    }

    method RecordAccess(ids: seq<string>, at: int)
      modifies this
      ensures View() == if enabled then Apply(old(View()), Access(ids, at)) else old(View())
    {
      if !enabled {
        return;
      }
      var left := ids;
      while left != []
        invariant View() == old(View()).(rows := rows)
        invariant Accessed(rows, left, at) == Accessed(old(rows), ids, at)
        decreases |left|
      {
        var id := left[0];
        if id in rows {
          rows := rows[id := rows[id].(lastAccessed := Some(at), accessCount := rows[id].accessCount + 1)];
        }
        left := left[1..];
      }
    }

    /** order is the order in which the record table is read. */
    method RebuildFtsIndex(order: seq<string>) returns (ok: bool)
      requires IsOrder(rows, order)
      modifies this
      ensures ok == (enabled && old(indexOn))
      ensures View() == if ok then Apply(old(View()), Rebuild(order)) else old(View())
    {
      if !enabled || !indexOn {
        return false;
      }
      index := [];
      for i := 0 to |order|
        invariant View() == old(View()).(index := index)
        invariant forall id :: id in order[..i] ==> id in rows
        invariant index == IndexOf(rows, order[..i])
      {
        assert order[i] in (set id | id in order);
        IndexOfSnoc(rows, order[..i], order[i]);
        assert order[..i + 1] == order[..i] + [order[i]];
        index := index + [IndexRowOf(rows[order[i]].record)];
      }
      assert order[..|order|] == order;
      ok := true;
    }

    /** init() on an existing database: the index is in use again, and filled if it is
        empty while records exist. */
    method ReopenDatabase(order: seq<string>) returns (ok: bool)
      requires IsOrder(rows, order)
      modifies this
      ensures ok == enabled
      ensures View() == if ok then Apply(old(View()), Reopen(order)) else old(View())
    {
      if !enabled {
        return false;
      }
      indexOn := true;
      if |rows| > 0 && |index| == 0 {
        var _ := RebuildFtsIndex(order);
      }
      ok := true;
    }
  }
}
