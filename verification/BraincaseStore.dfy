/** The BrainCase record store: the record table, the revision log and the full-text
    index, with the operations that change them.  SQL statements of the record table
    do not fail here; the synchronisation of the full-text index may. */
module BraincaseStore {
  import opened Common

  /** A StateRecord as get_state_record returns it. */
  datatype Record = Record(
    id: string,
    schema: string,
    memoryDomain: string,
    tier: string,
    recordType: string,
    claim: string,
    summary: string,
    status: string,
    visibility: string,
    confidence: real,
    importance: real,
    retention: string,
    createdAt: int,
    updatedAt: int,
    sourceRefs: set<string>,
    tags: seq<string>,
    supersedes: Option<string>,
    supersededBy: Option<string>,
    metadata: Option<string>)

  /** A table row: the record and the two access-tracking columns. */
  datatype Row = Row(record: Record, lastAccessed: Option<int>, accessCount: nat)

  /** A row of the full-text table, which has no uniqueness constraint. */
  datatype IndexRow = IndexRow(id: string, claim: string, summary: string, tags: string)

  datatype Operation = Retired | Promoted | Patched | Superseded

  datatype Revision = Revision(
    id: string,
    operation: Operation,
    previous: Record,
    next: Option<Record>,
    reason: string,
    at: int)

  datatype Store = Store(
    rows: map<string, Row>,
    index: seq<IndexRow>,
    revisions: seq<Revision>,
    indexOn: bool)           // whether the full-text table is in use

  /** How a synchronisation of the index ends, when one is attempted. */
  datatype Sync = Synced | FailedAtDelete | FailedAtInsert

  datatype Op =
    | Put(record: Record, sync: Sync)
    | Retire(id: string, reason: string, at: int)
    | Promote(id: string, status: string, visibility: string, reason: string, at: int)
    | Patch(id: string, tier: Option<string>, importance: Option<real>, tags: Option<seq<string>>, reason: string, at: int)
    | Supersede(id: string, record: Record, reason: string, at: int, sync: Sync)
    | Access(ids: seq<string>, at: int)
    | Rebuild(order: seq<string>)
    | Reopen(order: seq<string>)

  const EMPTY := Store(map[], [], [], true)

  predicate Inactive(status: string) { status == "retired" || status == "superseded" }

  // ---------------------------------------------------------------------------
  // The index
  // ---------------------------------------------------------------------------

  function JoinTags(tags: seq<string>): string {
    if tags == [] then ""
    else if |tags| == 1 then tags[0]
    else tags[0] + " " + JoinTags(tags[1..])
  }

  function IndexRowOf(r: Record): IndexRow {
    IndexRow(r.id, r.claim, r.summary, JoinTags(r.tags))
  }

  function RowsFor(index: seq<IndexRow>, id: string): seq<IndexRow> {
    if index == [] then []
    else (if index[0].id == id then [index[0]] else []) + RowsFor(index[1..], id)
  }

  function DeleteRows(index: seq<IndexRow>, id: string): seq<IndexRow> {
    if index == [] then []
    else (if index[0].id == id then [] else [index[0]]) + DeleteRows(index[1..], id)
  }

  /** Delete, then insert; a failure leaves what the statements before it did. */
  function SyncedIndex(index: seq<IndexRow>, r: Record, sync: Sync): seq<IndexRow> {
    match sync
    case Synced => DeleteRows(index, r.id) + [IndexRowOf(r)]
    case FailedAtDelete => index
    case FailedAtInsert => DeleteRows(index, r.id)
  }

  /** The rows a rebuild inserts, in the order the record table was read. */
  function IndexOf(rows: map<string, Row>, order: seq<string>): seq<IndexRow>
    requires forall id :: id in order ==> id in rows
  {
    if order == [] then [] else [IndexRowOf(rows[order[0]].record)] + IndexOf(rows, order[1..])
  }

  predicate IsOrder(rows: map<string, Row>, order: seq<string>) {
    (set id | id in order) == rows.Keys &&
    (forall i, j :: 0 <= i < j < |order| ==> order[i] != order[j])
  }

  // ---------------------------------------------------------------------------
  // The operations
  // ---------------------------------------------------------------------------

  /** INSERT OR REPLACE: the access columns fall back to their defaults. */
  function AfterPut(s: Store, r: Record, sync: Sync): Store {
    var s' := s.(rows := s.rows[r.id := Row(r, None, 0)]);
    if s.indexOn then s'.(index := SyncedIndex(s.index, r, sync), indexOn := sync.Synced?) else s'
  }

  function Revise(s: Store, id: string, operation: Operation, to: Record, next: Option<Record>, reason: string, at: int): Store
    requires id in s.rows
  {
    s.(rows := s.rows[id := s.rows[id].(record := to)],
       revisions := s.revisions + [Revision(id, operation, s.rows[id].record, next, reason, at)])
  }

  function Accessed(rows: map<string, Row>, ids: seq<string>, at: int): map<string, Row> {
    if ids == [] then rows
    else
      var rest := if ids[0] in rows
                  then rows[ids[0] := rows[ids[0]].(lastAccessed := Some(at), accessCount := rows[ids[0]].accessCount + 1)]
                  else rows;
      Accessed(rest, ids[1..], at)
  }

  function PatchedRecord(was: Record, tier: Option<string>, importance: Option<real>, tags: Option<seq<string>>, at: int): Record {
    was.(updatedAt := at,
         tier := if tier.Some? then tier.value else was.tier,
         importance := if importance.Some? then importance.value else was.importance,
         tags := if tags.Some? then tags.value else was.tags)
  }

  /** Whether the operation is carried out, or refused without any effect. */
  predicate Accepts(s: Store, op: Op) {
    match op
    case Retire(id, _, _) => id in s.rows
    case Promote(id, _, _, _, _) => id in s.rows
    case Patch(id, tier, importance, tags, _, _) => (tier.Some? || importance.Some? || tags.Some?) && id in s.rows
    case Supersede(id, _, _, _, _) => id in s.rows
    case Rebuild(order) => s.indexOn && IsOrder(s.rows, order)
    case Reopen(order) => IsOrder(s.rows, order)
    case _ => true
  }

  function Apply(s: Store, op: Op): Store {
    if !Accepts(s, op) then s
    else
      match op
      case Put(r, sync) => AfterPut(s, r, sync)
      case Retire(id, reason, at) =>
        Revise(s, id, Retired, s.rows[id].record.(status := "retired", updatedAt := at), None, reason, at)
      case Promote(id, status, visibility, reason, at) =>
        var to := s.rows[id].record.(status := status, visibility := visibility, updatedAt := at);
        Revise(s, id, Promoted, to, Some(to), reason, at)
      case Patch(id, tier, importance, tags, reason, at) =>
        var to := PatchedRecord(s.rows[id].record, tier, importance, tags, at);
        Revise(s, id, Patched, to, Some(to), reason, at)
      case Supersede(id, r, reason, at, sync) =>
        var was := s.rows[id].record;
        var s' := AfterPut(s, r.(supersedes := Some(id)), sync);
        var row := s'.rows[id];
        s'.(rows := s'.rows[id := row.(record := row.record.(status := "superseded", supersededBy := Some(r.id), updatedAt := at))],
            revisions := s'.revisions + [Revision(id, Superseded, was, None, reason, at)])
      case Access(ids, at) => s.(rows := Accessed(s.rows, ids, at))
      case Rebuild(order) => s.(index := IndexOf(s.rows, order))
      case Reopen(order) =>
        if s.rows != map[] && s.index == [] then s.(indexOn := true, index := IndexOf(s.rows, order))
        else s.(indexOn := true)
  }

  function Run(s: Store, ops: seq<Op>): Store
    decreases |ops|
  {
    if ops == [] then s else Run(Apply(s, ops[0]), ops[1..])
  }

  /** Rows are stored under their own id. */
  predicate Keyed(s: Store) {
    forall id :: id in s.rows ==> s.rows[id].record.id == id
  }

  lemma {:induction false} AccessedKeepsRecords(rows: map<string, Row>, ids: seq<string>, at: int)
    ensures Accessed(rows, ids, at).Keys == rows.Keys
    ensures forall id :: id in rows ==> Accessed(rows, ids, at)[id].record == rows[id].record
    decreases |ids|
  {
    if ids != [] {
      var rest := if ids[0] in rows
                  then rows[ids[0] := rows[ids[0]].(lastAccessed := Some(at), accessCount := rows[ids[0]].accessCount + 1)]
                  else rows;
      AccessedKeepsRecords(rest, ids[1..], at);
    }
  }

  lemma ApplyKeepsKeyed(s: Store, op: Op)
    requires Keyed(s)
    ensures Keyed(Apply(s, op))
    ensures s.rows.Keys <= Apply(s, op).rows.Keys
  {
    if op.Access? {
      AccessedKeepsRecords(s.rows, op.ids, op.at);
    }
  }

  lemma {:induction false} RunKeepsKeyed(s: Store, ops: seq<Op>)
    requires Keyed(s)
    ensures Keyed(Run(s, ops))
    ensures s.rows.Keys <= Run(s, ops).rows.Keys
    decreases |ops|
  {
    if ops != [] {
      ApplyKeepsKeyed(s, ops[0]);
      RunKeepsKeyed(Apply(s, ops[0]), ops[1..]);
    }
  }
}
