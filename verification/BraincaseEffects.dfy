/** What the operations do to one record, told from the run: every column holds what the
    last operation that sets it gave, and access columns count mentions. */
module BraincaseEffects {
  import opened Common
  import opened BraincaseStore

  // ---------------------------------------------------------------------------
  // Columns
  // ---------------------------------------------------------------------------

  datatype Column = Tier | Importance | Tags | Status | Visibility | UpdatedAt | SupersededBy | Supersedes | Claim | Retention

  datatype Cell = Word(s: string) | Level(x: real) | Words(ws: seq<string>) | Time(t: int) | Link(id: Option<string>)

  function CellOf(r: Record, c: Column): Cell {
    match c
    case Tier => Word(r.tier)
    case Importance => Level(r.importance)
    case Tags => Words(r.tags)
    case Status => Word(r.status)
    case Visibility => Word(r.visibility)
    case UpdatedAt => Time(r.updatedAt)
    case SupersededBy => Link(r.supersededBy)
    case Supersedes => Link(r.supersedes)
    case Claim => Word(r.claim)
    case Retention => Word(r.retention)
  }

  /** What superseding record `successor` sets in the superseded one. */
  function Retirement(successor: string, at: int, c: Column): Option<Cell> {
    match c
    case Status => Some(Word("superseded"))
    case SupersededBy => Some(Link(Some(successor)))
    case UpdatedAt => Some(Time(at))
    case _ => None
  }

  /** What the operation, when it is carried out, sets in the column of the record. */
  function Sets(op: Op, id: string, c: Column): Option<Cell> {
    match op
    case Put(r, _) => if r.id == id then Some(CellOf(r, c)) else None
    case Retire(x, _, at) =>
      if x != id then None else if c == Status then Some(Word("retired")) else if c == UpdatedAt then Some(Time(at)) else None
    case Promote(x, status, visibility, _, at) =>
      if x != id then None
      else (match c
            case Status => Some(Word(status))
            case Visibility => Some(Word(visibility))
            case UpdatedAt => Some(Time(at))
            case _ => None)
    case Patch(x, tier, importance, tags, _, at) =>
      if x != id then None
      else (match c
            case Tier => if tier.Some? then Some(Word(tier.value)) else None
            case Importance => if importance.Some? then Some(Level(importance.value)) else None
            case Tags => if tags.Some? then Some(Words(tags.value)) else None
            case UpdatedAt => Some(Time(at))
            case _ => None)
    case Supersede(x, r, _, at, _) =>
      if x == id && Retirement(r.id, at, c).Some? then Retirement(r.id, at, c)
      else if r.id == id then Some(if c == Supersedes then Link(Some(x)) else CellOf(r, c))
      else None
    case Access(_, _) => None
    case Rebuild(_) => None
    case Reopen(_) => None
  }

  /** The operation finds the record it is about, and is not an empty patch. */
  predicate CarriedOut(rows: map<string, Row>, op: Op) {
    match op
    case Retire(x, _, _) => x in rows
    case Promote(x, _, _, _, _) => x in rows
    case Patch(x, tier, importance, tags, _, _) => x in rows && !(tier.None? && importance.None? && tags.None?)
    case Supersede(x, _, _, _, _) => x in rows
    case _ => true
  }

  lemma PutSets(s: Store, r: Record, sync: Sync, id: string, c: Column)
    requires id in s.rows
    ensures var s' := AfterPut(s, r, sync);
            id in s'.rows && CellOf(s'.rows[id].record, c) == CellOf(if r.id == id then r else s.rows[id].record, c)
  {
  }

  lemma SupersededSets(s: Store, op: Op, c: Column)
    requires op.Supersede? && op.id in s.rows
    ensures op.id in Apply(s, op).rows
    ensures var after := CellOf(Apply(s, op).rows[op.id].record, c);
            if Sets(op, op.id, c).Some? then after == Sets(op, op.id, c).value else after == CellOf(s.rows[op.id].record, c)
  {
    var linked := op.record.(supersedes := Some(op.id));
    var row := AfterPut(s, linked, op.sync).rows[op.id];
    assert Apply(s, op).rows[op.id].record ==
           row.record.(status := "superseded", supersededBy := Some(op.record.id), updatedAt := op.at);
  }

  lemma SupersedingSets(s: Store, op: Op, id: string, c: Column)
    requires op.Supersede? && op.id in s.rows && id != op.id && (id in s.rows || op.record.id == id)
    ensures id in Apply(s, op).rows
    ensures CellOf(Apply(s, op).rows[id].record, c) ==
            if Sets(op, id, c).Some? then Sets(op, id, c).value else CellOf(s.rows[id].record, c)
  {
    var linked := op.record.(supersedes := Some(op.id));
    assert Apply(s, op).rows[id] == AfterPut(s, linked, op.sync).rows[id];
  }

  lemma SupersedeSets(s: Store, op: Op, id: string, c: Column)
    requires op.Supersede? && op.id in s.rows && (id in s.rows || op.record.id == id)
    ensures id in Apply(s, op).rows
    ensures CellOf(Apply(s, op).rows[id].record, c) ==
            if Sets(op, id, c).Some? then Sets(op, id, c).value else CellOf(s.rows[id].record, c)
  {
    if id == op.id {
      SupersededSets(s, op, c);
    } else {
      SupersedingSets(s, op, id, c);
    }
  }

  lemma PatchSets(s: Store, op: Op, id: string, c: Column)
    requires op.Patch? && id in s.rows
    ensures id in Apply(s, op).rows
    ensures var after := CellOf(Apply(s, op).rows[id].record, c);
            if CarriedOut(s.rows, op) && Sets(op, id, c).Some? then after == Sets(op, id, c).value
            else after == CellOf(s.rows[id].record, c)
  {
  }

  lemma PromoteSets(s: Store, op: Op, id: string, c: Column)
    requires op.Promote? && id in s.rows
    ensures id in Apply(s, op).rows
    ensures var after := CellOf(Apply(s, op).rows[id].record, c);
            if CarriedOut(s.rows, op) && Sets(op, id, c).Some? then after == Sets(op, id, c).value
            else after == CellOf(s.rows[id].record, c)
  {
  }

  /** One operation: a column of a stored record takes the value the operation sets, or
      stays as it was. */
  lemma ApplySets(s: Store, op: Op, id: string, c: Column)
    requires id in s.rows
    ensures id in Apply(s, op).rows
    ensures var after := CellOf(Apply(s, op).rows[id].record, c);
            if CarriedOut(s.rows, op) && Sets(op, id, c).Some? then after == Sets(op, id, c).value
            else after == CellOf(s.rows[id].record, c)
  {
    match op {
      case Put(r, sync) => PutSets(s, r, sync, id, c);
      case Supersede(x, _, _, _, _) =>
        if x in s.rows {
          SupersedeSets(s, op, id, c);
        }
      case Patch(_, _, _, _, _, _) => PatchSets(s, op, id, c);
      case Promote(_, _, _, _, _) => PromoteSets(s, op, id, c);
      case Access(ids, at) => AccessedKeepsRecords(s.rows, ids, at);
      case _ =>
    }
  }

  /** One operation on an id that is not stored: it is stored exactly when the operation
      is carried out and sets its columns. */
  lemma ApplyStores(s: Store, op: Op, id: string, c: Column)
    requires id !in s.rows
    ensures id in Apply(s, op).rows <==> CarriedOut(s.rows, op) && Sets(op, id, c).Some?
    ensures id in Apply(s, op).rows ==> Sets(op, id, c) == Some(CellOf(Apply(s, op).rows[id].record, c))
  {
    match op {
      case Supersede(x, r, _, _, _) =>
        if x in s.rows && r.id == id {
          SupersedeSets(s, op, id, c);
        }
      case Access(ids, at) => AccessedKeepsRecords(s.rows, ids, at);
      case _ =>
    }
  }

  // ---------------------------------------------------------------------------
  // Runs
  // ---------------------------------------------------------------------------

  lemma {:induction false} RunSnoc(s: Store, ops: seq<Op>, op: Op)
    ensures Run(s, ops + [op]) == Apply(Run(s, ops), op)
    decreases |ops|
  {
    if ops == [] {
      assert [] + [op] == [op] && [op][1..] == [];
    } else {
      RunSnoc(Apply(s, ops[0]), ops[1..], op);
      assert (ops + [op])[1..] == ops[1..] + [op];
    }
  }

  /** Operation i of the run sets the column of the record. */
  predicate SetsAt(ops: seq<Op>, i: int, id: string, c: Column) {
    0 <= i < |ops| && CarriedOut(Run(EMPTY, ops[..i]).rows, ops[i]) && Sets(ops[i], id, c).Some?
  }

  predicate LastSets(ops: seq<Op>, i: int, id: string, c: Column) {
    SetsAt(ops, i, id, c) && forall j :: i < j < |ops| ==> !SetsAt(ops, j, id, c)
  }

  /** After any run from the empty store, a record is there exactly when some operation
      set the column, and the column holds what the last one set. */
  lemma {:induction false} ColumnsFromHistory(ops: seq<Op>, id: string, c: Column)
    ensures id in Run(EMPTY, ops).rows <==> exists i :: LastSets(ops, i, id, c)
    ensures forall i :: LastSets(ops, i, id, c) ==> Sets(ops[i], id, c) == Some(CellOf(Run(EMPTY, ops).rows[id].record, c))
    decreases |ops|
  {
    if ops != [] {
      var n := |ops| - 1;
      var init, op := ops[..n], ops[n];
      ColumnsFromHistory(init, id, c);
      RunSnoc(EMPTY, init, op);
      assert ops == init + [op];
      if id in Run(EMPTY, init).rows {
        ApplySets(Run(EMPTY, init), op, id, c);
      } else {
        ApplyStores(Run(EMPTY, init), op, id, c);
      }
      LastSetsSnoc(init, op, id, c);
      if SetsAt(ops, n, id, c) {
        assert LastSets(ops, n, id, c);
      }
    }
  }

  lemma LastSetsSnoc(init: seq<Op>, op: Op, id: string, c: Column)
    ensures var ops := init + [op];
            SetsAt(ops, |init|, id, c) <==> CarriedOut(Run(EMPTY, init).rows, op) && Sets(op, id, c).Some?
    ensures var ops := init + [op];
            forall i :: LastSets(ops, i, id, c) <==>
                          if SetsAt(ops, |init|, id, c) then i == |init| else LastSets(init, i, id, c)
  {
    var ops := init + [op];
    assert ops[..|init|] == init;
    forall i | 0 <= i < |init| ensures SetsAt(ops, i, id, c) <==> SetsAt(init, i, id, c) {
      assert ops[..i] == init[..i];
    }
  }

  // ---------------------------------------------------------------------------
  // Whether the index is in use
  // ---------------------------------------------------------------------------

  /** Operation j stores a record, and its synchronisation would not go well. */
  predicate MissesIndexAt(ops: seq<Op>, j: int) {
    0 <= j < |ops| && CarriedOut(Run(EMPTY, ops[..j]).rows, ops[j]) &&
    ((ops[j].Put? && ops[j].sync != Synced) || (ops[j].Supersede? && ops[j].sync != Synced))
  }

  predicate ReopensAt(ops: seq<Op>, j: int) {
    0 <= j < |ops| && ops[j].Reopen? && IsOrder(Run(EMPTY, ops[..j]).rows, ops[j].order)
  }

  lemma MissSnoc(init: seq<Op>, op: Op, j: int)
    ensures j < |init| ==> (MissesIndexAt(init + [op], j) <==> MissesIndexAt(init, j))
    ensures j < |init| ==> (ReopensAt(init + [op], j) <==> ReopensAt(init, j))
  {
    if 0 <= j < |init| {
      assert (init + [op])[..j] == init[..j];
    }
  }

  lemma ApplyTurnsIndex(s: Store, op: Op)
    ensures Apply(s, op).indexOn <==>
            (op.Reopen? && IsOrder(s.rows, op.order)) ||
            (s.indexOn && !(CarriedOut(s.rows, op) && ((op.Put? && op.sync != Synced) || (op.Supersede? && op.sync != Synced))))
  {
  }

  /** The index is in use exactly when every failed synchronisation of the run was followed
      by reopening the store. */
  lemma {:induction false} IndexOnFromHistory(ops: seq<Op>)
    ensures Run(EMPTY, ops).indexOn <==>
            forall j :: MissesIndexAt(ops, j) ==> exists k :: j < k && ReopensAt(ops, k)
    decreases |ops|
  {
    if ops != [] {
      var n := |ops| - 1;
      var init, op := ops[..n], ops[n];
      IndexOnFromHistory(init);
      RunSnoc(EMPTY, init, op);
      assert ops == init + [op];
      forall j
        ensures j < n ==> (MissesIndexAt(ops, j) <==> MissesIndexAt(init, j)) && (ReopensAt(ops, j) <==> ReopensAt(init, j))
      {
        MissSnoc(init, op, j);
      }
      ApplyTurnsIndex(Run(EMPTY, init), op);
      if ReopensAt(ops, n) {
        assert forall j :: MissesIndexAt(ops, j) ==> j < n;
      } else if Run(EMPTY, ops).indexOn {
        forall j | MissesIndexAt(ops, j) ensures exists k :: j < k && ReopensAt(ops, k) {
          assert MissesIndexAt(init, j);
          var k :| j < k && ReopensAt(init, k);
          assert ReopensAt(ops, k);
        }
      } else if !Run(EMPTY, init).indexOn {
        var j :| MissesIndexAt(init, j) && forall k :: j < k ==> !ReopensAt(init, k);
        assert MissesIndexAt(ops, j);
      } else {
        assert MissesIndexAt(ops, n);
      }
    }
  }

  // ---------------------------------------------------------------------------
  // The log and the access columns
  // ---------------------------------------------------------------------------

  /** A change that is carried out is logged with its kind, reason and time, and the value
      the record had. */
  lemma ChangesAreLogged(s: Store, op: Op)
    requires CarriedOut(s.rows, op)
    ensures match op
            case Retire(id, reason, at) =>
              Apply(s, op).revisions == s.revisions + [Revision(id, Retired, s.rows[id].record, None, reason, at)]
            case Supersede(id, _, reason, at, _) =>
              Apply(s, op).revisions == s.revisions + [Revision(id, Superseded, s.rows[id].record, None, reason, at)]
            case Promote(id, _, _, reason, at) =>
              Apply(s, op).revisions ==
              s.revisions + [Revision(id, Promoted, s.rows[id].record, Some(Apply(s, op).rows[id].record), reason, at)]
            case Patch(id, _, _, _, reason, at) =>
              Apply(s, op).revisions ==
              s.revisions + [Revision(id, Patched, s.rows[id].record, Some(Apply(s, op).rows[id].record), reason, at)]
            case _ => Apply(s, op).revisions == s.revisions
  {
  }

  /** Accessing adds one to the count per mention of a stored id and dates it; nothing
      else changes. */
  lemma {:induction false} AccessCountsMentions(rows: map<string, Row>, ids: seq<string>, at: int, id: string)
    requires id in rows
    ensures id in Accessed(rows, ids, at)
    ensures Accessed(rows, ids, at)[id] ==
            Row(rows[id].record, if id in ids then Some(at) else rows[id].lastAccessed, rows[id].accessCount + multiset(ids)[id])
    decreases |ids|
  {
    if ids != [] {
      var rest := if ids[0] in rows
                  then rows[ids[0] := rows[ids[0]].(lastAccessed := Some(at), accessCount := rows[ids[0]].accessCount + 1)]
                  else rows;
      AccessCountsMentions(rest, ids[1..], at, id);
      assert ids == [ids[0]] + ids[1..];
    }
  }

  /** The access columns of a stored record: storing it anew resets them, accessing counts
      its mentions, anything else leaves them. */
  lemma AccessColumns(s: Store, op: Op, id: string)
    requires id in s.rows
    ensures id in Apply(s, op).rows
    ensures var was, now := s.rows[id], Apply(s, op).rows[id];
            if (op.Put? && op.record.id == id) || (op.Supersede? && op.id in s.rows && op.record.id == id) then
              now.lastAccessed == None && now.accessCount == 0
            else if op.Access? then
              now.lastAccessed == (if id in op.ids then Some(op.at) else was.lastAccessed) &&
              now.accessCount == was.accessCount + multiset(op.ids)[id]
            else now.lastAccessed == was.lastAccessed && now.accessCount == was.accessCount
  {
    if op.Access? {
      AccessCountsMentions(s.rows, op.ids, op.at, id);
    }
  }
}
