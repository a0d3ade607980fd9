/** Agreement of the full-text index with the record table over whole runs. */
module BraincaseIndex {
  import opened Common
  import opened BraincaseStore

  lemma {:induction false} RowsForAppend(a: seq<IndexRow>, b: seq<IndexRow>, id: string)
    ensures RowsFor(a + b, id) == RowsFor(a, id) + RowsFor(b, id)
    decreases |a|
  {
    if a == [] {
      assert a + b == b;
    } else {
      assert (a + b)[1..] == a[1..] + b;
      RowsForAppend(a[1..], b, id);
      var head := if a[0].id == id then [a[0]] else [];
      assert head + (RowsFor(a[1..], id) + RowsFor(b, id)) == (head + RowsFor(a[1..], id)) + RowsFor(b, id);
    }
  }

  lemma {:induction false} RowsForDelete(index: seq<IndexRow>, gone: string, id: string)
    ensures RowsFor(DeleteRows(index, gone), id) == if id == gone then [] else RowsFor(index, id)
    decreases |index|
  {
    if index != [] {
      RowsForDelete(index[1..], gone, id);
      if index[0].id != gone {
        assert ([index[0]] + DeleteRows(index[1..], gone))[1..] == DeleteRows(index[1..], gone);
      } else {
        assert [] + DeleteRows(index[1..], gone) == DeleteRows(index[1..], gone);
      }
    }
  }

  lemma RowsForSync(index: seq<IndexRow>, r: Record, sync: Sync, id: string)
    ensures RowsFor(SyncedIndex(index, r, sync), id) ==
            if id != r.id || sync == FailedAtDelete then RowsFor(index, id)
            else if sync == Synced then [IndexRowOf(r)]
            else []
  {
    RowsForDelete(index, r.id, id);
    RowsForAppend(DeleteRows(index, r.id), [IndexRowOf(r)], id);
    assert RowsFor([IndexRowOf(r)], id) == if id == r.id then [IndexRowOf(r)] else [];
  }

  lemma {:induction false} RowsForRebuilt(rows: map<string, Row>, order: seq<string>, id: string)
    requires forall x :: x in order ==> x in rows && rows[x].record.id == x
    requires forall i, j :: 0 <= i < j < |order| ==> order[i] != order[j]
    ensures RowsFor(IndexOf(rows, order), id) == if id in order then [IndexRowOf(rows[id].record)] else []
    decreases |order|
  {
    if order != [] {
      assert order[0] in order;
      RowsForRebuilt(rows, order[1..], id);
      assert id in order <==> id == order[0] || id in order[1..];
      if id in order[1..] {
        var k :| 0 <= k < |order| - 1 && order[1..][k] == id;
        assert order[k + 1] != order[0];
      }
    }
  }

  // ---------------------------------------------------------------------------
  // What a run may have left behind
  // ---------------------------------------------------------------------------

  /** Records whose index text, or only whose index tags, may be out of date. */
  datatype Stale = Stale(text: set<string>, tags: set<string>)

  const FRESH := Stale({}, {})

  predicate SyncsNow(s: Store, sync: Sync) { s.indexOn && sync.Synced? }

  function Touched(stale: Stale, id: string, current: bool): Stale {
    if current then Stale(stale.text - {id}, stale.tags - {id})
    else Stale(stale.text + {id}, stale.tags + {id})
  }

  /** Only three things make an index row stale: storing a record while the index is
      off or its synchronisation fails, and changing tags by a patch.  Storing the
      record again, a rebuild and a backfill at reopening repair it. */
  function NextStale(s: Store, stale: Stale, op: Op): Stale {
    if !Accepts(s, op) then stale
    else
      match op
      case Put(r, sync) => Touched(stale, r.id, SyncsNow(s, sync))
      case Supersede(_, r, _, _, sync) => Touched(stale, r.id, SyncsNow(s, sync))
      case Patch(id, _, _, tags, _, _) => if tags.Some? then stale.(tags := stale.tags + {id}) else stale
      case Rebuild(_) => FRESH
      case Reopen(_) => if s.rows != map[] && s.index == [] then FRESH else stale
      case _ => stale
  }

  function RunStale(s: Store, stale: Stale, ops: seq<Op>): Stale
    decreases |ops|
  {
    if ops == [] then stale else RunStale(Apply(s, ops[0]), NextStale(s, stale, ops[0]), ops[1..])
  }

  /** The index entry of one record id. */
  predicate EntryAgrees(s: Store, stale: Stale, id: string) {
    var entry := RowsFor(s.index, id);
    |entry| <= 1 &&
    (id !in s.rows ==> entry == []) &&
    (id in s.rows && id !in stale.text ==>
       var r := s.rows[id].record;
       |entry| == 1 && entry[0].claim == r.claim && entry[0].summary == r.summary &&
       (id !in stale.tags ==> entry == [IndexRowOf(r)]))
  }

  ghost predicate Agrees(s: Store, stale: Stale) {
    forall id :: EntryAgrees(s, stale, id)
  }

  lemma PutKeepsAgreement(s: Store, stale: Stale, r: Record, sync: Sync, id: string)
    requires Keyed(s) && EntryAgrees(s, stale, id)
    ensures EntryAgrees(AfterPut(s, r, sync), Touched(stale, r.id, SyncsNow(s, sync)), id)
  {
    RowsForSync(s.index, r, sync, id);
  }

  /** Changing a record without its indexed text keeps its entry right. */
  lemma SameTextKeepsAgreement(s: Store, s': Store, stale: Stale, id: string)
    requires EntryAgrees(s, stale, id) && s'.index == s.index && (id in s'.rows <==> id in s.rows)
    requires id in s.rows ==> IndexRowOf(s'.rows[id].record) == IndexRowOf(s.rows[id].record)
    ensures EntryAgrees(s', stale, id)
  {
  }

  lemma PatchKeepsAgreement(s: Store, stale: Stale, op: Op, id: string)
    requires Keyed(s) && EntryAgrees(s, stale, id) && op.Patch? && Accepts(s, op)
    ensures EntryAgrees(Apply(s, op), NextStale(s, stale, op), id)
  {
  }

  lemma ApplyKeepsAgreement(s: Store, stale: Stale, op: Op, id: string)
    requires Keyed(s) && EntryAgrees(s, stale, id)
    ensures EntryAgrees(Apply(s, op), NextStale(s, stale, op), id)
  {
    if Accepts(s, op) {
      var s' := Apply(s, op);
      match op
      case Put(r, sync) => PutKeepsAgreement(s, stale, r, sync, id);
      case Supersede(replaced, r, _, _, sync) =>
        var linked := r.(supersedes := Some(replaced));
        PutKeepsAgreement(s, stale, linked, sync, id);
        SameTextKeepsAgreement(AfterPut(s, linked, sync), s', NextStale(s, stale, op), id);
      case Access(ids, at) =>
        AccessedKeepsRecords(s.rows, ids, at);
        SameTextKeepsAgreement(s, s', stale, id);
      case Rebuild(order) => RowsForRebuilt(s.rows, order, id);
      case Reopen(order) => RowsForRebuilt(s.rows, order, id);
      case Patch(_, _, _, _, _, _) => PatchKeepsAgreement(s, stale, op, id);
      case Retire(_, _, _) => SameTextKeepsAgreement(s, s', stale, id);
      case Promote(_, _, _, _, _) => SameTextKeepsAgreement(s, s', stale, id);
    }
  }

  /** Over any run whatsoever, from a store whose index agrees up to the given stale
      records: each id has at most one index row, ids without a record have none, and
      every record outside the stale ones has exactly its current row. */
  lemma {:induction false} IndexAgreesOverRuns(s: Store, stale: Stale, ops: seq<Op>)
    requires Keyed(s) && Agrees(s, stale)
    ensures Agrees(Run(s, ops), RunStale(s, stale, ops))
    decreases |ops|
  {
    if ops != [] {
      forall id ensures EntryAgrees(Apply(s, ops[0]), NextStale(s, stale, ops[0]), id) {
        ApplyKeepsAgreement(s, stale, ops[0], id);
      }
      ApplyKeepsKeyed(s, ops[0]);
      IndexAgreesOverRuns(Apply(s, ops[0]), NextStale(s, stale, ops[0]), ops[1..]);
    }
  }

  /** Operations after which nothing is stale as long as the index is in use. */
  predicate Harmless(op: Op) {
    (op.Put? ==> op.sync.Synced?) && (op.Supersede? ==> op.sync.Synced?) && (op.Patch? ==> op.tags.None?)
  }

  lemma {:induction false} HarmlessRunsStayFresh(s: Store, ops: seq<Op>)
    requires s.indexOn && forall op :: op in ops ==> Harmless(op)
    ensures RunStale(s, FRESH, ops) == FRESH && Run(s, ops).indexOn
    decreases |ops|
  {
    if ops != [] {
      assert ops[0] in ops && forall op :: op in ops[1..] ==> op in ops;
      assert NextStale(s, FRESH, ops[0]) == FRESH;
      HarmlessRunsStayFresh(Apply(s, ops[0]), ops[1..]);
    }
  }

  /** From an empty store, with the index in use and synchronising, and tags never
      patched: exactly one row per record, with its current claim, summary and tags. */
  lemma IndexIsExact(ops: seq<Op>, id: string)
    requires forall op :: op in ops ==> Harmless(op)
    ensures var s := Run(EMPTY, ops);
            RowsFor(s.index, id) == if id in s.rows then [IndexRowOf(s.rows[id].record)] else []
  {
    HarmlessRunsStayFresh(EMPTY, ops);
    assert Agrees(EMPTY, FRESH);
    IndexAgreesOverRuns(EMPTY, FRESH, ops);
    assert EntryAgrees(Run(EMPTY, ops), FRESH, id);
  }

  lemma {:induction false} RowsForFinds(index: seq<IndexRow>, id: string, k: nat)
    requires k < |index| && index[k].id == id
    ensures index[k] in RowsFor(index, id)
    ensures RowsFor(index, id) == [index[k]] ==> forall j :: 0 <= j < |index| && index[j].id == id ==> j == k
    decreases |index|
  {
    if k > 0 {
      RowsForFinds(index[1..], id, k - 1);
      assert index[1..][k - 1] == index[k];
      if RowsFor(index, id) == [index[k]] {
        forall j | 0 <= j < |index| && index[j].id == id ensures j == k {
          if j > 0 {
            assert index[1..][j - 1].id == id;
          }
        }
      }
    } else {
      NoneFor(index[1..], id);
      assert forall j :: 0 < j < |index| ==> index[1..][j - 1] == index[j];
    }
  }

  lemma {:induction false} NoneFor(index: seq<IndexRow>, id: string)
    ensures RowsFor(index, id) == [] <==> forall j :: 0 <= j < |index| ==> index[j].id != id
    decreases |index|
  {
    if index != [] {
      NoneFor(index[1..], id);
      assert forall j :: 0 < j < |index| ==> index[1..][j - 1] == index[j];
    }
  }

  /** On the same runs, row by row: a record has one row, with its text, and no row
      belongs to an id that is not stored. */
  lemma IndexRowsAreCurrent(ops: seq<Op>, id: string)
    requires forall op :: op in ops ==> Harmless(op)
    ensures var s := Run(EMPTY, ops);
            if id in s.rows then
              var r := s.rows[id].record;
              exists k :: 0 <= k < |s.index| && s.index[k] == IndexRow(id, r.claim, r.summary, JoinTags(r.tags)) &&
                          forall j :: 0 <= j < |s.index| && s.index[j].id == id ==> j == k
            else forall j :: 0 <= j < |s.index| ==> s.index[j].id != id
  {
    var s := Run(EMPTY, ops);
    IndexIsExact(ops, id);
    NoneFor(s.index, id);
    if id in s.rows {
      RunKeepsKeyed(EMPTY, ops);
      var k :| 0 <= k < |s.index| && s.index[k].id == id;
      RowsForFinds(s.index, id, k);
    }
  }

  /** Tags are joined by single spaces. */
  lemma {:induction false} JoinTagsSnoc(tags: seq<string>, tag: string)
    ensures JoinTags(tags + [tag]) == if tags == [] then tag else JoinTags(tags) + " " + tag
    ensures JoinTags([]) == ""
    decreases |tags|
  {
    if |tags| == 0 {
      assert tags + [tag] == [tag];
    } else {
      JoinTagsSnoc(tags[1..], tag);
      assert (tags + [tag])[1..] == tags[1..] + [tag];
      if |tags| == 1 {
        assert tags[1..] == [];
      } else {
        assert JoinTags(tags + [tag]) == tags[0] + " " + (JoinTags(tags[1..]) + " " + tag);
      }
    }
  }

  /** A patch never touches the index, so the entry stays right exactly when the new
      tags join to the same text as the old ones. */
  lemma PatchKeepsEntryIff(s: Store, op: Op)
    requires Keyed(s) && op.Patch? && Accepts(s, op) && EntryAgrees(s, FRESH, op.id)
    ensures var s' := Apply(s, op);
            RowsFor(s'.index, op.id) == [IndexRowOf(s'.rows[op.id].record)] <==>
            (op.tags.Some? ==> JoinTags(op.tags.value) == JoinTags(s.rows[op.id].record.tags))
  {
    assert RowsFor(s.index, op.id) == [IndexRowOf(s.rows[op.id].record)];
  }

  /** A tag given by a patch cannot be found, and one taken away still is. */
  lemma PatchLeavesOldTags(r: Record, reason: string, at: int)
    requires r.tags == ["old"]
    ensures var s := Run(EMPTY, [Put(r, Synced), Patch(r.id, None, None, Some(["new"]), reason, at)]);
            r.id in s.rows && s.rows[r.id].record.tags == ["new"] &&
            RowsFor(s.index, r.id) == [IndexRow(r.id, r.claim, r.summary, "old")]
  {
    var put, patch := Put(r, Synced), Patch(r.id, None, None, Some(["new"]), reason, at);
    var s := Apply(EMPTY, put);
    assert [put, patch][1..] == [patch] && [patch][1..] == [];
    assert Run(s, [patch]) == Run(Apply(s, patch), []);
    RowsForSync(EMPTY.index, r, Synced, r.id);
  }

  /** Reopening makes an entry exact if and only if the index was empty, or the entry
      was exact before: it repairs everything or nothing. */
  lemma ReopenRepairsIff(s: Store, order: seq<string>, id: string)
    requires Keyed(s) && IsOrder(s.rows, order) && id in s.rows
    ensures RowsFor(Apply(s, Reopen(order)).index, id) == [IndexRowOf(s.rows[id].record)] <==>
            s.index == [] || RowsFor(s.index, id) == [IndexRowOf(s.rows[id].record)]
  {
    OrderIsAll(s.rows, order);
    ReopenedIndex(s, order, id);
    if s.index == [] {
      RowsForRebuilt(s.rows, order, id);
    }
  }

  lemma ReopenedIndex(s: Store, order: seq<string>, id: string)
    requires IsOrder(s.rows, order) && id in s.rows && forall x :: x in order ==> x in s.rows
    ensures Apply(s, Reopen(order)).index == if s.index == [] then IndexOf(s.rows, order) else s.index
  {
  }

  lemma OrderIsAll(rows: map<string, Row>, order: seq<string>)
    requires IsOrder(rows, order)
    ensures forall id :: id in order <==> id in rows
  {
    assert forall id :: id in order <==> id in (set x | x in order);
  }

  /** The operation writes the index entry of this stored record. */
  predicate Refreshes(s: Store, op: Op, id: string) {
    Accepts(s, op) &&
    match op
    case Put(r, sync) => r.id == id && SyncsNow(s, sync)
    case Supersede(_, r, _, _, sync) => r.id == id && SyncsNow(s, sync)
    case Rebuild(_) => true
    case Reopen(_) => s.index == []
    case _ => false
  }

  lemma LostUnlessRefreshed(s: Store, op: Op, id: string)
    requires Keyed(s) && id in s.rows && RowsFor(s.index, id) == []
    ensures RowsFor(Apply(s, op).index, id) == [] <==> !Refreshes(s, op, id)
  {
    if Accepts(s, op) {
      match op
      case Put(r, sync) => RowsForSync(s.index, r, sync, id);
      case Supersede(replaced, r, _, _, sync) => RowsForSync(s.index, r.(supersedes := Some(replaced)), sync, id);
      case Rebuild(order) =>
        OrderIsAll(s.rows, order);
        RowsForRebuilt(s.rows, order, id);
      case Reopen(order) =>
        OrderIsAll(s.rows, order);
        RowsForRebuilt(s.rows, order, id);
      case _ =>
    }
  }

  /** At no moment of the run the record has an index row. */
  predicate StaysLost(s: Store, ops: seq<Op>, id: string)
    decreases |ops|
  {
    RowsFor(s.index, id) == [] && (ops == [] || StaysLost(Apply(s, ops[0]), ops[1..], id))
  }

  predicate IsRefreshed(s: Store, ops: seq<Op>, id: string)
    decreases |ops|
  {
    ops != [] && (Refreshes(s, ops[0], id) || IsRefreshed(Apply(s, ops[0]), ops[1..], id))
  }

  /** A stored record missing from the index stays missing throughout a run if and only
      if the run neither stores it with a working synchronisation, nor rebuilds the
      index, nor reopens the store while the whole index is empty. */
  lemma {:induction false} LostIffNeverRefreshed(s: Store, ops: seq<Op>, id: string)
    requires Keyed(s) && id in s.rows && RowsFor(s.index, id) == []
    ensures StaysLost(s, ops, id) <==> !IsRefreshed(s, ops, id)
    decreases |ops|
  {
    if ops != [] {
      LostUnlessRefreshed(s, ops[0], id);
      ApplyKeepsKeyed(s, ops[0]);
      if !Refreshes(s, ops[0], id) {
        LostIffNeverRefreshed(Apply(s, ops[0]), ops[1..], id);
      }
    }
  }

  /** A failed synchronisation survives reopening: the flag comes back on, and since
      the index is not empty nothing is backfilled. */
  lemma FailedSyncSurvivesReopening(a: Record, b: Record)
    requires a.id != b.id
    ensures var s := Run(EMPTY, [Put(a, Synced), Put(b, FailedAtDelete), Reopen([a.id, b.id])]);
            s.indexOn && b.id in s.rows && RowsFor(s.index, b.id) == []
  {
    var s1 := Apply(EMPTY, Put(a, Synced));
    var s2 := Apply(s1, Put(b, FailedAtDelete));
    var s3 := Apply(s2, Reopen([a.id, b.id]));
    var ops := [Put(a, Synced), Put(b, FailedAtDelete), Reopen([a.id, b.id])];
    assert ops[1..] == [Put(b, FailedAtDelete), Reopen([a.id, b.id])] && ops[1..][1..] == [Reopen([a.id, b.id])];
    assert ops[1..][1..][1..] == [];
    assert Run(s3, []) == s3 && Run(s2, ops[1..][1..]) == s3 && Run(s1, ops[1..]) == s3;
    assert s1.index == [IndexRowOf(a)];
    RowsForSync(EMPTY.index, a, Synced, b.id);
    assert IsOrder(s2.rows, [a.id, b.id]);
  }
}
