/** Supersession links between records, and the merge tool that creates them. */
module BraincaseLinks {
  import opened Common
  import opened BraincaseStore
  import opened BraincaseDb

  function Successor(s: Store, id: string): Option<string>
    requires id in s.rows
  {
    s.rows[id].record.supersededBy
  }

  /** The record reached after n links, if the chain is that long. */
  function Hop(s: Store, id: string, n: nat): Option<string>
    decreases n
  {
    if id !in s.rows then None
    else if n == 0 then Some(id)
    else
      match Successor(s, id)
      case None => None
      case Some(next) => Hop(s, next, n - 1)
  }

  /** Some record the chain reaches is not superseded. */
  predicate EndsAt(s: Store, id: string, n: nat, end: string) {
    Hop(s, id, n) == Some(end) && end in s.rows && Successor(s, end) == None
  }

  /** A rank that falls along every link; links stay inside the store. */
  predicate Ranked(s: Store, rank: map<string, nat>) {
    rank.Keys == s.rows.Keys &&
    forall id :: id in s.rows && Successor(s, id).Some? ==>
      Successor(s, id).value in s.rows && rank[Successor(s, id).value] < rank[id]
  }

  ghost predicate Acyclic(s: Store) {
    exists rank :: Ranked(s, rank)
  }

  lemma {:induction false} ChainEnds(s: Store, rank: map<string, nat>, id: string) returns (n: nat, end: string)
    requires Ranked(s, rank) && id in s.rows
    ensures EndsAt(s, id, n, end) && n <= rank[id]
    decreases rank[id]
  {
    match Successor(s, id) {
      case None => n, end := 0, id;
      case Some(next) =>
        n, end := ChainEnds(s, rank, next);
        n := n + 1;
    }
  }

  lemma {:induction false} OneEnd(s: Store, id: string, n: nat, end: string, m: nat, other: string)
    requires EndsAt(s, id, n, end) && EndsAt(s, id, m, other)
    ensures n == m && end == other
    decreases n
  {
    if n > 0 && m > 0 {
      OneEnd(s, Successor(s, id).value, n - 1, end, m - 1, other);
    }
  }

  ghost predicate Ends(s: Store, id: string) {
    exists n: nat, end :: EndsAt(s, id, n, end)
  }

  ghost function ChainLength(s: Store, id: string): nat
    requires Ends(s, id)
  {
    var n: nat, end :| EndsAt(s, id, n, end);
    n
  }

  lemma LinkShortens(s: Store, id: string)
    requires id in s.rows && Successor(s, id).Some? && Ends(s, id)
    ensures var next := Successor(s, id).value;
            next in s.rows && (Ends(s, next) ==> ChainLength(s, next) < ChainLength(s, id))
  {
    var next := Successor(s, id).value;
    var n: nat, end :| EndsAt(s, id, n, end);
    assert EndsAt(s, next, n - 1, end);
    if Ends(s, next) {
      var m, k := ChainLength(s, next), ChainLength(s, id);
      var e :| EndsAt(s, next, m, e);
      var f :| EndsAt(s, id, k, f);
      OneEnd(s, next, n - 1, end, m, e);
      OneEnd(s, id, n, end, k, f);
    }
  }

  ghost predicate AllChainsEnd(s: Store) {
    forall id {:trigger Ends(s, id)} :: id in s.rows ==> Ends(s, id)
  }

  ghost function Lengths(s: Store): map<string, nat>
    requires AllChainsEnd(s)
  {
    map id | id in s.rows :: ChainLength(s, id)
  }

  lemma LengthFalls(s: Store, rank: map<string, nat>, id: string)
    requires AllChainsEnd(s) && rank == Lengths(s) && id in s.rows && Successor(s, id).Some?
    ensures var next := Successor(s, id).value; next in s.rows && rank[next] < rank[id]
  {
    var next := Successor(s, id).value;
    assert Ends(s, id);
    LinkShortens(s, id);
    assert Ends(s, next);
  }

  lemma LengthsRank(s: Store)
    requires AllChainsEnd(s)
    ensures Ranked(s, Lengths(s))
  {
    var rank := Lengths(s);
    forall id | id in s.rows && Successor(s, id).Some?
      ensures Successor(s, id).value in s.rows && rank[Successor(s, id).value] < rank[id]
    {
      LengthFalls(s, rank, id);
    }
  }

  /** Links are acyclic, and stay inside the store, exactly when every chain ends. */
  lemma AcyclicIffChainsEnd(s: Store)
    ensures Acyclic(s) <==> AllChainsEnd(s)
  {
    if AllChainsEnd(s) {
      LengthsRank(s);
    } else if Acyclic(s) {
      var rank :| Ranked(s, rank);
      var id :| id in s.rows && !Ends(s, id);
      var n, end := ChainEnds(s, rank, id);
      assert false;
    }
  }

  // ---------------------------------------------------------------------------
  // One new link
  // ---------------------------------------------------------------------------

  /** The row a now has the link v; row b, if any, now links to a; and all other links
      are as before. */
  predicate Relinked(s: Store, s': Store, a: string, v: Option<string>, b: Option<string>) {
    && s'.rows.Keys == s.rows.Keys + {a}
    && Successor(s', a) == v
    && (b.Some? ==> b.value in s.rows && b.value != a && Successor(s', b.value) == Some(a))
    && (forall x :: x in s.rows && x != a && Some(x) != b ==> Successor(s', x) == Successor(s, x))
  }

  ghost predicate LeadsTo(s: Store, x: string, a: string, b: Option<string>) {
    exists n: nat :: Hop(s, x, n).Some? && (Hop(s, x, n) == Some(a) || Hop(s, x, n) == b)
  }

  lemma LeadsOn(s: Store, x: string, a: string, b: Option<string>)
    requires x in s.rows && x != a && Some(x) != b
    ensures LeadsTo(s, x, a, b) <==> Successor(s, x).Some? && LeadsTo(s, Successor(s, x).value, a, b)
  {
    if LeadsTo(s, x, a, b) {
      var n: nat :| Hop(s, x, n).Some? && (Hop(s, x, n) == Some(a) || Hop(s, x, n) == b);
      assert n > 0 && Hop(s, x, n) == Hop(s, Successor(s, x).value, n - 1);
    }
    if Successor(s, x).Some? && LeadsTo(s, Successor(s, x).value, a, b) {
      var next := Successor(s, x).value;
      var n: nat :| Hop(s, next, n).Some? && (Hop(s, next, n) == Some(a) || Hop(s, next, n) == b);
      assert Hop(s, x, n + 1) == Hop(s, next, n);
    }
  }

  lemma LeadsAtOnce(s: Store, x: string, a: string, b: Option<string>)
    requires x in s.rows && (x == a || Some(x) == b)
    ensures LeadsTo(s, x, a, b)
  {
    assert Hop(s, x, 0) == Some(x);
  }

  /** Along a chain that leads to the changed rows the new rank of a is a lower bound. */
  lemma {:induction false} LeadingBounds(s: Store, s': Store, a: string, v: Option<string>, b: Option<string>,
                                         rank: map<string, nat>, x: string, n: nat)
    requires Relinked(s, s', a, v, b) && Ranked(s', rank)
    requires Hop(s, x, n).Some? && (Hop(s, x, n) == Some(a) || Hop(s, x, n) == b)
    ensures x in rank && a in rank && rank[a] <= rank[x]
    decreases n
  {
    assert x in s'.rows && a in s'.rows;
    if x == a {
    } else if Some(x) == b {
      assert Successor(s', x) == Some(a);
    } else {
      var next := Successor(s, x).value;
      assert Successor(s', x) == Some(next);
      LeadingBounds(s, s', a, v, b, rank, next, n - 1);
    }
  }

  /** Ranks for the changed store: the rows that lead to a or b come above all others. */
  ghost function Raised(s: Store, rank: map<string, nat>, a: string, v: Option<string>, b: Option<string>): map<string, nat>
    requires rank.Keys == s.rows.Keys && (v.Some? ==> v.value in rank)
  {
    var base := if v.Some? then rank[v.value] + 1 else 0;
    (map x | x in rank :: if LeadsTo(s, x, a, b) then base + 1 + rank[x] else rank[x])[a := base]
  }

  lemma RaisedFalls(s: Store, s': Store, rank: map<string, nat>, a: string, v: Option<string>, b: Option<string>, x: string)
    requires Ranked(s, rank) && Relinked(s, s', a, v, b)
    requires v.Some? ==> v.value in s.rows && v.value != a && !LeadsTo(s, v.value, a, b)
    requires x in s'.rows && Successor(s', x).Some?
    ensures var rank' := Raised(s, rank, a, v, b);
            Successor(s', x).value in s'.rows && rank'[Successor(s', x).value] < rank'[x]
  {
    if x != a {
      if Some(x) == b {
        LeadsAtOnce(s, x, a, b);
      } else {
        LeadsOn(s, x, a, b);
        var next := Successor(s, x).value;
        assert next in s.rows && rank[next] < rank[x];
        if next == a {
          LeadsAtOnce(s, next, a, b);
        }
      }
    }
  }

  lemma RaisedRanks(s: Store, s': Store, rank: map<string, nat>, a: string, v: Option<string>, b: Option<string>)
    requires Ranked(s, rank) && Relinked(s, s', a, v, b)
    requires v.Some? ==> v.value in s.rows && v.value != a && !LeadsTo(s, v.value, a, b)
    ensures Ranked(s', Raised(s, rank, a, v, b))
  {
    forall x | x in s'.rows && Successor(s', x).Some?
      ensures Successor(s', x).value in s'.rows &&
              Raised(s, rank, a, v, b)[Successor(s', x).value] < Raised(s, rank, a, v, b)[x]
    {
      RaisedFalls(s, s', rank, a, v, b, x);
    }
  }

  /** The new links keep the store acyclic if and only if the one of a goes to a stored
      row that does not lead back to a or b. */
  lemma RelinkedIff(s: Store, s': Store, a: string, v: Option<string>, b: Option<string>)
    requires Acyclic(s) && Relinked(s, s', a, v, b)
    ensures Acyclic(s') <==> (v.Some? ==> v.value in s.rows && v.value != a && !LeadsTo(s, v.value, a, b))
  {
    if v.Some? ==> v.value in s.rows && v.value != a && !LeadsTo(s, v.value, a, b) {
      var rank :| Ranked(s, rank);
      RaisedRanks(s, s', rank, a, v, b);
    } else if Acyclic(s') {
      var rank :| Ranked(s', rank);
      assert rank[v.value] < rank[a];
      if LeadsTo(s, v.value, a, b) {
        var n: nat :| Hop(s, v.value, n).Some? && (Hop(s, v.value, n) == Some(a) || Hop(s, v.value, n) == b);
        LeadingBounds(s, s', a, v, b, rank, v.value, n);
      }
    }
  }

  // ---------------------------------------------------------------------------
  // Which operations keep chains ending
  // ---------------------------------------------------------------------------

  /** A stored record brings its successor along: none, or a stored record that does not
      lead back to it, nor to the record it supersedes. */
  ghost predicate SafeSuccessor(s: Store, r: Record, superseded: Option<string>) {
    r.supersededBy.Some? ==>
      var v := r.supersededBy.value;
      v in s.rows && v != r.id && !LeadsTo(s, v, r.id, superseded)
  }

  ghost predicate SafeLinks(s: Store, op: Op) {
    match op
    case Put(r, _) => SafeSuccessor(s, r, None)
    case Supersede(id, r, _, _, _) => Accepts(s, op) ==> r.id != id && SafeSuccessor(s, r, Some(id))
    case _ => true
  }

  lemma OthersKeepLinks(s: Store, op: Op)
    requires !op.Put? && (op.Supersede? ==> !Accepts(s, op))
    ensures Apply(s, op).rows.Keys == s.rows.Keys
    ensures forall id :: id in s.rows ==> Successor(Apply(s, op), id) == Successor(s, id)
  {
    if op.Access? {
      AccessedKeepsRecords(s.rows, op.ids, op.at);
    }
  }

  lemma SupersedeRows(s: Store, op: Op)
    requires op.Supersede? && op.id in s.rows && op.record.id != op.id
    ensures var row := s.rows[op.id];
            Apply(s, op).rows ==
            s.rows[op.record.id := Row(op.record.(supersedes := Some(op.id)), None, 0)]
                  [op.id := row.(record := row.record.(status := "superseded", supersededBy := Some(op.record.id),
                                                       updatedAt := op.at))]
  {
  }

  lemma SelfLinkIsCyclic(s: Store, id: string)
    requires id in s.rows && Successor(s, id) == Some(id)
    ensures !Acyclic(s)
  {
    forall rank ensures !Ranked(s, rank) {
    }
  }

  /** Storing a record keeps the links acyclic if and only if its own successor is safe. */
  lemma PutKeepsAcyclicIff(s: Store, r: Record, sync: Sync)
    requires Acyclic(s)
    ensures Acyclic(AfterPut(s, r, sync)) <==> SafeSuccessor(s, r, None)
  {
    RelinkedIff(s, AfterPut(s, r, sync), r.id, r.supersededBy, None);
  }

  /** Superseding keeps them acyclic if and only if the ids differ, which the database
      does not check, and the new record's own successor is safe. */
  lemma SupersedeKeepsAcyclicIff(s: Store, op: Op)
    requires Acyclic(s) && op.Supersede? && Accepts(s, op)
    ensures Acyclic(Apply(s, op)) <==> op.record.id != op.id && SafeSuccessor(s, op.record, Some(op.id))
  {
    if op.record.id != op.id {
      SupersedeRows(s, op);
      RelinkedIff(s, Apply(s, op), op.record.id, op.record.supersededBy, Some(op.id));
    } else {
      SelfLinkIsCyclic(Apply(s, op), op.id);
    }
  }

  lemma ApplyKeepsAcyclicIff(s: Store, op: Op)
    requires Acyclic(s)
    ensures Acyclic(Apply(s, op)) <==> SafeLinks(s, op)
  {
    if op.Put? {
      PutKeepsAcyclicIff(s, op.record, op.sync);
    } else if op.Supersede? && Accepts(s, op) {
      SupersedeKeepsAcyclicIff(s, op);
    } else {
      OthersKeepLinks(s, op);
      var rank :| Ranked(s, rank);
      assert Ranked(Apply(s, op), rank);
    }
  }

  ghost predicate AlwaysEnding(s: Store, ops: seq<Op>)
    decreases |ops|
  {
    AllChainsEnd(s) && (ops == [] || AlwaysEnding(Apply(s, ops[0]), ops[1..]))
  }

  ghost predicate AllSafe(s: Store, ops: seq<Op>)
    decreases |ops|
  {
    ops == [] || (SafeLinks(s, ops[0]) && AllSafe(Apply(s, ops[0]), ops[1..]))
  }

  /** Over any run, following superseded_by from any record comes to an end at every
      moment if and only if every operation of the run links safely. */
  lemma {:induction false} ChainsEndIffAllSafe(s: Store, ops: seq<Op>)
    requires AllChainsEnd(s)
    ensures AlwaysEnding(s, ops) <==> AllSafe(s, ops)
    decreases |ops|
  {
    if ops != [] {
      AcyclicIffChainsEnd(s);
      ApplyKeepsAcyclicIff(s, ops[0]);
      AcyclicIffChainsEnd(Apply(s, ops[0]));
      if SafeLinks(s, ops[0]) {
        ChainsEndIffAllSafe(Apply(s, ops[0]), ops[1..]);
      }
    }
  }

  /** Records are stored without a successor, as all tools do, and none supersedes
      itself. */
  predicate Orderly(op: Op) {
    (op.Put? ==> op.record.supersededBy.None?) &&
    (op.Supersede? ==> op.record.supersededBy.None? && op.record.id != op.id)
  }

  lemma {:induction false} OrderlyIsSafe(s: Store, ops: seq<Op>)
    requires forall op :: op in ops ==> Orderly(op)
    ensures AllSafe(s, ops)
    decreases |ops|
  {
    if ops != [] {
      assert ops[0] in ops && forall op :: op in ops[1..] ==> op in ops;
      OrderlyIsSafe(Apply(s, ops[0]), ops[1..]);
    }
  }

  lemma {:induction false} EndingAtLast(s: Store, ops: seq<Op>)
    requires AlwaysEnding(s, ops)
    ensures AllChainsEnd(Run(s, ops))
    decreases |ops|
  {
    if ops != [] {
      EndingAtLast(Apply(s, ops[0]), ops[1..]);
    }
  }

  /** After every orderly run, following superseded_by from any record comes to an
      end at a record that is not superseded.  The ids may be reused. */
  lemma SupersessionEnds(ops: seq<Op>, id: string)
    requires forall op :: op in ops ==> Orderly(op)
    requires id in Run(EMPTY, ops).rows
    ensures exists n: nat, end: string :: EndsAt(Run(EMPTY, ops), id, n, end)
  {
    OrderlyIsSafe(EMPTY, ops);
    ChainsEndIffAllSafe(EMPTY, ops);
    EndingAtLast(EMPTY, ops);
    assert Ends(Run(EMPTY, ops), id);
  }

  // ---------------------------------------------------------------------------
  // Chains without end
  // ---------------------------------------------------------------------------

  lemma {:induction false} LoopNeverEnds(s: Store, x: string, y: string, n: nat)
    requires x in s.rows && y in s.rows && Successor(s, x) == Some(y) && Successor(s, y) == Some(x)
    ensures Hop(s, x, n) == Some(if n % 2 == 0 then x else y)
    decreases n
  {
    if n > 0 {
      LoopNeverEnds(s, y, x, n - 1);
    }
  }

  lemma TwoOps(a: Op, b: Op)
    ensures Run(EMPTY, [a, b]) == Apply(Apply(EMPTY, a), b)
  {
    assert [a, b][1..] == [b] && [b][1..] == [];
    assert Run(Apply(EMPTY, a), [b]) == Run(Apply(Apply(EMPTY, a), b), []);
  }

  /** A record superseded by its own id. */
  lemma SelfSupersessionLoops(r: Record, reason: string, at: int, n: nat)
    ensures var s := Run(EMPTY, [Put(r, Synced), Supersede(r.id, r, reason, at, Synced)]);
            Hop(s, r.id, n) == Some(r.id) && !Ends(s, r.id)
  {
    TwoOps(Put(r, Synced), Supersede(r.id, r, reason, at, Synced));
    var s := Apply(Apply(EMPTY, Put(r, Synced)), Supersede(r.id, r, reason, at, Synced));
    forall m: nat ensures Hop(s, r.id, m) == Some(r.id) {
      LoopNeverEnds(s, r.id, r.id, m);
    }
  }

  /** A record superseded by one that already names it as its successor: the database
      stores that link as given. */
  lemma PresetSuccessorLoops(r: Record, x: Record, reason: string, at: int, n: nat)
    requires x.id != r.id && x.supersededBy == Some(r.id)
    ensures var s := Run(EMPTY, [Put(r, Synced), Supersede(r.id, x, reason, at, Synced)]);
            Hop(s, r.id, 2 * n) == Some(r.id) && Hop(s, r.id, 2 * n + 1) == Some(x.id) && !Ends(s, r.id)
  {
    TwoOps(Put(r, Synced), Supersede(r.id, x, reason, at, Synced));
    var s := Apply(Apply(EMPTY, Put(r, Synced)), Supersede(r.id, x, reason, at, Synced));
    forall m: nat ensures Hop(s, r.id, m) == Some(if m % 2 == 0 then r.id else x.id) {
      LoopNeverEnds(s, r.id, x.id, m);
    }
  }

  // ---------------------------------------------------------------------------
  // Merging
  // ---------------------------------------------------------------------------

  function MergedRecord(base: Record, id: string, claim: string, summary: string, tier: string, retention: string,
                        now: int): Record {
    base.(id := id, claim := claim, summary := summary, tier := tier, retention := retention, status := "active",
          visibility := "operator", createdAt := now, updatedAt := now, supersedes := None, supersededBy := None)
  }

  /** The sources that are in the store, in the order given. */
  function Present(s: Store, sources: seq<string>): seq<string> {
    if sources == [] then []
    else Present(s, sources[..|sources| - 1]) +
         if sources[|sources| - 1] in s.rows then [sources[|sources| - 1]] else []
  }

  /** A row after the merge has gone through its id, or has not: only status, successor
      and update time change. */
  predicate SourceDone(was: Row, present: Row, done: bool, newId: string) {
    if done
    then present == was.(record := was.record.(status := "superseded", supersededBy := Some(newId),
                                               updatedAt := present.record.updatedAt))
    else present == was
  }

  /** What merging has done once these sources have been gone through. */
  predicate MergedInto(before: Store, after: Store, sources: seq<string>, r: Record) {
    var done := Present(before, sources);
    && after.rows.Keys == before.rows.Keys + (if done == [] then {} else {r.id})
    && (forall id :: id in before.rows ==> SourceDone(before.rows[id], after.rows[id], id in sources, r.id))
    && (done != [] ==> after.rows[r.id].record == r.(supersedes := Some(done[|done| - 1])))
  }

  lemma PresentSnoc(s: Store, sources: seq<string>, id: string)
    ensures Present(s, sources + [id]) == if id in s.rows then Present(s, sources) + [id] else Present(s, sources)
  {
    assert (sources + [id])[..|sources|] == sources;
  }

  /** One more source: superseding it by the same record again keeps what is done. */
  lemma MergeOneMore(before: Store, after: Store, sources: seq<string>, id: string, r: Record, reason: string, at: int,
                     sync: Sync)
    requires r.id !in before.rows && r.id !in sources && r.id != id && MergedInto(before, after, sources, r)
    ensures MergedInto(before, Apply(after, Supersede(id, r, reason, at, sync)), sources + [id], r)
    ensures Accepts(after, Supersede(id, r, reason, at, sync)) <==> id in before.rows
  {
    assert id in after.rows <==> id in before.rows;
    if id in before.rows {
      MergeOnePresent(before, after, sources, Supersede(id, r, reason, at, sync));
    } else {
      assert Apply(after, Supersede(id, r, reason, at, sync)) == after;
      MergeOneAbsent(before, after, sources, id, r);
    }
  }

  lemma MergeOneAbsent(before: Store, after: Store, sources: seq<string>, id: string, r: Record)
    requires MergedInto(before, after, sources, r) && id !in before.rows
    ensures MergedInto(before, after, sources + [id], r)
  {
    PresentSnoc(before, sources, id);
    forall x | x in before.rows
      ensures SourceDone(before.rows[x], after.rows[x], x in sources + [id], r.id)
    {
      assert x in sources + [id] <==> x in sources;
    }
  }

  lemma MergedRow(before: Store, after: Store, sources: seq<string>, op: Op, x: string)
    requires op.Supersede? && op.record.id != op.id && op.id in after.rows && op.record.id !in before.rows
    requires MergedInto(before, after, sources, op.record) && x in before.rows
    ensures x in Apply(after, op).rows
    ensures SourceDone(before.rows[x], Apply(after, op).rows[x], x in sources || x == op.id, op.record.id)
  {
    SupersedeRows(after, op);
    assert SourceDone(before.rows[x], after.rows[x], x in sources, op.record.id);
  }

  lemma MergedTable(before: Store, after: Store, sources: seq<string>, op: Op)
    requires op.Supersede? && op.record.id != op.id && op.id in after.rows && op.id in before.rows
    requires MergedInto(before, after, sources, op.record)
    ensures var rows := Apply(after, op).rows;
            rows.Keys == before.rows.Keys + {op.record.id} &&
            rows[op.record.id].record == op.record.(supersedes := Some(op.id))
  {
    SupersedeRows(after, op);
  }

  lemma MergeOnePresent(before: Store, after: Store, sources: seq<string>, op: Op)
    requires op.Supersede? && op.record.id != op.id && op.id in after.rows && op.id in before.rows
    requires op.record.id !in before.rows && MergedInto(before, after, sources, op.record)
    ensures MergedInto(before, Apply(after, op), sources + [op.id], op.record)
  {
    PresentSnoc(before, sources, op.id);
    MergedTable(before, after, sources, op);
    var merged := Apply(after, op);
    forall x | x in before.rows
      ensures SourceDone(before.rows[x], merged.rows[x], x in sources + [op.id], op.record.id)
    {
      MergedRow(before, after, sources, op, x);
    }
  }

  /** One turn of the merge. */
  method SupersedeOne(db: BrainCaseDB, id: string, r: Record, keys: set<string>, reason: string, now: int, sync: Sync,
                      ghost before: Store, ghost gone: seq<string>)
    returns (ok: bool)
    requires db.enabled && Storable(keys) && r.id !in before.rows && r.id !in gone && r.id != id
    requires MergedInto(before, db.View(), gone, r)
    modifies db
    ensures MergedInto(before, db.View(), gone + [id], r)
    ensures ok <==> id in before.rows
  {
    MergeOneMore(before, db.View(), gone, id, r, reason, now, sync);
    ok := db.SupersedeStateRecord(id, r, keys, reason, now, sync);
  }

  /** The outcome of the sources gone through so far: the stored ones have succeeded, in
      order, and every other one has failed. */
  predicate Outcome(before: Store, gone: seq<string>, succeeded: seq<string>, failed: seq<string>) {
    succeeded == Present(before, gone) && |succeeded| + |failed| == |gone| &&
    (failed == [] <==> forall id :: id in gone ==> id in before.rows)
  }

  lemma OutcomeSnoc(before: Store, sources: seq<string>, i: nat, succeeded: seq<string>, failed: seq<string>)
    requires i < |sources| && Outcome(before, sources[..i], succeeded, failed)
    ensures sources[..i + 1] == sources[..i] + [sources[i]]
    ensures if sources[i] in before.rows then Outcome(before, sources[..i + 1], succeeded + [sources[i]], failed)
            else Outcome(before, sources[..i + 1], succeeded, failed + [sources[i]])
  {
    assert sources[..i + 1] == sources[..i] + [sources[i]];
    PresentSnoc(before, sources[..i], sources[i]);
    assert forall id :: id in sources[..i + 1] <==> id in sources[..i] || id == sources[i];
    assert sources[i] in sources[..i + 1];
  }

  /** One turn of the loop. */
  method SupersedeNext(db: BrainCaseDB, sources: seq<string>, i: nat, r: Record, keys: set<string>, reason: string, now: int,
                       sync: Sync, succeeded: seq<string>, failed: seq<string>, ghost before: Store)
    returns (succeeded': seq<string>, failed': seq<string>)
    requires db.enabled && Storable(keys) && r.id !in before.rows && r.id !in sources && i < |sources|
    requires MergedInto(before, db.View(), sources[..i], r) && Outcome(before, sources[..i], succeeded, failed)
    modifies db
    ensures MergedInto(before, db.View(), sources[..i + 1], r) && Outcome(before, sources[..i + 1], succeeded', failed')
  {
    OutcomeSnoc(before, sources, i, succeeded, failed);
    var done := SupersedeOne(db, sources[i], r, keys, reason, now, sync, before, sources[..i]);
    if done {
      succeeded', failed' := succeeded + [sources[i]], failed;
    } else {
      succeeded', failed' := succeeded, failed + [sources[i]];
    }
  }

  /** The loop of the merge. */
  method SupersedeAll(db: BrainCaseDB, sources: seq<string>, r: Record, keys: set<string>, reason: string, now: int,
                      syncs: seq<Sync>)
    returns (succeeded: seq<string>, failed: seq<string>)
    requires db.enabled && Storable(keys) && r.id !in db.rows && r.id !in sources && |syncs| == |sources|
    modifies db
    ensures MergedInto(old(db.View()), db.View(), sources, r) && Outcome(old(db.View()), sources, succeeded, failed)
  {
    succeeded, failed := [], [];
    ghost var before := db.View();
    for i := 0 to |sources|
      invariant MergedInto(before, db.View(), sources[..i], r)
      invariant Outcome(before, sources[..i], succeeded, failed)
    {
      succeeded, failed := SupersedeNext(db, sources, i, r, keys, reason, now, syncs[i], succeeded, failed, before);
    }
    assert sources[..|sources|] == sources;
  }

  /** The merged record is a copy of a stored one, with its access columns. */
  function MergedKeys(): set<string> {
    RECORD_KEYS + {"last_accessed_at_ms", "access_count"}
  }

  lemma KeysAreAllowed()
    ensures Storable(MergedKeys())
  {
  }

  /** Source i is the last of the list that is stored. */
  predicate LastStored(s: Store, sources: seq<string>, i: nat) {
    i < |sources| && sources[i] in s.rows && forall j :: i < j < |sources| ==> sources[j] !in s.rows
  }

  lemma {:induction false} PresentEndsWithLast(s: Store, sources: seq<string>, i: nat)
    requires LastStored(s, sources, i)
    ensures var done := Present(s, sources); done != [] && done[|done| - 1] == sources[i]
    decreases |sources|
  {
    var n := |sources| - 1;
    if i < n {
      assert sources[n] !in s.rows;
      PresentEndsWithLast(s, sources[..n], i);
    }
  }

  /** The merged record, field by field: text, tier and retention are the ones asked for,
      it is active and the operator's, it names the last stored source, and the rest is
      the first source's. */
  lemma MergedRecordSays(before: Store, after: Store, sources: seq<string>, base: Record, newId: string, claim: string,
                         summary: string, tier: string, retention: string, now: int, i: nat)
    requires MergedInto(before, after, sources, MergedRecord(base, newId, claim, summary, tier, retention, now))
    requires LastStored(before, sources, i)
    ensures newId in after.rows &&
            after.rows[newId].record ==
            Record(newId, base.schema, base.memoryDomain, tier, base.recordType, claim, summary, "active", "operator",
                   base.confidence, base.importance, retention, now, now, base.sourceRefs, base.tags,
                   Some(sources[i]), None, base.metadata)
  {
    PresentEndsWithLast(before, sources, i);
  }

  /** bc_merge_tool after its argument checks: the new id is fresh.  Every source that
      exists ends up superseded by the merged record, which names the last of them;
      the others are reported as failed and nothing else changes. */
  method MergeTool(db: BrainCaseDB, sources: seq<string>, newId: string, claim: string, summary: string, tier: string,
                   retention: string, reason: string, now: int, syncs: seq<Sync>)
    returns (ok: bool, succeeded: seq<string>, failed: seq<string>)
    requires newId !in db.rows && newId !in sources && |syncs| == |sources|
    modifies db
    ensures !db.enabled || |sources| < 2 || claim == "" || summary == "" || sources[0] !in old(db.rows) ==>
              !ok && succeeded == [] && db.View() == old(db.View())
    ensures !(!db.enabled || |sources| < 2 || claim == "" || summary == "" || sources[0] !in old(db.rows)) ==>
              (ok <==> forall id :: id in sources ==> id in old(db.rows)) &&
              Outcome(old(db.View()), sources, succeeded, failed) &&
              MergedInto(old(db.View()), db.View(), sources,
                         MergedRecord(old(db.rows)[sources[0]].record, newId, claim, summary, tier, retention, now))
  {
    succeeded, failed := [], [];
    if |sources| < 2 || claim == "" || summary == "" {
      return false, [], [];
    }
    var base := db.GetStateRecord(sources[0]);
    if base.None? {
      return false, [], [];
    }
    var r := MergedRecord(base.value, newId, claim, summary, tier, retention, now);
    KeysAreAllowed();
    succeeded, failed := SupersedeAll(db, sources, r, MergedKeys(), reason, now, syncs);
    ok := failed == [];
  }
}
