/** The revision log as a complete history of a record. */
module BraincaseHistory {
  import opened Common
  import opened BraincaseStore

  function RevisionsOf(revisions: seq<Revision>, id: string): seq<Revision> {
    if revisions == [] then []
    else
      var last := revisions[|revisions| - 1];
      RevisionsOf(revisions[..|revisions| - 1], id) + if last.id == id then [last] else []
  }

  function Previous(revisions: seq<Revision>): (r: seq<Record>)
    ensures |r| == |revisions|
    ensures forall i :: 0 <= i < |revisions| ==> r[i] == revisions[i].previous
  {
    if revisions == [] then [] else Previous(revisions[..|revisions| - 1]) + [revisions[|revisions| - 1].previous]
  }

  /** Operations that store a whole record under the id. */
  predicate Writes(op: Op, id: string) {
    (op.Put? && op.record.id == id) || (op.Supersede? && op.record.id == id)
  }

  /** Operations that change the record under the id in place. */
  predicate Changes(s: Store, op: Op, id: string) {
    Accepts(s, op) &&
    ((op.Retire? && op.id == id) || (op.Promote? && op.id == id) ||
     (op.Patch? && op.id == id) || (op.Supersede? && op.id == id))
  }

  lemma ApplyKeepsRows(s: Store, op: Op, id: string)
    requires id in s.rows
    ensures id in Apply(s, op).rows
  {
    if op.Access? {
      AccessedKeepsRecords(s.rows, op.ids, op.at);
    }
  }

  /** The new value the operation gives the record, if it changes it. */
  function Gained(s: Store, op: Op, id: string): seq<Record>
    requires id in s.rows
  {
    ApplyKeepsRows(s, op, id);
    if Changes(s, op, id) then [Apply(s, op).rows[id].record] else []
  }

  /** The values the record takes on in the run, in order. */
  function Values(s: Store, ops: seq<Op>, id: string): seq<Record>
    requires id in s.rows
    decreases |ops|
  {
    if ops == [] then []
    else
      ApplyKeepsRows(s, ops[0], id);
      Gained(s, ops[0], id) + Values(Apply(s, ops[0]), ops[1..], id)
  }

  /** The values kept by the log for the record, and its present one. */
  function Timeline(s: Store, id: string): seq<Record>
    requires id in s.rows
  {
    Previous(RevisionsOf(s.revisions, id)) + [s.rows[id].record]
  }

  /** What a revision says about the record that came after the one it keeps. */
  predicate Explains(v: Revision, after: Record) {
    match v.operation
    case Retired => after == v.previous.(status := "retired", updatedAt := v.at)
    case Promoted =>
      v.next == Some(after) &&
      after == v.previous.(status := after.status, visibility := after.visibility, updatedAt := v.at)
    case Patched =>
      v.next == Some(after) &&
      after == v.previous.(tier := after.tier, importance := after.importance, tags := after.tags, updatedAt := v.at)
    case Superseded =>
      after == v.previous.(status := "superseded", supersededBy := after.supersededBy, updatedAt := v.at) &&
      after.supersededBy.Some?
  }

  lemma RevisionsOfSnoc(revisions: seq<Revision>, v: Revision, id: string)
    ensures RevisionsOf(revisions + [v], id) ==
            if v.id == id then RevisionsOf(revisions, id) + [v] else RevisionsOf(revisions, id)
  {
    assert (revisions + [v])[..|revisions|] == revisions;
  }

  /** The revision an accepted change appends to the log. */
  function Logged(s: Store, op: Op): Revision
    requires Accepts(s, op) && (op.Retire? || op.Promote? || op.Patch? || op.Supersede?)
  {
    Apply(s, op).revisions[|s.revisions|]
  }

  /** A change appends one revision, which keeps the old value and explains the new. */
  lemma ChangeIsLogged(s: Store, op: Op, id: string)
    requires id in s.rows && Changes(s, op, id) && !Writes(op, id)
    ensures var v := Logged(s, op);
            Apply(s, op).revisions == s.revisions + [v] && v.id == id && v.previous == s.rows[id].record
    ensures id in Apply(s, op).rows && Explains(Logged(s, op), Apply(s, op).rows[id].record)
  {
  }

  lemma ReviseOther(s: Store, other: string, operation: Operation, to: Record, next: Option<Record>, reason: string,
                    at: int, id: string)
    requires other in s.rows && id in s.rows && other != id
    ensures var s' := Revise(s, other, operation, to, next, reason, at);
            RevisionsOf(s'.revisions, id) == RevisionsOf(s.revisions, id) && id in s'.rows && s'.rows[id] == s.rows[id]
  {
    RevisionsOfSnoc(s.revisions, Revision(other, operation, s.rows[other].record, next, reason, at), id);
  }

  lemma SupersedeOther(s: Store, op: Op, id: string)
    requires op.Supersede? && op.id in s.rows && id in s.rows && op.id != id && op.record.id != id
    ensures var s' := Apply(s, op);
            RevisionsOf(s'.revisions, id) == RevisionsOf(s.revisions, id) && id in s'.rows && s'.rows[id] == s.rows[id]
  {
    RevisionsOfSnoc(s.revisions, Revision(op.id, Superseded, s.rows[op.id].record, None, op.reason, op.at), id);
  }

  /** Anything else leaves the record and its part of the log as they are. */
  lemma OthersAreNotLogged(s: Store, op: Op, id: string)
    requires id in s.rows && !Changes(s, op, id) && !Writes(op, id)
    ensures var s' := Apply(s, op);
            RevisionsOf(s'.revisions, id) == RevisionsOf(s.revisions, id) &&
            id in s'.rows && s'.rows[id].record == s.rows[id].record
  {
    if Accepts(s, op) {
      match op
      case Access(ids, at) => AccessedKeepsRecords(s.rows, ids, at);
      case Retire(other, reason, at) =>
        ReviseOther(s, other, Retired, s.rows[other].record.(status := "retired", updatedAt := at), None, reason, at, id);
      case Promote(other, status, visibility, reason, at) =>
        var to := s.rows[other].record.(status := status, visibility := visibility, updatedAt := at);
        ReviseOther(s, other, Promoted, to, Some(to), reason, at, id);
      case Patch(other, tier, importance, tags, reason, at) =>
        var to := PatchedRecord(s.rows[other].record, tier, importance, tags, at);
        ReviseOther(s, other, Patched, to, Some(to), reason, at, id);
      case Supersede(_, _, _, _, _) => SupersedeOther(s, op, id);
      case _ =>
    }
  }

  /** Each logged value leads to the next one, and the last to the stored record. */
  predicate Replays(log: seq<Revision>, current: Record) {
    log == [] ||
    var last := log[|log| - 1];
    Explains(last, current) && Replays(log[..|log| - 1], last.previous)
  }

  predicate NeverWrites(ops: seq<Op>, id: string) {
    forall op :: op in ops ==> !Writes(op, id)
  }

  lemma {:induction false} RunReplays(s: Store, ops: seq<Op>, id: string)
    requires id in s.rows && NeverWrites(ops, id)
    requires Replays(RevisionsOf(s.revisions, id), s.rows[id].record)
    ensures id in Run(s, ops).rows
    ensures Replays(RevisionsOf(Run(s, ops).revisions, id), Run(s, ops).rows[id].record)
    decreases |ops|
  {
    if ops != [] {
      assert ops[0] in ops && forall x :: x in ops[1..] ==> x in ops;
      if Changes(s, ops[0], id) {
        ChangeIsLogged(s, ops[0], id);
        RevisionsOfSnoc(s.revisions, Logged(s, ops[0]), id);
        var log := RevisionsOf(s.revisions, id);
        assert (log + [Logged(s, ops[0])])[..|log|] == log;
      } else {
        OthersAreNotLogged(s, ops[0], id);
      }
      RunReplays(Apply(s, ops[0]), ops[1..], id);
    }
  }

  lemma StepExtendsTimeline(s: Store, op: Op, id: string)
    requires id in s.rows && !Writes(op, id)
    ensures id in Apply(s, op).rows
    ensures Timeline(Apply(s, op), id) == Timeline(s, id) + Gained(s, op, id)
  {
    var log := RevisionsOf(s.revisions, id);
    if Changes(s, op, id) {
      var v := Logged(s, op);
      ChangeIsLogged(s, op, id);
      RevisionsOfSnoc(s.revisions, v, id);
      assert (log + [v])[..|log|] == log;
    } else {
      OthersAreNotLogged(s, op, id);
    }
  }

  lemma {:induction false} RunExtendsTimeline(s: Store, ops: seq<Op>, id: string)
    requires id in s.rows && NeverWrites(ops, id)
    ensures id in Run(s, ops).rows
    ensures Timeline(Run(s, ops), id) == Timeline(s, id) + Values(s, ops, id)
    decreases |ops|
  {
    if ops != [] {
      assert ops[0] in ops && forall x :: x in ops[1..] ==> x in ops;
      var s1 := Apply(s, ops[0]);
      StepExtendsTimeline(s, ops[0], id);
      RunExtendsTimeline(s1, ops[1..], id);
      Glue(Timeline(s, id), Gained(s, ops[0], id), Values(s1, ops[1..], id), Timeline(s1, id), Timeline(Run(s1, ops[1..]), id));
    }
  }

  lemma Glue<T>(a: seq<T>, b: seq<T>, c: seq<T>, ab: seq<T>, abc: seq<T>)
    requires ab == a + b && abc == ab + c
    ensures abc == a + (b + c)
  {
  }

  /** For a record that is not stored anew in the run: the values kept by its
      revisions, followed by the current row, are exactly all values the record has
      had in the run, in order, and the log replays from each to the next.  Accesses
      and operations on other records do not disturb this. */
  lemma LogIsCompleteHistory(s: Store, r: Record, sync: Sync, ops: seq<Op>)
    requires RevisionsOf(s.revisions, r.id) == [] && NeverWrites(ops, r.id)
    ensures var s1 := Apply(s, Put(r, sync)); var s' := Run(s1, ops); var log := RevisionsOf(s'.revisions, r.id);
            r.id in s1.rows && s1.rows[r.id].record == r && r.id in s'.rows &&
            Timeline(s', r.id) == [r] + Values(s1, ops, r.id) &&
            Replays(log, s'.rows[r.id].record)
  {
    var s1 := Apply(s, Put(r, sync));
    RunExtendsTimeline(s1, ops, r.id);
    RunReplays(s1, ops, r.id);
  }

  /** Storing a record over an existing one leaves no revision: its old value is gone
      from the log and from the table. */
  lemma OverwriteIsNotLogged(s: Store, r: Record, sync: Sync)
    requires r.id in s.rows && s.rows[r.id].record != r
    ensures var s' := Apply(s, Put(r, sync));
            s'.revisions == s.revisions && s'.rows[r.id].record == r
  {
  }
}
