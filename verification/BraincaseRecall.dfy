/** Tier-routed recall: per-tier retrieval with a limit, merged, de-duplicated, ranked
    and cut, compared with ranking everything that matches. */
module BraincaseRecall {
  import opened BraincaseStore
  import opened Ranking

  // ---------------------------------------------------------------------------
  // The code's way
  // ---------------------------------------------------------------------------

  /** What the database answers for one tier. */
  datatype Answers = Answers(found: seq<Record>, listed: seq<Record>)

  /** A query that finds nothing in a tier falls back to listing the tier. */
  function Retrieved(a: Answers, hasQuery: bool): seq<Record> {
    if hasQuery && a.found != [] then a.found else a.listed
  }

  predicate Knows(seen: seq<Record>, id: string) {
    exists i :: 0 <= i < |seen| && seen[i].id == id
  }

  function AddNew(seen: seq<Record>, rs: seq<Record>): seq<Record> {
    if rs == [] then seen
    else
      var before := AddNew(seen, rs[..|rs| - 1]);
      var r := rs[|rs| - 1];
      if r.id != "" && !Knows(before, r.id) then before + [r] else before
  }

  function Collected(tiers: seq<string>, answer: string -> seq<Record>): seq<Record> {
    if tiers == [] then []
    else AddNew(Collected(tiers[..|tiers| - 1], answer), answer(tiers[|tiers| - 1]))
  }

  function Cut(s: seq<Record>, limit: nat): seq<Record> {
    s[..if |s| < limit then |s| else limit]
  }

  function Retrieval(db: string -> Answers, hasQuery: bool): string -> seq<Record> {
    t => Retrieved(db(t), hasQuery)
  }

  method RecallCandidates(tiers: seq<string>, hasQuery: bool, limit: nat, db: string -> Answers) returns (r: seq<Record>)
    ensures r == Cut(Ranked(Collected(tiers, Retrieval(db, hasQuery))), limit)
  {
    ghost var answer := Retrieval(db, hasQuery);
    var seen: seq<Record> := [];
    var ids: set<string> := {};
    for i := 0 to |tiers|
      invariant seen == Collected(tiers[..i], answer)
      invariant forall id :: id in ids <==> Knows(seen, id)
    {
      assert tiers[..i + 1][..i] == tiers[..i];
      var records: seq<Record>;
      if hasQuery {
        records := db(tiers[i]).found;
        if records == [] {
          records := db(tiers[i]).listed;
        }
      } else {
        records := db(tiers[i]).listed;
      }
      ghost var before := seen;
      for j := 0 to |records|
        invariant seen == AddNew(before, records[..j])
        invariant forall id :: id in ids <==> Knows(seen, id)
      {
        assert records[..j + 1][..j] == records[..j];
        var rec := records[j];
        if rec.id != "" && rec.id !in ids {
          KnowsSnoc(seen, rec);
          seen := seen + [rec];
          ids := ids + {rec.id};
        }
      }
      assert records[..|records|] == records;
    }
    assert tiers[..|tiers|] == tiers;
    r := Cut(Ranked(seen), limit);
  }

  lemma KnowsSnoc(seen: seq<Record>, r: Record)
    ensures forall id :: Knows(seen + [r], id) <==> Knows(seen, id) || id == r.id
  {
    forall id | Knows(seen, id) ensures Knows(seen + [r], id) {
      var i :| 0 <= i < |seen| && seen[i].id == id;
      assert (seen + [r])[i].id == id;
    }
    assert (seen + [r])[|seen|].id == r.id;
  }

  // ---------------------------------------------------------------------------
  // What the database promises
  // ---------------------------------------------------------------------------

  /** What the database sorts by: matches by importance, listings by creation. */
  datatype Order = ByImportance | ByCreation

  function Key(o: Order, r: Record): real {
    match o
    case ByImportance => r.importance
    case ByCreation => r.createdAt as real
  }

  predicate Descending(o: Order, s: seq<Record>) {
    forall i, j :: 0 <= i < j < |s| ==> Key(o, s[i]) >= Key(o, s[j])
  }

  /** ORDER BY key DESC LIMIT k over the matching rows; ties come in any order. */
  ghost predicate TopBy(o: Order, result: seq<Record>, matching: seq<Record>, k: nat) {
    exists s :: IsArrangement(o, s, matching) && result == Cut(s, k)
  }

  predicate IsArrangement(o: Order, s: seq<Record>, matching: seq<Record>) {
    multiset(s) == multiset(matching) && Descending(o, s)
  }

  /** Rows of one tier of a table keyed by id. */
  predicate RowsOfTier(rows: map<string, Row>, tier: string, rs: seq<Record>) {
    (forall i :: 0 <= i < |rs| ==>
       rs[i].id != "" && rs[i].id in rows && rows[rs[i].id].record == rs[i] && rs[i].tier == tier) &&
    (forall i, j :: 0 <= i < j < |rs| ==> rs[i].id != rs[j].id)
  }

  // ---------------------------------------------------------------------------
  // Counting by a key
  // ---------------------------------------------------------------------------

  function CountAbove(o: Order, s: seq<Record>, v: real): (n: nat)
    ensures n <= |s|
  {
    if s == [] then 0 else (if Key(o, s[0]) >= v then 1 else 0) + CountAbove(o, s[1..], v)
  }

  lemma {:induction false} CountAboveAppend(o: Order, a: seq<Record>, b: seq<Record>, v: real)
    ensures CountAbove(o, a + b, v) == CountAbove(o, a, v) + CountAbove(o, b, v)
    decreases |a|
  {
    if a == [] {
      assert a + b == b;
    } else {
      assert (a + b)[1..] == a[1..] + b;
      CountAboveAppend(o, a[1..], b, v);
    }
  }

  lemma RemoveOne(o: Order, b: seq<Record>, i: nat, v: real)
    requires i < |b|
    ensures CountAbove(o, b, v) == CountAbove(o, b[..i] + b[i + 1..], v) + if Key(o, b[i]) >= v then 1 else 0
  {
    assert b == b[..i] + ([b[i]] + b[i + 1..]);
    CountAboveAppend(o, b[..i], [b[i]] + b[i + 1..], v);
    CountAboveAppend(o, b[..i], b[i + 1..], v);
    assert ([b[i]] + b[i + 1..])[1..] == b[i + 1..];
  }

  lemma RestOfPermutation(a: seq<Record>, b: seq<Record>) returns (i: nat)
    requires multiset(a) == multiset(b) && a != []
    ensures i < |b| && b[i] == a[0] && multiset(a[1..]) == multiset(b[..i] + b[i + 1..])
  {
    assert a[0] in multiset(b);
    i :| 0 <= i < |b| && b[i] == a[0];
    assert a == [a[0]] + a[1..];
    assert multiset(a) == multiset{a[0]} + multiset(a[1..]);
    assert b == b[..i] + ([b[i]] + b[i + 1..]);
    assert multiset(b) == multiset(b[..i]) + (multiset{b[i]} + multiset(b[i + 1..]));
    assert multiset(b[..i] + b[i + 1..]) == multiset(b[..i]) + multiset(b[i + 1..]);
    assert multiset(a[1..]) == multiset(a) - multiset{a[0]};
    assert multiset(b[..i] + b[i + 1..]) == multiset(b) - multiset{b[i]};
  }

  lemma {:induction false} CountAbovePermutation(o: Order, a: seq<Record>, b: seq<Record>, v: real)
    requires multiset(a) == multiset(b)
    ensures CountAbove(o, a, v) == CountAbove(o, b, v) && |a| == |b|
    decreases |a|
  {
    assert |a| == |multiset(a)| && |b| == |multiset(b)|;
    if a != [] {
      var i := RestOfPermutation(a, b);
      RemoveOne(o, b, i, v);
      CountAbovePermutation(o, a[1..], b[..i] + b[i + 1..], v);
    }
  }

  /** In a descending sequence the count says how far the values at least v reach. */
  lemma {:induction false} CountLocates(o: Order, s: seq<Record>, v: real, i: nat)
    requires Descending(o, s) && i < |s|
    ensures Key(o, s[i]) >= v <==> CountAbove(o, s, v) > i
    decreases |s|
  {
    if i > 0 {
      CountLocates(o, s[1..], v, i - 1);
      if Key(o, s[0]) < v {
        CountNone(o, s, v);
      }
    } else if Key(o, s[0]) < v {
      CountNone(o, s, v);
    }
  }

  lemma {:induction false} CountNone(o: Order, s: seq<Record>, v: real)
    requires forall i :: 0 <= i < |s| ==> Key(o, s[i]) < v
    ensures CountAbove(o, s, v) == 0
    decreases |s|
  {
    if s != [] {
      CountNone(o, s[1..], v);
    }
  }

  function Least(a: nat, b: nat): nat { if a < b then a else b }

  lemma {:induction false} CountOfCut(o: Order, s: seq<Record>, k: nat, v: real)
    requires Descending(o, s)
    ensures CountAbove(o, Cut(s, k), v) == Least(k, CountAbove(o, s, v))
    decreases |s|
  {
    var c := Cut(s, k);
    if s != [] && k > 0 {
      assert c[1..] == Cut(s[1..], k - 1);
      CountOfCut(o, s[1..], k - 1, v);
      if Key(o, s[0]) < v {
        CountNone(o, s, v);
        CountNone(o, c, v);
      }
    }
  }

  /** What matters of a retrieval: for every threshold it has as many records above it
      as the matching rows, up to k, and it is no longer than it must be. */
  ghost predicate Represents(result: seq<Record>, matching: seq<Record>, k: nat) {
    |result| == Least(k, |matching|) &&
    forall v :: CountAbove(ByImportance, result, v) == Least(k, CountAbove(ByImportance, matching, v))
  }

  lemma TopRepresents(result: seq<Record>, matching: seq<Record>, k: nat)
    requires TopBy(ByImportance, result, matching, k)
    ensures Represents(result, matching, k)
  {
    var s :| IsArrangement(ByImportance, s, matching) && result == Cut(s, k);
    CountAbovePermutation(ByImportance, s, matching, 0.0);
    forall v ensures CountAbove(ByImportance, result, v) == Least(k, CountAbove(ByImportance, matching, v)) {
      CountOfCut(ByImportance, s, k, v);
      CountAbovePermutation(ByImportance, s, matching, v);
    }
  }

  /** Up to k, two pools cannot be told apart by counting above any threshold. */
  ghost predicate SameTop(a: seq<Record>, b: seq<Record>, k: nat) {
    Least(k, |a|) == Least(k, |b|) &&
    forall v :: Least(k, CountAbove(ByImportance, a, v)) == Least(k, CountAbove(ByImportance, b, v))
  }

  function Importances(s: seq<Record>): (r: seq<real>)
    ensures |r| == |s| && forall i :: 0 <= i < |s| ==> r[i] == s[i].importance
  {
    if s == [] then [] else [s[0].importance] + Importances(s[1..])
  }

  lemma RankedCounts(s: seq<Record>, v: real)
    ensures CountAbove(ByImportance, Ranked(s), v) == CountAbove(ByImportance, s, v) && Descending(ByImportance, Ranked(s))
  {
    RankedIsSortedPermutation(s);
    CountAbovePermutation(ByImportance, Ranked(s), s, v);
    var t := Ranked(s);
    forall i, j | 0 <= i < j < |t| ensures t[i].importance >= t[j].importance {
      assert !Before(t[j], t[i]);
    }
  }

  lemma SameTopSameImportances(a: seq<Record>, b: seq<Record>, k: nat)
    requires SameTop(a, b, k)
    ensures Importances(Cut(Ranked(a), k)) == Importances(Cut(Ranked(b), k))
  {
    var x, y := Cut(Ranked(a), k), Cut(Ranked(b), k);
    forall i | 0 <= i < |x| ensures x[i].importance == y[i].importance {
      var u, v := x[i].importance, y[i].importance;
      RankedCounts(a, u);
      RankedCounts(b, u);
      RankedCounts(a, v);
      RankedCounts(b, v);
      CountLocates(ByImportance, Ranked(a), u, i);
      CountLocates(ByImportance, Ranked(b), u, i);
      CountLocates(ByImportance, Ranked(a), v, i);
      CountLocates(ByImportance, Ranked(b), v, i);
      assert Least(k, CountAbove(ByImportance, a, u)) == Least(k, CountAbove(ByImportance, b, u));
      assert Least(k, CountAbove(ByImportance, a, v)) == Least(k, CountAbove(ByImportance, b, v));
    }
  }

  // ---------------------------------------------------------------------------
  // Merging tiers
  // ---------------------------------------------------------------------------

  predicate Disjoint(seen: seq<Record>, rs: seq<Record>) {
    forall i :: 0 <= i < |rs| ==> rs[i].id != "" && !Knows(seen, rs[i].id)
  }

  lemma {:induction false} AddNewDisjoint(seen: seq<Record>, rs: seq<Record>)
    requires Disjoint(seen, rs)
    requires forall i, j :: 0 <= i < j < |rs| ==> rs[i].id != rs[j].id
    ensures AddNew(seen, rs) == seen + rs
    decreases |rs|
  {
    if rs == [] {
      assert seen + rs == seen;
    } else {
      var n := |rs| - 1;
      AddNewDisjoint(seen, rs[..n]);
      assert rs == rs[..n] + [rs[n]];
      assert !Knows(seen + rs[..n], rs[n].id);
      assert seen + rs[..n] + [rs[n]] == seen + rs;
    }
  }

  lemma {:induction false} AddNewKnown(seen: seq<Record>, rs: seq<Record>)
    requires forall i :: 0 <= i < |rs| ==> Knows(seen, rs[i].id)
    ensures AddNew(seen, rs) == seen
    decreases |rs|
  {
    if rs != [] {
      AddNewKnown(seen, rs[..|rs| - 1]);
    }
  }

  /** The records collected are those of the given tiers, each tier's answer being
      there in full. */
  predicate Holds(rows: map<string, Row>, tiers: seq<string>, answer: string -> seq<Record>, seen: seq<Record>) {
    (forall i :: 0 <= i < |seen| ==>
       seen[i].id in rows && rows[seen[i].id].record == seen[i] && seen[i].tier in tiers) &&
    (forall t :: t in tiers ==> AllKnown(seen, answer(t)))
  }

  predicate AllKnown(seen: seq<Record>, rs: seq<Record>) {
    forall i :: 0 <= i < |rs| ==> Knows(seen, rs[i].id)
  }

  lemma KnowsAppend(a: seq<Record>, b: seq<Record>)
    ensures forall id :: Knows(a, id) ==> Knows(a + b, id)
    ensures AllKnown(a + b, b)
  {
    forall id | Knows(a, id) ensures Knows(a + b, id) {
      var i :| 0 <= i < |a| && a[i].id == id;
      assert (a + b)[i].id == id;
    }
    forall i | 0 <= i < |b| ensures Knows(a + b, b[i].id) {
      assert (a + b)[|a| + i].id == b[i].id;
    }
  }

  /** One more tier: its answer is appended, unless the tier was there before. */
  lemma {:induction false} CollectTier(rows: map<string, Row>, tiers: seq<string>, answer: string -> seq<Record>, t: string)
    requires forall x :: x in tiers + [t] ==> RowsOfTier(rows, x, answer(x))
    requires Holds(rows, tiers, answer, Collected(tiers, answer))
    ensures Collected(tiers + [t], answer) == Collected(tiers, answer) + (if t in tiers then [] else answer(t))
    ensures Holds(rows, tiers + [t], answer, Collected(tiers + [t], answer))
  {
    var seen := Collected(tiers, answer);
    assert (tiers + [t])[..|tiers|] == tiers;
    assert RowsOfTier(rows, t, answer(t)) by { assert t in tiers + [t]; }
    if t in tiers {
      assert AllKnown(seen, answer(t));
      AddNewKnown(seen, answer(t));
      assert seen + [] == seen;
    } else {
      assert Disjoint(seen, answer(t));
      AddNewDisjoint(seen, answer(t));
      KnowsAppend(seen, answer(t));
    }
  }

  lemma {:induction false} CollectedHolds(rows: map<string, Row>, tiers: seq<string>, answer: string -> seq<Record>)
    requires forall t :: t in tiers ==> RowsOfTier(rows, t, answer(t))
    ensures Holds(rows, tiers, answer, Collected(tiers, answer))
    decreases |tiers|
  {
    if tiers != [] {
      var n := |tiers| - 1;
      assert tiers == tiers[..n] + [tiers[n]];
      CollectedHolds(rows, tiers[..n], answer);
      CollectTier(rows, tiers[..n], answer, tiers[n]);
    }
  }

  lemma LeastSums(k: nat, a: nat, a': nat, b: nat, b': nat)
    requires Least(k, a) == Least(k, a') && b == Least(k, b')
    ensures Least(k, a + b) == Least(k, a' + b')
  {
  }

  lemma SameTopAppend(a: seq<Record>, b: seq<Record>, x: seq<Record>, y: seq<Record>, k: nat)
    requires SameTop(a, b, k) && Represents(x, y, k)
    ensures SameTop(a + x, b + y, k)
  {
    LeastSums(k, |a|, |b|, |x|, |y|);
    forall v ensures Least(k, CountAbove(ByImportance, a + x, v)) == Least(k, CountAbove(ByImportance, b + y, v)) {
      CountAboveAppend(ByImportance, a, x, v);
      CountAboveAppend(ByImportance, b, y, v);
      LeastSums(k, CountAbove(ByImportance, a, v), CountAbove(ByImportance, b, v),
                CountAbove(ByImportance, x, v), CountAbove(ByImportance, y, v));
    }
  }

  lemma {:induction false} CollectedSameTop(rows: map<string, Row>, tiers: seq<string>, answer: string -> seq<Record>,
                                            full: string -> seq<Record>, k: nat)
    requires forall t :: t in tiers ==>
               RowsOfTier(rows, t, answer(t)) && RowsOfTier(rows, t, full(t)) && Represents(answer(t), full(t), k)
    ensures SameTop(Collected(tiers, answer), Collected(tiers, full), k)
    decreases |tiers|
  {
    if tiers != [] {
      var n := |tiers| - 1;
      var t, init := tiers[n], tiers[..n];
      assert tiers == init + [t];
      CollectedSameTop(rows, init, answer, full, k);
      CollectedHolds(rows, init, answer);
      CollectedHolds(rows, init, full);
      CollectTier(rows, init, answer, t);
      CollectTier(rows, init, full, t);
      var a, b := Collected(init, answer), Collected(init, full);
      if t in init {
        assert a + [] == a && b + [] == b;
      } else {
        SameTopAppend(a, b, answer(t), full(t), k);
      }
    }
  }

  /** The pool recall ranks: all matching rows of a tier where the query finds any,
      and the tier's listing otherwise. */
  function Pool(db: string -> Answers, matching: string -> seq<Record>, hasQuery: bool): string -> seq<Record> {
    t => if hasQuery && db(t).found != [] then matching(t) else db(t).listed
  }

  /** Querying tier by tier with the limit, merging, de-duplicating, ranking and
      cutting gives the same importances as ranking the whole pool and cutting, with
      any tiers, also repeated ones. */
  lemma RecallIsTopOfPool(rows: map<string, Row>, tiers: seq<string>, hasQuery: bool, limit: nat, db: string -> Answers,
                          matching: string -> seq<Record>)
    requires limit > 0
    requires forall t :: t in tiers ==>
               RowsOfTier(rows, t, matching(t)) && RowsOfTier(rows, t, db(t).found) && RowsOfTier(rows, t, db(t).listed) &&
               TopBy(ByImportance, db(t).found, matching(t), limit) && |db(t).listed| <= limit
    ensures Importances(Cut(Ranked(Collected(tiers, Retrieval(db, hasQuery))), limit)) ==
            Importances(Cut(Ranked(Collected(tiers, Pool(db, matching, hasQuery))), limit))
  {
    var answer := Retrieval(db, hasQuery);
    var full := Pool(db, matching, hasQuery);
    forall t | t in tiers
      ensures RowsOfTier(rows, t, answer(t)) && RowsOfTier(rows, t, full(t)) && Represents(answer(t), full(t), limit)
    {
      if hasQuery && db(t).found != [] {
        TopRepresents(db(t).found, matching(t), limit);
      }
    }
    CollectedSameTop(rows, tiers, answer, full, limit);
    SameTopSameImportances(Collected(tiers, answer), Collected(tiers, full), limit);
  }

  /** Only the importances: among equally important matches the per-tier cut may keep
      the one that was updated earlier. */
  lemma LaterUpdateCanBeLost(x: Record, y: Record)
    requires x.importance == y.importance && x.updatedAt < y.updatedAt && x.id != y.id && x.id != "" && y.id != ""
    ensures TopBy(ByImportance, [x], [x, y], 1)
    ensures Cut(Ranked([x]), 1) == [x] && Cut(Ranked([x, y]), 1) == [y]
  {
    assert IsArrangement(ByImportance, [x, y], [x, y]) && Cut([x, y], 1) == [x];
    assert [x, y][1..] == [y] && [y][1..] == [] && [x][1..] == [];
    assert Ranked([y]) == [y] && Ranked([x]) == [x];
    assert Before(y, x);
    assert Ranked([x, y]) == [y] + Insert(x, []);
  }
}
