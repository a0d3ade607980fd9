/** When recall returns the very records that ranking everything would: over all orders
    in which the database may return ties, and for tiers that are queried as well as for
    tiers that are listed, newest first. */
module RecallExactness {
  import opened BraincaseStore
  import opened Ranking
  import opened BraincaseRecall

  // ---------------------------------------------------------------------------
  // The two rankings
  // ---------------------------------------------------------------------------

  /** What recall draws on in one tier, and the order in which the database cuts it. */
  datatype Source = Source(order: Order, rows: seq<Record>)

  /** The matches where the query finds any, and otherwise the whole tier. */
  function Drawn(matching: seq<Record>, all: seq<Record>, hasQuery: bool): Source {
    if hasQuery && matching != [] then Source(ByImportance, matching) else Source(ByCreation, all)
  }

  function Sources(matching: string -> seq<Record>, all: string -> seq<Record>, hasQuery: bool): string -> Source {
    t => Drawn(matching(t), all(t), hasQuery)
  }

  function Rows(sources: string -> Source): string -> seq<Record> {
    t => sources(t).rows
  }

  function TopRanked(tiers: seq<string>, rows: string -> seq<Record>, k: nat): seq<Record> {
    Cut(Ranked(Collected(tiers, rows)), k)
  }

  /** The answer is a cut that the database may give, with ties in any order. */
  ghost predicate Cuts(tiers: seq<string>, sources: string -> Source, answer: string -> seq<Record>, k: nat) {
    forall t :: t in tiers ==> TopBy(sources(t).order, answer(t), sources(t).rows, k)
  }

  /** At most k rows of its source come before the record or tie with it there. */
  predicate Secure(src: Source, r: Record, k: nat) {
    CountAbove(src.order, src.rows, Key(src.order, r)) <= k
  }

  /** The last record to be returned and the first one to be left out rank equal, and
      only the database's order of their tier decides between them. */
  predicate CutsTie(ranked: seq<Record>, k: nat) {
    0 < k < |ranked| && Tied(ranked[k - 1], ranked[k]) && ranked[k - 1].tier == ranked[k].tier
  }

  predicate Exact(tiers: seq<string>, sources: string -> Source, k: nat) {
    var ranked := Ranked(Collected(tiers, Rows(sources)));
    (forall r :: r in Cut(ranked, k) ==> Secure(sources(r.tier), r, k)) && !CutsTie(ranked, k)
  }

  // ---------------------------------------------------------------------------
  // Sequences without repetition
  // ---------------------------------------------------------------------------

  predicate Distinct(s: seq<Record>) {
    forall i, j :: 0 <= i < j < |s| ==> s[i] != s[j]
  }

  /** Some occurrence of a comes before some occurrence of b. */
  predicate Precedes(s: seq<Record>, a: Record, b: Record) {
    exists i, j :: 0 <= i < j < |s| && s[i] == a && s[j] == b
  }

  lemma {:induction false} DistinctOnce(s: seq<Record>, r: Record)
    requires Distinct(s)
    ensures multiset(s)[r] == if r in s then 1 else 0
    decreases |s|
  {
    if s != [] {
      var n := |s| - 1;
      assert s == s[..n] + [s[n]];
      DistinctOnce(s[..n], r);
      if r == s[n] {
        assert r !in s[..n];
      }
    }
  }

  lemma DistinctPermutation(a: seq<Record>, b: seq<Record>)
    requires multiset(a) == multiset(b) && Distinct(b)
    ensures Distinct(a)
  {
    forall i, j | 0 <= i < j < |a| ensures a[i] != a[j] {
      assert a == a[..j] + a[j..];
      if a[i] == a[j] {
        assert a[..j][i] == a[i] && a[j..][0] == a[j];
        assert multiset(a)[a[i]] >= 2;
        DistinctOnce(b, a[i]);
      }
    }
  }

  lemma SubsetFits(a: seq<Record>, b: seq<Record>)
    requires Distinct(a) && forall r :: r in a ==> r in b
    ensures multiset(a) <= multiset(b) && |a| <= |b|
  {
    forall r ensures multiset(a)[r] <= multiset(b)[r] {
      DistinctOnce(a, r);
    }
    assert multiset(b) == multiset(a) + (multiset(b) - multiset(a));
    assert |multiset(a)| == |a| && |multiset(b)| == |b|;
  }

  lemma SameSizeSubset(a: seq<Record>, b: seq<Record>)
    requires Distinct(a) && |a| == |b| && forall r :: r in a ==> r in b
    ensures multiset(a) == multiset(b)
  {
    SubsetFits(a, b);
    assert multiset(b) == multiset(a) + (multiset(b) - multiset(a));
    assert |multiset(b) - multiset(a)| == 0;
  }

  lemma MembersOf(a: seq<Record>, b: seq<Record>)
    requires multiset(a) == multiset(b)
    ensures forall r :: r in a <==> r in b
  {
    forall r ensures r in a <==> r in b {
      assert r in a <==> r in multiset(a);
    }
  }

  lemma RankedMembers(s: seq<Record>)
    requires Distinct(s)
    ensures Distinct(Ranked(s)) && Sorted(Ranked(s)) && forall r :: r in Ranked(s) <==> r in s
  {
    RankedIsSortedPermutation(s);
    DistinctPermutation(Ranked(s), s);
    MembersOf(Ranked(s), s);
  }

  // ---------------------------------------------------------------------------
  // Ranking does not swap ties
  // ---------------------------------------------------------------------------

  lemma InsertKeepsOrder(r: Record, s: seq<Record>, a: Record, b: Record)
    requires Precedes(s, a, b)
    ensures Precedes(Insert(r, s), a, b)
  {
    var i, j :| 0 <= i < j < |s| && s[i] == a && s[j] == b;
    var p := InsertSplits(r, s);
    var t := Insert(r, s);
    var m, n := if i < p then i else i + 1, if j < p then j else j + 1;
    assert t[m] == a && t[n] == b;
  }

  lemma InsertBeforeTies(r: Record, s: seq<Record>, b: Record)
    requires b in s && Tied(r, b)
    ensures Precedes(Insert(r, s), r, b)
  {
    var j :| 0 <= j < |s| && s[j] == b;
    var p := InsertSplits(r, s);
    assert j >= p;
    assert Insert(r, s)[p] == r && Insert(r, s)[j + 1] == b;
  }

  /** Of two tied records the one that comes first stays first. */
  lemma {:induction false} RankedKeepsTies(s: seq<Record>, a: Record, b: Record)
    requires Precedes(s, a, b) && Tied(a, b)
    ensures Precedes(Ranked(s), a, b)
    decreases |s|
  {
    var i, j :| 0 <= i < j < |s| && s[i] == a && s[j] == b;
    RankedIsSortedPermutation(s[1..]);
    if i == 0 {
      assert s[1..][j - 1] == b && b in multiset(Ranked(s[1..]));
      InsertBeforeTies(a, Ranked(s[1..]), b);
    } else {
      assert s[1..][i - 1] == a && s[1..][j - 1] == b;
      RankedKeepsTies(s[1..], a, b);
      InsertKeepsOrder(s[0], Ranked(s[1..]), a, b);
    }
  }

  lemma OneOrder(s: seq<Record>, a: Record, b: Record)
    requires Distinct(s) && Precedes(s, a, b)
    ensures !Precedes(s, b, a)
  {
  }

  /** So tied records stand in the ranking as in its input. */
  lemma TiesStandAsGiven(s: seq<Record>, i: nat, j: nat)
    requires Distinct(s) && i < j < |s| && Tied(Ranked(s)[i], Ranked(s)[j])
    ensures Precedes(s, Ranked(s)[i], Ranked(s)[j])
  {
    var t := Ranked(s);
    RankedMembers(s);
    assert t[i] in s && t[j] in s && Precedes(t, t[i], t[j]);
    OneOrder(t, t[i], t[j]);
    EitherOrder(s, t[i], t[j]);
    if Precedes(s, t[j], t[i]) {
      RankedKeepsTies(s, t[j], t[i]);
    }
  }

  lemma EitherOrder(s: seq<Record>, a: Record, b: Record)
    requires a in s && b in s && a != b
    ensures Precedes(s, a, b) || Precedes(s, b, a)
  {
    var m :| 0 <= m < |s| && s[m] == a;
    var n :| 0 <= n < |s| && s[n] == b;
    assert m < n || n < m;
  }

  // ---------------------------------------------------------------------------
  // What is collected
  // ---------------------------------------------------------------------------

  /** Position at which the tier is visited first. */
  function Visit(tiers: seq<string>, t: string): (n: nat)
    ensures n <= |tiers| && (t in tiers ==> n < |tiers| && tiers[n] == t)
  {
    if tiers == [] then 0
    else if t in tiers[..|tiers| - 1] then Visit(tiers[..|tiers| - 1], t)
    else |tiers| - 1
  }

  /** The rows of each tier are together, in the order in which the tiers are visited,
      and each is there once. */
  predicate InVisits(tiers: seq<string>, rows: string -> seq<Record>, s: seq<Record>) {
    Distinct(s) &&
    (forall i :: 0 <= i < |s| ==> s[i].tier in tiers && s[i] in rows(s[i].tier)) &&
    (forall t :: t in tiers ==> forall r :: r in rows(t) ==> r in s) &&
    (forall i, j :: 0 <= i < j < |s| ==> Visit(tiers, s[i].tier) <= Visit(tiers, s[j].tier))
  }

  predicate AreRows(table: map<string, Row>, tiers: seq<string>, rows: string -> seq<Record>) {
    forall t :: t in tiers ==> RowsOfTier(table, t, rows(t))
  }

  lemma VisitsSnoc(tiers: seq<string>, t: string)
    ensures forall x :: x in tiers ==> Visit(tiers + [t], x) == Visit(tiers, x)
    ensures t !in tiers ==> Visit(tiers + [t], t) == |tiers|
  {
    assert (tiers + [t])[..|tiers|] == tiers;
  }

  lemma OneMoreTier(table: map<string, Row>, tiers: seq<string>, rows: string -> seq<Record>, s: seq<Record>, t: string)
    requires InVisits(tiers, rows, s) && RowsOfTier(table, t, rows(t)) && t !in tiers
    ensures InVisits(tiers + [t], rows, s + rows(t))
  {
    VisitsSnoc(tiers, t);
    var all := s + rows(t);
    forall i, j | 0 <= i < j < |all|
      ensures all[i] != all[j] && Visit(tiers + [t], all[i].tier) <= Visit(tiers + [t], all[j].tier)
    {
      if j < |s| {
        assert s[i] != s[j];
      } else if i < |s| {
        assert s[i].tier in tiers && rows(t)[j - |s|].tier == t;
      } else {
        assert rows(t)[i - |s|].id != rows(t)[j - |s|].id;
      }
    }
    forall i | 0 <= i < |all| ensures all[i].tier in tiers + [t] && all[i] in rows(all[i].tier) {
      if i >= |s| {
        assert all[i] == rows(t)[i - |s|];
      }
    }
  }

  lemma SameTierAgain(tiers: seq<string>, rows: string -> seq<Record>, s: seq<Record>, t: string)
    requires InVisits(tiers, rows, s) && t in tiers
    ensures InVisits(tiers + [t], rows, s)
  {
    VisitsSnoc(tiers, t);
  }

  lemma {:induction false} CollectedInVisits(table: map<string, Row>, tiers: seq<string>, rows: string -> seq<Record>)
    requires AreRows(table, tiers, rows)
    ensures InVisits(tiers, rows, Collected(tiers, rows))
    decreases |tiers|
  {
    if tiers != [] {
      var n := |tiers| - 1;
      var init, t := tiers[..n], tiers[n];
      assert tiers == init + [t];
      CollectedInVisits(table, init, rows);
      CollectedHolds(table, init, rows);
      CollectTier(table, init, rows, t);
      if t in init {
        SameTierAgain(init, rows, Collected(init, rows), t);
        assert Collected(init, rows) + [] == Collected(init, rows);
      } else {
        OneMoreTier(table, init, rows, Collected(init, rows), t);
      }
    }
  }

  /** Tied records stand in the ranking in the order of their tiers. */
  lemma TiesInVisits(tiers: seq<string>, rows: string -> seq<Record>, s: seq<Record>, i: nat, j: nat)
    requires InVisits(tiers, rows, s) && i < j < |s| && Tied(Ranked(s)[i], Ranked(s)[j])
    ensures Visit(tiers, Ranked(s)[i].tier) <= Visit(tiers, Ranked(s)[j].tier)
  {
    TiesStandAsGiven(s, i, j);
  }

  // ---------------------------------------------------------------------------
  // What the database's cut keeps
  // ---------------------------------------------------------------------------

  lemma CutIsOfTier(table: map<string, Row>, t: string, o: Order, answer: seq<Record>, rows: seq<Record>, k: nat)
    requires RowsOfTier(table, t, rows) && TopBy(o, answer, rows, k)
    ensures RowsOfTier(table, t, answer) && forall r :: r in answer ==> r in rows
  {
    var s :| IsArrangement(o, s, rows) && answer == Cut(s, k);
    MembersOf(s, rows);
    assert Distinct(rows);
    DistinctPermutation(s, rows);
    forall i | 0 <= i < |answer|
      ensures answer[i] in rows && answer[i].id != "" && answer[i].id in table && table[answer[i].id].record == answer[i] &&
              answer[i].tier == t
    {
      assert answer[i] == s[i] && s[i] in rows;
    }
    forall i, j | 0 <= i < j < |answer| ensures answer[i].id != answer[j].id {
      assert answer[i] == s[i] && answer[j] == s[j];
    }
  }

  lemma SecureIsKept(o: Order, answer: seq<Record>, rows: seq<Record>, k: nat, r: Record)
    requires TopBy(o, answer, rows, k) && r in rows && CountAbove(o, rows, Key(o, r)) <= k
    ensures r in answer
  {
    var s :| IsArrangement(o, s, rows) && answer == Cut(s, k);
    MembersOf(s, rows);
    var i :| 0 <= i < |s| && s[i] == r;
    CountAbovePermutation(o, s, rows, Key(o, r));
    CountLocates(o, s, Key(o, r), i);
    assert answer[i] == r;
  }

  // ---------------------------------------------------------------------------
  // Exactness is enough
  // ---------------------------------------------------------------------------

  lemma TiedBetween(s: seq<Record>, i: nat, m: nat, j: nat)
    requires Sorted(s) && i <= m <= j < |s| && Tied(s[i], s[j])
    ensures Tied(s[i], s[m]) && Tied(s[m], s[j])
  {
    assert i < m ==> !Before(s[m], s[i]);
    assert m < j ==> !Before(s[j], s[m]);
  }

  /** A ranking in which tied records stand in the order of their tiers. */
  predicate RankedByVisits(tiers: seq<string>, s: seq<Record>) {
    Sorted(s) && (forall i :: 0 <= i < |s| ==> s[i].tier in tiers) &&
    (forall i, j :: 0 <= i < j < |s| && Tied(s[i], s[j]) ==> Visit(tiers, s[i].tier) <= Visit(tiers, s[j].tier))
  }

  lemma CollectedIsRankedByVisits(tiers: seq<string>, rows: string -> seq<Record>, s: seq<Record>)
    requires InVisits(tiers, rows, s)
    ensures RankedByVisits(tiers, Ranked(s))
  {
    var ranked := Ranked(s);
    RankedMembers(s);
    forall i | 0 <= i < |ranked| ensures ranked[i].tier in tiers {
      assert ranked[i] in s;
    }
    forall i, j | 0 <= i < j < |ranked| && Tied(ranked[i], ranked[j])
      ensures Visit(tiers, ranked[i].tier) <= Visit(tiers, ranked[j].tier)
    {
      TiesInVisits(tiers, rows, s, i, j);
    }
  }

  lemma VisitsMeet(tiers: seq<string>, t: string, u: string)
    requires t in tiers && u in tiers && Visit(tiers, t) == Visit(tiers, u)
    ensures t == u
  {
  }

  lemma TieOfOneTier(tiers: seq<string>, full: seq<Record>, k: nat, i: nat, j: nat)
    requires RankedByVisits(tiers, full) && i < k <= j < |full|
    requires Tied(full[i], full[j]) && full[i].tier == full[j].tier
    ensures CutsTie(full, k)
  {
    TiedBetween(full, i, k - 1, j);
    TiedBetween(full, i, k, j);
    var v := Visit(tiers, full[i].tier);
    assert v <= Visit(tiers, full[k - 1].tier) <= Visit(tiers, full[k].tier) <= v;
    VisitsMeet(tiers, full[k - 1].tier, full[k].tier);
  }

  /** Two records that two rankings order differently tie, and are of one tier. */
  lemma SwappedAreTied(tiers: seq<string>, full: seq<Record>, got: seq<Record>, i: nat, j: nat, q: nat, p: nat)
    requires RankedByVisits(tiers, full) && RankedByVisits(tiers, got)
    requires i < j < |full| && q < p < |got| && full[i] == got[p] && full[j] == got[q]
    ensures Tied(full[i], full[j]) && full[i].tier == full[j].tier
  {
    assert !Before(full[j], full[i]) && !Before(got[p], got[q]);
    VisitsMeet(tiers, full[i].tier, full[j].tier);
  }

  lemma PositionOf(s: seq<Record>, k: nat, r: Record) returns (i: nat)
    requires k <= |s| && r in s && r !in s[..k]
    ensures k <= i < |s| && s[i] == r
  {
    assert s == s[..k] + s[k..];
    var d :| 0 <= d < |s| - k && s[k..][d] == r;
    i := k + d;
  }

  /** Two sets of equal size are the same or each has something of its own. */
  lemma SameOrDifferent(a: seq<Record>, b: seq<Record>)
    requires Distinct(a) && Distinct(b) && |a| == |b| && multiset(a) != multiset(b)
    ensures (exists i :: 0 <= i < |a| && a[i] !in b) && (exists i :: 0 <= i < |b| && b[i] !in a)
  {
    if forall r :: r in a ==> r in b {
      SameSizeSubset(a, b);
    }
    if forall r :: r in b ==> r in a {
      SameSizeSubset(b, a);
    }
  }

  lemma TopOfLonger(tiers: seq<string>, rows: string -> seq<Record>, all: seq<Record>,
                    answer: string -> seq<Record>, some: seq<Record>, k: nat)
    requires InVisits(tiers, rows, all) && InVisits(tiers, answer, some) && forall r :: r in some ==> r in all
    requires k <= |some| && k <= |all|
    requires forall r :: r in Ranked(all)[..k] ==> r in some
    requires !CutsTie(Ranked(all), k)
    ensures multiset(Ranked(some)[..k]) == multiset(Ranked(all)[..k])
  {
    var full, got := Ranked(all), Ranked(some);
    RankedMembers(all);
    RankedMembers(some);
    if multiset(got[..k]) != multiset(full[..k]) {
      SameOrDifferent(full[..k], got[..k]);
      var i :| 0 <= i < k && full[..k][i] !in got[..k];
      var q :| 0 <= q < k && got[..k][q] !in full[..k];
      assert full[..k][i] == full[i] && got[..k][q] == got[q];
      assert full[i] in full[..k] && got[q] in some;
      var p := PositionOf(got, k, full[i]);
      var j := PositionOf(full, k, got[q]);
      CollectedIsRankedByVisits(tiers, rows, all);
      CollectedIsRankedByVisits(tiers, answer, some);
      SwappedAreTied(tiers, full, got, i, j, q, p);
      TieOfOneTier(tiers, full, k, i, j);
    }
  }

  lemma CollectedTopIsTop(tiers: seq<string>, rows: string -> seq<Record>, all: seq<Record>,
                          answer: string -> seq<Record>, some: seq<Record>, k: nat)
    requires InVisits(tiers, rows, all) && InVisits(tiers, answer, some) && forall r :: r in some ==> r in all
    requires forall r :: r in Cut(Ranked(all), k) ==> r in some
    requires !CutsTie(Ranked(all), k)
    ensures multiset(Cut(Ranked(some), k)) == multiset(Cut(Ranked(all), k))
  {
    TopFits(all, some, k);
    TopOfLonger(tiers, rows, all, answer, some, Least(k, |all|));
  }

  lemma TopFits(all: seq<Record>, some: seq<Record>, k: nat)
    requires Distinct(all) && Distinct(some) && forall r :: r in some ==> r in all
    requires forall r :: r in Cut(Ranked(all), k) ==> r in some
    ensures Least(k, |all|) <= |some| <= |all|
    ensures Cut(Ranked(some), k) == Ranked(some)[..Least(k, |all|)]
  {
    RankedMembers(all);
    DistinctCut(Ranked(all), k);
    SubsetLength(Cut(Ranked(all), k), some);
    SubsetLength(some, all);
  }

  lemma DistinctCut(s: seq<Record>, k: nat)
    requires Distinct(s)
    ensures Distinct(Cut(s, k)) && |Cut(s, k)| == Least(k, |s|)
  {
  }

  lemma SubsetLength(a: seq<Record>, b: seq<Record>)
    requires Distinct(a) && forall r :: r in a ==> r in b
    ensures |a| <= |b|
  {
    SubsetFits(a, b);
  }

  lemma AnswersAreWithin(table: map<string, Row>, tiers: seq<string>, sources: string -> Source,
                         answer: string -> seq<Record>, k: nat)
    requires AreRows(table, tiers, Rows(sources)) && Cuts(tiers, sources, answer, k)
    ensures InVisits(tiers, Rows(sources), Collected(tiers, Rows(sources)))
    ensures InVisits(tiers, answer, Collected(tiers, answer))
    ensures forall r :: r in Collected(tiers, answer) ==> r in Collected(tiers, Rows(sources))
  {
    var rows := Rows(sources);
    forall t | t in tiers
      ensures RowsOfTier(table, t, answer(t)) && forall r :: r in answer(t) ==> r in rows(t)
    {
      CutIsOfTier(table, t, sources(t).order, answer(t), rows(t), k);
    }
    CollectedInVisits(table, tiers, rows);
    CollectedInVisits(table, tiers, answer);
    forall r | r in Collected(tiers, answer) ensures r in Collected(tiers, rows) {
      assert r.tier in tiers && r in answer(r.tier);
    }
  }

  lemma ExactIsEnough(table: map<string, Row>, tiers: seq<string>, sources: string -> Source,
                      answer: string -> seq<Record>, k: nat)
    requires AreRows(table, tiers, Rows(sources)) && Cuts(tiers, sources, answer, k) && Exact(tiers, sources, k)
    ensures multiset(TopRanked(tiers, answer, k)) == multiset(TopRanked(tiers, Rows(sources), k))
  {
    var rows := Rows(sources);
    AnswersAreWithin(table, tiers, sources, answer, k);
    var all, some := Collected(tiers, rows), Collected(tiers, answer);
    RankedMembers(all);
    forall r | r in Cut(Ranked(all), k) ensures r in some {
      assert r in Ranked(all) && r in all && r.tier in tiers && r in rows(r.tier);
      SecureIsKept(sources(r.tier).order, answer(r.tier), rows(r.tier), k, r);
    }
    CollectedTopIsTop(tiers, rows, all, answer, some, k);
  }

  // ---------------------------------------------------------------------------
  // Exactness is needed
  // ---------------------------------------------------------------------------

  /** e stays ahead of r when r is placed before, or behind, the records with its key. */
  predicate Ahead(o: Order, e: Record, r: Record, behind: bool) {
    Key(o, e) > Key(o, r) || (behind && Key(o, e) == Key(o, r))
  }

  function Place(o: Order, r: Record, s: seq<Record>, behind: bool): seq<Record> {
    if s != [] && Ahead(o, s[0], r, behind) then [s[0]] + Place(o, r, s[1..], behind) else [r] + s
  }

  function Split(s: seq<Record>, p: nat, r: Record): (t: seq<Record>)
    requires p <= |s|
    ensures |t| == |s| + 1
    ensures forall m :: 0 <= m < |t| ==> t[m] == if m < p then s[m] else if m == p then r else s[m - 1]
  {
    s[..p] + [r] + s[p..]
  }

  lemma {:induction false} PlaceSplits(o: Order, r: Record, s: seq<Record>, behind: bool) returns (p: nat)
    requires Descending(o, s)
    ensures p <= |s| && Place(o, r, s, behind) == Split(s, p, r)
    ensures forall i :: 0 <= i < |s| ==> (Ahead(o, s[i], r, behind) <==> i < p)
  {
    if s != [] && Ahead(o, s[0], r, behind) {
      var q := PlaceSplits(o, r, s[1..], behind);
      p := q + 1;
      assert [s[0]] + Split(s[1..], q, r) == Split(s, p, r);
      forall i | 0 <= i < |s| ensures Ahead(o, s[i], r, behind) <==> i < p {
        if i > 0 {
          assert s[i] == s[1..][i - 1];
        }
      }
    } else {
      p := 0;
    }
  }

  /** An order the database may choose in which x comes behind all records with an
      equal key. */
  function Against(o: Order, s: seq<Record>, x: Record): seq<Record> {
    if s == [] then [] else Place(o, s[0], Against(o, s[1..], x), s[0] == x)
  }

  predicate LastOfEqual(o: Order, s: seq<Record>, x: Record) {
    forall i, j :: 0 <= i < j < |s| && s[i] == x ==> Key(o, s[j]) < Key(o, x)
  }

  lemma PlaceDescends(o: Order, r: Record, s: seq<Record>, behind: bool)
    requires Descending(o, s)
    ensures Descending(o, Place(o, r, s, behind))
  {
    var p := PlaceSplits(o, r, s, behind);
    var t := Split(s, p, r);
    forall i, j | 0 <= i < j < |t| ensures Key(o, t[i]) >= Key(o, t[j]) {
      assert i < p ==> Ahead(o, s[i], r, behind);
      assert j > p ==> !Ahead(o, s[j - 1], r, behind);
    }
  }

  lemma SplitElements(s: seq<Record>, p: nat, r: Record)
    requires p <= |s|
    ensures multiset(Split(s, p, r)) == multiset{r} + multiset(s)
  {
    assert s == s[..p] + s[p..];
    assert Split(s, p, r) == s[..p] + [r] + s[p..];
  }

  lemma PlaceKeepsElements(o: Order, r: Record, s: seq<Record>, behind: bool)
    requires Descending(o, s)
    ensures multiset(Place(o, r, s, behind)) == multiset{r} + multiset(s)
  {
    var p := PlaceSplits(o, r, s, behind);
    SplitElements(s, p, r);
  }

  lemma PlacedIsLast(o: Order, s: seq<Record>, x: Record)
    requires Descending(o, s) && x !in s
    ensures LastOfEqual(o, Place(o, x, s, true), x)
  {
    var p := PlaceSplits(o, x, s, true);
    var t := Split(s, p, x);
    forall i, j | 0 <= i < j < |t| && t[i] == x ensures Key(o, t[j]) < Key(o, x) {
      assert i == p;
      assert !Ahead(o, s[j - 1], x, true);
    }
  }

  lemma PlaceKeepsLast(o: Order, r: Record, s: seq<Record>, x: Record)
    requires Descending(o, s) && r != x && LastOfEqual(o, s, x)
    ensures LastOfEqual(o, Place(o, r, s, false), x)
  {
    var p := PlaceSplits(o, r, s, false);
    var t := Split(s, p, r);
    forall i, j | 0 <= i < j < |t| && t[i] == x ensures Key(o, t[j]) < Key(o, x) {
      if i < p {
        assert Ahead(o, s[i], r, false);
      }
    }
  }

  lemma {:induction false} AgainstArranges(o: Order, s: seq<Record>, x: Record)
    requires Distinct(s)
    ensures IsArrangement(o, Against(o, s, x), s) && LastOfEqual(o, Against(o, s, x), x)
  {
    if s != [] {
      var t := Against(o, s[1..], x);
      AgainstArranges(o, s[1..], x);
      assert s == [s[0]] + s[1..];
      MembersOf(t, s[1..]);
      PlaceDescends(o, s[0], t, s[0] == x);
      PlaceKeepsElements(o, s[0], t, s[0] == x);
      if s[0] == x {
        PlacedIsLast(o, t, x);
      } else {
        PlaceKeepsLast(o, s[0], t, x);
      }
    }
  }

  lemma AgainstIsCut(o: Order, s: seq<Record>, x: Record, k: nat)
    requires Distinct(s)
    ensures TopBy(o, Cut(Against(o, s, x), k), s, k)
  {
    AgainstArranges(o, s, x);
  }

  /** An insecure record is cut off. */
  lemma AgainstDrops(o: Order, s: seq<Record>, x: Record, k: nat)
    requires Distinct(s) && CountAbove(o, s, Key(o, x)) > k
    ensures x !in Cut(Against(o, s, x), k)
  {
    var a := Against(o, s, x);
    AgainstArranges(o, s, x);
    CountAbovePermutation(o, a, s, Key(o, x));
    if x in Cut(a, k) {
      var i :| 0 <= i < |Cut(a, k)| && Cut(a, k)[i] == x;
      assert a[i] == x && i < k;
      if i + 1 < |a| {
        CountLocates(o, a, Key(o, x), i + 1);
      }
    }
  }

  /** A record that is not cut off comes behind all it ties with. */
  lemma AgainstIsBehind(o: Order, s: seq<Record>, x: Record, k: nat, y: Record)
    requires Distinct(s) && x in Cut(Against(o, s, x), k) && y in s && y != x && Key(o, y) == Key(o, x)
    ensures Precedes(Cut(Against(o, s, x), k), y, x)
  {
    var a := Against(o, s, x);
    AgainstArranges(o, s, x);
    MembersOf(a, s);
    LastIsBehind(o, a, x, y, |Cut(a, k)|);
  }

  lemma LastIsBehind(o: Order, a: seq<Record>, x: Record, y: Record, n: nat)
    requires LastOfEqual(o, a, x) && n <= |a| && x in a[..n] && y in a && y != x && Key(o, y) == Key(o, x)
    ensures Precedes(a[..n], y, x)
  {
    var i :| 0 <= i < n && a[..n][i] == x;
    var j :| 0 <= j < |a| && a[j] == y;
    assert a[i] == x && j < i;
    assert a[..n][j] == y;
  }

  lemma PrecedesLeft(s: seq<Record>, t: seq<Record>, a: Record, b: Record)
    requires Precedes(s, a, b)
    ensures Precedes(s + t, a, b)
  {
    var i, j :| 0 <= i < j < |s| && s[i] == a && s[j] == b;
    assert (s + t)[i] == a && (s + t)[j] == b;
  }

  lemma PrecedesRight(s: seq<Record>, t: seq<Record>, a: Record, b: Record)
    requires Precedes(t, a, b)
    ensures Precedes(s + t, a, b)
  {
    var i, j :| 0 <= i < j < |t| && t[i] == a && t[j] == b;
    assert (s + t)[|s| + i] == a && (s + t)[|s| + j] == b;
  }

  lemma {:induction false} CollectedKeepsOrder(table: map<string, Row>, tiers: seq<string>, rows: string -> seq<Record>,
                                               t: string, a: Record, b: Record)
    requires AreRows(table, tiers, rows) && t in tiers && Precedes(rows(t), a, b)
    ensures Precedes(Collected(tiers, rows), a, b)
    decreases |tiers|
  {
    var n := |tiers| - 1;
    var init, last := tiers[..n], tiers[n];
    assert tiers == init + [last];
    CollectedHolds(table, init, rows);
    CollectTier(table, init, rows, last);
    var before, added := Collected(init, rows), if last in init then [] else rows(last);
    assert Collected(tiers, rows) == before + added;
    if t in init {
      CollectedKeepsOrder(table, init, rows, t, a, b);
      PrecedesLeft(before, added, a, b);
    } else {
      assert t == last && added == rows(t);
      PrecedesRight(before, added, a, b);
    }
  }

  function Spiteful(sources: string -> Source, x: Record, k: nat): string -> seq<Record> {
    t => Cut(Against(sources(t).order, sources(t).rows, x), k)
  }

  lemma SpitefulCuts(table: map<string, Row>, tiers: seq<string>, sources: string -> Source, x: Record, k: nat)
    requires AreRows(table, tiers, Rows(sources))
    ensures Cuts(tiers, sources, Spiteful(sources, x, k), k) && AreRows(table, tiers, Spiteful(sources, x, k))
  {
    var answer := Spiteful(sources, x, k);
    forall t | t in tiers ensures TopBy(sources(t).order, answer(t), sources(t).rows, k) && RowsOfTier(table, t, answer(t)) {
      assert Rows(sources)(t) == sources(t).rows && Distinct(sources(t).rows);
      AgainstIsCut(sources(t).order, sources(t).rows, x, k);
      CutIsOfTier(table, t, sources(t).order, answer(t), sources(t).rows, k);
    }
  }

  /** A member of the full result that some answer misses is missing from the result. */
  lemma MissedIsLost(table: map<string, Row>, tiers: seq<string>, answer: string -> seq<Record>, x: Record, k: nat)
    requires AreRows(table, tiers, answer) && x !in answer(x.tier)
    ensures x !in TopRanked(tiers, answer, k)
  {
    var some := Collected(tiers, answer);
    CollectedInVisits(table, tiers, answer);
    RankedMembers(some);
    assert forall r :: r in TopRanked(tiers, answer, k) ==> r in Ranked(some);
  }

  /** If the full result ends with x, and y would be next, then an answer that has y
      before x gives another result. */
  lemma SplitTieIsLost(s: seq<Record>, x: Record, y: Record, k: nat)
    requires Distinct(s) && Precedes(s, y, x) && Tied(x, y) && x in Cut(Ranked(s), k)
    ensures y in Cut(Ranked(s), k)
  {
    RankedKeepsTies(s, y, x);
    RankedMembers(s);
    var ranked := Ranked(s);
    var j, i :| 0 <= j < i < |ranked| && ranked[j] == y && ranked[i] == x;
    var m :| 0 <= m < |Cut(ranked, k)| && Cut(ranked, k)[m] == x;
    assert m == i;
    assert Cut(ranked, k)[j] == y;
  }

  /** The record of the full result that can be lost when recall is not exact. */
  lemma ExactIsNeeded(table: map<string, Row>, tiers: seq<string>, sources: string -> Source, k: nat) returns (x: Record)
    requires AreRows(table, tiers, Rows(sources)) && !Exact(tiers, sources, k)
    ensures multiset(TopRanked(tiers, Spiteful(sources, x, k), k)) != multiset(TopRanked(tiers, Rows(sources), k))
  {
    var rows := Rows(sources);
    var ranked := Ranked(Collected(tiers, rows));
    CollectedInVisits(table, tiers, rows);
    RankedMembers(Collected(tiers, rows));
    if r :| r in Cut(ranked, k) && !Secure(sources(r.tier), r, k) {
      x := r;
      InsecureIsLost(table, tiers, sources, k, x);
    } else {
      x := ranked[k - 1];
      CutTieIsLost(table, tiers, sources, k);
    }
  }

  lemma InsecureIsLost(table: map<string, Row>, tiers: seq<string>, sources: string -> Source, k: nat, x: Record)
    requires AreRows(table, tiers, Rows(sources))
    requires x in TopRanked(tiers, Rows(sources), k) && !Secure(sources(x.tier), x, k)
    ensures multiset(TopRanked(tiers, Spiteful(sources, x, k), k)) != multiset(TopRanked(tiers, Rows(sources), k))
  {
    var rows := Rows(sources);
    CollectedInVisits(table, tiers, rows);
    RankedMembers(Collected(tiers, rows));
    assert x in Ranked(Collected(tiers, rows)) && x.tier in tiers;
    var src := sources(x.tier);
    assert rows(x.tier) == src.rows && Distinct(src.rows);
    AgainstDrops(src.order, src.rows, x, k);
    SpitefulCuts(table, tiers, sources, x, k);
    MissedIsLost(table, tiers, Spiteful(sources, x, k), x, k);
    NotSame(TopRanked(tiers, Spiteful(sources, x, k), k), TopRanked(tiers, rows, k), x);
  }

  lemma NotSame(a: seq<Record>, b: seq<Record>, r: Record)
    requires (r in a) != (r in b)
    ensures multiset(a) != multiset(b)
  {
    if multiset(a) == multiset(b) {
      MembersOf(a, b);
    }
  }

  lemma CutTieIsLost(table: map<string, Row>, tiers: seq<string>, sources: string -> Source, k: nat)
    requires AreRows(table, tiers, Rows(sources)) && CutsTie(Ranked(Collected(tiers, Rows(sources))), k)
    ensures var x := Ranked(Collected(tiers, Rows(sources)))[k - 1];
            multiset(TopRanked(tiers, Spiteful(sources, x, k), k)) != multiset(TopRanked(tiers, Rows(sources), k))
  {
    var rows := Rows(sources);
    var all := Collected(tiers, rows);
    var x, y := Ranked(all)[k - 1], Ranked(all)[k];
    CollectedInVisits(table, tiers, rows);
    RankedMembers(all);
    assert x in all && y in all;
    TopEnds(Ranked(all), k);
    SpitefulCuts(table, tiers, sources, x, k);
    var got := TopRanked(tiers, Spiteful(sources, x, k), k);
    if x in got {
      TieIsReversed(table, tiers, sources, k, x, y);
      NotSame(got, Cut(Ranked(all), k), y);
    } else {
      NotSame(got, Cut(Ranked(all), k), x);
    }
  }

  lemma TieIsReversed(table: map<string, Row>, tiers: seq<string>, sources: string -> Source, k: nat, x: Record, y: Record)
    requires AreRows(table, tiers, Rows(sources)) && AreRows(table, tiers, Spiteful(sources, x, k))
    requires x.tier in tiers && y in sources(x.tier).rows && y != x && Tied(x, y)
    requires x in TopRanked(tiers, Spiteful(sources, x, k), k)
    ensures y in TopRanked(tiers, Spiteful(sources, x, k), k)
  {
    var src, answer := sources(x.tier), Spiteful(sources, x, k);
    assert Rows(sources)(x.tier) == src.rows && Distinct(src.rows);
    CollectedInVisits(table, tiers, answer);
    RankedMembers(Collected(tiers, answer));
    if x !in answer(x.tier) {
      MissedIsLost(table, tiers, answer, x, k);
    }
    AgainstIsBehind(src.order, src.rows, x, k, y);
    CollectedKeepsOrder(table, tiers, answer, x.tier, y, x);
    SplitTieIsLost(Collected(tiers, answer), x, y, k);
  }

  lemma TopEnds(s: seq<Record>, k: nat)
    requires Distinct(s) && 0 < k < |s|
    ensures s[k - 1] in Cut(s, k) && s[k] !in Cut(s, k)
  {
    assert Cut(s, k)[k - 1] == s[k - 1];
  }

  // ---------------------------------------------------------------------------
  // The theorem
  // ---------------------------------------------------------------------------

  /** What the database may answer for each tier: a cut of the matches by importance, and
      a cut of the tier's rows by creation. */
  ghost predicate Answering(tiers: seq<string>, matching: string -> seq<Record>, all: string -> seq<Record>,
                            db: string -> Answers, k: nat) {
    forall t :: t in tiers ==>
      TopBy(ByImportance, db(t).found, matching(t), k) && TopBy(ByCreation, db(t).listed, all(t), k)
  }

  lemma RetrievedIsCut(matching: seq<Record>, all: seq<Record>, a: Answers, hasQuery: bool, k: nat)
    requires k > 0 && TopBy(ByImportance, a.found, matching, k) && TopBy(ByCreation, a.listed, all, k)
    ensures var src := Drawn(matching, all, hasQuery); TopBy(src.order, Retrieved(a, hasQuery), src.rows, k)
  {
    TopRepresents(a.found, matching, k);
  }

  lemma RetrievalCuts(tiers: seq<string>, matching: string -> seq<Record>, all: string -> seq<Record>,
                      db: string -> Answers, hasQuery: bool, k: nat)
    requires k > 0 && Answering(tiers, matching, all, db, k)
    ensures Cuts(tiers, Sources(matching, all, hasQuery), Retrieval(db, hasQuery), k)
  {
    forall t | t in tiers
      ensures var src := Sources(matching, all, hasQuery)(t); TopBy(src.order, Retrieval(db, hasQuery)(t), src.rows, k)
    {
      RetrievedIsCut(matching(t), all(t), db(t), hasQuery, k);
    }
  }

  function SpitefulDb(matching: string -> seq<Record>, all: string -> seq<Record>, x: Record, k: nat): string -> Answers {
    t => Answers(Cut(Against(ByImportance, matching(t), x), k), Cut(Against(ByCreation, all(t), x), k))
  }

  lemma SpitefulDbAnswers(table: map<string, Row>, tiers: seq<string>, matching: string -> seq<Record>,
                          all: string -> seq<Record>, x: Record, k: nat)
    requires AreRows(table, tiers, matching) && AreRows(table, tiers, all)
    ensures Answering(tiers, matching, all, SpitefulDb(matching, all, x, k), k)
  {
    forall t | t in tiers
      ensures var a := SpitefulDb(matching, all, x, k)(t);
              TopBy(ByImportance, a.found, matching(t), k) && TopBy(ByCreation, a.listed, all(t), k)
    {
      assert RowsOfTier(table, t, matching(t)) && RowsOfTier(table, t, all(t));
      AgainstIsCut(ByImportance, matching(t), x, k);
      AgainstIsCut(ByCreation, all(t), x, k);
    }
  }

  lemma {:induction false} SameCollected(tiers: seq<string>, a: string -> seq<Record>, b: string -> seq<Record>)
    requires forall t :: t in tiers ==> a(t) == b(t)
    ensures Collected(tiers, a) == Collected(tiers, b)
    decreases |tiers|
  {
    if tiers != [] {
      SameCollected(tiers[..|tiers| - 1], a, b);
    }
  }

  lemma SpitefulDbIsSpiteful(table: map<string, Row>, tiers: seq<string>, matching: string -> seq<Record>,
                             all: string -> seq<Record>, hasQuery: bool, x: Record, k: nat)
    requires k > 0 && AreRows(table, tiers, matching)
    ensures TopRanked(tiers, Retrieval(SpitefulDb(matching, all, x, k), hasQuery), k) ==
            TopRanked(tiers, Spiteful(Sources(matching, all, hasQuery), x, k), k)
  {
    var a, b := Retrieval(SpitefulDb(matching, all, x, k), hasQuery), Spiteful(Sources(matching, all, hasQuery), x, k);
    forall t | t in tiers ensures a(t) == b(t) {
      assert RowsOfTier(table, t, matching(t));
      AgainstIsCut(ByImportance, matching(t), x, k);
      TopRepresents(Cut(Against(ByImportance, matching(t), x), k), matching(t), k);
    }
    SameCollected(tiers, a, b);
  }

  /** Recall returns the very records of the full ranking, however the database orders
      ties, if and only if every one of them is secure in its tier and the cut does not
      split a tie of one tier. */
  lemma RecallIsExactIff(table: map<string, Row>, tiers: seq<string>, matching: string -> seq<Record>,
                         all: string -> seq<Record>, hasQuery: bool, k: nat)
    requires k > 0 && AreRows(table, tiers, matching) && AreRows(table, tiers, all)
    ensures var sources := Sources(matching, all, hasQuery);
            Exact(tiers, sources, k) <==>
            forall db: string -> Answers :: Answering(tiers, matching, all, db, k) ==>
              multiset(TopRanked(tiers, Retrieval(db, hasQuery), k)) == multiset(TopRanked(tiers, Rows(sources), k))
  {
    var sources := Sources(matching, all, hasQuery);
    forall t | t in tiers ensures RowsOfTier(table, t, Rows(sources)(t)) {
      assert RowsOfTier(table, t, matching(t)) && RowsOfTier(table, t, all(t));
    }
    if Exact(tiers, sources, k) {
      forall db: string -> Answers | Answering(tiers, matching, all, db, k)
        ensures multiset(TopRanked(tiers, Retrieval(db, hasQuery), k)) == multiset(TopRanked(tiers, Rows(sources), k))
      {
        RetrievalCuts(tiers, matching, all, db, hasQuery, k);
        ExactIsEnough(table, tiers, sources, Retrieval(db, hasQuery), k);
      }
    } else {
      var x := ExactIsNeeded(table, tiers, sources, k);
      SpitefulDbAnswers(table, tiers, matching, all, x, k);
      SpitefulDbIsSpiteful(table, tiers, matching, all, hasQuery, x, k);
    }
  }

  /** For the matches of one tier: exactly when they fit, or the first one to be left out
      is less important than the last one returned. */
  lemma OneTierIsExactIff(table: map<string, Row>, t: string, matching: seq<Record>, k: nat)
    requires k > 0 && RowsOfTier(table, t, matching)
    ensures var ranked := Ranked(matching);
            (|matching| <= k || ranked[k - 1].importance > ranked[k].importance) <==>
            forall found :: TopBy(ByImportance, found, matching, k) ==> multiset(found) == multiset(Cut(ranked, k))
  {
    var ranked := Ranked(matching);
    assert Distinct(matching);
    RankedMembers(matching);
    if |matching| <= k || ranked[k - 1].importance > ranked[k].importance {
      forall found | TopBy(ByImportance, found, matching, k) ensures multiset(found) == multiset(Cut(ranked, k)) {
        ClearCutIsKept(matching, found, k);
      }
    } else {
      var x, found := ranked[k - 1], Cut(Against(ByImportance, matching, ranked[k - 1]), k);
      AgainstIsCut(ByImportance, matching, x, k);
      TopEnds(ranked, k);
      if x in found {
        RankedCounts(matching, 0.0);
        AgainstIsBehind(ByImportance, matching, x, k, ranked[k]);
        NotSame(found, Cut(ranked, k), ranked[k]);
      } else {
        NotSame(found, Cut(ranked, k), x);
      }
    }
  }

  lemma ClearCutIsKept(matching: seq<Record>, found: seq<Record>, k: nat)
    requires k > 0 && Distinct(matching) && TopBy(ByImportance, found, matching, k)
    requires |matching| <= k || Ranked(matching)[k - 1].importance > Ranked(matching)[k].importance
    ensures multiset(found) == multiset(Cut(Ranked(matching), k))
  {
    var ranked := Ranked(matching);
    RankedMembers(matching);
    DistinctCut(ranked, k);
    TopRepresents(found, matching, k);
    forall i | 0 <= i < |Cut(ranked, k)| ensures Cut(ranked, k)[i] in found {
      ClearIsSecure(matching, k, i);
      SecureIsKept(ByImportance, found, matching, k, ranked[i]);
    }
    SameSizeSubset(Cut(ranked, k), found);
  }

  lemma ClearIsSecure(matching: seq<Record>, k: nat, i: nat)
    requires i < k && i < |matching|
    requires |matching| <= k || Ranked(matching)[k - 1].importance > Ranked(matching)[k].importance
    ensures CountAbove(ByImportance, matching, Ranked(matching)[i].importance) <= k
  {
    var ranked := Ranked(matching);
    RankedCounts(matching, ranked[i].importance);
    if k < |matching| {
      assert i < k - 1 ==> Key(ByImportance, ranked[i]) >= Key(ByImportance, ranked[k - 1]);
      CountLocates(ByImportance, ranked, ranked[i].importance, k);
    }
  }

  /** If every tier fits within the limit, nothing is lost before the final cut. */
  lemma FittingTiersLoseNothing(table: map<string, Row>, tiers: seq<string>, matching: string -> seq<Record>,
                                all: string -> seq<Record>, hasQuery: bool, k: nat, db: string -> Answers)
    requires k > 0 && AreRows(table, tiers, matching) && AreRows(table, tiers, all)
    requires forall t :: t in tiers ==> |Sources(matching, all, hasQuery)(t).rows| <= k
    requires Answering(tiers, matching, all, db, k)
    ensures multiset(Collected(tiers, Retrieval(db, hasQuery))) ==
            multiset(Collected(tiers, Rows(Sources(matching, all, hasQuery))))
  {
    var sources, answer := Sources(matching, all, hasQuery), Retrieval(db, hasQuery);
    forall t | t in tiers ensures RowsOfTier(table, t, Rows(sources)(t)) {
      assert RowsOfTier(table, t, matching(t)) && RowsOfTier(table, t, all(t));
    }
    RetrievalCuts(tiers, matching, all, db, hasQuery, k);
    AnswersAreWithin(table, tiers, sources, answer, k);
    var full, some := Collected(tiers, Rows(sources)), Collected(tiers, answer);
    forall r | r in full ensures r in some {
      assert r.tier in tiers && r in Rows(sources)(r.tier);
      SecureIsKept(sources(r.tier).order, answer(r.tier), sources(r.tier).rows, k, r);
    }
    SubsetFits(full, some);
    SubsetFits(some, full);
  }

  /** A listing is cut by creation: a newer record hides an older, more important one. */
  lemma OlderIsHidden(x: Record, y: Record)
    requires x.importance > y.importance && x.createdAt < y.createdAt
    ensures TopBy(ByCreation, [y], [x, y], 1)
    ensures Cut(Ranked([y]), 1) == [y] && Cut(Ranked([x, y]), 1) == [x]
    ensures !Secure(Source(ByCreation, [x, y]), x, 1)
  {
    assert IsArrangement(ByCreation, [y, x], [x, y]) && Cut([y, x], 1) == [y];
    assert [x, y][1..] == [y] && [y][1..] == [];
    assert Ranked([y]) == [y] && !Before(y, x);
    assert Ranked([x, y]) == [x] + [y];
    assert CountAbove(ByCreation, [y], Key(ByCreation, x)) == 1;
  }
}
