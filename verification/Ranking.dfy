/** The order in which records compete for space: importance, then last update, then
    creation, all descending; ties keep their input order. */
module Ranking {
  import opened BraincaseStore

  predicate Before(a: Record, b: Record) {
    a.importance > b.importance ||
    (a.importance == b.importance &&
     (a.updatedAt > b.updatedAt || (a.updatedAt == b.updatedAt && a.createdAt > b.createdAt)))
  }

  predicate Tied(a: Record, b: Record) {
    a.importance == b.importance && a.updatedAt == b.updatedAt && a.createdAt == b.createdAt
  }

  predicate Sorted(s: seq<Record>) {
    forall i, j :: 0 <= i < j < |s| ==> !Before(s[j], s[i])
  }

  function Insert(r: Record, s: seq<Record>): (t: seq<Record>)
    ensures |t| == |s| + 1
  {
    if s != [] && Before(s[0], r) then [s[0]] + Insert(r, s[1..]) else [r] + s
  }

  /** Python's stable sort by the ranking key. */
  function Ranked(s: seq<Record>): (t: seq<Record>)
    ensures |t| == |s|
  {
    if s == [] then [] else Insert(s[0], Ranked(s[1..]))
  }

  lemma {:induction false} InsertKeepsElements(r: Record, s: seq<Record>)
    ensures multiset(Insert(r, s)) == multiset{r} + multiset(s)
  {
    if s != [] && Before(s[0], r) {
      InsertKeepsElements(r, s[1..]);
      assert s == [s[0]] + s[1..];
    }
  }

  /** Where the record goes: behind the ones that come before it. */
  lemma {:induction false} InsertSplits(r: Record, s: seq<Record>) returns (p: nat)
    ensures p <= |s| && Insert(r, s) == s[..p] + [r] + s[p..]
    ensures forall i :: 0 <= i < p ==> Before(s[i], r)
    ensures p < |s| ==> !Before(s[p], r)
  {
    if s != [] && Before(s[0], r) {
      var q := InsertSplits(r, s[1..]);
      p := q + 1;
      assert [s[0]] + (s[1..][..q] + [r] + s[1..][q..]) == s[..p] + [r] + s[p..];
    } else {
      p := 0;
    }
  }

  lemma InsertSorted(r: Record, s: seq<Record>)
    requires Sorted(s)
    ensures Sorted(Insert(r, s))
  {
    var p := InsertSplits(r, s);
    var t := Insert(r, s);
    forall i, j | 0 <= i < j < |t| ensures !Before(t[j], t[i]) {
      if i == p {
        assert t[j] == s[j - 1] && (j - 1 > p ==> !Before(s[j - 1], s[p]));
      } else if j == p {
        assert Before(t[i], r);
      }
    }
  }

  lemma {:induction false} RankedIsSortedPermutation(s: seq<Record>)
    ensures Sorted(Ranked(s)) && multiset(Ranked(s)) == multiset(s)
  {
    if s != [] {
      RankedIsSortedPermutation(s[1..]);
      InsertSorted(s[0], Ranked(s[1..]));
      InsertKeepsElements(s[0], Ranked(s[1..]));
      assert s == [s[0]] + s[1..];
    }
  }

  function TiedWith(s: seq<Record>, key: Record): seq<Record> {
    if s == [] then []
    else (if Tied(s[0], key) then [s[0]] else []) + TiedWith(s[1..], key)
  }

  lemma {:induction false} InsertIsStable(r: Record, s: seq<Record>, key: Record)
    ensures TiedWith(Insert(r, s), key) == (if Tied(r, key) then [r] else []) + TiedWith(s, key)
  {
    if s != [] && Before(s[0], r) {
      InsertIsStable(r, s[1..], key);
      assert Insert(r, s)[1..] == Insert(r, s[1..]);
      assert !(Tied(s[0], key) && Tied(r, key));
    } else {
      assert ([r] + s)[1..] == s;
    }
  }

  /** Records with equal keys stay in their input order. */
  lemma {:induction false} RankedIsStable(s: seq<Record>, key: Record)
    ensures TiedWith(Ranked(s), key) == TiedWith(s, key)
  {
    if s != [] {
      RankedIsStable(s[1..], key);
      InsertIsStable(s[0], Ranked(s[1..]), key);
    }
  }
}
