/** What a render packet guarantees: its exact budget, whole source lines, and the
    accounting of the greedy packing. */
module BraincaseBudget {
  import opened Common
  import opened BraincaseStore
  import opened Ranking
  import opened BraincaseRender

  // ---------------------------------------------------------------------------
  // Accounting
  // ---------------------------------------------------------------------------

  /** Positions in the ranked list of the records that were shown. */
  function Picks(header: string, budget: nat, rs: seq<Record>): seq<nat> {
    if rs == [] then []
    else
      var n := |rs| - 1;
      var p := PackAll(header, budget, NOTHING, rs[..n]);
      Picks(header, budget, rs[..n]) + if PackOne(header, budget, p, rs[n]).shown > p.shown then [n] else []
  }

  /** The ids are those of the records at increasing positions of the list: a
      subsequence of it. */
  predicate Selects(picks: seq<nat>, rs: seq<Record>, ids: seq<string>) {
    |picks| == |ids| &&
    (forall i :: 0 <= i < |picks| ==> picks[i] < |rs| && ids[i] == rs[picks[i]].id) &&
    (forall i, j :: 0 <= i < j < |picks| ==> picks[i] < picks[j])
  }

  lemma PackOneCounts(header: string, budget: nat, p: Packing, r: Record)
    ensures var q := PackOne(header, budget, p, r);
            (q.shown == p.shown && q.omitted == p.omitted + 1 && q.sources == p.sources && q.body == p.body) ||
            (q.shown == p.shown + 1 && q.omitted == p.omitted && q.sources == p.sources + [r.id] && |q.body| == |p.body| + 2)
  {
  }

  lemma SelectsNext(picks: seq<nat>, rs: seq<Record>, ids: seq<string>, n: nat)
    requires |rs| == n + 1 && Selects(picks, rs[..n], ids)
    ensures Selects(picks, rs, ids) && Selects(picks + [n], rs, ids + [rs[n].id])
  {
    forall i | 0 <= i < |picks| ensures picks[i] < |rs| && ids[i] == rs[picks[i]].id {
      assert rs[..n][picks[i]] == rs[picks[i]];
    }
  }

  /** Rendered and omitted records add up to the eligible ones, and the sources are a
      subsequence of the ranked list. */
  lemma {:induction false} PackingAccounts(header: string, budget: nat, rs: seq<Record>)
    ensures var p := PackAll(header, budget, NOTHING, rs);
            p.shown + p.omitted == |rs| && p.shown == |p.sources| && |p.body| == 2 * p.shown &&
            Selects(Picks(header, budget, rs), rs, p.sources)
    decreases |rs|
  {
    if rs != [] {
      var n := |rs| - 1;
      var p := PackAll(header, budget, NOTHING, rs[..n]);
      PackingAccounts(header, budget, rs[..n]);
      PackOneCounts(header, budget, p, rs[n]);
      SelectsNext(Picks(header, budget, rs[..n]), rs, p.sources, n);
      assert PackAll(header, budget, NOTHING, rs) == PackOne(header, budget, p, rs[n]);
    }
  }

  // ---------------------------------------------------------------------------
  // Budget
  // ---------------------------------------------------------------------------

  /** The text never exceeds the character budget. */
  lemma TextWithinBudget(records: seq<Record>, purpose: string, domain: string, tokens: int, tiers: Option<seq<string>>)
    ensures |Rendered(records, purpose, domain, tokens, tiers).text| <= BudgetChars(tokens)
  {
    assert |"..."| == 3;
  }

  lemma BaseOfShown(header: string, p: Packing, r: Record, line: string)
    ensures Base(header, Shown(p, r, line)) == Base(header, p) + "\n" + (Prefix(p) + line) + "\n"
  {
    var parts := [header, ""] + p.body;
    LinesSnoc(parts, Prefix(p) + line);
    LinesSnoc(parts + [Prefix(p) + line], "");
    assert [header, ""] + (p.body + [Prefix(p) + line, ""]) == parts + [Prefix(p) + line] + [""];
  }

  /** A shown line fits the room it was given. */
  lemma PackOneCases(header: string, budget: nat, p: Packing, r: Record)
    ensures var q := PackOne(header, budget, p, r);
            q == Omitted(p) ||
            exists line :: |line| <= LineRoom(header, budget, p) && EndsWith(line, SourceLine(r)) &&
                           q == Shown(p, r, line).(warnings := q.warnings)
  {
    var room := LineRoom(header, budget, p);
    FullLineEndsWithSource(r);
    BoundedLineFits(r, room);
    var q := PackOne(header, budget, p, r);
    if q != Omitted(p) {
      var line := if |FullLine(r)| <= room then FullLine(r) else BoundedLine(r, room).value;
      assert q == Shown(p, r, line).(warnings := q.warnings);
    }
  }

  /** Once something is shown, what is built so far leaves room for the footer. */
  predicate LeavesFooter(header: string, budget: nat, p: Packing) {
    p.shown > 0 ==> |Base(header, p)| + 1 + FOOTER_ESTIMATE <= budget
  }

  lemma {:induction false} PackingLeavesFooter(header: string, budget: nat, rs: seq<Record>)
    ensures LeavesFooter(header, budget, PackAll(header, budget, NOTHING, rs))
    decreases |rs|
  {
    if rs != [] {
      var n := |rs| - 1;
      var p := PackAll(header, budget, NOTHING, rs[..n]);
      PackingLeavesFooter(header, budget, rs[..n]);
      PackOneCases(header, budget, p, rs[n]);
      var q := PackOne(header, budget, p, rs[n]);
      if q != Omitted(p) {
        var line :| |line| <= LineRoom(header, budget, p) && EndsWith(line, SourceLine(rs[n])) &&
                    q == Shown(p, rs[n], line).(warnings := q.warnings);
        BaseOfShown(header, p, rs[n], line);
        assert Base(header, q) == Base(header, Shown(p, rs[n], line));
      } else {
        assert Base(header, q) == Base(header, p);
      }
    }
  }

  lemma FooterWithinEstimate(p: Packing)
    requires p.shown + p.omitted <= 999
    ensures |Footer(p)| <= FOOTER_ESTIMATE
  {
    assert |"[records="| == 9 && |" omitted="| == 9 && |"]"| == 1 && FOOTER_ESTIMATE == 25;
  }

  /** If at least one record is shown and at most 999 were eligible, the final clamp
      does not fire. */
  lemma ClampDoesNotFire(records: seq<Record>, purpose: string, domain: string, tokens: int, tiers: Option<seq<string>>)
    requires |EligibleOf(records, domain, tiers)| <= 999
    requires Rendered(records, purpose, domain, tokens, tiers).sources != []
    ensures Rendered(records, purpose, domain, tokens, tiers).text ==
            Unclamped(PacketHeader(purpose, domain), PackingOf(records, purpose, domain, tokens, tiers))
  {
    var header, budget := PacketHeader(purpose, domain), BudgetChars(tokens);
    var rs := Ranked(EligibleOf(records, domain, tiers));
    var p := PackAll(header, budget, NOTHING, rs);
    PackingAccounts(header, budget, rs);
    PackingLeavesFooter(header, budget, rs);
    FooterWithinEstimate(p);
    LinesSnoc([header, ""] + p.body, Footer(p));
  }

  /** Item i of the body names source i, in full, at its end. */
  predicate ItemsNameSources(p: Packing) {
    |p.body| == 2 * |p.sources| &&
    forall i :: 0 <= i < |p.sources| ==> EndsWith(p.body[2 * i], "\n   Source: " + p.sources[i])
  }

  lemma EndsWithPrepended(a: string, s: string, t: string)
    requires EndsWith(s, t)
    ensures EndsWith(a + s, t)
  {
  }

  lemma ItemsSnoc(p: Packing, r: Record, line: string)
    requires ItemsNameSources(p) && EndsWith(line, SourceLine(r))
    ensures ItemsNameSources(Shown(p, r, line))
  {
    var q := Shown(p, r, line);
    EndsWithPrepended(Prefix(p), line, SourceLine(r));
    forall i | 0 <= i < |q.sources| ensures EndsWith(q.body[2 * i], "\n   Source: " + q.sources[i]) {
      if i < |p.sources| {
        assert q.body[2 * i] == p.body[2 * i] && q.sources[i] == p.sources[i];
      }
    }
  }

  lemma {:induction false} PackedItemsNameSources(header: string, budget: nat, rs: seq<Record>)
    ensures ItemsNameSources(PackAll(header, budget, NOTHING, rs))
    decreases |rs|
  {
    if rs != [] {
      var n := |rs| - 1;
      var p := PackAll(header, budget, NOTHING, rs[..n]);
      var q := PackOne(header, budget, p, rs[n]);
      PackedItemsNameSources(header, budget, rs[..n]);
      PackOneCases(header, budget, p, rs[n]);
      if q != Omitted(p) {
        var line :| |line| <= LineRoom(header, budget, p) && EndsWith(line, SourceLine(rs[n])) &&
                    q == Shown(p, rs[n], line).(warnings := q.warnings);
        ItemsSnoc(p, rs[n], line);
      }
    }
  }

  lemma EndingOccurs(s: string, t: string)
    requires EndsWith(s, t)
    ensures Contains(s, t)
  {
    var k := |s| - |t|;
    assert s[k..k + |t|] == s[k..];
    assert OccursAt(s, t, k);
  }

  lemma SliceOfSlice(s: string, i: nat, n: nat, j: nat, m: nat)
    requires i + n <= |s| && j + m <= n
    ensures s[i..i + n][j..j + m] == s[i + j..i + j + m]
  {
    var a, b := s[i..i + n][j..j + m], s[i + j..i + j + m];
    assert |a| == |b| && forall k :: 0 <= k < |a| ==> a[k] == b[k];
  }

  lemma ContainsTransitive(a: string, b: string, c: string)
    requires Contains(a, b) && Contains(b, c)
    ensures Contains(a, c)
  {
    var i :| OccursAt(a, b, i);
    var j :| OccursAt(b, c, j);
    SliceOfSlice(a, i, |b|, j, |c|);
    assert OccursAt(a, c, i + j);
  }

  lemma EndsWithBreak(s: string, t: string)
    requires EndsWith(s, t)
    ensures EndsWith(s + "\n", t + "\n")
  {
  }

  /** Every listed source has its whole source line in the text, to its line break. */
  lemma SourcesAreNamed(records: seq<Record>, purpose: string, domain: string, tokens: int, tiers: Option<seq<string>>,
                        i: nat)
    requires |EligibleOf(records, domain, tiers)| <= 999
    requires i < |Rendered(records, purpose, domain, tokens, tiers).sources|
    ensures var packet := Rendered(records, purpose, domain, tokens, tiers);
            Contains(packet.text, "\n   Source: " + packet.sources[i] + "\n")
  {
    var header, budget := PacketHeader(purpose, domain), BudgetChars(tokens);
    var p := PackingOf(records, purpose, domain, tokens, tiers);
    ClampDoesNotFire(records, purpose, domain, tokens, tiers);
    PackedItemsNameSources(header, budget, Ranked(EligibleOf(records, domain, tiers)));
    var parts := [header, ""] + p.body + [Footer(p)];
    var item, line := p.body[2 * i], "\n   Source: " + p.sources[i];
    assert parts[2 + 2 * i] == item;
    LinesContain(parts, 2 + 2 * i);
    EndsWithBreak(item, line);
    EndingOccurs(item + "\n", line + "\n");
    ContainsTransitive(Lines(parts), item + "\n", line + "\n");
  }

  // ---------------------------------------------------------------------------
  // A shortened claim uses the budget up
  // ---------------------------------------------------------------------------

  predicate Exhausted(header: string, budget: nat, p: Packing) {
    ItemRoom(header, budget, p) < 0
  }

  /** The record is shown, but with its claim shortened or left out. */
  predicate ShownCut(header: string, budget: nat, p: Packing, r: Record) {
    var room := LineRoom(header, budget, p);
    room > 0 && ClaimCut(r, room)
  }

  lemma CutExhausts(header: string, budget: nat, p: Packing, r: Record)
    requires ShownCut(header, budget, p, r)
    ensures PackOne(header, budget, p, r).sources == p.sources + [r.id]
    ensures Exhausted(header, budget, PackOne(header, budget, p, r))
  {
    var room := LineRoom(header, budget, p);
    FullLineIsLongest(r);
    CutLineFillsRoom(r, room);
    var line := BoundedLine(r, room).value;
    BaseOfShown(header, p, r, line);
    assert Base(header, PackOne(header, budget, p, r)) == Base(header, Shown(p, r, line));
  }

  lemma {:induction false} ExhaustedOmitsRest(header: string, budget: nat, rs: seq<Record>, n: nat)
    requires n <= |rs| && Exhausted(header, budget, PackAll(header, budget, NOTHING, rs[..n]))
    ensures var p := PackAll(header, budget, NOTHING, rs[..n]); var q := PackAll(header, budget, NOTHING, rs);
            q.sources == p.sources && q.body == p.body && q.omitted == p.omitted + |rs| - n
    decreases |rs|
  {
    if n < |rs| {
      var init := rs[..|rs| - 1];
      assert init[..n] == rs[..n];
      ExhaustedOmitsRest(header, budget, init, n);
      assert Base(header, PackAll(header, budget, NOTHING, init)) == Base(header, PackAll(header, budget, NOTHING, rs[..n]));
    } else {
      assert rs[..n] == rs;
    }
  }

  /** Once a claim had to be cut to fit, every lower-ranked record is omitted. */
  lemma CutOmitsRest(header: string, budget: nat, rs: seq<Record>, n: nat)
    requires n < |rs| && ShownCut(header, budget, PackAll(header, budget, NOTHING, rs[..n]), rs[n])
    ensures var p := PackAll(header, budget, NOTHING, rs[..n]); var q := PackAll(header, budget, NOTHING, rs);
            q.sources == p.sources + [rs[n].id] && q.omitted == p.omitted + |rs| - n - 1
  {
    var p := PackAll(header, budget, NOTHING, rs[..n]);
    PackAllSnoc(header, budget, rs, n);
    CutExhausts(header, budget, p, rs[n]);
    PackOneCounts(header, budget, p, rs[n]);
    ExhaustedOmitsRest(header, budget, rs, n + 1);
  }

  // ---------------------------------------------------------------------------
  // Ineligible records leave no trace
  // ---------------------------------------------------------------------------

  lemma {:induction false} EligibleOfAppend(a: seq<Record>, b: seq<Record>, domain: string, tiers: Option<seq<string>>)
    ensures EligibleOf(a + b, domain, tiers) == EligibleOf(a, domain, tiers) + EligibleOf(b, domain, tiers)
    decreases |b|
  {
    if b == [] {
      assert a + b == a;
    } else {
      assert (a + b)[..|a + b| - 1] == a + b[..|b| - 1];
      EligibleOfAppend(a, b[..|b| - 1], domain, tiers);
    }
  }

  lemma SameEligibleSamePacket(x: seq<Record>, y: seq<Record>, purpose: string, domain: string, tokens: int,
                               tiers: Option<seq<string>>)
    requires EligibleOf(x, domain, tiers) == EligibleOf(y, domain, tiers)
    ensures Rendered(x, purpose, domain, tokens, tiers) == Rendered(y, purpose, domain, tokens, tiers)
  {
  }

  /** Adding ineligible records anywhere in the input leaves the packet unchanged. */
  lemma IneligibleLeaveNoTrace(a: seq<Record>, extra: seq<Record>, b: seq<Record>, purpose: string, domain: string,
                               tokens: int, tiers: Option<seq<string>>)
    requires EligibleOf(extra, domain, tiers) == []
    ensures Rendered(a + extra + b, purpose, domain, tokens, tiers) == Rendered(a + b, purpose, domain, tokens, tiers)
  {
    assert EligibleOf(a + extra + b, domain, tiers) == EligibleOf(a + b, domain, tiers) by {
      EligibleOfAppend(a + extra, b, domain, tiers);
      EligibleOfAppend(a, extra, domain, tiers);
      EligibleOfAppend(a, b, domain, tiers);
      assert EligibleOf(a, domain, tiers) + [] == EligibleOf(a, domain, tiers);
    }
    SameEligibleSamePacket(a + extra + b, a + b, purpose, domain, tokens, tiers);
  }

  lemma {:induction false} EligibleOfMembers(records: seq<Record>, domain: string, tiers: Option<seq<string>>, r: Record)
    ensures r in EligibleOf(records, domain, tiers) <==> r in records && Eligible(r, domain, tiers)
    decreases |records|
  {
    if records != [] {
      EligibleOfMembers(records[..|records| - 1], domain, tiers, r);
      assert records == records[..|records| - 1] + [records[|records| - 1]];
    }
  }

  /** Every source id of a packet is the id of an eligible record of its input. */
  lemma SourcesAreEligible(records: seq<Record>, purpose: string, domain: string, tokens: int, tiers: Option<seq<string>>,
                           id: string)
    requires id in Rendered(records, purpose, domain, tokens, tiers).sources
    ensures exists r :: r in records && r.id == id && r.status == "active" && r.visibility == "renderable" &&
                        r.memoryDomain == domain && (tiers.Some? ==> r.tier in tiers.value)
  {
    var header, budget := PacketHeader(purpose, domain), BudgetChars(tokens);
    var eligible := EligibleOf(records, domain, tiers);
    var rs := Ranked(eligible);
    PackingAccounts(header, budget, rs);
    var sources := PackAll(header, budget, NOTHING, rs).sources;
    var i :| 0 <= i < |sources| && sources[i] == id;
    var r := rs[Picks(header, budget, rs)[i]];
    RankedIsSortedPermutation(eligible);
    assert r in multiset(rs);
    EligibleOfMembers(records, domain, tiers, r);
  }
}
