/** Rendering records into a bounded text packet. */
module BraincaseRender {
  import opened Common
  import opened BraincaseStore
  import opened Ranking

  // ---------------------------------------------------------------------------
  // Text
  // ---------------------------------------------------------------------------

  function Decimal(n: nat): (s: string)
    ensures n < 10 ==> |s| == 1
    ensures n < 100 ==> |s| <= 2
    ensures n < 1000 ==> |s| <= 3
  {
    (if n < 10 then "" else Decimal(n / 10)) + [(('0' as int) + n % 10) as char]
  }

  /** "\n".join(parts) */
  function Lines(parts: seq<string>): string {
    if parts == [] then ""
    else if |parts| == 1 then parts[0]
    else Lines(parts[..|parts| - 1]) + "\n" + parts[|parts| - 1]
  }

  lemma LinesSnoc(parts: seq<string>, x: string)
    requires parts != []
    ensures Lines(parts + [x]) == Lines(parts) + "\n" + x
  {
    assert (parts + [x])[..|parts|] == parts;
  }

  predicate OccursAt(text: string, part: string, k: int) {
    0 <= k <= |text| - |part| && text[k..k + |part|] == part
  }

  predicate EndsWith(s: string, t: string) {
    |t| <= |s| && s[|s| - |t|..] == t
  }

  ghost predicate Contains(text: string, part: string) {
    exists k :: OccursAt(text, part, k)
  }

  lemma ContainsExtended(a: string, part: string, b: string, c: string)
    requires Contains(a, part)
    ensures Contains(b + a + c, part)
  {
    var k :| OccursAt(a, part, k);
    assert OccursAt(b + a + c, part, |b| + k);
  }

  lemma LinesEnd(parts: seq<string>)
    requires parts != []
    ensures EndsWith(Lines(parts), parts[|parts| - 1])
  {
  }

  /** Every part but the last occurs with its line break. */
  lemma {:induction false} LinesContain(parts: seq<string>, i: nat)
    requires i + 1 < |parts|
    ensures Contains(Lines(parts), parts[i] + "\n")
    decreases |parts|
  {
    var n := |parts| - 1;
    var before := Lines(parts[..n]);
    assert Lines(parts) == before + "\n" + parts[n];
    if i + 1 == n {
      LinesEnd(parts[..n]);
      assert OccursAt(Lines(parts), parts[i] + "\n", |before| - |parts[i]|);
    } else {
      LinesContain(parts[..n], i);
      ContainsExtended(before, parts[i] + "\n", "", "\n" + parts[n]);
      assert "" + before + ("\n" + parts[n]) == Lines(parts);
    }
  }

  // ---------------------------------------------------------------------------
  // One record
  // ---------------------------------------------------------------------------

  predicate Eligible(r: Record, domain: string, tiers: Option<seq<string>>) {
    r.status == "active" && r.visibility == "renderable" && r.memoryDomain == domain &&
    (tiers.Some? ==> r.tier in tiers.value)
  }

  function Clip(s: string, n: nat): string
    requires n >= 3
  {
    if |s| > n then s[..n - 3] + "..." else s
  }

  function Head(r: Record): string { "[" + r.tier + "/" + r.recordType + "]" }

  function SourceLine(r: Record): string { "\n   Source: " + r.id }

  function MinimalLine(r: Record): string { Head(r) + SourceLine(r) }

  function ClaimLine(r: Record, claim: string): string { Head(r) + " " + claim + SourceLine(r) }

  function FullLine(r: Record): string {
    var claim, summary := Clip(r.claim, 200), Clip(r.summary, 150);
    if summary != "" && summary != claim
    then Head(r) + " " + claim + "\n   Summary: " + summary + SourceLine(r)
    else ClaimLine(r, claim)
  }

  function ShortenedClaim(claim: string, room: nat): (s: string)
    requires |claim| > room
    ensures |s| == room
  {
    if room <= 3 then "..."[..room] else claim[..room - 3] + "..."
  }

  /** Within maxChars characters: drop the summary, then shorten the claim, then drop
      the claim; None when not even the source line would fit. */
  function BoundedLine(r: Record, maxChars: int): Option<string> {
    if |MinimalLine(r)| > maxChars then None
    else if |FullLine(r)| <= maxChars then Some(FullLine(r))
    else
      var claim := Clip(r.claim, 200);
      if |ClaimLine(r, claim)| <= maxChars then Some(ClaimLine(r, claim))
      else
        var room := maxChars - |Head(r)| - 1 - |SourceLine(r)|;
        if room <= 0 then Some(MinimalLine(r)) else Some(ClaimLine(r, ShortenedClaim(claim, room)))
  }

  lemma AppendedEnds(s: string, t: string)
    ensures EndsWith(s + t, t)
  {
  }

  /** A bounded line fits, is refused only when the source line cannot be given whole,
      and otherwise ends with it. */
  lemma BoundedLineFits(r: Record, maxChars: int)
    ensures BoundedLine(r, maxChars).None? <==> |Head(r)| + |SourceLine(r)| > maxChars
    ensures BoundedLine(r, maxChars).Some? ==>
              |BoundedLine(r, maxChars).value| <= maxChars && EndsWith(BoundedLine(r, maxChars).value, SourceLine(r))
  {
    FullLineEndsWithSource(r);
    AppendedEnds(Head(r), SourceLine(r));
    var claim := Clip(r.claim, 200);
    AppendedEnds(Head(r) + " " + claim, SourceLine(r));
    var room := maxChars - |Head(r)| - 1 - |SourceLine(r)|;
    if 0 < room < |claim| {
      AppendedEnds(Head(r) + " " + ShortenedClaim(claim, room), SourceLine(r));
    }
  }

  lemma FullLineEndsWithSource(r: Record)
    ensures EndsWith(FullLine(r), SourceLine(r))
  {
    var claim, summary := Clip(r.claim, 200), Clip(r.summary, 150);
    AppendedEnds(Head(r) + " " + claim, SourceLine(r));
    AppendedEnds(Head(r) + " " + claim + "\n   Summary: " + summary, SourceLine(r));
  }

  /** The claim of the record had to be shortened or left out to fit. */
  predicate ClaimCut(r: Record, maxChars: int) {
    |MinimalLine(r)| <= maxChars < |ClaimLine(r, Clip(r.claim, 200))|
  }

  lemma CutLineFillsRoom(r: Record, maxChars: int)
    requires ClaimCut(r, maxChars) && |FullLine(r)| > maxChars
    ensures BoundedLine(r, maxChars).Some? && |BoundedLine(r, maxChars).value| >= maxChars - 1
  {
  }

  lemma FullLineIsLongest(r: Record)
    ensures |FullLine(r)| >= |ClaimLine(r, Clip(r.claim, 200))|
  {
  }

  // ---------------------------------------------------------------------------
  // The packet
  // ---------------------------------------------------------------------------

  datatype Packing = Packing(body: seq<string>, sources: seq<string>, shown: nat, omitted: nat, warnings: seq<string>)

  datatype Packet = Packet(text: string, sources: seq<string>, omitted: nat, warnings: seq<string>)

  const NOTHING := Packing([], [], 0, 0, [])
  const FOOTER_ESTIMATE: nat := |"[records=999 omitted=999]"|

  function BudgetChars(tokens: int): (n: nat)
    ensures n >= 80 && n >= 4 * tokens && (n == 80 || n == 4 * tokens)
  {
    if tokens * 4 > 80 then tokens * 4 else 80
  }

  function PacketHeader(purpose: string, domain: string): string {
    "== BrainCase Memory Packet: " + purpose + " (" + domain + ") =="
  }

  function Footer(p: Packing): string {
    "[records=" + Decimal(p.shown) + " omitted=" + Decimal(p.omitted) + "]"
  }

  function Base(header: string, p: Packing): string {
    Lines([header, ""] + p.body)
  }

  function Warn(warnings: seq<string>, w: string): seq<string> {
    if w in warnings then warnings else warnings + [w]
  }

  function Prefix(p: Packing): string { Decimal(p.shown + 1) + ". " }

  /** Characters the next numbered item may use. */
  function ItemRoom(header: string, budget: nat, p: Packing): int {
    budget - |Base(header, p)| - 3 - FOOTER_ESTIMATE
  }

  function LineRoom(header: string, budget: nat, p: Packing): int {
    ItemRoom(header, budget, p) - |Prefix(p)|
  }

  function Shown(p: Packing, r: Record, line: string): Packing {
    p.(body := p.body + [Prefix(p) + line, ""], sources := p.sources + [r.id], shown := p.shown + 1)
  }

  function Omitted(p: Packing): Packing {
    p.(omitted := p.omitted + 1, warnings := Warn(p.warnings, "budget_exhausted"))
  }

  function PackOne(header: string, budget: nat, p: Packing, r: Record): Packing {
    var room := LineRoom(header, budget, p);
    if room <= 0 then Omitted(p)
    else if |FullLine(r)| <= room then Shown(p, r, FullLine(r))
    else
      match BoundedLine(r, room)
      case None => Omitted(p)
      case Some(line) => Shown(p, r, line).(warnings := Warn(p.warnings, "record_truncated"))
  }

  function PackAll(header: string, budget: nat, p: Packing, rs: seq<Record>): Packing {
    if rs == [] then p else PackOne(header, budget, PackAll(header, budget, p, rs[..|rs| - 1]), rs[|rs| - 1])
  }

  function EligibleOf(records: seq<Record>, domain: string, tiers: Option<seq<string>>): seq<Record> {
    if records == [] then []
    else
      EligibleOf(records[..|records| - 1], domain, tiers) +
      if Eligible(records[|records| - 1], domain, tiers) then [records[|records| - 1]] else []
  }

  function Unclamped(header: string, p: Packing): string {
    Lines([header, ""] + p.body + [Footer(p)])
  }

  function Finished(header: string, budget: nat, p: Packing): Packet
    requires budget >= 3
  {
    var text := Unclamped(header, p);
    if |text| > budget then Packet(text[..budget - 3] + "...", p.sources, p.omitted, Warn(p.warnings, "budget_clamped"))
    else Packet(text, p.sources, p.omitted, p.warnings)
  }

  function PackingOf(records: seq<Record>, purpose: string, domain: string, tokens: int, tiers: Option<seq<string>>): Packing {
    PackAll(PacketHeader(purpose, domain), BudgetChars(tokens), NOTHING, Ranked(EligibleOf(records, domain, tiers)))
  }

  function Rendered(records: seq<Record>, purpose: string, domain: string, tokens: int, tiers: Option<seq<string>>): Packet {
    Finished(PacketHeader(purpose, domain), BudgetChars(tokens), PackingOf(records, purpose, domain, tokens, tiers))
  }

  /** The line for the next item, if there is room for one, and whether it was cut. */
  method PlaceItem(header: string, budget: nat, p: Packing, r: Record) returns (line: Option<string>, cut: bool)
    ensures PackOne(header, budget, p, r) ==
            match line
            case None => Omitted(p)
            case Some(l) => if cut then Shown(p, r, l).(warnings := Warn(p.warnings, "record_truncated")) else Shown(p, r, l)
  {
    var prefix := Decimal(p.shown + 1) + ". ";
    var maxItemChars := budget - |Lines([header, ""] + p.body)| - 3 - FOOTER_ESTIMATE;
    if maxItemChars <= |prefix| {
      return None, false;
    }
    var maxLineChars := maxItemChars - |prefix|;
    var full := FullLine(r);
    if |full| <= maxLineChars {
      return Some(full), false;
    }
    line := BoundedLine(r, maxLineChars);
    cut := true;
  }

  lemma PackAllSnoc(header: string, budget: nat, rs: seq<Record>, n: nat)
    requires n < |rs|
    ensures PackAll(header, budget, NOTHING, rs[..n + 1]) ==
            PackOne(header, budget, PackAll(header, budget, NOTHING, rs[..n]), rs[n])
  {
    assert rs[..n + 1][..n] == rs[..n];
  }

  /** The greedy loop. */
  method FillBudget(header: string, budget: nat, eligible: seq<Record>) returns (p: Packing)
    ensures p == PackAll(header, budget, NOTHING, eligible)
  {
    var body: seq<string>, sources: seq<string>, warnings: seq<string> := [], [], [];
    var itemNum, omitted := 0, 0;
    for i := 0 to |eligible|
      invariant Packing(body, sources, itemNum, omitted, warnings) == PackAll(header, budget, NOTHING, eligible[..i])
    {
      PackAllSnoc(header, budget, eligible, i);
      var line, cut := PlaceItem(header, budget, Packing(body, sources, itemNum, omitted, warnings), eligible[i]);
      if line.None? {
        omitted := omitted + 1;
        warnings := Warn(warnings, "budget_exhausted");
        continue;
      }
      itemNum := itemNum + 1;
      body := body + [Decimal(itemNum) + ". " + line.value, ""];
      sources := sources + [eligible[i].id];
      if cut {
        warnings := Warn(warnings, "record_truncated");
      }
    }
    assert eligible[..|eligible|] == eligible;
    p := Packing(body, sources, itemNum, omitted, warnings);
  }

  method FilterEligible(records: seq<Record>, domain: string, tiers: Option<seq<string>>) returns (eligible: seq<Record>)
    ensures eligible == EligibleOf(records, domain, tiers)
  {
    eligible := [];
    for i := 0 to |records|
      invariant eligible == EligibleOf(records[..i], domain, tiers)
    {
      assert records[..i + 1][..i] == records[..i];
      if Eligible(records[i], domain, tiers) {
        eligible := eligible + [records[i]];
      }
    }
    assert records[..|records|] == records;
  }

  /** The footer and the final clamp. */
  method Finish(header: string, budget: nat, p: Packing) returns (packet: Packet)
    requires budget >= 3
    ensures packet == Finished(header, budget, p)
  {
    var text := Lines([header, ""] + p.body + [Footer(p)]);
    var warnings := p.warnings;
    if |text| > budget {
      text := text[..budget - 3] + "...";
      warnings := Warn(warnings, "budget_clamped");
    }
    packet := Packet(text, p.sources, p.omitted, warnings);
  }

  /** render_pack: filter, rank, then fill the budget greedily. */
  method RenderPack(records: seq<Record>, purpose: string, domain: string, tokens: int, tiers: Option<seq<string>>)
    returns (packet: Packet)
    ensures packet == Rendered(records, purpose, domain, tokens, tiers)
  {
    var budget := BudgetChars(tokens);
    var eligible := FilterEligible(records, domain, tiers);
    var header := PacketHeader(purpose, domain);
    var p := FillBudget(header, budget, Ranked(eligible));
    packet := Finish(header, budget, p);
  }
}
