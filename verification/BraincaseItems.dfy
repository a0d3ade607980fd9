/** What a packet says, read off its text: the header, the numbered items in ranking
    order with the claim, summary and id of their records, and the footer. */
module BraincaseItems {
  import opened Common
  import opened BraincaseStore
  import opened Ranking
  import opened BraincaseRender
  import opened BraincaseBudget

  // ---------------------------------------------------------------------------
  // Reading a packet
  // ---------------------------------------------------------------------------

  /** t is s, or its beginning and three dots when s has more than n characters. */
  predicate Abridged(s: string, n: nat, t: string)
    requires n >= 3
  {
    if |s| <= n then t == s else |t| == n && t[..n - 3] == s[..n - 3] && t[n - 3..] == "..."
  }

  /** s cut down to exactly n characters, dots included. */
  predicate CutTo(s: string, n: nat, t: string)
    requires |s| > n
  {
    |t| == n && if n <= 3 then forall i :: 0 <= i < n ==> t[i] == '.' else t[..n - 3] == s[..n - 3] && t[n - 3..] == "..."
  }

  /** What a packet prints between an item's number and its line break when there are
      `room` characters: everything, or no summary, or the longest piece of the claim, or
      no claim, or nothing because the source would not fit. */
  ghost predicate LineOf(r: Record, claim: string, summary: string, room: int, line: Option<string>, cut: bool) {
    var head := "[" + r.tier + "/" + r.recordType + "]";
    var note := if summary == "" || summary == claim then "" else "\n   Summary: " + summary;
    var source := "\n   Source: " + r.id;
    var left := room - |head| - 1 - |source|;
    if |head| + 1 + |claim| + |note| + |source| <= room then
      line == Some(head + " " + claim + note + source) && !cut
    else if |head| + |source| > room then line == None && !cut
    else if |claim| <= left then line == Some(head + " " + claim + source) && cut
    else if left <= 0 then line == Some(head + source) && cut
    else exists piece :: CutTo(claim, left, piece) && line == Some(head + " " + piece + source) && cut
  }

  ghost predicate Line(r: Record, room: int, line: Option<string>, cut: bool) {
    exists claim, summary ::
      Abridged(r.claim, 200, claim) && Abridged(r.summary, 150, summary) && LineOf(r, claim, summary, room, line, cut)
  }

  /** The line of an item whose number begins behind place k of the text; 28 characters
      stay free for three line breaks and the footer. */
  ghost predicate LineAt(r: Record, budget: nat, k: nat, number: string, line: Option<string>, cut: bool) {
    Line(r, budget - k - 28 - |number|, line, cut)
  }

  /** The part occurs at that place. */
  predicate At(text: string, k: nat, part: string) {
    k + |part| <= |text| && text[k..k + |part|] == part
  }

  /** The numbered item with its line breaks; nothing for an omitted record. */
  function Printed(number: nat, line: Option<string>): string {
    if line.Some? then "\n" + (Decimal(number) + ". " + line.value) + "\n" else ""
  }

  /** What became of one record: its line, or None when it was omitted, and whether the
      line is shorter than the whole one. */
  datatype Item = Item(line: Option<string>, cut: bool)

  /** The item of the record stands at place k, and the id is the next source. */
  ghost predicate ItemAt(text: string, k: nat, packet: Packet, budget: nat, r: Record, shown: nat, item: Item) {
    LineAt(r, budget, k, Decimal(shown + 1) + ". ", item.line, item.cut) &&
    At(text, k, Printed(shown + 1, item.line)) &&
    (item.line.Some? ==> shown < |packet.sources| && packet.sources[shown] == r.id)
  }

  /** The footer stands at place k and ends the text; counts and warnings agree with it. */
  predicate FooterAt(text: string, k: nat, packet: Packet, shown: nat, omitted: nat, cut: bool) {
    |text| >= k && text[k..] == "\n[records=" + Decimal(shown) + " omitted=" + Decimal(omitted) + "]" &&
    |packet.sources| == shown && packet.omitted == omitted &&
    ("budget_exhausted" in packet.warnings <==> omitted > 0) &&
    ("record_truncated" in packet.warnings <==> cut)
  }

  function ShownIn(items: seq<Item>): (n: nat)
    ensures n <= |items|
  {
    if items == [] then 0
    else ShownIn(items[..|items| - 1]) + if items[|items| - 1].line.Some? then 1 else 0
  }

  /** Where the items end, when they begin at `start`. */
  function Place(start: nat, items: seq<Item>): nat {
    if items == [] then start
    else
      var init := items[..|items| - 1];
      Place(start, init) + |Printed(ShownIn(init) + 1, items[|items| - 1].line)|
  }

  predicate AnyCut(items: seq<Item>) {
    exists i :: 0 <= i < |items| && items[i].cut
  }

  /** Item n follows the items before it. */
  ghost predicate Stands(text: string, start: nat, packet: Packet, budget: nat, rs: seq<Record>, items: seq<Item>, n: nat)
    requires n < |rs| == |items|
  {
    ItemAt(text, Place(start, items[..n]), packet, budget, rs[n], ShownIn(items[..n]), items[n])
  }

  /** From place `start` on, the text presents the records rs in their order, one item
      after the other, and then the footer. */
  ghost predicate Presents(text: string, start: nat, packet: Packet, budget: nat, rs: seq<Record>, items: seq<Item>) {
    |items| == |rs| &&
    (forall n :: 0 <= n < |rs| ==> Stands(text, start, packet, budget, rs, items, n)) &&
    FooterFollows(text, start, packet, items)
  }

  /** The footer follows the items. */
  ghost predicate FooterFollows(text: string, start: nat, packet: Packet, items: seq<Item>) {
    FooterAt(text, Place(start, items), packet, ShownIn(items), |items| - ShownIn(items), AnyCut(items))
  }

  // ---------------------------------------------------------------------------
  // One line
  // ---------------------------------------------------------------------------

  lemma ClipAbridges(s: string, n: nat)
    requires n >= 3
    ensures Abridged(s, n, Clip(s, n))
  {
  }

  lemma ShortenedIsCut(claim: string, room: nat)
    requires |claim| > room
    ensures CutTo(claim, room, ShortenedClaim(claim, room))
  {
  }

  lemma FullText(r: Record, claim: string, summary: string, note: string)
    requires claim == Clip(r.claim, 200) && summary == Clip(r.summary, 150)
    requires note == if summary == "" || summary == claim then "" else "\n   Summary: " + summary
    ensures FullLine(r) == "[" + r.tier + "/" + r.recordType + "]" + " " + claim + note + ("\n   Source: " + r.id)
  {
    if note == "" {
      assert Head(r) + " " + claim + note == Head(r) + " " + claim;
    } else {
      assert Head(r) + " " + claim + note == Head(r) + " " + claim + "\n   Summary: " + summary;
    }
  }

  /** The line the renderer takes when it has room for one. */
  function Taken(r: Record, room: int): Option<string> {
    if |FullLine(r)| <= room then Some(FullLine(r)) else BoundedLine(r, room)
  }

  lemma TakenIsLine(r: Record, room: int)
    ensures Line(r, room, Taken(r, room), |FullLine(r)| > room && Taken(r, room).Some?)
  {
    var claim, summary := Clip(r.claim, 200), Clip(r.summary, 150);
    var note := if summary == "" || summary == claim then "" else "\n   Summary: " + summary;
    ClipAbridges(r.claim, 200);
    ClipAbridges(r.summary, 150);
    FullText(r, claim, summary, note);
    var left := room - |Head(r)| - 1 - |SourceLine(r)|;
    if 0 < left < |claim| {
      ShortenedIsCut(claim, left);
    }
    assert LineOf(r, claim, summary, room, Taken(r, room), |FullLine(r)| > room && Taken(r, room).Some?);
  }

  // ---------------------------------------------------------------------------
  // The packet
  // ---------------------------------------------------------------------------

  predicate StartsWith(text: string, part: string) {
    |part| <= |text| && text[..|part|] == part
  }

  lemma AtNext(text: string, a: string, part: string)
    requires StartsWith(text, a + part)
    ensures At(text, |a|, part)
  {
    assert text[|a|..|a| + |part|] == (a + part)[|a|..];
  }

  lemma StartsTransitive(text: string, a: string, b: string)
    requires StartsWith(text, a) && StartsWith(a, b)
    ensures StartsWith(text, b)
  {
  }

  /** One step of the greedy loop, in terms of the line taken. */
  lemma StepTakes(header: string, budget: nat, p: Packing, r: Record)
    ensures var room := LineRoom(header, budget, p); var q := PackOne(header, budget, p, r);
            match Taken(r, room)
            case None => q == Omitted(p)
            case Some(line) =>
              q == if |FullLine(r)| <= room then Shown(p, r, line)
                   else Shown(p, r, line).(warnings := Warn(p.warnings, "record_truncated"))
  {
    BoundedLineFits(r, LineRoom(header, budget, p));
  }

  lemma RoomOfNumber(header: string, budget: nat, p: Packing)
    ensures LineRoom(header, budget, p) == budget - |Base(header, p)| - 28 - |Decimal(p.shown + 1) + ". "|
  {
    assert FOOTER_ESTIMATE == 25;
  }

  lemma StepIsLine(header: string, budget: nat, p: Packing, r: Record)
    ensures var room := LineRoom(header, budget, p);
            LineAt(r, budget, |Base(header, p)|, Prefix(p), Taken(r, room), |FullLine(r)| > room && Taken(r, room).Some?)
  {
    RoomOfNumber(header, budget, p);
    TakenIsLine(r, LineRoom(header, budget, p));
  }

  /** What is built so far stays at the front of the text. */
  lemma StepExtends(header: string, budget: nat, p: Packing, r: Record)
    ensures StartsWith(Base(header, PackOne(header, budget, p, r)), Base(header, p))
    ensures var q := PackOne(header, budget, p, r);
            match Taken(r, LineRoom(header, budget, p))
            case None => Base(header, q) == Base(header, p)
            case Some(line) => Base(header, q) == Base(header, p) + ("\n" + (Prefix(p) + line) + "\n")
  {
    StepTakes(header, budget, p, r);
    match Taken(r, LineRoom(header, budget, p)) {
      case None => assert Base(header, Omitted(p)) == Base(header, p);
      case Some(line) =>
        BaseOfShown(header, p, r, line);
        assert Base(header, PackOne(header, budget, p, r)) == Base(header, Shown(p, r, line));
        assert Base(header, p) + "\n" + (Prefix(p) + line) + "\n" == Base(header, p) + ("\n" + (Prefix(p) + line) + "\n");
    }
  }

  lemma {:induction false} BasesExtend(header: string, budget: nat, rs: seq<Record>, n: nat)
    requires n <= |rs|
    ensures var p, q := PackAll(header, budget, NOTHING, rs[..n]), PackAll(header, budget, NOTHING, rs);
            StartsWith(Base(header, q), Base(header, p)) && p.sources <= q.sources
    decreases |rs|
  {
    if n < |rs| {
      var init := rs[..|rs| - 1];
      assert init[..n] == rs[..n];
      BasesExtend(header, budget, init, n);
      var p, m := PackAll(header, budget, NOTHING, rs[..n]), PackAll(header, budget, NOTHING, init);
      StepExtends(header, budget, m, rs[|rs| - 1]);
      PackOneCounts(header, budget, m, rs[|rs| - 1]);
      StartsTransitive(Base(header, PackOne(header, budget, m, rs[|rs| - 1])), Base(header, m), Base(header, p));
    } else {
      assert rs[..n] == rs;
    }
  }

  predicate Exhausts(warnings: seq<string>) { "budget_exhausted" in warnings }

  predicate Truncates(warnings: seq<string>) { "record_truncated" in warnings }

  predicate Clamps(warnings: seq<string>) { "budget_clamped" in warnings }

  lemma WarningsDiffer()
    ensures "budget_exhausted" != "record_truncated" && "budget_exhausted" != "budget_clamped" &&
            "record_truncated" != "budget_clamped"
  {
    assert |"budget_exhausted"| == 16 && |"record_truncated"| == 16 && |"budget_clamped"| == 14;
    assert "budget_exhausted"[0] == 'b' && "record_truncated"[0] == 'r';
  }

  lemma WarnAdds(warnings: seq<string>, w: string, v: string)
    ensures v in Warn(warnings, w) <==> v in warnings || v == w
  {
  }

  lemma OmittedWarns(p: Packing)
    ensures Exhausts(Omitted(p).warnings) && (Truncates(Omitted(p).warnings) <==> Truncates(p.warnings))
    ensures Clamps(Omitted(p).warnings) <==> Clamps(p.warnings)
  {
    WarningsDiffer();
    WarnAdds(p.warnings, "budget_exhausted", "budget_exhausted");
    WarnAdds(p.warnings, "budget_exhausted", "record_truncated");
    WarnAdds(p.warnings, "budget_exhausted", "budget_clamped");
  }

  lemma CutWarns(p: Packing)
    ensures var ws := Warn(p.warnings, "record_truncated");
            Truncates(ws) && (Exhausts(ws) <==> Exhausts(p.warnings)) && (Clamps(ws) <==> Clamps(p.warnings))
  {
    WarningsDiffer();
    WarnAdds(p.warnings, "record_truncated", "budget_exhausted");
    WarnAdds(p.warnings, "record_truncated", "record_truncated");
    WarnAdds(p.warnings, "record_truncated", "budget_clamped");
  }

  lemma ClampWarns(p: Packing)
    ensures var ws := Warn(p.warnings, "budget_clamped");
            Clamps(ws) && (Exhausts(ws) <==> Exhausts(p.warnings)) && (Truncates(ws) <==> Truncates(p.warnings))
  {
    WarningsDiffer();
    WarnAdds(p.warnings, "budget_clamped", "budget_exhausted");
    WarnAdds(p.warnings, "budget_clamped", "record_truncated");
    WarnAdds(p.warnings, "budget_clamped", "budget_clamped");
  }

  /** The packet and the finished packing agree on everything but the text. */
  predicate Reports(packet: Packet, q: Packing) {
    packet.sources == q.sources && packet.omitted == q.omitted && |q.sources| == q.shown &&
    (Exhausts(packet.warnings) <==> q.omitted > 0) && (Truncates(packet.warnings) <==> Truncates(q.warnings))
  }

  lemma PresentsEnd(text: string, packet: Packet, header: string, q: Packing)
    requires Reports(packet, q) && text == Base(header, q) + "\n" + Footer(q)
    ensures FooterAt(text, |Base(header, q)|, packet, q.shown, q.omitted, Truncates(q.warnings))
  {
    var last := "\n[records=" + Decimal(q.shown) + " omitted=" + Decimal(q.omitted) + "]";
    assert "\n" + Footer(q) == last;
    assert text == Base(header, q) + last;
  }

  /** One step of the greedy loop prints the item of its record. */
  lemma StepPrints(text: string, packet: Packet, budget: nat, header: string, p: Packing, r: Record, q: Packing)
    requires p.shown == |p.sources| && q == PackOne(header, budget, p, r)
    requires StartsWith(text, Base(header, q)) && q.sources <= packet.sources
    ensures ItemAt(text, |Base(header, p)|, packet, budget, r, p.shown, ItemOf(header, budget, p, r))
  {
    var line := Taken(r, LineRoom(header, budget, p));
    StepIsLine(header, budget, p, r);
    StepTakes(header, budget, p, r);
    StepExtends(header, budget, p, r);
    if line.Some? {
      AtNext(text, Base(header, p), "\n" + (Prefix(p) + line.value) + "\n");
      assert packet.sources[p.shown] == q.sources[p.shown] == r.id;
    }
  }

  lemma StepAdvances(header: string, budget: nat, p: Packing, r: Record, q: Packing)
    requires q == PackOne(header, budget, p, r)
    ensures var item := ItemOf(header, budget, p, r);
            |Base(header, q)| == |Base(header, p)| + |Printed(p.shown + 1, item.line)| &&
            q.shown == p.shown + (if item.line.Some? then 1 else 0) &&
            (Truncates(q.warnings) <==> Truncates(p.warnings) || item.cut)
  {
    StepTakes(header, budget, p, r);
    StepExtends(header, budget, p, r);
    OmittedWarns(p);
    CutWarns(p);
  }

  /** What the renderer does with the next record. */
  function ItemOf(header: string, budget: nat, p: Packing, r: Record): Item {
    var room := LineRoom(header, budget, p);
    Item(Taken(r, room), |FullLine(r)| > room && Taken(r, room).Some?)
  }

  function ItemsOf(header: string, budget: nat, rs: seq<Record>): (items: seq<Item>)
    ensures |items| == |rs|
  {
    if rs == [] then []
    else
      var n := |rs| - 1;
      ItemsOf(header, budget, rs[..n]) + [ItemOf(header, budget, PackAll(header, budget, NOTHING, rs[..n]), rs[n])]
  }

  lemma {:induction false} ItemsOfPrefix(header: string, budget: nat, rs: seq<Record>, n: nat)
    requires n <= |rs|
    ensures ItemsOf(header, budget, rs)[..n] == ItemsOf(header, budget, rs[..n])
    decreases |rs|
  {
    if n < |rs| {
      ItemsOfPrefix(header, budget, rs[..|rs| - 1], n);
      assert rs[..|rs| - 1][..n] == rs[..n];
    } else {
      assert rs[..n] == rs;
    }
  }

  lemma AnyCutSnoc(items: seq<Item>, item: Item)
    ensures AnyCut(items + [item]) <==> AnyCut(items) || item.cut
  {
    var more := items + [item];
    assert more[|items|] == item;
    if AnyCut(items) {
      var i :| 0 <= i < |items| && items[i].cut;
      assert more[i].cut;
    }
  }

  /** The items account for the length, the numbering and the warnings of the packing. */
  lemma {:induction false} ItemsAccount(header: string, budget: nat, rs: seq<Record>)
    ensures var p, items := PackAll(header, budget, NOTHING, rs), ItemsOf(header, budget, rs);
            |Base(header, p)| == Place(|header| + 1, items) && p.shown == ShownIn(items) &&
            (Truncates(p.warnings) <==> AnyCut(items))
    decreases |rs|
  {
    if rs == [] {
      EmptyBase(header);
    } else {
      var n := |rs| - 1;
      var p, items := PackAll(header, budget, NOTHING, rs[..n]), ItemsOf(header, budget, rs[..n]);
      ItemsAccount(header, budget, rs[..n]);
      StepAdvances(header, budget, p, rs[n], PackAll(header, budget, NOTHING, rs));
      AnyCutSnoc(items, ItemOf(header, budget, p, rs[n]));
      assert ItemsOf(header, budget, rs)[..n] == items;
    }
  }

  lemma ItemStands(text: string, packet: Packet, budget: nat, header: string, rs: seq<Record>, n: nat, q: Packing)
    requires n < |rs| && q == PackAll(header, budget, NOTHING, rs)
    requires q.sources == packet.sources && StartsWith(text, Base(header, q))
    ensures Stands(text, |header| + 1, packet, budget, rs, ItemsOf(header, budget, rs), n)
  {
    var p, m := PackAll(header, budget, NOTHING, rs[..n]), PackAll(header, budget, NOTHING, rs[..n + 1]);
    PackAllSnoc(header, budget, rs, n);
    PackingAccounts(header, budget, rs[..n]);
    ItemsAccount(header, budget, rs[..n]);
    ItemsOfPrefix(header, budget, rs, n);
    ItemsOfPrefix(header, budget, rs, n + 1);
    assert rs[..n + 1][..n] == rs[..n];
    assert ItemsOf(header, budget, rs)[..n + 1][n] == ItemOf(header, budget, p, rs[n]);
    BasesExtend(header, budget, rs, n + 1);
    StartsTransitive(text, Base(header, q), Base(header, m));
    StepPrints(text, packet, budget, header, p, rs[n], m);
  }

  lemma AppendedStarts(text: string, a: string, b: string)
    requires text == a + b
    ensures StartsWith(text, a)
  {
  }

  lemma {:induction false} OmissionsAreWarned(header: string, budget: nat, rs: seq<Record>)
    ensures var q := PackAll(header, budget, NOTHING, rs);
            (Exhausts(q.warnings) <==> q.omitted > 0) && !Clamps(q.warnings)
    decreases |rs|
  {
    if rs != [] {
      OmissionsAreWarned(header, budget, rs[..|rs| - 1]);
      StepWarns(header, budget, PackAll(header, budget, NOTHING, rs[..|rs| - 1]), rs[|rs| - 1]);
    }
  }

  lemma StepWarns(header: string, budget: nat, p: Packing, r: Record)
    ensures var q := PackOne(header, budget, p, r);
            (Exhausts(q.warnings) <==> Exhausts(p.warnings) || q.omitted > p.omitted) && q.omitted >= p.omitted &&
            (Clamps(q.warnings) <==> Clamps(p.warnings))
  {
    OmittedWarns(p);
    CutWarns(p);
  }

  lemma PacketReports(header: string, budget: nat, rs: seq<Record>, q: Packing)
    requires budget >= 3 && q == PackAll(header, budget, NOTHING, rs)
    ensures Reports(Finished(header, budget, q), q)
    ensures Clamps(Finished(header, budget, q).warnings) <==> |Unclamped(header, q)| > budget
  {
    PackingAccounts(header, budget, rs);
    OmissionsAreWarned(header, budget, rs);
    ClampWarns(q);
  }

  /** The text before clamping is the header, then for each record in its turn the
      numbered item as far as it fits, then the footer; sources, counts and warnings of
      the packet say the same. */
  ghost predicate Exhibits(packet: Packet, header: string, budget: nat, rs: seq<Record>, text: string, items: seq<Item>) {
    StartsWith(text, header) && Presents(text, |header|, packet, budget, rs, items) && ClampedTo(packet, budget, text)
  }

  predicate ClampedTo(packet: Packet, budget: nat, text: string) {
    packet.text == (if |text| > budget >= 3 then text[..budget - 3] + "..." else text) &&
    ("budget_clamped" in packet.warnings <==> |text| > budget)
  }

  lemma UnclampedText(header: string, q: Packing)
    ensures Unclamped(header, q) == Base(header, q) + "\n" + Footer(q)
    ensures StartsWith(Unclamped(header, q), Base(header, q))
  {
    LinesSnoc([header, ""] + q.body, Footer(q));
    AppendedStarts(Unclamped(header, q), Base(header, q), "\n" + Footer(q));
  }

  lemma AllStand(text: string, packet: Packet, budget: nat, header: string, rs: seq<Record>, items: seq<Item>, start: nat,
                 q: Packing)
    requires q == PackAll(header, budget, NOTHING, rs) && items == ItemsOf(header, budget, rs) && start == |header| + 1
    requires q.sources == packet.sources && StartsWith(text, Base(header, q))
    ensures forall n :: 0 <= n < |rs| ==> Stands(text, start, packet, budget, rs, items, n)
  {
    forall n | 0 <= n < |rs| ensures Stands(text, start, packet, budget, rs, items, n) {
      ItemStands(text, packet, budget, header, rs, n, q);
    }
  }

  lemma FooterStands(header: string, budget: nat, rs: seq<Record>, q: Packing, packet: Packet, text: string, items: seq<Item>,
                     start: nat)
    requires q == PackAll(header, budget, NOTHING, rs) && items == ItemsOf(header, budget, rs) && start == |header| + 1
    requires Reports(packet, q) && text == Base(header, q) + "\n" + Footer(q)
    ensures FooterFollows(text, start, packet, items)
  {
    PackingAccounts(header, budget, rs);
    ItemsAccount(header, budget, rs);
    PresentsEnd(text, packet, header, q);
  }

  lemma HeaderStarts(header: string, budget: nat, rs: seq<Record>, q: Packing, text: string)
    requires q == PackAll(header, budget, NOTHING, rs) && StartsWith(text, Base(header, q))
    ensures StartsWith(text, header + "\n")
  {
    assert rs[..0] == [];
    EmptyBase(header);
    BasesExtend(header, budget, rs, 0);
    StartsTransitive(text, Base(header, q), Base(header, NOTHING));
  }

  lemma FinishedPresents(header: string, budget: nat, rs: seq<Record>, q: Packing, packet: Packet, text: string, items: seq<Item>,
                         start: nat)
    requires q == PackAll(header, budget, NOTHING, rs) && items == ItemsOf(header, budget, rs) && start == |header| + 1
    requires packet.sources == q.sources && StartsWith(text, Base(header, q)) && FooterFollows(text, start, packet, items)
    ensures Presents(text, start, packet, budget, rs, items)
  {
    AllStand(text, packet, budget, header, rs, items, start, q);
  }

  lemma TextPresents(header: string, budget: nat, rs: seq<Record>, q: Packing, packet: Packet, text: string, items: seq<Item>,
                     start: nat)
    requires q == PackAll(header, budget, NOTHING, rs) && items == ItemsOf(header, budget, rs) && start == |header| + 1
    requires Reports(packet, q) && text == Unclamped(header, q)
    ensures Presents(text, start, packet, budget, rs, items) && StartsWith(text, header + "\n")
  {
    UnclampedText(header, q);
    HeaderStarts(header, budget, rs, q, text);
    FooterStands(header, budget, rs, q, packet, text, items, start);
    FinishedPresents(header, budget, rs, q, packet, text, items, start);
  }

  lemma FinishedIsClamped(header: string, budget: nat, rs: seq<Record>, q: Packing)
    requires budget >= 3 && q == PackAll(header, budget, NOTHING, rs)
    ensures ClampedTo(Finished(header, budget, q), budget, Unclamped(header, q))
  {
    PacketReports(header, budget, rs, q);
  }

  /** A rendered packet exhibits the ranked eligible records. */
  lemma PacketExhibitsRanking(records: seq<Record>, purpose: string, domain: string, tokens: int, tiers: Option<seq<string>>)
    returns (text: string, items: seq<Item>)
    ensures Exhibits(Rendered(records, purpose, domain, tokens, tiers),
                     "== BrainCase Memory Packet: " + purpose + " (" + domain + ") ==" + "\n",
                     if 4 * tokens > 80 then 4 * tokens else 80, Ranked(EligibleOf(records, domain, tiers)), text, items)
  {
    var header, budget := PacketHeader(purpose, domain), BudgetChars(tokens);
    var rs := Ranked(EligibleOf(records, domain, tiers));
    var q := PackAll(header, budget, NOTHING, rs);
    text, items := Unclamped(header, q), ItemsOf(header, budget, rs);
    PacketReports(header, budget, rs, q);
    FinishedIsClamped(header, budget, rs, q);
    TextPresents(header, budget, rs, q, Finished(header, budget, q), text, items, |header + "\n"|);
  }

  lemma EmptyBase(header: string)
    ensures Base(header, NOTHING) == header + "\n"
  {
    assert [header, ""] + NOTHING.body == [header] + [""];
    LinesSnoc([header], "");
  }

  // ---------------------------------------------------------------------------
  // A packet without warnings
  // ---------------------------------------------------------------------------

  /** The text has the record's item in full. */
  ghost predicate PrintsAll(text: string, r: Record) {
    exists claim, summary ::
      Abridged(r.claim, 200, claim) && Abridged(r.summary, 150, summary) &&
      Contains(text, "[" + r.tier + "/" + r.recordType + "] " + claim +
                     (if summary == "" || summary == claim then "" else "\n   Summary: " + summary) +
                     "\n   Source: " + r.id + "\n")
  }

  lemma {:induction false} AllShown(items: seq<Item>, i: nat)
    requires i < |items| && ShownIn(items) == |items|
    ensures items[i].line.Some?
    decreases |items|
  {
    if i < |items| - 1 {
      AllShown(items[..|items| - 1], i);
    }
  }

  lemma NothingReported(text: string, k: nat, packet: Packet, items: seq<Item>)
    requires FooterAt(text, k, packet, ShownIn(items), |items| - ShownIn(items), AnyCut(items)) && packet.warnings == []
    ensures ShownIn(items) == |items| && !AnyCut(items)
  {
  }

  lemma WholeLine(r: Record, room: int, line: string)
    requires Line(r, room, Some(line), false)
    ensures exists claim, summary ::
              Abridged(r.claim, 200, claim) && Abridged(r.summary, 150, summary) && IsWhole(r, claim, summary, line)
  {
    var claim, summary :| Abridged(r.claim, 200, claim) && Abridged(r.summary, 150, summary) &&
                          LineOf(r, claim, summary, room, Some(line), false);
    assert IsWhole(r, claim, summary, line);
  }

  predicate IsWhole(r: Record, claim: string, summary: string, line: string) {
    line == "[" + r.tier + "/" + r.recordType + "]" + " " + claim +
            (if summary == "" || summary == claim then "" else "\n   Summary: " + summary) + ("\n   Source: " + r.id)
  }

  lemma PrintedContains(text: string, k: nat, number: nat, line: string)
    requires At(text, k, Printed(number, Some(line)))
    ensures Contains(text, line + "\n")
  {
    var before := "\n" + (Decimal(number) + ". ");
    assert "\n" + (Decimal(number) + ". " + line) + "\n" == before + (line + "\n");
    assert OccursAt(before + (line + "\n"), line + "\n", |before|);
    ContainsTransitive(text, before + (line + "\n"), line + "\n") by {
      assert OccursAt(text, before + (line + "\n"), k);
    }
  }

  lemma WholeLinePrints(text: string, r: Record, room: int, line: string)
    requires Line(r, room, Some(line), false) && Contains(text, line + "\n")
    ensures PrintsAll(text, r)
  {
    WholeLine(r, room, line);
    var claim, summary :| Abridged(r.claim, 200, claim) && Abridged(r.summary, 150, summary) && IsWhole(r, claim, summary, line);
    SameText(r, claim, summary, line);
  }

  lemma SameText(r: Record, claim: string, summary: string, line: string)
    requires IsWhole(r, claim, summary, line)
    ensures line + "\n" == "[" + r.tier + "/" + r.recordType + "] " + claim +
                           (if summary == "" || summary == claim then "" else "\n   Summary: " + summary) +
                           "\n   Source: " + r.id + "\n"
  {
    var note := if summary == "" || summary == claim then "" else "\n   Summary: " + summary;
    var a := "[" + r.tier + "/" + r.recordType;
    assert a + "]" + " " == a + "] ";
    var b := a + "] " + claim + note;
    assert b + ("\n   Source: " + r.id) + "\n" == b + "\n   Source: " + r.id + "\n";
  }

  lemma WholeItemPrints(text: string, k: nat, packet: Packet, budget: nat, r: Record, shown: nat, item: Item)
    requires ItemAt(text, k, packet, budget, r, shown, item) && item.line.Some? && !item.cut
    ensures PrintsAll(text, r)
  {
    PrintedContains(text, k, shown + 1, item.line.value);
    WholeLinePrints(text, r, budget - k - 28 - |Decimal(shown + 1) + ". "|, item.line.value);
  }

  lemma PresentedIsPrinted(text: string, start: nat, packet: Packet, budget: nat, rs: seq<Record>, items: seq<Item>, i: nat)
    requires Presents(text, start, packet, budget, rs, items) && i < |rs| && packet.warnings == []
    ensures PrintsAll(text, rs[i])
  {
    NothingReported(text, Place(start, items), packet, items);
    AllShown(items, i);
    assert Stands(text, start, packet, budget, rs, items, i);
    WholeItemPrints(text, Place(start, items[..i]), packet, budget, rs[i], ShownIn(items[..i]), items[i]);
  }

  /** A packet without warnings prints every active, renderable record of the domain and
      tiers in full: claim, summary and id. */
  lemma NoWarningPrintsAll(records: seq<Record>, purpose: string, domain: string, tokens: int, tiers: Option<seq<string>>,
                           r: Record)
    requires r in records && r.status == "active" && r.visibility == "renderable" && r.memoryDomain == domain
    requires tiers.Some? ==> r.tier in tiers.value
    requires Rendered(records, purpose, domain, tokens, tiers).warnings == []
    ensures PrintsAll(Rendered(records, purpose, domain, tokens, tiers).text, r)
  {
    var text, items := PacketExhibitsRanking(records, purpose, domain, tokens, tiers);
    EligibleOfMembers(records, domain, tiers, r);
    var eligible := EligibleOf(records, domain, tiers);
    RankedIsSortedPermutation(eligible);
    assert r in multiset(Ranked(eligible));
    var i :| 0 <= i < |Ranked(eligible)| && Ranked(eligible)[i] == r;
    PresentedIsPrinted(text, |PacketHeader(purpose, domain) + "\n"|, Rendered(records, purpose, domain, tokens, tiers),
                       BudgetChars(tokens), Ranked(eligible), items, i);
  }

  // ---------------------------------------------------------------------------
  // Numbers and order
  // ---------------------------------------------------------------------------

  /** The number a string of digits stands for. */
  function NumberOf(s: string): int {
    if s == "" then 0 else 10 * NumberOf(s[..|s| - 1]) + (s[|s| - 1] as int - '0' as int)
  }

  /** Numbers are printed in decimal, without leading zeros. */
  lemma {:induction false} DecimalIsNumeral(n: nat)
    ensures NumberOf(Decimal(n)) == n && Decimal(n) != ""
    ensures forall i :: 0 <= i < |Decimal(n)| ==> '0' <= Decimal(n)[i] <= '9'
    ensures n > 0 ==> Decimal(n)[0] != '0'
  {
    var last := [(('0' as int) + n % 10) as char];
    if n >= 10 {
      DecimalIsNumeral(n / 10);
      assert Decimal(n)[..|Decimal(n)| - 1] == Decimal(n / 10);
    } else {
      assert Decimal(n) == last && NumberOf(last[..0]) == 0;
    }
  }

  /** A higher place in the packet means no lower importance, then no older update, then
      no older creation. */
  lemma RankingFollowsKeys(records: seq<Record>, i: nat, j: nat)
    requires i < j < |records|
    ensures var a, b := Ranked(records)[i], Ranked(records)[j];
            a.importance >= b.importance &&
            (a.importance == b.importance ==> a.updatedAt >= b.updatedAt) &&
            (a.importance == b.importance && a.updatedAt == b.updatedAt ==> a.createdAt >= b.createdAt)
  {
    RankedIsSortedPermutation(records);
  }
}
