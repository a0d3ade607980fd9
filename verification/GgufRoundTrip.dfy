/** What the GGUF reader guarantees about the encoding: everything encoded is read
    back, everything accepted is an encoding, and nothing truncated is accepted. */
module GgufRoundTrip {
  import opened GgufFormat

  /** data holds the bytes b at position pos. */
  predicate Holds(data: Bytes, pos: nat, b: Bytes) {
    pos + |b| <= |data| && data[pos..pos + |b|] == b
  }

  lemma HoldsSplit(data: Bytes, pos: nat, a: Bytes, b: Bytes)
    ensures Holds(data, pos, a + b) <==> Holds(data, pos, a) && Holds(data, pos + |a|, b)
  {
    if Holds(data, pos, a + b) {
      assert data[pos..pos + |a|] == (a + b)[..|a|];
      assert data[pos + |a|..pos + |a| + |b|] == (a + b)[|a|..];
    }
    if Holds(data, pos, a) && Holds(data, pos + |a|, b) {
      assert data[pos..pos + |a + b|] == data[pos..pos + |a|] + data[pos + |a|..pos + |a| + |b|];
    }
  }

  // ---------------------------------------------------------------------------
  // Encoding then reading
  // ---------------------------------------------------------------------------

  lemma ReadUnsignedEncoded(data: Bytes, pos: nat, n: nat, width: nat)
    requires n < Pow256(width) && Holds(data, pos, LittleEndian(n, width))
    ensures ReadUnsigned(data, pos, width) == Got(n, pos + width)
  {
    LittleEndianRoundTrip(n, width);
  }

  lemma ReadTextEncoded(data: Bytes, pos: nat, bytes: Bytes)
    requires |bytes| < Pow256(8) && Holds(data, pos, EncodeText(bytes))
    ensures ReadText(data, pos) == Got(bytes, pos + |EncodeText(bytes)|)
  {
    HoldsSplit(data, pos, LittleEndian(|bytes|, 8), bytes);
    ReadUnsignedEncoded(data, pos, |bytes|, 8);
  }

  lemma {:induction false} ReadValueEncoded(data: Bytes, pos: nat, v: Value)
    requires Encodable(v) && Holds(data, pos, EncodeValue(v))
    ensures ReadValue(data, pos, TypeId(v)) == Got(v, pos + |EncodeValue(v)|)
    decreases v
  {
    match v
    case Integer(id, n) =>
      ReadUnsignedEncoded(data, pos, TwosComplement(n, Width(id)), Width(id));
    case Float(id, bits) =>
      ReadUnsignedEncoded(data, pos, bits, Width(id));
    case Bool(raw) =>
    case Text(bytes) =>
      ReadTextEncoded(data, pos, bytes);
    case Array(element, items) =>
      var head := LittleEndian(element, 4) + LittleEndian(|items|, 8);
      HoldsSplit(data, pos, head, EncodeItems(items, element));
      HoldsSplit(data, pos, LittleEndian(element, 4), LittleEndian(|items|, 8));
      ReadUnsignedEncoded(data, pos, element, 4);
      ReadUnsignedEncoded(data, pos + 4, |items|, 8);
      ReadItemsEncoded(data, pos + 12, items, element);
  }

  lemma {:induction false} ReadItemsEncoded(data: Bytes, pos: nat, items: seq<Value>, element: nat)
    requires AllEncodable(items, element) && Holds(data, pos, EncodeItems(items, element))
    ensures ReadItems(data, pos, element, |items|) == Got(items, pos + |EncodeItems(items, element)|)
    decreases items
  {
    if items != [] {
      var first, rest := items[0], items[1..];
      var next := pos + |EncodeValue(first)|;
      assert items == [first] + rest;
      HoldsSplit(data, pos, EncodeValue(first), EncodeItems(rest, element));
      ReadValueEncoded(data, pos, first);
      ReadItemsEncoded(data, next, rest, element);
      ReadItemsStep(data, pos, element, |items|, first, next);
    }
  }

  lemma ReadItemsStep(data: Bytes, pos: nat, element: nat, count: nat, first: Value, next: nat)
    requires pos <= |data| && count > 0 && ReadValue(data, pos, element) == Got(first, next)
    ensures match ReadItems(data, next, element, count - 1)
            case Fail(e) => ReadItems(data, pos, element, count) == Fail(e)
            case Got(rest, end) => ReadItems(data, pos, element, count) == Got([first] + rest, end)
  {
  }

  lemma ReadEntryFromParts(data: Bytes, pos: nat, key: Read<Bytes>, id: Read<nat>, v: Read<Value>)
    requires pos <= |data| && key == ReadText(data, pos) && key.Got?
    requires id == ReadUnsigned(data, key.next, 4) && id.Got?
    requires v == ReadValue(data, id.next, id.value) && v.Got?
    ensures ReadEntry(data, pos) == Got(Entry(key.value, v.value), v.next)
  {
  }

  lemma EntryParts(data: Bytes, pos: nat, key: Bytes, id: Bytes, value: Bytes)
    ensures Holds(data, pos, key + id + value) <==>
            Holds(data, pos, key) && Holds(data, pos + |key|, id) && Holds(data, pos + |key| + |id|, value)
    ensures |key + id + value| == |key| + |id| + |value|
  {
    HoldsSplit(data, pos, key + id, value);
    HoldsSplit(data, pos, key, id);
  }

  lemma ReadEntryEncoded(data: Bytes, pos: nat, e: Entry)
    requires EncodableEntry(e) && Holds(data, pos, EncodeEntry(e))
    ensures ReadEntry(data, pos) == Got(e, pos + |EncodeEntry(e)|)
  {
    var key, id, value := EncodeText(e.key), LittleEndian(TypeId(e.value), 4), EncodeValue(e.value);
    EntryParts(data, pos, key, id, value);
    ReadTextEncoded(data, pos, e.key);
    ReadTypeIdEncoded(data, pos + |key|, e.value);
    ReadValueEncoded(data, pos + |key| + |id|, e.value);
    ReadEntryFromParts(data, pos, Got(e.key, pos + |key|), Got(TypeId(e.value), pos + |key| + |id|),
                       Got(e.value, pos + |key| + |id| + |value|));
  }

  lemma ReadTypeIdEncoded(data: Bytes, pos: nat, v: Value)
    requires Encodable(v) && Holds(data, pos, LittleEndian(TypeId(v), 4))
    ensures ReadUnsigned(data, pos, 4) == Got(TypeId(v), pos + |LittleEndian(TypeId(v), 4)|)
  {
    assert TypeId(v) < Pow256(4) by { assert Pow256(4) == 256 * Pow256(3); }
    ReadUnsignedEncoded(data, pos, TypeId(v), 4);
  }

  /** Where the encodings of the entries begin, and where the last one ends. */
  function Positions(pos: nat, entries: seq<Entry>): (r: seq<nat>)
    requires EncodableEntries(entries)
    ensures |r| == |entries| + 1 && r[0] == pos
    decreases |entries|
  {
    if entries == [] then [pos] else [pos] + Positions(pos + |EncodeEntry(entries[0])|, entries[1..])
  }

  predicate EntryBetween(data: Bytes, e: Entry, start: nat, end: nat) {
    EncodableEntry(e) && Holds(data, start, EncodeEntry(e)) && end == start + |EncodeEntry(e)|
  }

  lemma HeadHolds(data: Bytes, pos: nat, entries: seq<Entry>) returns (next: nat)
    requires EncodableEntries(entries) && entries != [] && Holds(data, pos, EncodeEntries(entries))
    ensures EntryBetween(data, entries[0], pos, next) && Holds(data, next, EncodeEntries(entries[1..]))
    ensures next + |EncodeEntries(entries[1..])| == pos + |EncodeEntries(entries)|
    ensures Positions(pos, entries) == [pos] + Positions(next, entries[1..])
  {
    next := pos + |EncodeEntry(entries[0])|;
    HoldsSplit(data, pos, EncodeEntry(entries[0]), EncodeEntries(entries[1..]));
  }

  lemma {:induction false} PositionsHold(data: Bytes, pos: nat, entries: seq<Entry>)
    requires EncodableEntries(entries) && Holds(data, pos, EncodeEntries(entries))
    ensures var at := Positions(pos, entries);
            at[|entries|] == pos + |EncodeEntries(entries)| &&
            forall i :: 0 <= i < |entries| ==> EntryBetween(data, entries[i], at[i], at[i + 1])
    decreases |entries|
  {
    if entries != [] {
      var next := HeadHolds(data, pos, entries);
      PositionsHold(data, next, entries[1..]);
      var at := Positions(pos, entries);
      forall i | 0 <= i < |entries| ensures EntryBetween(data, entries[i], at[i], at[i + 1]) {
        if i > 0 {
          assert EntryBetween(data, entries[1..][i - 1], Positions(next, entries[1..])[i - 1], Positions(next, entries[1..])[i]);
        }
      }
    }
  }

  predicate ReadsEntry(data: Bytes, e: Entry, start: nat, end: nat) {
    start <= |data| && ReadEntry(data, start) == Got(e, end)
  }

  lemma {:induction false} ReadEntriesAt(data: Bytes, entries: seq<Entry>, at: seq<nat>)
    requires |at| == |entries| + 1 && at[0] <= |data|
    requires forall i :: 0 <= i < |entries| ==> ReadsEntry(data, entries[i], at[i], at[i + 1])
    ensures ReadEntries(data, at[0], |entries|) == Got(entries, at[|entries|])
    decreases |entries|
  {
    if entries != [] {
      assert ReadsEntry(data, entries[0], at[0], at[1]);
      forall i | 0 <= i < |entries| - 1 ensures ReadsEntry(data, entries[1..][i], at[1..][i], at[1..][i + 1]) {
        assert ReadsEntry(data, entries[i + 1], at[i + 1], at[i + 2]);
      }
      ReadEntriesAt(data, entries[1..], at[1..]);
      assert entries == [entries[0]] + entries[1..];
    }
  }

  lemma EncodedEntryIsRead(data: Bytes, e: Entry, start: nat, end: nat)
    requires EntryBetween(data, e, start, end)
    ensures ReadsEntry(data, e, start, end)
  {
    ReadEntryEncoded(data, start, e);
  }

  lemma ReadEntriesEncoded(data: Bytes, pos: nat, entries: seq<Entry>)
    requires EncodableEntries(entries) && Holds(data, pos, EncodeEntries(entries))
    ensures ReadEntries(data, pos, |entries|) == Got(entries, pos + |EncodeEntries(entries)|)
  {
    var at := Positions(pos, entries);
    PositionsHold(data, pos, entries);
    forall i | 0 <= i < |entries| ensures ReadsEntry(data, entries[i], at[i], at[i + 1]) {
      EncodedEntryIsRead(data, entries[i], at[i], at[i + 1]);
    }
    ReadEntriesAt(data, entries, at);
  }

  lemma HeaderParts(data: Bytes, version: nat, tensors: nat, count: nat)
    ensures |EncodeHeader(version, tensors, count)| == 24
    ensures Holds(data, 0, EncodeHeader(version, tensors, count)) <==>
            Holds(data, 0, MAGIC) && Holds(data, 4, LittleEndian(version, 4)) &&
            Holds(data, 8, LittleEndian(tensors, 8)) && Holds(data, 16, LittleEndian(count, 8))
  {
    var v, t, c := LittleEndian(version, 4), LittleEndian(tensors, 8), LittleEndian(count, 8);
    HoldsSplit(data, 0, MAGIC + v + t, c);
    HoldsSplit(data, 0, MAGIC + v, t);
    HoldsSplit(data, 0, MAGIC, v);
  }

  /** Round trip: whatever follows the encoding, the reader returns the encoded file
      and has consumed exactly the encoded bytes. */
  lemma RoundTrip(f: File, trailing: Bytes)
    requires EncodableFile(f)
    ensures ReadFile(EncodeFile(f) + trailing) == Got(f, |EncodeFile(f)|)
  {
    var data := EncodeFile(f) + trailing;
    var header := EncodeHeader(f.version, f.tensorCount, |f.entries|);
    assert Holds(data, 0, EncodeFile(f));
    HoldsSplit(data, 0, header, EncodeEntries(f.entries));
    HeaderParts(data, f.version, f.tensorCount, |f.entries|);
    assert Pow256(4) > 3 by { assert Pow256(4) == 256 * Pow256(3); }
    assert data[..4] == data[0..4];
    ReadUnsignedEncoded(data, 4, f.version, 4);
    ReadUnsignedEncoded(data, 8, f.tensorCount, 8);
    ReadUnsignedEncoded(data, 16, |f.entries|, 8);
    ReadEntriesEncoded(data, 24, f.entries);
  }

  // ---------------------------------------------------------------------------
  // Reading then encoding: only encodings are accepted
  // ---------------------------------------------------------------------------

  lemma ReadUnsignedIsEncoding(data: Bytes, pos: nat, width: nat)
    requires pos <= |data| && ReadUnsigned(data, pos, width).Got?
    ensures ReadUnsigned(data, pos, width).value < Pow256(width)
    ensures Holds(data, pos, LittleEndian(ReadUnsigned(data, pos, width).value, width))
  {
    FromLittleEndianRoundTrip(data[pos..pos + width]);
  }

  lemma ReadTextIsEncoding(data: Bytes, pos: nat)
    requires pos <= |data| && ReadText(data, pos).Got?
    ensures |ReadText(data, pos).value| < Pow256(8)
    ensures Holds(data, pos, EncodeText(ReadText(data, pos).value))
  {
    ReadUnsignedIsEncoding(data, pos, 8);
    HoldsSplit(data, pos, LittleEndian(|ReadText(data, pos).value|, 8), ReadText(data, pos).value);
  }

  lemma ReadScalarIsEncoding(data: Bytes, pos: nat, id: nat)
    requires pos <= |data| && ReadScalar(data, pos, id).Got?
    ensures var v := ReadScalar(data, pos, id).value;
            Encodable(v) && TypeId(v) == id && !v.Array? && Holds(data, pos, EncodeValue(v)) &&
            ReadScalar(data, pos, id).next == pos + |EncodeValue(v)|
  {
    if id == STRING_ID {
      ReadTextIsEncoding(data, pos);
    } else if id == BOOL_ID {
      assert data[pos..pos + 1] == [data[pos]];
    } else {
      ReadUnsignedIsEncoding(data, pos, Width(id));
    }
  }

  lemma {:induction false} ReadValueIsEncoding(data: Bytes, pos: nat, id: nat)
    requires pos <= |data| && ReadValue(data, pos, id).Got?
    ensures var v := ReadValue(data, pos, id).value;
            Encodable(v) && TypeId(v) == id && Holds(data, pos, EncodeValue(v)) &&
            ReadValue(data, pos, id).next == pos + |EncodeValue(v)|
    decreases |data| - pos, 0, 0
  {
    if id == ARRAY_ID {
      var element := ReadUnsigned(data, pos, 4).value;
      var count := ReadUnsigned(data, pos + 4, 8).value;
      ReadUnsignedIsEncoding(data, pos, 4);
      ReadUnsignedIsEncoding(data, pos + 4, 8);
      ReadItemsIsEncoding(data, pos + 12, element, count);
      var items := ReadItems(data, pos + 12, element, count).value;
      HoldsSplit(data, pos, LittleEndian(element, 4), LittleEndian(count, 8));
      HoldsSplit(data, pos, LittleEndian(element, 4) + LittleEndian(count, 8), EncodeItems(items, element));
    } else {
      ReadScalarIsEncoding(data, pos, id);
    }
  }

  lemma {:induction false} ReadItemsIsEncoding(data: Bytes, pos: nat, element: nat, count: nat)
    requires pos <= |data| && ReadItems(data, pos, element, count).Got?
    ensures var items := ReadItems(data, pos, element, count).value;
            |items| == count && AllEncodable(items, element) && Holds(data, pos, EncodeItems(items, element)) &&
            ReadItems(data, pos, element, count).next == pos + |EncodeItems(items, element)|
    decreases |data| - pos, 1, count
  {
    if count > 0 {
      var first := ReadValue(data, pos, element);
      var rest := ReadItems(data, first.next, element, count - 1);
      ReadValueIsEncoding(data, pos, element);
      ReadItemsIsEncoding(data, first.next, element, count - 1);
      EncodedItemsJoin(data, pos, first.value, rest.value, element);
    }
  }

  lemma EncodedItemsJoin(data: Bytes, pos: nat, first: Value, rest: seq<Value>, element: nat)
    requires Encodable(first) && TypeId(first) == element && AllEncodable(rest, element)
    requires Holds(data, pos, EncodeValue(first)) && Holds(data, pos + |EncodeValue(first)|, EncodeItems(rest, element))
    ensures AllEncodable([first] + rest, element) && Holds(data, pos, EncodeItems([first] + rest, element))
    ensures |EncodeItems([first] + rest, element)| == |EncodeValue(first)| + |EncodeItems(rest, element)|
  {
    assert ([first] + rest)[1..] == rest;
    HoldsSplit(data, pos, EncodeValue(first), EncodeItems(rest, element));
  }

  lemma ReadEntryIsEncoding(data: Bytes, pos: nat)
    requires pos <= |data| && ReadEntry(data, pos).Got?
    ensures EntryBetween(data, ReadEntry(data, pos).value, pos, ReadEntry(data, pos).next)
  {
    var key := ReadText(data, pos);
    var id := ReadUnsigned(data, key.next, 4);
    var v := ReadValue(data, id.next, id.value);
    ReadTextIsEncoding(data, pos);
    ReadUnsignedIsEncoding(data, key.next, 4);
    ReadValueIsEncoding(data, id.next, id.value);
    PartsAreEntry(data, pos, key.value, key.next, id.next, v.value);
  }

  lemma PartsAreEntry(data: Bytes, pos: nat, key: Bytes, idAt: nat, valueAt: nat, v: Value)
    requires |key| < Pow256(8) && Encodable(v)
    requires Holds(data, pos, EncodeText(key)) && idAt == pos + |EncodeText(key)|
    requires Holds(data, idAt, LittleEndian(TypeId(v), 4)) && valueAt == idAt + |LittleEndian(TypeId(v), 4)|
    requires Holds(data, valueAt, EncodeValue(v))
    ensures EntryBetween(data, Entry(key, v), pos, valueAt + |EncodeValue(v)|)
  {
    EntryParts(data, pos, EncodeText(key), LittleEndian(TypeId(v), 4), EncodeValue(v));
  }

  /** Consecutive encodings of an entry and of a list are the encoding of the list. */
  lemma EncodedEntriesJoin(data: Bytes, pos: nat, first: Entry, rest: seq<Entry>)
    requires EncodableEntry(first) && EncodableEntries(rest)
    ensures EncodableEntries([first] + rest)
    ensures |EncodeEntries([first] + rest)| == |EncodeEntry(first)| + |EncodeEntries(rest)|
    ensures Holds(data, pos, EncodeEntries([first] + rest)) <==>
            Holds(data, pos, EncodeEntry(first)) && Holds(data, pos + |EncodeEntry(first)|, EncodeEntries(rest))
  {
    assert ([first] + rest)[1..] == rest;
    HoldsSplit(data, pos, EncodeEntry(first), EncodeEntries(rest));
  }

  lemma FirstEntryIsEncoding(data: Bytes, pos: nat, first: Entry, mid: nat, rest: seq<Entry>, next: nat, es: seq<Entry>)
    requires pos <= |data| && ReadEntry(data, pos) == Got(first, mid) && es == [first] + rest
    requires EncodableEntries(rest) && Holds(data, mid, EncodeEntries(rest)) && next == mid + |EncodeEntries(rest)|
    ensures EncodableEntries(es) && Holds(data, pos, EncodeEntries(es)) && next == pos + |EncodeEntries(es)|
  {
    ReadEntryIsEncoding(data, pos);
    EncodedEntriesJoin(data, pos, first, rest);
  }

  lemma {:induction false} ReadEntriesIsEncoding(data: Bytes, pos: nat, count: nat, es: seq<Entry>, next: nat)
    requires pos <= |data| && ReadEntries(data, pos, count) == Got(es, next)
    ensures |es| == count
    ensures EncodableEntries(es) && Holds(data, pos, EncodeEntries(es)) && next == pos + |EncodeEntries(es)|
    decreases count
  {
    if count > 0 {
      var first := ReadEntry(data, pos);
      var rest := ReadEntries(data, first.next, count - 1);
      assert first.Got? && rest.Got? && es == [first.value] + rest.value && next == rest.next;
      ReadEntriesIsEncoding(data, first.next, count - 1, rest.value, rest.next);
      FirstEntryIsEncoding(data, pos, first.value, first.next, rest.value, rest.next, es);
    } else {
      assert es == [] && Holds(data, pos, []);
    }
  }

  /** Soundness: an accepted byte string starts with the encoding of what was
      returned.  With RoundTrip: the reader accepts a byte string if and only if
      some prefix of it is the encoding of a file. */
  lemma AcceptedIsEncoding(data: Bytes)
    requires ReadFile(data).Got?
    ensures var f := ReadFile(data).value;
            EncodableFile(f) && |EncodeFile(f)| == ReadFile(data).next && EncodeFile(f) <= data
  {
    var f := ReadFile(data).value;
    ReadUnsignedIsEncoding(data, 4, 4);
    ReadUnsignedIsEncoding(data, 8, 8);
    ReadUnsignedIsEncoding(data, 16, 8);
    var count := ReadUnsigned(data, 16, 8).value;
    ReadEntriesIsEncoding(data, 24, count, f.entries, ReadFile(data).next);
    assert data[..4] == data[0..4];
    HeaderParts(data, f.version, f.tensorCount, count);
    HoldsSplit(data, 0, EncodeHeader(f.version, f.tensorCount, count), EncodeEntries(f.entries));
    assert data[0..|EncodeFile(f)|] == data[..|EncodeFile(f)|];
  }

  lemma PrefixIsRead(f: File, data: Bytes)
    requires EncodableFile(f) && EncodeFile(f) <= data
    ensures ReadFile(data) == Got(f, |EncodeFile(f)|)
  {
    var n := |EncodeFile(f)|;
    RoundTrip(f, data[n..]);
    assert data == EncodeFile(f) + data[n..];
  }

  lemma AcceptedIffEncoding(data: Bytes)
    ensures ReadFile(data).Got? <==> exists f :: EncodableFile(f) && EncodeFile(f) <= data
  {
    if ReadFile(data).Got? {
      AcceptedIsEncoding(data);
    }
    forall f | EncodableFile(f) && EncodeFile(f) <= data
      ensures ReadFile(data).Got?
    {
      PrefixIsRead(f, data);
    }
  }

  /** No encoding is a prefix of another one. */
  lemma PrefixFree(f: File, g: File)
    requires EncodableFile(f) && EncodableFile(g) && EncodeFile(g) <= EncodeFile(f)
    ensures g == f
  {
    PrefixIsRead(f, EncodeFile(f));
    PrefixIsRead(g, EncodeFile(f));
  }

  /** Truncation: every strict prefix of an encoding is rejected. */
  lemma TruncationRejected(f: File, n: nat)
    requires EncodableFile(f) && n < |EncodeFile(f)|
    ensures ReadFile(EncodeFile(f)[..n]).Fail?
  {
    var cut := EncodeFile(f)[..n];
    if ReadFile(cut).Got? {
      AcceptedIsEncoding(cut);
      PrefixFree(f, ReadFile(cut).value);
    }
  }
}
