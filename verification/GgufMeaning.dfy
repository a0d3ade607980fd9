/** What the bytes of a GGUF metadata section mean to Python, stated on the handed-out
    values alone, and the reader's result in those terms. */
module GgufMeaning {
  import opened GgufFormat
  import opened GgufRoundTrip
  import opened GgufReader

  // ---------------------------------------------------------------------------
  // Numbers
  // ---------------------------------------------------------------------------

  /** The bytes are the unsigned number n, lowest byte first. */
  predicate Amounts(b: Bytes, n: nat) {
    var d: seq<int> := b;
    match |b|
    case 1 => n == d[0]
    case 2 => n == d[0] + 0x100 * d[1]
    case 4 => n == d[0] + 0x100 * d[1] + 0x1_0000 * d[2] + 0x100_0000 * d[3]
    case 8 => n == d[0] + 0x100 * d[1] + 0x1_0000 * d[2] + 0x100_0000 * d[3] + 0x1_0000_0000 * d[4] +
                   0x100_0000_0000 * d[5] + 0x1_0000_0000_0000 * d[6] + 0x100_0000_0000_0000 * d[7]
    case _ => false
  }

  predicate IsWidth(w: nat) { w == 1 || w == 2 || w == 4 || w == 8 }

  /** 256 to the w, for the widths in use. */
  function Range(w: nat): nat
    requires IsWidth(w)
  {
    if w == 1 then 0x100 else if w == 2 then 0x1_0000 else if w == 4 then 0x1_0000_0000 else 0x1_0000_0000_0000_0000
  }

  lemma TailDigit(b: Bytes, i: nat)
    requires i < |b|
    ensures FromLittleEndian(b[i..]) == b[i] + 256 * FromLittleEndian(b[i + 1..])
  {
    assert b[i..][1..] == b[i + 1..];
  }

  lemma {:induction false} FromDigits(b: Bytes)
    requires IsWidth(|b|)
    ensures Amounts(b, FromLittleEndian(b))
  {
    assert b[0..] == b && b[|b|..] == [];
    TailDigit(b, 0);
    if |b| > 1 {
      TailDigit(b, 1);
    }
    if |b| > 2 {
      TailDigit(b, 2);
      TailDigit(b, 3);
    }
    if |b| > 4 {
      TailDigit(b, 4);
      TailDigit(b, 5);
      TailDigit(b, 6);
      TailDigit(b, 7);
    }
  }

  lemma PowerValues()
    ensures Pow256(1) == 0x100 && Pow256(2) == 0x1_0000 && Pow256(4) == 0x1_0000_0000 && Pow256(8) == 0x1_0000_0000_0000_0000
  {
    assert Pow256(3) == 256 * Pow256(2) && Pow256(5) == 256 * Pow256(4);
    assert Pow256(6) == 256 * Pow256(5) && Pow256(7) == 256 * Pow256(6);
  }

  /** Fixed-width fields are exactly the little-endian digits. */
  lemma AmountsIff(b: Bytes, n: nat)
    requires IsWidth(|b|)
    ensures Amounts(b, n) <==> n < Range(|b|) && LittleEndian(n, |b|) == b
    ensures Amounts(b, n) <==> n == FromLittleEndian(b)
  {
    PowerValues();
    FromDigits(b);
    FromLittleEndianRoundTrip(b);
    if n < Range(|b|) {
      LittleEndianRoundTrip(n, |b|);
    }
  }

  lemma FieldBytes(b: Bytes, n: nat)
    requires Amounts(b, n)
    ensures n < Pow256(|b|) && LittleEndian(n, |b|) == b
  {
    PowerValues();
    AmountsIff(b, n);
  }

  lemma FieldAmounts(n: nat, width: nat)
    requires IsWidth(width) && n < Pow256(width)
    ensures Amounts(LittleEndian(n, width), n)
  {
    PowerValues();
    AmountsIff(LittleEndian(n, width), n);
  }

  lemma {:induction false} TopBit(b: Bytes)
    requires b != []
    ensures b[|b| - 1] >= 128 <==> 2 * FromLittleEndian(b) >= Pow256(|b|)
  {
    var x, p := FromLittleEndian(b[1..]), Pow256(|b| - 1);
    if |b| > 1 {
      TopBit(b[1..]);
      var half := 128 * Pow256(|b| - 2);
      assert p == 2 * half;
      assert x >= half <==> 2 * (b[0] + 256 * x) >= 256 * p;
    } else {
      assert b[1..] == [];
    }
  }

  // ---------------------------------------------------------------------------
  // Values
  // ---------------------------------------------------------------------------

  predicate IsUnsigned(id: nat, w: nat) {
    (id == 0 && w == 1) || (id == 2 && w == 2) || (id == 4 && w == 4) || (id == 10 && w == 8)
  }

  predicate IsSigned(id: nat, w: nat) {
    (id == 1 && w == 1) || (id == 3 && w == 2) || (id == 5 && w == 4) || (id == 11 && w == 8)
  }

  predicate IsFloat(id: nat, w: nat) {
    (id == 6 && w == 4) || (id == 12 && w == 8)
  }

  /** The bytes are the integer n in the format of the type. */
  predicate IntegerOf(n: int, id: nat, b: Bytes) {
    if IsUnsigned(id, |b|) then n >= 0 && Amounts(b, n)
    else IsSigned(id, |b|) &&
         if b[|b| - 1] < 128 then n >= 0 && Amounts(b, n) else n < 0 <= n + Range(|b|) && Amounts(b, n + Range(|b|))
  }

  /** The bytes b, read as the type, are the Python value v. */
  ghost predicate Stands(v: PyValue, id: nat, b: Bytes, utf8: Bytes -> string) {
    match v
    case PyInt(n) => IntegerOf(n, id, b)
    case PyFloat(t, bits) => t == id && IsFloat(id, |b|) && Amounts(b, bits)
    case PyBool(t) => id == 7 && |b| == 1 && (t <==> b[0] != 0)
    case PyStr(s) => id == 8 && |b| >= 8 && Amounts(b[..8], |b| - 8) && s == utf8(b[8..])
    case PyList(items) =>
      id == 9 && |b| >= 12 && Amounts(b[4..12], |items|) &&
      exists element: nat :: Amounts(b[..4], element) && StandAll(items, element, b[12..], utf8)
  }

  ghost predicate StandAll(items: seq<PyValue>, element: nat, b: Bytes, utf8: Bytes -> string) {
    if items == [] then b == []
    else exists k: nat :: k <= |b| && Stands(items[0], element, b[..k], utf8) && StandAll(items[1..], element, b[k..], utf8)
  }

  lemma NumberStands(v: Value, utf8: Bytes -> string)
    requires Encodable(v) && (v.Integer? || v.Float?)
    ensures Stands(Denote(v, utf8), TypeId(v), EncodeValue(v), utf8)
  {
    var b := EncodeValue(v);
    PowerValues();
    var raw := match v case Integer(id, n) => TwosComplement(n, Width(id)) case Float(_, bits) => bits;
    LittleEndianRoundTrip(raw, |b|);
    TopBit(b);
    AmountsIff(b, raw);
  }

  lemma TextStands(bytes: Bytes, utf8: Bytes -> string)
    requires |bytes| < Pow256(8)
    ensures Stands(PyStr(utf8(bytes)), 8, EncodeText(bytes), utf8)
  {
    var b := EncodeText(bytes);
    assert b[..8] == LittleEndian(|bytes|, 8) && b[8..] == bytes;
    FieldAmounts(|bytes|, 8);
  }

  /** The encoding of a value stands for what the reader hands out for it. */
  lemma {:induction false} EncodingStands(v: Value, utf8: Bytes -> string)
    requires Encodable(v)
    ensures Stands(Denote(v, utf8), TypeId(v), EncodeValue(v), utf8)
    decreases v, 0
  {
    match v {
      case Integer(_, _) => NumberStands(v, utf8);
      case Float(_, _) => NumberStands(v, utf8);
      case Bool(_) =>
      case Text(bytes) => TextStands(bytes, utf8);
      case Array(element, items) =>
        EncodedItemsStand(items, element, utf8);
        ListStands(items, element, utf8);
    }
  }

  lemma ListStands(items: seq<Value>, element: nat, utf8: Bytes -> string)
    requires Encodable(Array(element, items))
    requires StandAll(DenoteAll(items, utf8), element, EncodeItems(items, element), utf8)
    ensures Stands(PyList(DenoteAll(items, utf8)), 9, EncodeValue(Array(element, items)), utf8)
  {
    var head, count, rest := LittleEndian(element, 4), LittleEndian(|items|, 8), EncodeItems(items, element);
    var b := EncodeValue(Array(element, items));
    assert b == head + count + rest;
    assert b[..4] == head && b[4..12] == count && b[12..] == rest;
    FieldAmounts(element, 4);
    FieldAmounts(|items|, 8);
  }

  lemma {:induction false} EncodedItemsStand(items: seq<Value>, element: nat, utf8: Bytes -> string)
    requires AllEncodable(items, element)
    ensures StandAll(DenoteAll(items, utf8), element, EncodeItems(items, element), utf8)
    decreases items, 1
  {
    if items != [] {
      EncodingStands(items[0], utf8);
      EncodedItemsStand(items[1..], element, utf8);
      var first, rest := EncodeValue(items[0]), EncodeItems(items[1..], element);
      assert (first + rest)[..|first|] == first && (first + rest)[|first|..] == rest;
      StandAllCons(DenoteAll(items, utf8), element, first + rest, |first|, utf8);
    }
  }

  lemma StandAllCons(items: seq<PyValue>, element: nat, b: Bytes, k: nat, utf8: Bytes -> string)
    requires items != [] && k <= |b| && Stands(items[0], element, b[..k], utf8)
    requires StandAll(items[1..], element, b[k..], utf8)
    ensures StandAll(items, element, b, utf8)
  {
  }

  /** The value whose encoding the bytes are. */
  ghost predicate Encodes(w: Value, v: PyValue, id: nat, b: Bytes, utf8: Bytes -> string) {
    Encodable(w) && TypeId(w) == id && EncodeValue(w) == b && Denote(w, utf8) == v
  }

  lemma NumberEncodes(v: PyValue, id: nat, b: Bytes, utf8: Bytes -> string) returns (w: Value)
    requires Stands(v, id, b, utf8) && (v.PyInt? || v.PyFloat?)
    ensures Encodes(w, v, id, b, utf8)
  {
    PowerValues();
    var raw: nat;
    if v.PyInt? {
      w := Integer(id, v.n);
      raw := TwosComplement(v.n, |b|);
    } else {
      w := Float(id, v.bits);
      raw := v.bits;
    }
    AmountsIff(b, raw);
    TopBit(b);
  }

  lemma TextEncodes(v: PyValue, id: nat, b: Bytes, utf8: Bytes -> string) returns (w: Value)
    requires Stands(v, id, b, utf8) && v.PyStr?
    ensures Encodes(w, v, id, b, utf8)
  {
    PowerValues();
    w := Text(b[8..]);
    AmountsIff(b[..8], |b| - 8);
    assert b == b[..8] + b[8..];
  }

  /** Bytes that stand for a value are the encoding of one that is handed out as it. */
  lemma {:induction false} StandingEncodes(v: PyValue, id: nat, b: Bytes, utf8: Bytes -> string) returns (w: Value)
    requires Stands(v, id, b, utf8)
    ensures Encodes(w, v, id, b, utf8)
    decreases v, 0
  {
    match v {
      case PyInt(_) => w := NumberEncodes(v, id, b, utf8);
      case PyFloat(_, _) => w := NumberEncodes(v, id, b, utf8);
      case PyBool(_) => w := Bool(b[0]);
      case PyStr(_) => w := TextEncodes(v, id, b, utf8);
      case PyList(items) =>
        var element: nat :| Amounts(b[..4], element) && StandAll(items, element, b[12..], utf8);
        var ws := StandingItemsEncode(items, element, b[12..], utf8);
        w := Array(element, ws);
        ListEncodes(items, element, b, ws, utf8);
    }
  }

  lemma ListEncodes(items: seq<PyValue>, element: nat, b: Bytes, ws: seq<Value>, utf8: Bytes -> string)
    requires |b| >= 12 && Amounts(b[..4], element) && Amounts(b[4..12], |items|)
    requires AllEncodable(ws, element) && EncodeItems(ws, element) == b[12..] && DenoteAll(ws, utf8) == items
    ensures Encodes(Array(element, ws), PyList(items), 9, b, utf8)
  {
    FieldBytes(b[..4], element);
    FieldBytes(b[4..12], |items|);
    ListBytes(element, ws, b[..4], b[4..12], b[12..]);
    assert b[..4] + b[4..12] + b[12..] == b;
  }

  lemma ListBytes(element: nat, ws: seq<Value>, head: Bytes, count: Bytes, rest: Bytes)
    requires element < Pow256(4) && |ws| < Pow256(8) && AllEncodable(ws, element)
    requires LittleEndian(element, 4) == head && LittleEndian(|ws|, 8) == count && EncodeItems(ws, element) == rest
    ensures Encodable(Array(element, ws)) && EncodeValue(Array(element, ws)) == head + count + rest
  {
  }

  lemma ItemsEncodeCons(w: Value, rest: seq<Value>, v: PyValue, items: seq<PyValue>, element: nat, b: Bytes, k: nat,
                        utf8: Bytes -> string)
    requires k <= |b| && Encodes(w, v, element, b[..k], utf8)
    requires AllEncodable(rest, element) && EncodeItems(rest, element) == b[k..] && DenoteAll(rest, utf8) == items
    ensures var ws := [w] + rest;
            AllEncodable(ws, element) && EncodeItems(ws, element) == b && DenoteAll(ws, utf8) == [v] + items
  {
    assert ([w] + rest)[1..] == rest && b == b[..k] + b[k..];
  }

  lemma {:induction false} StandingItemsEncode(items: seq<PyValue>, element: nat, b: Bytes, utf8: Bytes -> string)
    returns (ws: seq<Value>)
    requires StandAll(items, element, b, utf8)
    ensures AllEncodable(ws, element) && EncodeItems(ws, element) == b && DenoteAll(ws, utf8) == items
    decreases items, 1
  {
    if items == [] {
      ws := [];
    } else {
      var k: nat :| k <= |b| && Stands(items[0], element, b[..k], utf8) && StandAll(items[1..], element, b[k..], utf8);
      var w := StandingEncodes(items[0], element, b[..k], utf8);
      var rest := StandingItemsEncode(items[1..], element, b[k..], utf8);
      ws := [w] + rest;
      ItemsEncodeCons(w, rest, items[0], items[1..], element, b, k, utf8);
      assert items == [items[0]] + items[1..];
    }
  }

  // ---------------------------------------------------------------------------
  // Files
  // ---------------------------------------------------------------------------

  /** A metadata line as Python sees it: key bytes, type id and value. */
  datatype Line = Line(key: Bytes, id: nat, value: PyValue)

  /** The bytes are the line: 8-byte key length, key, 4-byte type id, value. */
  ghost predicate LineOf(b: Bytes, l: Line, utf8: Bytes -> string) {
    var n := |l.key|;
    |b| >= n + 12 && Amounts(b[..8], n) && b[8..n + 8] == l.key && Amounts(b[n + 8..n + 12], l.id) &&
    Stands(l.value, l.id, b[n + 12..], utf8)
  }

  ghost predicate LinesOf(b: Bytes, lines: seq<Line>, utf8: Bytes -> string) {
    if lines == [] then b == []
    else exists k: nat :: k <= |b| && LineOf(b[..k], lines[0], utf8) && LinesOf(b[k..], lines[1..], utf8)
  }

  /** The first n bytes are a metadata section with these lines: the letters GGUF, a
      4-byte version 2 or 3, two 8-byte counts, and the lines. */
  ghost predicate FileOf(data: Bytes, n: nat, version: nat, tensors: nat, lines: seq<Line>, utf8: Bytes -> string) {
    24 <= n <= |data| && data[..4] == [0x47, 0x47, 0x55, 0x46] &&
    Amounts(data[4..8], version) && (version == 2 || version == 3) &&
    Amounts(data[8..16], tensors) && Amounts(data[16..24], |lines|) &&
    LinesOf(data[24..n], lines, utf8)
  }

  /** Line i is the last one for the key k, lists of more than 32 elements left out. */
  predicate LastLine(lines: seq<Line>, utf8: Bytes -> string, k: string, i: nat) {
    i < |lines| && utf8(lines[i].key) == k && (lines[i].value.PyList? ==> |lines[i].value.items| <= 32) &&
    forall j :: i < j < |lines| && utf8(lines[j].key) == k ==> lines[j].value.PyList? && |lines[j].value.items| > 32
  }

  /** The dictionary maps each key to the value of its last line that is not too long. */
  ghost predicate IsDictionary(d: map<string, PyValue>, lines: seq<Line>, utf8: Bytes -> string) {
    (forall k :: k in d <==> exists i: nat :: LastLine(lines, utf8, k, i)) &&
    (forall k, i: nat :: LastLine(lines, utf8, k, i) ==> k in d && d[k] == lines[i].value)
  }

  function LineFor(e: Entry, utf8: Bytes -> string): Line {
    Line(e.key, TypeId(e.value), Denote(e.value, utf8))
  }

  function LinesFor(entries: seq<Entry>, utf8: Bytes -> string): (lines: seq<Line>)
    ensures |lines| == |entries|
    ensures forall i :: 0 <= i < |lines| ==> lines[i] == LineFor(entries[i], utf8)
  {
    if entries == [] then [] else [LineFor(entries[0], utf8)] + LinesFor(entries[1..], utf8)
  }

  lemma LineIsKept(e: Entry, utf8: Bytes -> string)
    ensures var v := LineFor(e, utf8).value; Kept(e.value) <==> (v.PyList? ==> |v.items| <= 32)
  {
  }

  lemma LastLineIsLastKept(entries: seq<Entry>, utf8: Bytes -> string, k: string, i: nat)
    ensures LastLine(LinesFor(entries, utf8), utf8, k, i) <==> LastKept(entries, utf8, k, i)
  {
    var lines := LinesFor(entries, utf8);
    forall j | 0 <= j < |lines|
      ensures Kept(entries[j].value) <==> (lines[j].value.PyList? ==> |lines[j].value.items| <= 32)
    {
      LineIsKept(entries[j], utf8);
    }
  }

  lemma MetadataIsDictionary(entries: seq<Entry>, utf8: Bytes -> string)
    ensures IsDictionary(Metadata(entries, utf8), LinesFor(entries, utf8), utf8)
  {
    var lines, d := LinesFor(entries, utf8), Metadata(entries, utf8);
    forall k ensures k in d <==> exists i: nat :: LastLine(lines, utf8, k, i) {
      MetadataIsLastWins(entries, utf8, k);
      if k in d {
        var i: nat :| LastKept(entries, utf8, k, i);
        LastLineIsLastKept(entries, utf8, k, i);
      }
      if i: nat :| LastLine(lines, utf8, k, i) {
        LastLineIsLastKept(entries, utf8, k, i);
      }
    }
    forall k, i: nat | LastLine(lines, utf8, k, i) ensures k in d && d[k] == lines[i].value {
      LastLineIsLastKept(entries, utf8, k, i);
      MetadataIsLastWins(entries, utf8, k);
    }
  }

  // ---------------------------------------------------------------------------
  // Encoded files are such files
  // ---------------------------------------------------------------------------

  lemma EntryIsLine(e: Entry, utf8: Bytes -> string)
    requires EncodableEntry(e)
    ensures LineOf(EncodeEntry(e), LineFor(e, utf8), utf8)
  {
    var b, n := EncodeEntry(e), |e.key|;
    var length, id, value := LittleEndian(n, 8), LittleEndian(TypeId(e.value), 4), EncodeValue(e.value);
    PowerValues();
    assert b == length + e.key + id + value;
    assert b[..8] == length && b[8..n + 8] == e.key && b[n + 8..n + 12] == id && b[n + 12..] == value;
    FieldAmounts(n, 8);
    FieldAmounts(TypeId(e.value), 4);
    EncodingStands(e.value, utf8);
  }

  lemma LinesOfCons(b: Bytes, k: nat, lines: seq<Line>, utf8: Bytes -> string)
    requires lines != [] && k <= |b| && LineOf(b[..k], lines[0], utf8) && LinesOf(b[k..], lines[1..], utf8)
    ensures LinesOf(b, lines, utf8)
  {
  }

  lemma {:induction false} EntriesAreLines(entries: seq<Entry>, utf8: Bytes -> string)
    requires EncodableEntries(entries)
    ensures LinesOf(EncodeEntries(entries), LinesFor(entries, utf8), utf8)
  {
    if entries != [] {
      var first, rest := EncodeEntry(entries[0]), EncodeEntries(entries[1..]);
      EntryIsLine(entries[0], utf8);
      EntriesAreLines(entries[1..], utf8);
      assert (first + rest)[..|first|] == first && (first + rest)[|first|..] == rest;
      LinesOfCons(first + rest, |first|, LinesFor(entries, utf8), utf8);
    }
  }

  lemma HeaderFields(data: Bytes, version: nat, tensors: nat, count: nat)
    requires version in {2, 3} && tensors < Pow256(8) && count < Pow256(8) && EncodeHeader(version, tensors, count) <= data
    ensures |data| >= 24 && data[..4] == [0x47, 0x47, 0x55, 0x46] && Amounts(data[4..8], version) &&
            Amounts(data[8..16], tensors) && Amounts(data[16..24], count)
  {
    var h := EncodeHeader(version, tensors, count);
    PowerValues();
    assert data[..24] == h;
    assert data[..4] == h[..4] && data[4..8] == h[4..8] && data[8..16] == h[8..16] && data[16..24] == h[16..24];
    assert h[4..8] == LittleEndian(version, 4) && h[8..16] == LittleEndian(tensors, 8) && h[16..24] == LittleEndian(count, 8);
    FieldAmounts(version, 4);
    FieldAmounts(tensors, 8);
    FieldAmounts(count, 8);
  }

  lemma EncodedIsFile(f: File, data: Bytes, utf8: Bytes -> string)
    requires EncodableFile(f) && EncodeFile(f) <= data
    ensures FileOf(data, |EncodeFile(f)|, f.version, f.tensorCount, LinesFor(f.entries, utf8), utf8)
  {
    var header, lines := EncodeHeader(f.version, f.tensorCount, |f.entries|), EncodeEntries(f.entries);
    HeaderFields(data, f.version, f.tensorCount, |f.entries|);
    assert data[24..|header + lines|] == (header + lines)[24..] == lines;
    EntriesAreLines(f.entries, utf8);
  }

  // ---------------------------------------------------------------------------
  // Such files are encoded files
  // ---------------------------------------------------------------------------

  lemma FourParts(b: Bytes, i: nat, j: nat, k: nat)
    requires i <= j <= k <= |b|
    ensures b == b[..i] + b[i..j] + b[j..k] + b[k..]
  {
  }

  /** The bytes of a line, put together. */
  lemma LineBytes(b: Bytes, l: Line, utf8: Bytes -> string)
    requires LineOf(b, l, utf8)
    ensures var n := |l.key|;
            n < Pow256(8) && b == LittleEndian(n, 8) + l.key + LittleEndian(l.id, 4) + b[n + 12..]
  {
    var n := |l.key|;
    FieldBytes(b[..8], n);
    FieldBytes(b[n + 8..n + 12], l.id);
    FourParts(b, 8, n + 8, n + 12);
  }

  lemma LineIsEntry(b: Bytes, l: Line, utf8: Bytes -> string) returns (e: Entry)
    requires LineOf(b, l, utf8)
    ensures EncodableEntry(e) && EncodeEntry(e) == b && LineFor(e, utf8) == l
  {
    var rest := b[|l.key| + 12..];
    var v := StandingEncodes(l.value, l.id, rest, utf8);
    LineBytes(b, l, utf8);
    e := EntryOf(b, l, utf8, v, rest);
  }

  lemma EntryOf(b: Bytes, l: Line, utf8: Bytes -> string, v: Value, rest: Bytes) returns (e: Entry)
    requires |l.key| < Pow256(8) && Encodes(v, l.value, l.id, rest, utf8)
    requires b == LittleEndian(|l.key|, 8) + l.key + LittleEndian(l.id, 4) + rest
    ensures EncodableEntry(e) && EncodeEntry(e) == b && LineFor(e, utf8) == l
  {
    e := Entry(l.key, v);
  }

  lemma EntriesCons(e: Entry, rest: seq<Entry>, b: Bytes, k: nat, lines: seq<Line>, utf8: Bytes -> string)
    requires k <= |b| && EncodableEntry(e) && EncodeEntry(e) == b[..k] && lines != [] && LineFor(e, utf8) == lines[0]
    requires EncodableEntries(rest) && EncodeEntries(rest) == b[k..] && LinesFor(rest, utf8) == lines[1..]
    ensures EncodableEntries([e] + rest) && EncodeEntries([e] + rest) == b && LinesFor([e] + rest, utf8) == lines
  {
    assert ([e] + rest)[1..] == rest && b == b[..k] + b[k..] && lines == [lines[0]] + lines[1..];
  }

  lemma FirstLine(b: Bytes, lines: seq<Line>, utf8: Bytes -> string) returns (k: nat)
    requires lines != [] && LinesOf(b, lines, utf8)
    ensures k <= |b| && LineOf(b[..k], lines[0], utf8) && LinesOf(b[k..], lines[1..], utf8)
  {
    k :| k <= |b| && LineOf(b[..k], lines[0], utf8) && LinesOf(b[k..], lines[1..], utf8);
  }

  lemma {:induction false} LinesAreEntries(b: Bytes, lines: seq<Line>, utf8: Bytes -> string) returns (es: seq<Entry>)
    requires LinesOf(b, lines, utf8)
    ensures EncodableEntries(es) && EncodeEntries(es) == b && LinesFor(es, utf8) == lines
    decreases |lines|
  {
    if lines == [] {
      es := [];
    } else {
      var k := FirstLine(b, lines, utf8);
      var e := LineIsEntry(b[..k], lines[0], utf8);
      var rest := LinesAreEntries(b[k..], lines[1..], utf8);
      EntriesCons(e, rest, b, k, lines, utf8);
      es := [e] + rest;
    }
  }

  lemma HeaderBytes(data: Bytes, version: nat, tensors: nat, count: nat)
    requires |data| >= 24 && data[..4] == [0x47, 0x47, 0x55, 0x46]
    requires Amounts(data[4..8], version) && Amounts(data[8..16], tensors) && Amounts(data[16..24], count)
    ensures tensors < Pow256(8) && count < Pow256(8) && EncodeHeader(version, tensors, count) == data[..24]
  {
    FieldBytes(data[4..8], version);
    FieldBytes(data[8..16], tensors);
    FieldBytes(data[16..24], count);
    assert data[..24] == data[..4] + data[4..8] + data[8..16] + data[16..24];
  }

  lemma FileIsEncoded(data: Bytes, n: nat, version: nat, tensors: nat, lines: seq<Line>, utf8: Bytes -> string) returns (f: File)
    requires FileOf(data, n, version, tensors, lines, utf8)
    ensures EncodableFile(f) && EncodeFile(f) == data[..n] && f.tensorCount == tensors && LinesFor(f.entries, utf8) == lines
  {
    var es := LinesAreEntries(data[24..n], lines, utf8);
    f := File(version, tensors, es);
    HeaderBytes(data, version, tensors, |lines|);
    assert data[..n] == data[..24] + data[24..n];
  }

  /** The reader on a file: it succeeds exactly when the bytes start with a metadata
      section, and then gives its tensor count and its dictionary, having read the section
      and nothing after it. */
  method ReadGgufFile(data: Bytes, utf8: Bytes -> string)
    returns (r: Result<(nat, map<string, PyValue>)>, consumed: nat)
    ensures r.Success? <==> exists n, version, tensors, lines :: FileOf(data, n, version, tensors, lines, utf8)
    ensures forall n, version, tensors, lines :: FileOf(data, n, version, tensors, lines, utf8) ==>
              consumed == n && r.Success? && r.value.0 == tensors && IsDictionary(r.value.1, lines, utf8)
    ensures r.Success? <==> exists f :: EncodableFile(f) && EncodeFile(f) <= data
    ensures forall f :: EncodableFile(f) && EncodeFile(f) <= data ==>
              r == Success((f.tensorCount, Metadata(f.entries, utf8))) && consumed == |EncodeFile(f)|
  {
    var h := new Handle(data, utf8);
    r := ReadGgufMetadata(h);
    consumed := h.pos;
    AcceptedIffEncoding(data);
    forall f | EncodableFile(f) && EncodeFile(f) <= data
      ensures r == Success((f.tensorCount, Metadata(f.entries, utf8))) && consumed == |EncodeFile(f)|
      ensures FileOf(data, |EncodeFile(f)|, f.version, f.tensorCount, LinesFor(f.entries, utf8), utf8)
    {
      PrefixIsRead(f, data);
      EncodedIsFile(f, data, utf8);
    }
    forall n, version, tensors, lines | FileOf(data, n, version, tensors, lines, utf8)
      ensures consumed == n && r.Success? && r.value.0 == tensors && IsDictionary(r.value.1, lines, utf8)
    {
      var f := FileIsEncoded(data, n, version, tensors, lines, utf8);
      PrefixIsRead(f, data);
      MetadataIsDictionary(f.entries, utf8);
    }
  }
}
