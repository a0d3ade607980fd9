/** The GGUF header and metadata section: a typed value model, the byte encoding
    that the "File Structure" section of the GGUF specification prescribes, and a
    functional reader over (data, position) that follows the proxy's reader.
    Floats stay bit patterns and string bytes stay bytes at this level. */
module GgufFormat {

  type Byte = b: int | 0 <= b < 256
  type Bytes = seq<Byte>

  // ---------------------------------------------------------------------------
  // Little-endian integers
  // ---------------------------------------------------------------------------

  function Pow256(n: nat): (p: nat)
    ensures p > 0
  {
    if n == 0 then 1 else 256 * Pow256(n - 1)
  }

  function LittleEndian(n: nat, width: nat): (b: Bytes)
    ensures |b| == width
  {
    if width == 0 then [] else [n % 256] + LittleEndian(n / 256, width - 1)
  }

  function FromLittleEndian(b: Bytes): nat {
    if b == [] then 0 else b[0] + 256 * FromLittleEndian(b[1..])
  }

  lemma {:induction false} LittleEndianRoundTrip(n: nat, width: nat)
    requires n < Pow256(width)
    ensures FromLittleEndian(LittleEndian(n, width)) == n
  {
    if width > 0 {
      LittleEndianRoundTrip(n / 256, width - 1);
      assert LittleEndian(n, width)[1..] == LittleEndian(n / 256, width - 1);
    }
  }

  lemma {:induction false} FromLittleEndianRoundTrip(b: Bytes)
    ensures FromLittleEndian(b) < Pow256(|b|)
    ensures LittleEndian(FromLittleEndian(b), |b|) == b
  {
    if b != [] {
      FromLittleEndianRoundTrip(b[1..]);
      var n := FromLittleEndian(b);
      assert n % 256 == b[0] && n / 256 == FromLittleEndian(b[1..]);
      assert b == [b[0]] + b[1..];
    }
  }

  // ---------------------------------------------------------------------------
  // Typed values and their encoding
  // ---------------------------------------------------------------------------

  const BOOL_ID := 7
  const STRING_ID := 8
  const ARRAY_ID := 9

  datatype Value =
    | Integer(typeId: nat, n: int)
    | Float(typeId: nat, bits: nat)
    | Bool(raw: Byte)
    | Text(bytes: Bytes)
    | Array(elementType: nat, items: seq<Value>)

  datatype Entry = Entry(key: Bytes, value: Value)

  datatype File = File(version: nat, tensorCount: nat, entries: seq<Entry>)

  predicate IsUnsignedId(id: nat) { id == 0 || id == 2 || id == 4 || id == 10 }

  predicate IsSignedId(id: nat) { id == 1 || id == 3 || id == 5 || id == 11 }

  predicate IsFloatId(id: nat) { id == 6 || id == 12 }

  /** The byte width of a fixed-size type; only called on those. */
  function Width(id: nat): (w: nat)
    requires IsUnsignedId(id) || IsSignedId(id) || IsFloatId(id)
    ensures w > 0
  {
    if id <= 1 then 1 else if id <= 3 then 2 else if id <= 6 then 4 else 8
  }

  function TypeId(v: Value): nat {
    match v
    case Integer(id, _) => id
    case Float(id, _) => id
    case Bool(_) => BOOL_ID
    case Text(_) => STRING_ID
    case Array(_, _) => ARRAY_ID
  }

  /** Values that have an encoding.  An empty array may name any 32-bit element
      type: no element is there to contradict it. */
  predicate Encodable(v: Value) {
    match v
    case Integer(id, n) =>
      (IsUnsignedId(id) && 0 <= n < Pow256(Width(id))) ||
      (IsSignedId(id) && 0 - Pow256(Width(id)) <= 2 * n < Pow256(Width(id)))
    case Float(id, bits) => IsFloatId(id) && bits < Pow256(Width(id))
    case Bool(_) => true
    case Text(bytes) => |bytes| < Pow256(8)
    case Array(element, items) =>
      element < Pow256(4) && |items| < Pow256(8) && AllEncodable(items, element)
  }

  predicate AllEncodable(items: seq<Value>, element: nat) {
    items == [] ||
    (TypeId(items[0]) == element && Encodable(items[0]) && AllEncodable(items[1..], element))
  }

  predicate EncodableEntry(e: Entry) {
    |e.key| < Pow256(8) && Encodable(e.value)
  }

  predicate EncodableEntries(entries: seq<Entry>) {
    entries == [] || (EncodableEntry(entries[0]) && EncodableEntries(entries[1..]))
  }

  predicate EncodableFile(f: File) {
    f.version in {2, 3} && f.tensorCount < Pow256(8) && |f.entries| < Pow256(8) && EncodableEntries(f.entries)
  }

  function TwosComplement(n: int, width: nat): int {
    if n < 0 then n + Pow256(width) else n
  }

  function EncodeText(bytes: Bytes): Bytes {
    LittleEndian(|bytes|, 8) + bytes
  }

  function EncodeValue(v: Value): Bytes
    requires Encodable(v)
  {
    match v
    case Integer(id, n) => LittleEndian(TwosComplement(n, Width(id)), Width(id))
    case Float(id, bits) => LittleEndian(bits, Width(id))
    case Bool(raw) => [raw]
    case Text(bytes) => EncodeText(bytes)
    case Array(element, items) =>
      LittleEndian(element, 4) + LittleEndian(|items|, 8) + EncodeItems(items, element)
  }

  function EncodeItems(items: seq<Value>, element: nat): Bytes
    requires AllEncodable(items, element)
  {
    if items == [] then [] else EncodeValue(items[0]) + EncodeItems(items[1..], element)
  }

  function EncodeEntry(e: Entry): Bytes
    requires EncodableEntry(e)
  {
    EncodeText(e.key) + LittleEndian(TypeId(e.value), 4) + EncodeValue(e.value)
  }

  function EncodeEntries(entries: seq<Entry>): Bytes
    requires EncodableEntries(entries)
  {
    if entries == [] then [] else EncodeEntry(entries[0]) + EncodeEntries(entries[1..])
  }

  const MAGIC: Bytes := [0x47, 0x47, 0x55, 0x46]

  function EncodeHeader(version: nat, tensorCount: nat, entryCount: nat): Bytes {
    MAGIC + LittleEndian(version, 4) + LittleEndian(tensorCount, 8) + LittleEndian(entryCount, 8)
  }

  function EncodeFile(f: File): Bytes
    requires EncodableFile(f)
  {
    EncodeHeader(f.version, f.tensorCount, |f.entries|) + EncodeEntries(f.entries)
  }

  // ---------------------------------------------------------------------------
  // The reader, as a function of the bytes and a position
  // ---------------------------------------------------------------------------

  datatype Error = UnexpectedEof | NotGguf | UnsupportedVersion | UnsupportedType

  datatype Read<+T> = Got(value: T, next: nat) | Fail(error: Error)

  function ReadRaw(data: Bytes, pos: nat, n: nat): (r: Read<Bytes>)
    requires pos <= |data|
    ensures r.Got? ==> r.next == pos + n <= |data| && |r.value| == n
  {
    if pos + n <= |data| then Got(data[pos..pos + n], pos + n) else Fail(UnexpectedEof)
  }

  function ReadUnsigned(data: Bytes, pos: nat, width: nat): (r: Read<nat>)
    requires pos <= |data|
    ensures r.Got? ==> r.next == pos + width <= |data|
  {
    match ReadRaw(data, pos, width)
    case Fail(e) => Fail(e)
    case Got(raw, next) => Got(FromLittleEndian(raw), next)
  }

  function ReadText(data: Bytes, pos: nat): (r: Read<Bytes>)
    requires pos <= |data|
    ensures r.Got? ==> r.next == pos + 8 + |r.value| <= |data|
  {
    match ReadUnsigned(data, pos, 8)
    case Fail(e) => Fail(e)
    case Got(length, next) => ReadRaw(data, next, length)
  }

  /** struct.unpack of a signed field: the upper half of the range is negative. */
  function Signed(raw: nat, width: nat): int {
    if 2 * raw >= Pow256(width) then raw - Pow256(width) else raw
  }

  function ReadScalar(data: Bytes, pos: nat, id: nat): (r: Read<Value>)
    requires pos <= |data|
    ensures r.Got? ==> pos < r.next <= |data|
  {
    if id == STRING_ID then
      match ReadText(data, pos)
      case Fail(e) => Fail(e)
      case Got(bytes, next) => Got(Text(bytes), next)
    else if id == BOOL_ID then
      match ReadRaw(data, pos, 1)
      case Fail(e) => Fail(e)
      case Got(raw, next) => Got(Bool(raw[0]), next)
    else if IsUnsignedId(id) || IsSignedId(id) || IsFloatId(id) then
      match ReadUnsigned(data, pos, Width(id))
      case Fail(e) => Fail(e)
      case Got(raw, next) =>
        Got(if IsFloatId(id) then Float(id, raw)
            else Integer(id, if IsSignedId(id) then Signed(raw, Width(id)) else raw), next)
    else
      Fail(UnsupportedType)
  }

  function ReadValue(data: Bytes, pos: nat, id: nat): (r: Read<Value>)
    requires pos <= |data|
    ensures r.Got? ==> pos < r.next <= |data|
    decreases |data| - pos, 0, 0
  {
    if id == ARRAY_ID then
      match ReadUnsigned(data, pos, 4)
      case Fail(e) => Fail(e)
      case Got(element, p) =>
        match ReadUnsigned(data, p, 8)
        case Fail(e) => Fail(e)
        case Got(count, q) =>
          match ReadItems(data, q, element, count)
          case Fail(e) => Fail(e)
          case Got(items, next) => Got(Array(element, items), next)
    else
      ReadScalar(data, pos, id)
  }

  function ReadItems(data: Bytes, pos: nat, element: nat, count: nat): (r: Read<seq<Value>>)
    requires pos <= |data|
    ensures r.Got? ==> pos <= r.next <= |data|
    decreases |data| - pos, 1, count
  {
    if count == 0 then Got([], pos)
    else
      match ReadValue(data, pos, element)
      case Fail(e) => Fail(e)
      case Got(v, p) =>
        match ReadItems(data, p, element, count - 1)
        case Fail(e) => Fail(e)
        case Got(rest, next) => Got([v] + rest, next)
  }

  function ReadEntry(data: Bytes, pos: nat): (r: Read<Entry>)
    requires pos <= |data|
    ensures r.Got? ==> pos < r.next <= |data|
  {
    match ReadText(data, pos)
    case Fail(e) => Fail(e)
    case Got(key, p) =>
      match ReadUnsigned(data, p, 4)
      case Fail(e) => Fail(e)
      case Got(id, q) =>
        match ReadValue(data, q, id)
        case Fail(e) => Fail(e)
        case Got(v, next) => Got(Entry(key, v), next)
  }

  function ReadEntries(data: Bytes, pos: nat, count: nat): (r: Read<seq<Entry>>)
    requires pos <= |data|
    ensures r.Got? ==> pos <= r.next <= |data|
    decreases |data| - pos, count
  {
    if count == 0 then Got([], pos)
    else
      match ReadEntry(data, pos)
      case Fail(e) => Fail(e)
      case Got(entry, p) =>
        match ReadEntries(data, p, count - 1)
        case Fail(e) => Fail(e)
        case Got(rest, next) => Got([entry] + rest, next)
  }

  function ReadFile(data: Bytes): (r: Read<File>)
    ensures r.Got? ==> r.next <= |data|
  {
    if |data| < 4 || data[..4] != MAGIC then Fail(NotGguf)
    else
      match ReadUnsigned(data, 4, 4)
      case Fail(e) => Fail(e)
      case Got(version, p) =>
        if version !in {2, 3} then Fail(UnsupportedVersion)
        else
          match ReadUnsigned(data, p, 8)
          case Fail(e) => Fail(e)
          case Got(tensors, q) =>
            match ReadUnsigned(data, q, 8)
            case Fail(e) => Fail(e)
            case Got(count, s) =>
              match ReadEntries(data, s, count)
              case Fail(e) => Fail(e)
              case Got(entries, next) => Got(File(version, tensors, entries), next)
  }
}
