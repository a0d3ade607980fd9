/** The proxy's GGUF metadata reader as it runs: a file handle that is advanced in
    place, recursion over nested arrays, and a dictionary filled entry by entry.
    Every method is proved against the functional reader of GgufFormat. */
module GgufReader {
  import opened GgufFormat
  import opened GgufRoundTrip

  /** The Python values the reader hands out: numeric widths are forgotten. */
  datatype PyValue =
    | PyInt(n: int)
    | PyFloat(typeId: nat, bits: nat)
    | PyBool(b: bool)
    | PyStr(text: string)
    | PyList(items: seq<PyValue>)

  datatype Result<+T> = Success(value: T) | Failure(error: Error)

  function Denote(v: Value, utf8: Bytes -> string): PyValue {
    match v
    case Integer(_, n) => PyInt(n)
    case Float(id, bits) => PyFloat(id, bits)
    case Bool(raw) => PyBool(raw != 0)
    case Text(bytes) => PyStr(utf8(bytes))
    case Array(_, items) => PyList(DenoteAll(items, utf8))
  }

  function DenoteAll(items: seq<Value>, utf8: Bytes -> string): (r: seq<PyValue>)
    ensures |r| == |items|
  {
    if items == [] then [] else [Denote(items[0], utf8)] + DenoteAll(items[1..], utf8)
  }

  lemma {:induction false} DenoteAllSnoc(items: seq<Value>, v: Value, utf8: Bytes -> string)
    ensures DenoteAll(items + [v], utf8) == DenoteAll(items, utf8) + [Denote(v, utf8)]
  {
    if items == [] {
      assert [] + [v] == [v];
    } else {
      DenoteAllSnoc(items[1..], v, utf8);
      assert (items + [v])[1..] == items[1..] + [v];
    }
  }

  // ---------------------------------------------------------------------------
  // The metadata dictionary
  // ---------------------------------------------------------------------------

  const MAX_ARRAY := 32

  predicate Kept(v: Value) {
    v.Array? ==> |v.items| <= MAX_ARRAY
  }

  function Store(m: map<string, PyValue>, e: Entry, utf8: Bytes -> string): map<string, PyValue> {
    if Kept(e.value) then m[utf8(e.key) := Denote(e.value, utf8)] else m
  }

  function Metadata(entries: seq<Entry>, utf8: Bytes -> string): map<string, PyValue> {
    if entries == [] then map[]
    else Store(Metadata(entries[..|entries| - 1], utf8), entries[|entries| - 1], utf8)
  }

  /** Entry i is the last kept one whose key decodes to k. */
  predicate LastKept(entries: seq<Entry>, utf8: Bytes -> string, k: string, i: nat) {
    i < |entries| && Kept(entries[i].value) && utf8(entries[i].key) == k &&
    forall j :: i < j < |entries| && Kept(entries[j].value) ==> utf8(entries[j].key) != k
  }

  /** The dictionary maps a key exactly to the value of its last kept entry; a long
      array neither sets its key nor erases an earlier value of it. */
  lemma {:induction false} MetadataIsLastWins(entries: seq<Entry>, utf8: Bytes -> string, k: string)
    ensures k in Metadata(entries, utf8) <==> exists i: nat :: LastKept(entries, utf8, k, i)
    ensures forall i: nat :: LastKept(entries, utf8, k, i) ==>
              k in Metadata(entries, utf8) && Metadata(entries, utf8)[k] == Denote(entries[i].value, utf8)
    decreases |entries|
  {
    if entries != [] {
      var n := |entries| - 1;
      var init := entries[..n];
      MetadataIsLastWins(init, utf8, k);
      if Kept(entries[n].value) && utf8(entries[n].key) == k {
        assert LastKept(entries, utf8, k, n);
      } else {
        forall i: nat ensures LastKept(entries, utf8, k, i) <==> LastKept(init, utf8, k, i) {
          if LastKept(init, utf8, k, i) {
            assert entries[i] == init[i];
          }
          if LastKept(entries, utf8, k, i) {
            assert i != n;
            assert forall j :: 0 <= j < n ==> entries[j] == init[j];
          }
        }
      }
    }
  }

  // ---------------------------------------------------------------------------
  // The reader
  // ---------------------------------------------------------------------------

  /** After i elements read, the next one decides: the run of i + 1, or the failure of
      every longer run. */
  lemma {:induction false} ItemTurn(data: Bytes, start: nat, element: nat, i: nat, count: nat)
    requires start <= |data| && i < count && ReadItems(data, start, element, i).Got?
    ensures var done := ReadItems(data, start, element, i);
            match ReadValue(data, done.next, element)
            case Fail(e) => ReadItems(data, start, element, count) == Fail(e)
            case Got(v, next) => ReadItems(data, start, element, i + 1) == Got(done.value + [v], next)
    decreases i
  {
    if i == 0 {
      var v := ReadValue(data, start, element);
      if v.Got? {
        assert [v.value] + [] == [] + [v.value];
        assert ReadItems(data, v.next, element, 0) == Got([], v.next);
      }
    } else {
      var first := ReadValue(data, start, element);
      ItemTurn(data, first.next, element, i - 1, count - 1);
      var done := ReadItems(data, first.next, element, i - 1);
      var last := ReadValue(data, done.next, element);
      if last.Got? {
        assert [first.value] + (done.value + [last.value]) == [first.value] + done.value + [last.value];
      }
    }
  }

  lemma {:induction false} EntryTurn(data: Bytes, start: nat, i: nat, count: nat)
    requires start <= |data| && i < count && ReadEntries(data, start, i).Got?
    ensures var done := ReadEntries(data, start, i);
            match ReadEntry(data, done.next)
            case Fail(e) => ReadEntries(data, start, count) == Fail(e)
            case Got(v, next) => ReadEntries(data, start, i + 1) == Got(done.value + [v], next)
    decreases i
  {
    if i == 0 {
      var v := ReadEntry(data, start);
      if v.Got? {
        assert [v.value] + [] == [] + [v.value];
        assert ReadEntries(data, v.next, 0) == Got([], v.next);
      }
    } else {
      var first := ReadEntry(data, start);
      EntryTurn(data, first.next, i - 1, count - 1);
      var done := ReadEntries(data, first.next, i - 1);
      var last := ReadEntry(data, done.next);
      if last.Got? {
        assert [first.value] + (done.value + [last.value]) == [first.value] + done.value + [last.value];
      }
    }
  }

  lemma MetadataSnoc(entries: seq<Entry>, e: Entry, utf8: Bytes -> string)
    ensures Metadata(entries + [e], utf8) == Store(Metadata(entries, utf8), e, utf8)
  {
    assert (entries + [e])[..|entries|] == entries;
  }

  class Handle {
    const data: Bytes
    const utf8: Bytes -> string
    var pos: nat
    // Number of calls of ReadValue on this handle so far.
    ghost var valueReads: nat

    ghost predicate Valid()
      reads this
    {
      pos <= |data|
    }

    constructor (data: Bytes, utf8: Bytes -> string)
      ensures Valid() && this.data == data && this.utf8 == utf8 && pos == 0 && valueReads == 0
    {
      this.data, this.utf8, pos, valueReads := data, utf8, 0, 0;
    }

    /** handle.read(n): at most n bytes, fewer at the end of the file. */
    method ReadUpTo(n: nat) returns (chunk: Bytes)
      requires Valid()
      modifies this`pos
      ensures Valid() && old(pos) <= pos
      ensures pos == if old(pos) + n <= |data| then old(pos) + n else |data|
      ensures chunk == data[old(pos)..pos]
    {
      var stop := if pos + n <= |data| then pos + n else |data|;
      chunk := data[pos..stop];
      pos := stop;
    }

    method ReadUInt(width: nat) returns (r: Result<nat>)
      requires Valid()
      modifies this`pos
      ensures Valid() && old(pos) <= pos
      ensures match ReadUnsigned(data, old(pos), width)
              case Got(n, next) => r == Success(n) && pos == next
              case Fail(e) => r == Failure(e)
    {
      var chunk := ReadUpTo(width);
      r := if |chunk| != width then Failure(UnexpectedEof) else Success(FromLittleEndian(chunk));
    }

    method ReadString() returns (r: Result<string>, ghost raw: Bytes)
      requires Valid()
      modifies this`pos
      ensures Valid() && old(pos) <= pos
      ensures match ReadText(data, old(pos))
              case Got(bytes, next) => raw == bytes && r == Success(utf8(bytes)) && pos == next
              case Fail(e) => r == Failure(e)
    {
      raw := [];
      var length := ReadUInt(8);
      if length.Failure? {
        return Failure(length.error), raw;
      }
      var chunk := ReadUpTo(length.value);
      raw := chunk;
      r := if |chunk| != length.value then Failure(UnexpectedEof) else Success(utf8(chunk));
    }

    method ReadScalarValue(id: nat) returns (r: Result<PyValue>)
      requires Valid() && id != ARRAY_ID
      modifies this`pos
      ensures Valid() && old(pos) <= pos
      ensures match ReadScalar(data, old(pos), id)
              case Got(v, next) => r == Success(Denote(v, utf8)) && pos == next
              case Fail(e) => r == Failure(e)
    {
      if id == STRING_ID {
        var text, _ := ReadString();
        return match text case Failure(e) => Failure(e) case Success(s) => Success(PyStr(s));
      }
      if id == BOOL_ID {
        var chunk := ReadUpTo(1);
        return if |chunk| != 1 then Failure(UnexpectedEof) else Success(PyBool(chunk[0] != 0));
      }
      if !IsUnsignedId(id) && !IsSignedId(id) && !IsFloatId(id) {
        return Failure(UnsupportedType);
      }
      var raw := ReadUInt(Width(id));
      if raw.Failure? {
        return Failure(raw.error);
      }
      r := Success(if IsFloatId(id) then PyFloat(id, raw.value)
                   else PyInt(if IsSignedId(id) then Signed(raw.value, Width(id)) else raw.value));
    }

    /** Terminates on every input, whatever element counts it claims: the measure is
        the number of bytes left.  A successful call and all calls below it number no
        more than the bytes they consumed; a failing one adds at most one to the
        bytes that were left. */
    method ReadAny(id: nat) returns (r: Result<PyValue>)
      requires Valid()
      modifies this
      ensures Valid() && old(pos) <= pos
      ensures match ReadValue(data, old(pos), id)
              case Got(v, next) => r == Success(Denote(v, utf8)) && pos == next
              case Fail(e) => r == Failure(e)
      ensures r.Success? ==> valueReads - old(valueReads) <= pos - old(pos)
      ensures valueReads - old(valueReads) <= |data| - old(pos) + 1
      decreases |data| - pos, 0
    {
      valueReads := valueReads + 1;
      if id != ARRAY_ID {
        r := ReadScalarValue(id);
        return;
      }
      var element := ReadUInt(4);
      if element.Failure? {
        return Failure(element.error);
      }
      var count := ReadUInt(8);
      if count.Failure? {
        return Failure(count.error);
      }
      var values := ReadElements(element.value, count.value);
      r := match values case Failure(e) => Failure(e) case Success(vs) => Success(PyList(vs));
    }

    /** The element loop of ReadAny. */
    method ReadElements(element: nat, count: nat) returns (r: Result<seq<PyValue>>)
      requires Valid()
      modifies this
      ensures Valid() && old(pos) <= pos
      ensures match ReadItems(data, old(pos), element, count)
              case Got(vs, next) => r == Success(DenoteAll(vs, utf8)) && pos == next
              case Fail(e) => r == Failure(e)
      ensures r.Success? ==> valueReads - old(valueReads) <= pos - old(pos)
      ensures valueReads - old(valueReads) <= |data| - old(pos) + 1
      decreases |data| - pos, 1
    {
      ghost var start := pos;
      ghost var read: seq<Value> := [];
      var values: seq<PyValue> := [];
      var i := 0;
      while i < count
        invariant Valid() && i <= count && start <= pos
        invariant ReadItems(data, start, element, i) == Got(read, pos)
        invariant values == DenoteAll(read, utf8)
        invariant valueReads - old(valueReads) <= pos - start
      {
        ItemTurn(data, start, element, i, count);
        ghost var v := ReadValue(data, pos, element);
        var item := ReadAny(element);
        if item.Failure? {
          return Failure(item.error);
        }
        DenoteAllSnoc(read, v.value, utf8);
        values, read, i := values + [item.value], read + [v.value], i + 1;
      }
      r := Success(values);
    }

    /** One turn of the metadata loop: key, type id, value, and the dictionary
        update with its 32-element limit on top-level arrays. */
    method ReadEntryInto(metadata: map<string, PyValue>) returns (r: Result<map<string, PyValue>>)
      requires Valid()
      modifies this
      ensures Valid() && old(pos) <= pos
      ensures match ReadEntry(data, old(pos))
              case Got(e, next) => r == Success(Store(metadata, e, utf8)) && pos == next
              case Fail(e) => r == Failure(e)
      ensures r.Success? ==> valueReads - old(valueReads) <= pos - old(pos)
      ensures valueReads - old(valueReads) <= |data| - old(pos) + 1
    {
      var key, _ := ReadString();
      if key.Failure? {
        return Failure(key.error);
      }
      var id := ReadUInt(4);
      if id.Failure? {
        return Failure(id.error);
      }
      var value := ReadAny(id.value);
      if value.Failure? {
        return Failure(value.error);
      }
      r := Success(metadata);
      if value.value.PyList? {
        if |value.value.items| <= MAX_ARRAY {
          r := Success(metadata[key.value := value.value]);
        }
      } else {
        r := Success(metadata[key.value := value.value]);
      }
    }

    method ReadEntriesInto(count: nat) returns (r: Result<map<string, PyValue>>)
      requires Valid() && valueReads <= pos
      modifies this
      ensures Valid()
      ensures match ReadEntries(data, old(pos), count)
              case Got(es, next) => r == Success(Metadata(es, utf8)) && pos == next
              case Fail(e) => r == Failure(e)
      ensures valueReads <= |data| + 1
    {
      ghost var start := pos;
      ghost var read: seq<Entry> := [];
      var metadata: map<string, PyValue> := map[];
      var i := 0;
      while i < count
        invariant Valid() && i <= count && valueReads <= pos
        invariant ReadEntries(data, start, i) == Got(read, pos)
        invariant metadata == Metadata(read, utf8)
      {
        EntryTurn(data, start, i, count);
        ghost var e := ReadEntry(data, pos);
        var next := ReadEntryInto(metadata);
        if next.Failure? {
          return Failure(next.error);
        }
        MetadataSnoc(read, e.value, utf8);
        metadata, read, i := next.value, read + [e.value], i + 1;
      }
      r := Success(metadata);
    }
  }

  /** The whole reader: the tensor count and the dictionary of kept entries, or the
      error of the functional reader; at most one value read per byte, plus one. */
  method ReadGgufMetadata(h: Handle) returns (r: Result<(nat, map<string, PyValue>)>)
    requires h.Valid() && h.pos == 0 && h.valueReads == 0
    modifies h
    ensures h.Valid()
    ensures match ReadFile(h.data)
            case Got(f, next) => r == Success((f.tensorCount, Metadata(f.entries, h.utf8))) && h.pos == next
            case Fail(e) => r == Failure(e)
    ensures h.valueReads <= |h.data| + 1
  {
    var magic := h.ReadUpTo(4);
    assert |h.data| >= 4 ==> magic == h.data[..4];
    if magic != MAGIC {
      return Failure(NotGguf);
    }
    var version := h.ReadUInt(4);
    if version.Failure? {
      return Failure(version.error);
    }
    if version.value !in {2, 3} {
      return Failure(UnsupportedVersion);
    }
    var tensors := h.ReadUInt(8);
    if tensors.Failure? {
      return Failure(tensors.error);
    }
    var count := h.ReadUInt(8);
    if count.Failure? {
      return Failure(count.error);
    }
    var metadata := h.ReadEntriesInto(count.value);
    r := match metadata case Failure(e) => Failure(e) case Success(m) => Success((tensors.value, m));
  }
}
