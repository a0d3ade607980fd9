/** Which error the GGUF reader reports. */
module GgufErrors {
  import opened GgufFormat
  import opened GgufRoundTrip

  // ---------------------------------------------------------------------------
  // Truncated input
  // ---------------------------------------------------------------------------

  /** What a read that gives r on the whole input gives on its first n bytes: the same if
      it stays within them, and the end of the file otherwise. */
  function Truncated<T>(r: Read<T>, n: nat): Read<T> {
    if r.Got? && r.next > n then Fail(UnexpectedEof) else r
  }

  lemma RawTruncated(data: Bytes, n: nat, pos: nat, k: nat)
    requires pos <= n <= |data| && ReadRaw(data, pos, k).Got?
    ensures ReadRaw(data[..n], pos, k) == Truncated(ReadRaw(data, pos, k), n)
  {
    if pos + k <= n {
      assert data[..n][pos..pos + k] == data[pos..pos + k];
    }
  }

  lemma UnsignedTruncated(data: Bytes, n: nat, pos: nat, width: nat)
    requires pos <= n <= |data| && ReadUnsigned(data, pos, width).Got?
    ensures ReadUnsigned(data[..n], pos, width) == Truncated(ReadUnsigned(data, pos, width), n)
  {
    RawTruncated(data, n, pos, width);
  }

  lemma TextTruncated(data: Bytes, n: nat, pos: nat)
    requires pos <= n <= |data| && ReadText(data, pos).Got?
    ensures ReadText(data[..n], pos) == Truncated(ReadText(data, pos), n)
  {
    UnsignedTruncated(data, n, pos, 8);
    var length := ReadUnsigned(data, pos, 8);
    if length.next <= n {
      RawTruncated(data, n, length.next, length.value);
    }
  }

  lemma ScalarTruncated(data: Bytes, n: nat, pos: nat, id: nat)
    requires pos <= n <= |data| && ReadScalar(data, pos, id).Got?
    ensures ReadScalar(data[..n], pos, id) == Truncated(ReadScalar(data, pos, id), n)
  {
    if id == STRING_ID {
      TextTruncated(data, n, pos);
    } else if id == BOOL_ID {
      RawTruncated(data, n, pos, 1);
    } else {
      UnsignedTruncated(data, n, pos, Width(id));
    }
  }

  lemma {:induction false} ValueTruncated(data: Bytes, n: nat, pos: nat, id: nat)
    requires pos <= n <= |data| && ReadValue(data, pos, id).Got?
    ensures ReadValue(data[..n], pos, id) == Truncated(ReadValue(data, pos, id), n)
    decreases |data| - pos, 0, 0
  {
    if id != ARRAY_ID {
      ScalarTruncated(data, n, pos, id);
    } else {
      UnsignedTruncated(data, n, pos, 4);
      var element := ReadUnsigned(data, pos, 4);
      if element.next <= n {
        UnsignedTruncated(data, n, element.next, 8);
        var count := ReadUnsigned(data, element.next, 8);
        if count.next <= n {
          ItemsTruncated(data, n, count.next, element.value, count.value);
        }
      }
    }
  }

  lemma {:induction false} ItemsTruncated(data: Bytes, n: nat, pos: nat, element: nat, count: nat)
    requires pos <= n <= |data| && ReadItems(data, pos, element, count).Got?
    ensures ReadItems(data[..n], pos, element, count) == Truncated(ReadItems(data, pos, element, count), n)
    decreases |data| - pos, 1, count
  {
    if count > 0 {
      ValueTruncated(data, n, pos, element);
      var first := ReadValue(data, pos, element);
      if first.next <= n {
        ItemsTruncated(data, n, first.next, element, count - 1);
      }
    }
  }

  lemma EntryTruncated(data: Bytes, n: nat, pos: nat)
    requires pos <= n <= |data| && ReadEntry(data, pos).Got?
    ensures ReadEntry(data[..n], pos) == Truncated(ReadEntry(data, pos), n)
  {
    TextTruncated(data, n, pos);
    var key := ReadText(data, pos);
    if key.next <= n {
      UnsignedTruncated(data, n, key.next, 4);
      var id := ReadUnsigned(data, key.next, 4);
      if id.next <= n {
        ValueTruncated(data, n, id.next, id.value);
      }
    }
  }

  lemma FirstFits(data: Bytes, cut: Bytes, pos: nat, first: Entry, next: nat)
    requires cut <= data && pos <= |cut| && ReadEntry(data, pos) == Got(first, next) && next <= |cut|
    ensures ReadEntry(cut, pos) == Got(first, next)
  {
    EntryTruncated(data, |cut|, pos);
    assert data[..|cut|] == cut;
  }

  lemma FirstOverruns(data: Bytes, cut: Bytes, pos: nat, first: Entry, next: nat)
    requires cut <= data && pos <= |cut| && ReadEntry(data, pos) == Got(first, next) && next > |cut|
    ensures ReadEntry(cut, pos) == Fail(UnexpectedEof)
  {
    EntryTruncated(data, |cut|, pos);
    assert data[..|cut|] == cut;
  }

  lemma FirstIsRead(data: Bytes, pos: nat, count: nat, end: nat) returns (first: Entry, next: nat)
    requires pos <= |data| && count > 0 && Ends(ReadEntries(data, pos, count), end)
    ensures ReadEntry(data, pos) == Got(first, next) && pos < next <= |data| && Ends(ReadEntries(data, next, count - 1), end)
  {
    first, next := ReadEntry(data, pos).value, ReadEntry(data, pos).next;
  }

  predicate Ends(r: Read<seq<Entry>>, end: nat) {
    r.Got? && r.next == end
  }

  lemma LaterFails(cut: Bytes, pos: nat, count: nat, first: Entry, next: nat)
    requires pos <= |cut| && count > 0 && ReadEntry(cut, pos) == Got(first, next)
    requires ReadEntries(cut, next, count - 1) == Fail(UnexpectedEof)
    ensures ReadEntries(cut, pos, count) == Fail(UnexpectedEof)
  {
  }

  lemma FirstFails(cut: Bytes, pos: nat, count: nat)
    requires pos <= |cut| && count > 0 && ReadEntry(cut, pos) == Fail(UnexpectedEof)
    ensures ReadEntries(cut, pos, count) == Fail(UnexpectedEof)
  {
  }

  /** Entries that end behind the cut are reported as an unexpected end. */
  lemma {:induction false} EntriesOverrun(data: Bytes, cut: Bytes, pos: nat, count: nat, end: nat)
    requires cut <= data && pos <= |cut| < end && Ends(ReadEntries(data, pos, count), end)
    ensures ReadEntries(cut, pos, count) == Fail(UnexpectedEof)
    decreases count
  {
    assert count > 0;
    var first, next := FirstIsRead(data, pos, count, end);
    if next <= |cut| {
      FirstFits(data, cut, pos, first, next);
      EntriesOverrun(data, cut, next, count - 1, end);
      LaterFails(cut, pos, count, first, next);
    } else {
      FirstOverruns(data, cut, pos, first, next);
      FirstFails(cut, pos, count);
    }
  }

  lemma FileTruncated(data: Bytes, n: nat)
    requires 4 <= n <= |data| && ReadFile(data).Got? && n < ReadFile(data).next
    ensures ReadFile(data[..n]) == Fail(UnexpectedEof)
  {
    assert data[..n][..4] == data[..4];
    UnsignedTruncated(data, n, 4, 4);
    if n >= 8 {
      UnsignedTruncated(data, n, 8, 8);
      if n >= 16 {
        UnsignedTruncated(data, n, 16, 8);
        if n >= 24 {
          EntriesOverrun(data, data[..n], 24, ReadUnsigned(data, 16, 8).value, ReadFile(data).next);
        }
      }
    }
  }

  /** A truncated file is reported as an unexpected end, or as no GGUF file when it is cut
      within the first four bytes. */
  lemma TruncationIsReported(f: File, n: nat)
    requires EncodableFile(f) && n < |EncodeFile(f)|
    ensures ReadFile(EncodeFile(f)[..n]) == Fail(if n < 4 then NotGguf else UnexpectedEof)
  {
    if n >= 4 {
      PrefixIsRead(f, EncodeFile(f));
      FileTruncated(EncodeFile(f), n);
    }
  }

  /** A scalar is refused for its type exactly when the id is not one of the twelve, whatever
      the bytes; any other failure is the end of the file. */
  lemma ScalarErrors(data: Bytes, pos: nat, id: nat)
    requires pos <= |data|
    ensures ReadScalar(data, pos, id) == Fail(UnsupportedType) <==> id == 9 || id > 12
    ensures ReadScalar(data, pos, id).Fail? ==> ReadScalar(data, pos, id).error in {UnexpectedEof, UnsupportedType}
  {
  }

  lemma {:induction false} ValueErrors(data: Bytes, pos: nat, id: nat)
    requires pos <= |data|
    ensures ReadValue(data, pos, id).Fail? ==> ReadValue(data, pos, id).error in {UnexpectedEof, UnsupportedType}
    decreases |data| - pos, 0, 0
  {
    if id == ARRAY_ID && pos + 12 <= |data| {
      ItemsErrors(data, pos + 12, ReadUnsigned(data, pos, 4).value, ReadUnsigned(data, pos + 4, 8).value);
    }
  }

  lemma {:induction false} ItemsErrors(data: Bytes, pos: nat, element: nat, count: nat)
    requires pos <= |data|
    ensures ReadItems(data, pos, element, count).Fail? ==>
              ReadItems(data, pos, element, count).error in {UnexpectedEof, UnsupportedType}
    decreases |data| - pos, 1, count
  {
    if count > 0 {
      ValueErrors(data, pos, element);
      if ReadValue(data, pos, element).Got? {
        ItemsErrors(data, ReadValue(data, pos, element).next, element, count - 1);
      }
    }
  }

  lemma EntryErrors(data: Bytes, pos: nat)
    requires pos <= |data|
    ensures ReadEntry(data, pos).Fail? ==> ReadEntry(data, pos).error in {UnexpectedEof, UnsupportedType}
  {
    if ReadText(data, pos).Got? {
      var id := ReadUnsigned(data, ReadText(data, pos).next, 4);
      if id.Got? {
        ValueErrors(data, id.next, id.value);
      }
    }
  }

  lemma {:induction false} EntriesErrors(data: Bytes, pos: nat, count: nat)
    requires pos <= |data|
    ensures ReadEntries(data, pos, count).Fail? ==> ReadEntries(data, pos, count).error in {UnexpectedEof, UnsupportedType}
    decreases count
  {
    if count > 0 {
      EntryErrors(data, pos);
      if ReadEntry(data, pos).Got? {
        EntriesErrors(data, ReadEntry(data, pos).next, count - 1);
      }
    }
  }

  lemma VersionBytes(b: Bytes)
    requires |b| == 4
    ensures FromLittleEndian(b) in {2, 3} <==> b == [2, 0, 0, 0] || b == [3, 0, 0, 0]
  {
    assert b[1..][1..] == b[2..] && b[2..][1..] == b[3..] && b[3..][1..] == [];
    assert FromLittleEndian(b) == b[0] + 256 * FromLittleEndian(b[1..]);
    assert FromLittleEndian(b[1..]) == b[1] + 256 * FromLittleEndian(b[2..]);
    assert FromLittleEndian(b[2..]) == b[2] + 256 * FromLittleEndian(b[3..]);
    assert FromLittleEndian(b[3..]) == b[3];
  }

  predicate HasMagic(data: Bytes) {
    |data| >= 4 && data[0] == 0x47 && data[1] == 0x47 && data[2] == 0x55 && data[3] == 0x46
  }

  /** Input is no GGUF file exactly when it does not begin with those letters; its version
      is refused exactly when the next four bytes are there and are neither 2 nor 3. */
  lemma HeaderErrors(data: Bytes)
    ensures ReadFile(data) == Fail(NotGguf) <==> !HasMagic(data)
    ensures ReadFile(data) == Fail(UnsupportedVersion) <==>
            HasMagic(data) && |data| >= 8 && data[4..8] != [2, 0, 0, 0] && data[4..8] != [3, 0, 0, 0]
  {
    assert HasMagic(data) <==> |data| >= 4 && data[..4] == MAGIC;
    if |data| >= 8 {
      VersionBytes(data[4..8]);
    }
    if |data| >= 24 {
      EntriesErrors(data, 24, ReadUnsigned(data, 16, 8).value);
    }
  }
}
