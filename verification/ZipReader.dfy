/** A reader of the ZIP format (APPNOTE sections 4.3.7, 4.3.12 and 4.3.16), stored entries only. */
module ZipReader {
  import opened ByteStrings
  import opened Options
  import opened Zip
  import Crc32

  /** The little-endian integer of `width` bytes at `at`. */
  function FieldAt(z: Bytes, at: nat, width: nat): (n: nat)
    requires at + width <= |z|
    ensures n < Pow256(width)
    decreases |z| - at, width
  {
    if width == 0 then 0 else z[at] + 256 * FieldAt(z, at + 1, width - 1)
  }

  function WordAt(z: Bytes, at: nat): (n: Word)
    requires at + 4 <= |z|
    ensures n == FieldAt(z, at, 4)
  {
    Pow256Values();
    FieldAt(z, at, 4)
  }

  /** The last end-of-central-directory record whose comment reaches the end of the file. */
  function FindEnd(z: Bytes, at: int): (r: Option<nat>)
    requires at + 22 <= |z|
    ensures r.Some? ==> r.value + 22 <= |z|
    decreases at
  {
    if at < 0 then None
    else if FieldAt(z, at, 4) == END_SIGNATURE && FieldAt(z, at + 20, 2) == |z| - at - 22 then Some(at)
    else FindEnd(z, at - 1)
  }

  /** The data of the local record at `at`, which must repeat what the directory says. */
  function ReadLocal(z: Bytes, at: nat, name: Bytes, crc: nat, size: nat): Option<Bytes> {
    if at + 30 > |z| || FieldAt(z, at, 4) != LOCAL_SIGNATURE || FieldAt(z, at + 8, 2) != 0
      || FieldAt(z, at + 14, 4) != crc || FieldAt(z, at + 18, 4) != size || FieldAt(z, at + 22, 4) != size
    then None
    else
      var nameEnd := at + 30 + FieldAt(z, at + 26, 2);
      var start := nameEnd + FieldAt(z, at + 28, 2);
      if start + size > |z| || z[at + 30..nameEnd] != name then None else Some(z[start..start + size])
  }

  /** The entry whose directory header is at `at`, and where the next header starts. */
  function ReadEntry(z: Bytes, at: nat): Option<(Stored, nat)> {
    if at + 46 > |z| || FieldAt(z, at, 4) != CENTRAL_SIGNATURE || FieldAt(z, at + 10, 2) != 0
      || FieldAt(z, at + 20, 4) != FieldAt(z, at + 24, 4)
    then None
    else
      var nameEnd := at + 46 + FieldAt(z, at + 28, 2);
      var next := nameEnd + FieldAt(z, at + 30, 2) + FieldAt(z, at + 32, 2);
      if next > |z| then None
      else
        var name, crc, size := z[at + 46..nameEnd], WordAt(z, at + 16), FieldAt(z, at + 24, 4);
        match ReadLocal(z, FieldAt(z, at + 42, 4), name, crc, size)
        case None => None
        case Some(data) => Some((Stored(name, data, WordAt(z, at + 38), crc), next))
  }

  /** Reads one directory entry and says where the next one starts. */
  type EntryReader = (Bytes, nat) -> Option<(Stored, nat)>

  /** `count` consecutive directory entries, and where they end. */
  function ReadDirectory(read: EntryReader, z: Bytes, at: nat, count: nat): Option<(seq<Stored>, nat)>
    decreases count
  {
    if count == 0 then Some(([], at))
    else match read(z, at) case None => None case Some((s, next)) =>
      match ReadDirectory(read, z, next, count - 1) case None => None
      case Some((ss, end)) => Some(([s] + ss, end))
  }

  function ReadZipWith(read: EntryReader, z: Bytes): Option<seq<Stored>> {
    if |z| < 22 then None
    else match FindEnd(z, |z| - 22) case None => None case Some(at) =>
      if FieldAt(z, at + 4, 2) != 0 || FieldAt(z, at + 6, 2) != 0 || FieldAt(z, at + 8, 2) != FieldAt(z, at + 10, 2)
      then None
      else match ReadDirectory(read, z, FieldAt(z, at + 16, 4), FieldAt(z, at + 8, 2)) case None => None
        case Some((ss, end)) =>
          if end == at && end == FieldAt(z, at + 16, 4) + FieldAt(z, at + 12, 4) then Some(ss) else None
  }

  function ReadZip(z: Bytes): Option<seq<Stored>> {
    ReadZipWith(ReadEntry, z)
  }

  // ---------------------------------------------------------------- fields of headers

  lemma {:induction false} FieldOfAppended(h: Bytes, n: nat, width: nat)
    requires n < Pow256(width)
    ensures FieldAt(h + LittleEndian(n, width), |h|, width) == n
    decreases width
  {
    var f := LittleEndian(n, width);
    FieldAtEnd(h, f);
    LittleEndianRoundTrip(n, width);
  }

  lemma {:induction false} FieldAtEnd(h: Bytes, f: Bytes)
    ensures FieldAt(h + f, |h|, |f|) == FromLittleEndian(f)
    decreases |f|
  {
    if f != [] {
      FieldAtEnd(h + [f[0]], f[1..]);
      assert h + [f[0]] + f[1..] == h + f;
    }
  }

  lemma {:induction false} FieldKept(h: Bytes, f: Bytes, at: nat, width: nat)
    requires at + width <= |h|
    ensures FieldAt(h + f, at, width) == FieldAt(h, at, width)
    decreases width
  {
    if width > 0 {
      FieldKept(h, f, at + 1, width - 1);
    }
  }

  /** Appending a field puts it at the end and leaves the earlier ones alone. */
  lemma Grow(h: Bytes, n: nat, width: nat)
    requires n < Pow256(width)
    ensures FieldAt(h + LittleEndian(n, width), |h|, width) == n
    ensures forall at: nat, w: nat :: at + w <= |h| ==> FieldAt(h + LittleEndian(n, width), at, w) == FieldAt(h, at, w)
  {
    FieldOfAppended(h, n, width);
    forall at: nat, w: nat | at + w <= |h| ensures FieldAt(h + LittleEndian(n, width), at, w) == FieldAt(h, at, w) {
      FieldKept(h, LittleEndian(n, width), at, w);
    }
  }

  predicate IsLocalHeader(h: Bytes, crc: nat, size: nat, nameLength: nat) {
    && |h| == 30
    && FieldAt(h, 0, 4) == LOCAL_SIGNATURE && FieldAt(h, 8, 2) == 0
    && FieldAt(h, 14, 4) == crc && FieldAt(h, 18, 4) == size && FieldAt(h, 22, 4) == size
    && FieldAt(h, 26, 2) == nameLength && FieldAt(h, 28, 2) == 0
  }

  predicate IsCentralHeader(h: Bytes, crc: nat, size: nat, nameLength: nat, attrs: nat, localStart: nat) {
    && |h| == 46
    && FieldAt(h, 0, 4) == CENTRAL_SIGNATURE && FieldAt(h, 10, 2) == 0
    && FieldAt(h, 16, 4) == crc && FieldAt(h, 20, 4) == size && FieldAt(h, 24, 4) == size
    && FieldAt(h, 28, 2) == nameLength && FieldAt(h, 30, 2) == 0 && FieldAt(h, 32, 2) == 0
    && FieldAt(h, 38, 4) == attrs && FieldAt(h, 42, 4) == localStart
  }

  predicate IsEndRecord(h: Bytes, count: nat, centralLength: nat, localLength: nat) {
    && |h| == 22
    && FieldAt(h, 0, 4) == END_SIGNATURE && FieldAt(h, 4, 2) == 0 && FieldAt(h, 6, 2) == 0
    && FieldAt(h, 8, 2) == count && FieldAt(h, 10, 2) == count
    && FieldAt(h, 12, 4) == centralLength && FieldAt(h, 16, 4) == localLength && FieldAt(h, 20, 2) == 0
  }

  lemma LocalFields(crc: Word, size: Word, nameLength: nat)
    requires nameLength < 0x1_0000
    ensures IsLocalHeader(LocalHeader(crc, size, nameLength), crc, size, nameLength)
  {
    Pow256Values();
    var h0: Bytes := [];     Grow(h0, LOCAL_SIGNATURE, 4);
    var h1 := h0 + U32(LOCAL_SIGNATURE);
    assert h1 == U32(LOCAL_SIGNATURE);
    Grow(h1, 20, 2);         var h2 := h1 + U16(20);
    Grow(h2, 0, 2);          var h3 := h2 + U16(0);
    Grow(h3, 0, 2);          var h4 := h3 + U16(0);
    Grow(h4, 0, 2);          var h5 := h4 + U16(0);
    Grow(h5, 0, 2);          var h6 := h5 + U16(0);
    Grow(h6, crc, 4);        var h7 := h6 + U32(crc);
    Grow(h7, size, 4);       var h8 := h7 + U32(size);
    Grow(h8, size, 4);       var h9 := h8 + U32(size);
    Grow(h9, nameLength, 2); var h10 := h9 + U16(nameLength);
    Grow(h10, 0, 2);
  }

  lemma CentralFields(crc: Word, size: Word, nameLength: nat, attrs: Word, localStart: Word)
    requires nameLength < 0x1_0000
    ensures IsCentralHeader(CentralHeader(crc, size, nameLength, attrs, localStart), crc, size, nameLength, attrs,
                            localStart)
  {
    Pow256Values();
    var h0: Bytes := [];     Grow(h0, CENTRAL_SIGNATURE, 4);
    var h1 := h0 + U32(CENTRAL_SIGNATURE);
    assert h1 == U32(CENTRAL_SIGNATURE);
    Grow(h1, 20, 2);         var h2 := h1 + U16(20);
    Grow(h2, 20, 2);         var h3 := h2 + U16(20);
    Grow(h3, 0, 2);          var h4 := h3 + U16(0);
    Grow(h4, 0, 2);          var h5 := h4 + U16(0);
    Grow(h5, 0, 2);          var h6 := h5 + U16(0);
    Grow(h6, 0, 2);          var h7 := h6 + U16(0);
    Grow(h7, crc, 4);        var h8 := h7 + U32(crc);
    Grow(h8, size, 4);       var h9 := h8 + U32(size);
    Grow(h9, size, 4);       var h10 := h9 + U32(size);
    Grow(h10, nameLength, 2); var h11 := h10 + U16(nameLength);
    Grow(h11, 0, 2);         var h12 := h11 + U16(0);
    Grow(h12, 0, 2);         var h13 := h12 + U16(0);
    Grow(h13, 0, 2);         var h14 := h13 + U16(0);
    Grow(h14, 0, 2);         var h15 := h14 + U16(0);
    Grow(h15, attrs, 4);     var h16 := h15 + U32(attrs);
    Grow(h16, localStart, 4);
  }

  lemma EndFields(count: nat, centralLength: Word, localLength: Word)
    requires count < 0x1_0000
    ensures IsEndRecord(EndRecord(count, centralLength, localLength), count, centralLength, localLength)
  {
    Pow256Values();
    var h0: Bytes := [];     Grow(h0, END_SIGNATURE, 4);
    var h1 := h0 + U32(END_SIGNATURE);
    assert h1 == U32(END_SIGNATURE);
    Grow(h1, 0, 2);          var h2 := h1 + U16(0);
    Grow(h2, 0, 2);          var h3 := h2 + U16(0);
    Grow(h3, count, 2);      var h4 := h3 + U16(count);
    Grow(h4, count, 2);      var h5 := h4 + U16(count);
    Grow(h5, centralLength, 4); var h6 := h5 + U32(centralLength);
    Grow(h6, localLength, 4); var h7 := h6 + U32(localLength);
    Grow(h7, 0, 2);
  }

  // ---------------------------------------------------------------- reading records in place

  /** `part` stands in `z` at `at`. */
  predicate Stands(z: Bytes, at: nat, part: Bytes)
    decreases |part|
  {
    at + |part| <= |z| && (part == [] || (z[at] == part[0] && Stands(z, at + 1, part[1..])))
  }

  lemma {:induction false} StandsIff(z: Bytes, at: nat, part: Bytes)
    ensures Stands(z, at, part) <==> at + |part| <= |z| && z[at..at + |part|] == part
    decreases |part|
  {
    if part != [] && at + |part| <= |z| {
      StandsIff(z, at + 1, part[1..]);
      var there := z[at..at + |part|];
      assert there == [z[at]] + z[at + 1..at + |part|];
      assert part == [part[0]] + part[1..];
      assert there[0] == z[at] && there[1..] == z[at + 1..at + |part|];
    }
  }

  lemma StandsConcat(z: Bytes, at: nat, a: Bytes, b: Bytes)
    requires Stands(z, at, a + b)
    ensures Stands(z, at, a) && Stands(z, at + |a|, b)
    decreases |a|
  {
    if a == [] {
      assert a + b == b;
    } else {
      assert (a + b)[1..] == a[1..] + b;
      StandsConcat(z, at + 1, a[1..], b);
    }
  }

  lemma {:induction false} FieldReads(z: Bytes, at: nat, h: Bytes, k: nat, width: nat)
    requires Stands(z, at, h) && k + width <= |h|
    ensures at + |h| <= |z| && FieldAt(z, at + k, width) == FieldAt(h, k, width)
    decreases width
  {
    if width > 0 {
      FieldReads(z, at, h, k + 1, width - 1);
      StandsIff(z, at, h);
      assert z[at..at + |h|][k] == z[at + k];
    }
  }

  lemma LocalFieldsRead(z: Bytes, at: nat, h: Bytes, crc: nat, size: nat, nameLength: nat)
    requires Stands(z, at, h) && IsLocalHeader(h, crc, size, nameLength)
    ensures at + 30 <= |z|
    ensures FieldAt(z, at, 4) == LOCAL_SIGNATURE && FieldAt(z, at + 8, 2) == 0
    ensures FieldAt(z, at + 14, 4) == crc && FieldAt(z, at + 18, 4) == size && FieldAt(z, at + 22, 4) == size
    ensures FieldAt(z, at + 26, 2) == nameLength && FieldAt(z, at + 28, 2) == 0
  {
    FieldReads(z, at, h, 0, 4);
    FieldReads(z, at, h, 8, 2);
    FieldReads(z, at, h, 14, 4);
    FieldReads(z, at, h, 18, 4);
    FieldReads(z, at, h, 22, 4);
    FieldReads(z, at, h, 26, 2);
    FieldReads(z, at, h, 28, 2);
  }

  /** Where the parts of a record stand. */
  lemma RecordStands(z: Bytes, at: nat, h: Bytes, name: Bytes, data: Bytes)
    requires Stands(z, at, h + name + data)
    ensures Stands(z, at, h) && Stands(z, at + |h|, name) && Stands(z, at + |h| + |name|, data)
  {
    StandsConcat(z, at, h + name, data);
    StandsConcat(z, at, h, name);
  }

  lemma LocalFromFields(z: Bytes, at: nat, s: Stored)
    requires at + 30 <= |z|
    requires FieldAt(z, at, 4) == LOCAL_SIGNATURE && FieldAt(z, at + 8, 2) == 0
    requires FieldAt(z, at + 14, 4) == s.crc && FieldAt(z, at + 18, 4) == |s.data| && FieldAt(z, at + 22, 4) == |s.data|
    requires FieldAt(z, at + 26, 2) == |s.name| && FieldAt(z, at + 28, 2) == 0
    requires Stands(z, at + 30, s.name) && Stands(z, at + 30 + |s.name|, s.data)
    ensures ReadLocal(z, at, s.name, s.crc, |s.data|) == Some(s.data)
  {
    StandsIff(z, at + 30, s.name);
    StandsIff(z, at + 30 + |s.name|, s.data);
  }

  lemma LocalReads(z: Bytes, at: nat, h: Bytes, s: Stored)
    requires IsLocalHeader(h, s.crc, |s.data|, |s.name|)
    requires Stands(z, at, h + s.name + s.data)
    ensures ReadLocal(z, at, s.name, s.crc, |s.data|) == Some(s.data)
  {
    RecordStands(z, at, h, s.name, s.data);
    LocalFieldsRead(z, at, h, s.crc, |s.data|, |s.name|);
    LocalFromFields(z, at, s);
  }

  lemma CentralFieldsRead(z: Bytes, at: nat, h: Bytes, crc: nat, size: nat, nameLength: nat, attrs: nat,
                          localStart: nat)
    requires Stands(z, at, h) && IsCentralHeader(h, crc, size, nameLength, attrs, localStart)
    ensures at + 46 <= |z|
    ensures FieldAt(z, at, 4) == CENTRAL_SIGNATURE && FieldAt(z, at + 10, 2) == 0
    ensures FieldAt(z, at + 16, 4) == crc && FieldAt(z, at + 20, 4) == size && FieldAt(z, at + 24, 4) == size
    ensures FieldAt(z, at + 28, 2) == nameLength && FieldAt(z, at + 30, 2) == 0 && FieldAt(z, at + 32, 2) == 0
    ensures FieldAt(z, at + 38, 4) == attrs && FieldAt(z, at + 42, 4) == localStart
  {
    FieldReads(z, at, h, 0, 4);
    FieldReads(z, at, h, 10, 2);
    FieldReads(z, at, h, 16, 4);
    FieldReads(z, at, h, 20, 4);
    FieldReads(z, at, h, 24, 4);
    FieldReads(z, at, h, 28, 2);
    FieldReads(z, at, h, 30, 2);
    FieldReads(z, at, h, 32, 2);
    FieldReads(z, at, h, 38, 4);
    FieldReads(z, at, h, 42, 4);
  }

  lemma CentralFromFields(z: Bytes, at: nat, s: Stored, localStart: nat)
    requires at + 46 <= |z|
    requires FieldAt(z, at, 4) == CENTRAL_SIGNATURE && FieldAt(z, at + 10, 2) == 0
    requires FieldAt(z, at + 16, 4) == s.crc && FieldAt(z, at + 20, 4) == |s.data| && FieldAt(z, at + 24, 4) == |s.data|
    requires FieldAt(z, at + 28, 2) == |s.name| && FieldAt(z, at + 30, 2) == 0 && FieldAt(z, at + 32, 2) == 0
    requires FieldAt(z, at + 38, 4) == s.attrs && FieldAt(z, at + 42, 4) == localStart
    requires Stands(z, at + 46, s.name)
    requires ReadLocal(z, localStart, s.name, s.crc, |s.data|) == Some(s.data)
    ensures ReadEntry(z, at) == Some((s, at + 46 + |s.name|))
  {
    StandsIff(z, at + 46, s.name);
  }

  lemma CentralReads(z: Bytes, at: nat, h: Bytes, s: Stored, localStart: nat, entry: Bytes)
    requires IsCentralHeader(h, s.crc, |s.data|, |s.name|, s.attrs, localStart)
    requires entry == h + s.name && Stands(z, at, entry)
    requires ReadLocal(z, localStart, s.name, s.crc, |s.data|) == Some(s.data)
    ensures ReadEntry(z, at) == Some((s, at + |entry|))
  {
    StandsConcat(z, at, h, s.name);
    CentralFieldsRead(z, at, h, s.crc, |s.data|, |s.name|, s.attrs, localStart);
    CentralFromFields(z, at, s, localStart);
  }

  // ---------------------------------------------------------------- the whole archive

  /** A directory entry that stands in `z`, and whose record stands where it says, is read back. */
  predicate Reads(read: EntryReader, z: Bytes, record: Record, entry: DirectoryEntry, s: Stored, localStart: nat,
                  at: nat) {
    FieldsFit(s) && localStart < 0x1_0000_0000 && Stands(z, localStart, record(s))
      && Stands(z, at, entry(s, localStart))
    ==> read(z, at) == Some((s, at + |entry(s, localStart)|))
  }

  predicate IsLocalRecord(r: Bytes, h: Bytes, s: Stored) {
    r == h + s.name + s.data && IsLocalHeader(h, s.crc, |s.data|, |s.name|)
  }

  predicate IsCentralRecord(r: Bytes, h: Bytes, s: Stored, localStart: nat) {
    r == h + s.name && IsCentralHeader(h, s.crc, |s.data|, |s.name|, s.attrs, localStart)
  }

  /** The records of an entry are headers with the fields of the format, then the name and the data. */
  ghost predicate WellFormed(record: Record, entry: DirectoryEntry, s: Stored, localStart: nat) {
    FieldsFit(s) && localStart < 0x1_0000_0000 ==>
      (exists h :: IsLocalRecord(record(s), h, s))
        && (exists h :: IsCentralRecord(entry(s, localStart), h, s, localStart))
  }

  ghost predicate AllWellFormed(record: Record, entry: DirectoryEntry) {
    forall s, localStart :: WellFormed(record, entry, s, localStart)
  }

  lemma LocalRecordIsOne(s: Stored)
    requires FieldsFit(s)
    ensures exists h :: IsLocalRecord(LocalRecord(s), h, s)
  {
    LocalFields(s.crc, |s.data|, |s.name|);
    assert IsLocalRecord(LocalRecord(s), LocalHeader(s.crc, |s.data|, |s.name|), s);
  }

  lemma CentralRecordIsOne(s: Stored, localStart: Word)
    requires FieldsFit(s)
    ensures exists h :: IsCentralRecord(CentralRecord(s, localStart), h, s, localStart)
  {
    CentralFields(s.crc, |s.data|, |s.name|, s.attrs, localStart);
    assert IsCentralRecord(CentralRecord(s, localStart), CentralHeader(s.crc, |s.data|, |s.name|, s.attrs, localStart),
                           s, localStart);
  }

  lemma ZipRecordsWellFormed()
    ensures AllWellFormed(LocalRecord, CentralRecord)
  {
    forall s, localStart ensures WellFormed(LocalRecord, CentralRecord, s, localStart) {
      if FieldsFit(s) && localStart < 0x1_0000_0000 {
        LocalRecordIsOne(s);
        CentralRecordIsOne(s, localStart);
      }
    }
  }

  lemma RecordsRead(z: Bytes, s: Stored, localStart: nat, at: nat, record: Bytes, entry: Bytes, h: Bytes, c: Bytes)
    requires Stands(z, localStart, record) && Stands(z, at, entry)
    requires IsLocalRecord(record, h, s) && IsCentralRecord(entry, c, s, localStart)
    ensures ReadEntry(z, at) == Some((s, at + |entry|))
  {
    LocalReads(z, localStart, h, s);
    CentralReads(z, at, c, s, localStart, entry);
  }

  lemma WellFormedRead(z: Bytes, record: Record, entry: DirectoryEntry)
    requires AllWellFormed(record, entry)
    ensures AllRead(ReadEntry, z, record, entry)
  {
    forall s, localStart, at ensures Reads(ReadEntry, z, record, entry, s, localStart, at) {
      assert WellFormed(record, entry, s, localStart);
      if FieldsFit(s) && localStart < 0x1_0000_0000 && Stands(z, localStart, record(s))
        && Stands(z, at, entry(s, localStart)) {
        var h :| IsLocalRecord(record(s), h, s);
        var c :| IsCentralRecord(entry(s, localStart), c, s, localStart);
        RecordsRead(z, s, localStart, at, record(s), entry(s, localStart), h, c);
      }
    }
  }

  lemma DirectoryCons(read: EntryReader, z: Bytes, at: nat, count: nat, s: Stored, next: nat, ss: seq<Stored>, end: nat)
    requires count > 0 && read(z, at) == Some((s, next))
    requires ReadDirectory(read, z, next, count - 1) == Some((ss, end))
    ensures ReadDirectory(read, z, at, count) == Some(([s] + ss, end))
  {
  }

  ghost predicate AllRead(read: EntryReader, z: Bytes, record: Record, entry: DirectoryEntry) {
    forall s, localStart, at :: Reads(read, z, record, entry, s, localStart, at)
  }

  /** Everything the directory says stands in `z`, from `start` on. */
  ghost predicate Holds(read: EntryReader, z: Bytes, record: Record, entry: DirectoryEntry, ss: seq<Stored>,
                        start: nat) {
    && AllRead(read, z, record, entry)
    && Stands(z, 0, Records(record, ss)) && Stands(z, start, Directory(record, entry, ss))
    && |Records(record, ss)| < 0x1_0000_0000 && forall j :: 0 <= j < |ss| ==> FieldsFit(ss[j])
  }

  lemma RecordStandsAt(z: Bytes, record: Record, entry: DirectoryEntry, ss: seq<Stored>, i: nat)
    requires i < |ss| && Stands(z, 0, Records(record, ss))
    ensures Stands(z, |Records(record, ss[..i])|, record(ss[i]))
    ensures |Records(record, ss[..i])| <= |Records(record, ss)|
  {
    PartsGrow(record, entry, ss, i);
    PartsArePrefixes(record, entry, ss, i + 1);
    PrefixStands(z, 0, Records(record, ss), Records(record, ss[..i]), record(ss[i]));
  }

  lemma EntryStandsAt(z: Bytes, record: Record, entry: DirectoryEntry, ss: seq<Stored>, i: nat, start: nat, at: nat,
                      e: Bytes)
    requires i < |ss| && Stands(z, start, Directory(record, entry, ss))
    requires at == start + |Directory(record, entry, ss[..i])| && e == entry(ss[i], |Records(record, ss[..i])|)
    ensures Stands(z, at, e) && at + |e| == start + |Directory(record, entry, ss[..i + 1])|
  {
    PartsGrow(record, entry, ss, i);
    PartsArePrefixes(record, entry, ss, i + 1);
    PrefixStands(z, start, Directory(record, entry, ss), Directory(record, entry, ss[..i]), e);
  }

  lemma EntryReads(read: EntryReader, z: Bytes, record: Record, entry: DirectoryEntry, ss: seq<Stored>, i: nat,
                   start: nat, at: nat)
    requires i < |ss| && Holds(read, z, record, entry, ss, start)
    requires at == start + |Directory(record, entry, ss[..i])|
    ensures read(z, at) == Some((ss[i], start + |Directory(record, entry, ss[..i + 1])|))
  {
    var from := |Records(record, ss[..i])|;
    RecordStandsAt(z, record, entry, ss, i);
    EntryStandsAt(z, record, entry, ss, i, start, at, entry(ss[i], from));
    assert Reads(read, z, record, entry, ss[i], from, at);
  }

  /** Reading an entry at `ps[i]` gives `ss[i]` and leads on to `ps[i + 1]`. */
  predicate LeadsOn(read: EntryReader, z: Bytes, ps: seq<nat>, ss: seq<Stored>, i: nat)
    requires i < |ss| && |ps| == |ss| + 1
  {
    read(z, ps[i]) == Some((ss[i], ps[i + 1]))
  }

  /** A walk that leads on from entry to entry recovers all of them. */
  lemma {:induction false} WalkReads(read: EntryReader, z: Bytes, ps: seq<nat>, ss: seq<Stored>)
    requires |ps| == |ss| + 1 && forall i :: 0 <= i < |ss| ==> LeadsOn(read, z, ps, ss, i)
    ensures ReadDirectory(read, z, ps[0], |ss|) == Some((ss, ps[|ss|]))
    decreases |ss|
  {
    if ss != [] {
      assert LeadsOn(read, z, ps, ss, 0);
      forall i | 0 <= i < |ss[1..]| ensures LeadsOn(read, z, ps[1..], ss[1..], i) {
        assert LeadsOn(read, z, ps, ss, i + 1);
      }
      WalkReads(read, z, ps[1..], ss[1..]);
      DirectoryCons(read, z, ps[0], |ss|, ss[0], ps[1], ss[1..], ps[|ss|]);
      assert ss == [ss[0]] + ss[1..];
    }
  }

  /** Where directory entry `i` starts. */
  function Position(record: Record, entry: DirectoryEntry, ss: seq<Stored>, start: nat, i: nat): nat
    requires i <= |ss|
  {
    start + |Directory(record, entry, ss[..i])|
  }

  lemma PositionsLeadOn(read: EntryReader, z: Bytes, record: Record, entry: DirectoryEntry, ss: seq<Stored>,
                        start: nat, ps: seq<nat>)
    requires Holds(read, z, record, entry, ss, start)
    requires |ps| == |ss| + 1 && forall i :: 0 <= i <= |ss| ==> ps[i] == Position(record, entry, ss, start, i)
    ensures forall i :: 0 <= i < |ss| ==> LeadsOn(read, z, ps, ss, i)
  {
    forall i | 0 <= i < |ss| ensures LeadsOn(read, z, ps, ss, i) {
      assert ps[i] == Position(record, entry, ss, start, i);
      EntryReads(read, z, record, entry, ss, i, start, ps[i]);
      assert ps[i + 1] == Position(record, entry, ss, start, i + 1);
    }
  }

  lemma WholeDirectoryReads(read: EntryReader, z: Bytes, record: Record, entry: DirectoryEntry, ss: seq<Stored>,
                            start: nat, end: nat)
    requires Holds(read, z, record, entry, ss, start) && end == start + |Directory(record, entry, ss)|
    ensures ReadDirectory(read, z, start, |ss|) == Some((ss, end))
  {
    var ps := seq(|ss| + 1, i requires 0 <= i <= |ss| => Position(record, entry, ss, start, i));
    PositionsLeadOn(read, z, record, entry, ss, start, ps);
    WalkReads(read, z, ps, ss);
    assert ss[..0] == [] && ss[..|ss|] == ss;
  }

  lemma PrefixStands(z: Bytes, at: nat, whole: Bytes, before: Bytes, part: Bytes)
    requires Stands(z, at, whole) && before + part <= whole
    ensures Stands(z, at + |before|, part)
  {
    assert whole == before + part + whole[|before| + |part|..];
    StandsConcat(z, at, before + part, whole[|before| + |part|..]);
    StandsConcat(z, at, before, part);
  }

  lemma EndFieldsRead(z: Bytes, at: nat, h: Bytes, count: nat, centralLength: nat, localLength: nat)
    requires Stands(z, at, h) && |z| == at + |h| && IsEndRecord(h, count, centralLength, localLength)
    ensures |z| == at + 22 && FindEnd(z, |z| - 22) == Some(at)
    ensures FieldAt(z, at + 4, 2) == 0 && FieldAt(z, at + 6, 2) == 0
    ensures FieldAt(z, at + 8, 2) == count && FieldAt(z, at + 10, 2) == count
    ensures FieldAt(z, at + 12, 4) == centralLength && FieldAt(z, at + 16, 4) == localLength
  {
    FieldReads(z, at, h, 0, 4);
    FieldReads(z, at, h, 4, 2);
    FieldReads(z, at, h, 6, 2);
    FieldReads(z, at, h, 8, 2);
    FieldReads(z, at, h, 10, 2);
    FieldReads(z, at, h, 12, 4);
    FieldReads(z, at, h, 16, 4);
    FieldReads(z, at, h, 20, 2);
  }

  lemma ArchiveParts(z: Bytes, local: Bytes, central: Bytes, end: Bytes)
    requires z == local + central + end
    ensures Stands(z, 0, local) && Stands(z, |local|, central) && Stands(z, |local| + |central|, end)
  {
    StandsIff(z, 0, z);
    RecordStands(z, 0, local, central, end);
  }

  lemma EndRecordOf(count: nat, centralLength: Word, localLength: Word) returns (h: Bytes)
    requires count < 0x1_0000
    ensures h == EndRecord(count, centralLength, localLength) && IsEndRecord(h, count, centralLength, localLength)
  {
    h := EndRecord(count, centralLength, localLength);
    EndFields(count, centralLength, localLength);
  }

  lemma ZipFromParts(read: EntryReader, z: Bytes, ss: seq<Stored>, localLength: nat, at: nat)
    requires |z| == at + 22 && FindEnd(z, |z| - 22) == Some(at) && localLength <= at
    requires FieldAt(z, at + 4, 2) == 0 && FieldAt(z, at + 6, 2) == 0
    requires FieldAt(z, at + 8, 2) == |ss| && FieldAt(z, at + 10, 2) == |ss|
    requires FieldAt(z, at + 12, 4) == at - localLength && FieldAt(z, at + 16, 4) == localLength
    requires ReadDirectory(read, z, localLength, |ss|) == Some((ss, at))
    ensures ReadZipWith(read, z) == Some(ss)
  {
  }

  lemma EndReads(read: EntryReader, z: Bytes, ss: seq<Stored>, end: Bytes, localLength: nat, at: nat)
    requires Stands(z, at, end) && |z| == at + |end| && localLength <= at
    requires IsEndRecord(end, |ss|, at - localLength, localLength)
    requires ReadDirectory(read, z, localLength, |ss|) == Some((ss, at))
    ensures ReadZipWith(read, z) == Some(ss)
  {
    EndFieldsRead(z, at, end, |ss|, at - localLength, localLength);
    ZipFromParts(read, z, ss, localLength, at);
  }

  /** Reading back works for any layout whose records can be read back. */
  lemma ReadParts(read: EntryReader, z: Bytes, record: Record, entry: DirectoryEntry, ss: seq<Stored>, end: Bytes,
                  start: nat, at: nat)
    requires Holds(read, z, record, entry, ss, start) && at == start + |Directory(record, entry, ss)|
    requires Stands(z, at, end) && |z| == at + |end| && IsEndRecord(end, |ss|, at - start, start)
    ensures ReadZipWith(read, z) == Some(ss)
  {
    WholeDirectoryReads(read, z, record, entry, ss, start, at);
    EndReads(read, z, ss, end, start, at);
  }

  lemma ArchiveHolds(read: EntryReader, z: Bytes, record: Record, entry: DirectoryEntry, ss: seq<Stored>, end: Bytes,
                     start: nat)
    requires z == Records(record, ss) + Directory(record, entry, ss) + end && start == |Records(record, ss)|
    requires start < 0x1_0000_0000 && forall j :: 0 <= j < |ss| ==> FieldsFit(ss[j])
    requires AllRead(read, z, record, entry)
    ensures Holds(read, z, record, entry, ss, start)
    ensures Stands(z, start + |Directory(record, entry, ss)|, end)
  {
    ArchiveParts(z, Records(record, ss), Directory(record, entry, ss), end);
  }

  lemma ReadWellFormed(z: Bytes, record: Record, entry: DirectoryEntry, ss: seq<Stored>, end: Bytes, start: nat,
                       at: nat)
    requires z == Records(record, ss) + Directory(record, entry, ss) + end
    requires start == |Records(record, ss)| && at == start + |Directory(record, entry, ss)|
    requires IsEndRecord(end, |ss|, at - start, start) && start < 0x1_0000_0000
    requires forall j :: 0 <= j < |ss| ==> FieldsFit(ss[j])
    requires AllWellFormed(record, entry)
    ensures ReadZip(z) == Some(ss)
  {
    WellFormedRead(z, record, entry);
    ArchiveHolds(ReadEntry, z, record, entry, ss, end, start);
    ReadParts(ReadEntry, z, record, entry, ss, end, start, at);
  }

  /** Reading an archive gives back its entries, in order. */
  lemma ReadArchive(ss: seq<Stored>)
    requires Fits(ss)
    ensures ReadZip(Archive(ss)) == Some(ss)
  {
    var end := EndRecordOf(|ss|, |CentralPart(ss)|, |LocalPart(ss)|);
    ZipRecordsWellFormed();
    ReadWellFormed(Archive(ss), LocalRecord, CentralRecord, ss, end, |LocalPart(ss)|,
                   |LocalPart(ss)| + |CentralPart(ss)|);
  }

  /**
   * Whatever `MakeZip` returns reads back as exactly the names, data and attributes it was given, each with the
   * register over its data, started at zero and inverted.
   */
  lemma MakeZipReadsBack(entries: seq<Entry>)
    requires Fits(StoreAll(CrcOf, entries))
    ensures var r := ReadZip(Archive(StoreAll(CrcOf, entries)));
            && r.Some? && |r.value| == |entries|
            && forall i :: 0 <= i < |entries| ==>
                 r.value[i].name == entries[i].name && r.value[i].data == entries[i].data
                 && r.value[i].attrs == AttrField(entries[i].attrs)
    ensures var r := ReadZip(Archive(StoreAll(CrcOf, entries)));
            forall i, octets :: 0 <= i < |entries| && Spells(octets, entries[i].data) ==>
              r.value[i].crc == Inverted(Crc32.State(Crc32.ZIP_FEED, 0, octets))
  {
    ReadArchive(StoreAll(CrcOf, entries));
    forall i, octets | 0 <= i < |entries| && Spells(octets, entries[i].data)
      ensures CrcOf(entries[i].data) == Inverted(Crc32.State(Crc32.ZIP_FEED, 0, octets)) {
      CrcOfIs(octets, entries[i].data);
    }
  }

  lemma CastInjective(a: bv32, b: bv32)
    requires a as int == b as int
    ensures a == b
  {
    assert (a as int) as bv32 == a;
  }

  /** `x` and `y` differ, and only inside four consecutive octets. */
  predicate DifferInBurst(x: seq<Crc32.Octet>, y: seq<Crc32.Octet>, at: nat) {
    |x| == |y| && x != y && forall j :: 0 <= j < |x| && !(at <= j < at + 4) ==> x[j] == y[j]
  }

  /** Data that differ, and only inside four consecutive bytes, have different checksum words. */
  lemma BurstChangesWord(a: Bytes, b: Bytes, x: seq<Crc32.Octet>, y: seq<Crc32.Octet>, at: nat)
    requires Spells(x, a) && Spells(y, b) && DifferInBurst(x, y, at)
    ensures CrcOf(a) != CrcOf(b)
  {
    SameOctets(x, a);
    SameOctets(y, b);
    Crc32.BurstChangesChecksum(x, y, at);
    if CrcOf(a) == CrcOf(b) { CastInjective(Crc32.Checksum(x), Crc32.Checksum(y)); }
  }

  /** So two archives show it in both headers of the entry when such data is what changed in it. */
  lemma BurstShows(entries: seq<Entry>, others: seq<Entry>, i: nat, x: seq<Crc32.Octet>, y: seq<Crc32.Octet>, at: nat)
    requires Fits(StoreAll(CrcOf, entries)) && Fits(StoreAll(CrcOf, others)) && i < |entries| && i < |others|
    requires Spells(x, entries[i].data) && Spells(y, others[i].data) && DifferInBurst(x, y, at)
    ensures exists v: nat, w: nat ::
              && Zip.Stands(Archive(StoreAll(CrcOf, entries)), entries, i, v)
              && Zip.Stands(Archive(StoreAll(CrcOf, others)), others, i, w) && v != w
  {
    BurstChangesWord(entries[i].data, others[i].data, x, y, at);
    EntryStands(CrcOf, entries, i, Archive(StoreAll(CrcOf, entries)));
    EntryStands(CrcOf, others, i, Archive(StoreAll(CrcOf, others)));
  }

  /** Different contents never give the same archive. */
  lemma ArchiveInjective(ss: seq<Stored>, tt: seq<Stored>)
    requires Fits(ss) && Fits(tt) && Archive(ss) == Archive(tt)
    ensures ss == tt
  {
    ReadArchive(ss);
    ReadArchive(tt);
  }
}
