/** The stored-only ZIP writer of src/test-utils/moext.ts. */
module Zip {
  import opened ByteStrings
  import opened Options
  import Crc32

  /** `attrs` is `externalAttrUpper16`. */
  datatype Entry = Entry(name: Bytes, data: Bytes, attrs: Option<nat>)

  datatype Failure = OutOfRange

  function Octets(data: Bytes): seq<Crc32.Octet> {
    seq(|data|, i requires 0 <= i < |data| => data[i] as bv8)
  }

  type Word = n: nat | n < 0x1_0000_0000

  /** The writer is independent of which 32-bit checksum it stores. */
  type Checksum = Bytes -> Word

  function CrcOf(data: Bytes): Word {
    Crc32.Checksum(Octets(data)) as Word
  }

  /** `((upper ?? 0) << 16) >>> 0`: the shift drops everything above sixteen bits. */
  function AttrField(attrs: Option<nat>): Word {
    match attrs case None => 0 case Some(upper) => upper % 0x1_0000 * 0x1_0000
  }

  // ---------------------------------------------------------------- headers

  const LOCAL_SIGNATURE := 0x04034b50
  const CENTRAL_SIGNATURE := 0x02014b50
  const END_SIGNATURE := 0x06054b50

  function U16(n: nat): Bytes {
    LittleEndian(n, 2)
  }

  function U32(n: nat): Bytes {
    LittleEndian(n, 4)
  }

  function LocalHeader(crc: nat, size: nat, nameLength: nat): Bytes {
    U32(LOCAL_SIGNATURE) + U16(20) + U16(0) + U16(0) + U16(0) + U16(0)
    + U32(crc) + U32(size) + U32(size) + U16(nameLength) + U16(0)
  }

  function CentralHeader(crc: nat, size: nat, nameLength: nat, attrs: nat, localStart: nat): Bytes {
    U32(CENTRAL_SIGNATURE) + U16(20) + U16(20) + U16(0) + U16(0) + U16(0) + U16(0)
    + U32(crc) + U32(size) + U32(size) + U16(nameLength) + U16(0) + U16(0) + U16(0) + U16(0)
    + U32(attrs) + U32(localStart)
  }

  function EndRecord(count: nat, centralLength: nat, localLength: nat): Bytes {
    U32(END_SIGNATURE) + U16(0) + U16(0) + U16(count) + U16(count) + U32(centralLength) + U32(localLength) + U16(0)
  }

  // ---------------------------------------------------------------- archives

  /** What the archive says of an entry: its fields and the checksum of its data. */
  datatype Stored = Stored(name: Bytes, data: Bytes, attrs: Word, crc: Word)

  function Store(crc: Checksum, e: Entry): Stored {
    Stored(e.name, e.data, AttrField(e.attrs), crc(e.data))
  }

  function StoreAll(crc: Checksum, es: seq<Entry>): (ss: seq<Stored>)
    ensures |ss| == |es| && forall i :: 0 <= i < |ss| ==> ss[i] == Store(crc, es[i])
  {
    seq(|es|, i requires 0 <= i < |es| => Store(crc, es[i]))
  }

  function LocalRecord(s: Stored): Bytes {
    LocalHeader(s.crc, |s.data|, |s.name|) + s.name + s.data
  }

  function CentralRecord(s: Stored, localStart: nat): Bytes {
    CentralHeader(s.crc, |s.data|, |s.name|, s.attrs, localStart) + s.name
  }

  /** Records one after another. */
  function Records<S>(record: S -> Bytes, ss: seq<S>): Bytes {
    if ss == [] then [] else Records(record, ss[..|ss| - 1]) + record(ss[|ss| - 1])
  }

  /** One directory entry per record, each telling where its record starts. */
  function Directory<S>(record: S -> Bytes, entry: (S, nat) -> Bytes, ss: seq<S>): Bytes {
    if ss == [] then []
    else
      var front, last := ss[..|ss| - 1], ss[|ss| - 1];
      Directory(record, entry, front) + entry(last, |Records(record, front)|)
  }

  function LocalPart(ss: seq<Stored>): Bytes {
    Records(LocalRecord, ss)
  }

  function CentralPart(ss: seq<Stored>): Bytes {
    Directory(LocalRecord, CentralRecord, ss)
  }

  function Archive(ss: seq<Stored>): Bytes {
    LocalPart(ss) + CentralPart(ss) + EndRecord(|ss|, |CentralPart(ss)|, |LocalPart(ss)|)
  }

  predicate FieldsFit(s: Stored) {
    |s.name| < 0x1_0000 && |s.data| < 0x1_0000_0000
  }

  /** Every count, size and offset fits its field. */
  predicate Fits(ss: seq<Stored>) {
    && |ss| < 0x1_0000
    && |LocalPart(ss)| < 0x1_0000_0000
    && |CentralPart(ss)| < 0x1_0000_0000
    && forall i :: 0 <= i < |ss| ==> FieldsFit(ss[i])
  }

  // ---------------------------------------------------------------- the writer

  /** The first bytes are written and the rest of the buffer is still zero. */
  ghost predicate Written(buf: array<Byte>, done: Bytes)
    reads buf
  {
    |done| <= buf.Length && buf[..|done|] == done && forall i :: |done| <= i < buf.Length ==> buf[i] == 0
  }

  /** `buf.writeUIntLE` at the end of what is written: out-of-range values throw and write nothing. */
  method Write(buf: array<Byte>, value: nat, width: nat, pos: nat, ghost done: Bytes)
    returns (ok: bool, ghost now: Bytes)
    requires Written(buf, done) && |done| == pos && pos + width <= buf.Length
    modifies buf
    ensures ok <==> value < Pow256(width)
    ensures ok ==> now == done + LittleEndian(value, width) && Written(buf, now)
  {
    now := done;
    if value >= Pow256(width) {
      return false, now;
    }
    var bytes := LittleEndian(value, width);
    forall i | 0 <= i < width {
      buf[pos + i] := bytes[i];
    }
    now := done + bytes;
    assert buf[..pos + width] == now;
    ok := true;
  }

  method LocalHeaderBuffer(crc: Word, size: nat, nameLength: nat) returns (r: Option<Bytes>)
    ensures r == if nameLength < 0x1_0000 && size < 0x1_0000_0000
                 then Some(LocalHeader(crc, size, nameLength)) else None
  {
    Pow256Values();
    var lfh := new Byte[30](_ => 0);
    var ok; ghost var d;
    ok, d := Write(lfh, LOCAL_SIGNATURE, 4, 0, []);
    assert d == U32(LOCAL_SIGNATURE);
    ok, d := Write(lfh, 20, 2, 4, d);
    ok, d := Write(lfh, 0, 2, 6, d);
    ok, d := Write(lfh, 0, 2, 8, d);
    ok, d := Write(lfh, 0, 2, 10, d);
    ok, d := Write(lfh, 0, 2, 12, d);
    ok, d := Write(lfh, crc, 4, 14, d);
    ok, d := Write(lfh, size, 4, 18, d);
    if !ok { return None; }
    ok, d := Write(lfh, size, 4, 22, d);
    ok, d := Write(lfh, nameLength, 2, 26, d);
    if !ok { return None; }
    ok, d := Write(lfh, 0, 2, 28, d);
    assert lfh[..30] == lfh[..];
    r := Some(lfh[..]);
  }

  function CentralPreamble(): Bytes {
    U32(CENTRAL_SIGNATURE) + U16(20) + U16(20) + U16(0) + U16(0) + U16(0) + U16(0)
  }

  /** The signature, the versions, and the flags, method, time and date, which are all zero. */
  method WritePreamble(cdh: array<Byte>) returns (ghost d: Bytes)
    requires Written(cdh, []) && cdh.Length == 46
    modifies cdh
    ensures d == CentralPreamble() && |d| == 16 && Written(cdh, d)
  {
    Pow256Values();
    var ok;
    ok, d := Write(cdh, CENTRAL_SIGNATURE, 4, 0, []);
    assert d == U32(CENTRAL_SIGNATURE);
    ok, d := Write(cdh, 20, 2, 4, d);
    ok, d := Write(cdh, 20, 2, 6, d);
    ok, d := Write(cdh, 0, 2, 8, d);
    ok, d := Write(cdh, 0, 2, 10, d);
    ok, d := Write(cdh, 0, 2, 12, d);
    ok, d := Write(cdh, 0, 2, 14, d);
  }

  method CentralHeaderBuffer(crc: Word, size: Word, nameLength: nat, attrs: Word, localStart: nat)
    returns (r: Option<Bytes>)
    requires nameLength < 0x1_0000
    ensures r == if localStart < 0x1_0000_0000
                 then Some(CentralHeader(crc, size, nameLength, attrs, localStart)) else None
  {
    Pow256Values();
    var cdh := new Byte[46](_ => 0);
    ghost var d := WritePreamble(cdh);
    var ok;
    ok, d := Write(cdh, crc, 4, 16, d);
    ok, d := Write(cdh, size, 4, 20, d);
    ok, d := Write(cdh, size, 4, 24, d);
    ok, d := Write(cdh, nameLength, 2, 28, d);
    ok, d := Write(cdh, 0, 2, 30, d);
    ok, d := Write(cdh, 0, 2, 32, d);
    ok, d := Write(cdh, 0, 2, 34, d);
    ok, d := Write(cdh, 0, 2, 36, d);
    ok, d := Write(cdh, attrs, 4, 38, d);
    ok, d := Write(cdh, localStart, 4, 42, d);
    if !ok { return None; }
    assert cdh[..46] == cdh[..];
    r := Some(cdh[..]);
  }

  method EndRecordBuffer(count: nat, centralLength: nat, localLength: nat) returns (r: Option<Bytes>)
    ensures r == if count < 0x1_0000 && centralLength < 0x1_0000_0000 && localLength < 0x1_0000_0000
                 then Some(EndRecord(count, centralLength, localLength)) else None
  {
    Pow256Values();
    var eocd := new Byte[22](_ => 0);
    var ok; ghost var d;
    ok, d := Write(eocd, END_SIGNATURE, 4, 0, []);
    assert d == U32(END_SIGNATURE);
    ok, d := Write(eocd, 0, 2, 4, d);
    ok, d := Write(eocd, 0, 2, 6, d);
    ok, d := Write(eocd, count, 2, 8, d);
    if !ok { return None; }
    ok, d := Write(eocd, count, 2, 10, d);
    ok, d := Write(eocd, centralLength, 4, 12, d);
    if !ok { return None; }
    ok, d := Write(eocd, localLength, 4, 16, d);
    if !ok { return None; }
    ok, d := Write(eocd, 0, 2, 20, d);
    assert eocd[..22] == eocd[..];
    r := Some(eocd[..]);
  }

  /** The record layouts, as values: the loop over the entries does not depend on them. */
  type Record = Stored -> Bytes
  type DirectoryEntry = (Stored, nat) -> Bytes

  predicate LaidOutBy(record: Record, entry: DirectoryEntry, s: Stored, localStart: nat) {
    record(s) == LocalRecord(s) && entry(s, localStart) == CentralRecord(s, localStart)
  }

  ghost predicate ZipLayout(record: Record, entry: DirectoryEntry) {
    forall s, localStart :: LaidOutBy(record, entry, s, localStart)
  }

  /** The two buffers of one entry: its local header, and its directory header for a given start. */
  method EntryBuffers(s: Stored, localStart: nat, ghost record: Record, ghost entry: DirectoryEntry)
    returns (r: Option<(Bytes, Bytes)>)
    requires ZipLayout(record, entry)
    ensures r.Some? <==> FieldsFit(s) && localStart < 0x1_0000_0000
    ensures r.Some? ==> r.value.0 + s.name + s.data == record(s) && r.value.1 + s.name == entry(s, localStart)
  {
    assert LaidOutBy(record, entry, s, localStart);
    var lfh := LocalHeaderBuffer(s.crc, |s.data|, |s.name|);
    if lfh == None { return None; }
    var cdh := CentralHeaderBuffer(s.crc, |s.data|, |s.name|, s.attrs, localStart);
    if cdh == None { return None; }
    r := Some((lfh.value, cdh.value));
  }

  /** What is emitted after `i` entries; the offset is the number of local bytes so far. */
  ghost predicate Emitted(record: Record, entry: DirectoryEntry, ss: seq<Stored>, i: nat,
                          localParts: seq<Bytes>, centralParts: seq<Bytes>, offset: int)
    requires i <= |ss|
  {
    && Flatten(localParts) == Records(record, ss[..i])
    && offset == |Records(record, ss[..i])|
    && Flatten(centralParts) == Directory(record, entry, ss[..i])
  }

  lemma EmittedGrows(record: Record, entry: DirectoryEntry, ss: seq<Stored>, i: nat,
                     localParts: seq<Bytes>, centralParts: seq<Bytes>, offset: nat, lfh: Bytes, cdh: Bytes)
    requires i < |ss| && Emitted(record, entry, ss, i, localParts, centralParts, offset)
    requires lfh + ss[i].name + ss[i].data == record(ss[i])
    requires cdh + ss[i].name == entry(ss[i], offset)
    ensures Emitted(record, entry, ss, i + 1, localParts + [lfh, ss[i].name, ss[i].data],
                    centralParts + [cdh, ss[i].name], offset + |lfh| + |ss[i].name| + |ss[i].data|)
  {
    PartsGrow(record, entry, ss, i);
    Appended(localParts, lfh, ss[i].name, ss[i].data);
    Appended(centralParts, cdh, ss[i].name, []);
    assert |lfh + ss[i].name + ss[i].data| == |lfh| + |ss[i].name| + |ss[i].data|;
  }

  predicate EntryFits(record: Record, ss: seq<Stored>, i: nat)
    requires i < |ss|
  {
    FieldsFit(ss[i]) && |Records(record, ss[..i])| < 0x1_0000_0000
  }

  /** The loop over the entries. */
  method EmitEntries(crc: Checksum, entries: seq<Entry>, ghost record: Record, ghost entry: DirectoryEntry)
    returns (ok: bool, localParts: seq<Bytes>, centralParts: seq<Bytes>)
    requires ZipLayout(record, entry)
    ensures ok <==> forall i :: 0 <= i < |entries| ==> EntryFits(record, StoreAll(crc, entries), i)
    ensures ok ==> Emitted(record, entry, StoreAll(crc, entries), |entries|,
                           localParts, centralParts, |Flatten(localParts)|)
  {
    localParts, centralParts := [], [];
    var offset := 0;
    ghost var ss := StoreAll(crc, entries);
    for i := 0 to |entries|
      invariant offset >= 0 && Emitted(record, entry, ss, i, localParts, centralParts, offset)
      invariant forall j :: 0 <= j < i ==> EntryFits(record, ss, j)
    {
      var s := Store(crc, entries[i]);
      var buffers := EntryBuffers(s, offset, record, entry);
      if buffers == None {
        assert !EntryFits(record, ss, i);
        return false, localParts, centralParts;
      }
      var (lfh, cdh) := buffers.value;
      EmittedGrows(record, entry, ss, i, localParts, centralParts, offset, lfh, cdh);
      localParts := localParts + [lfh, s.name, s.data];
      centralParts := centralParts + [cdh, s.name];
      offset := offset + |lfh| + |s.name| + |s.data|;
    }
    ok := true;
  }

  lemma FitsMeansEntriesFit(ss: seq<Stored>)
    ensures Fits(ss) ==> forall i :: 0 <= i < |ss| ==> EntryFits(LocalRecord, ss, i)
    ensures (forall i :: 0 <= i < |ss| ==> EntryFits(LocalRecord, ss, i))
            ==> forall i :: 0 <= i < |ss| ==> FieldsFit(ss[i])
  {
    forall i | Fits(ss) && 0 <= i < |ss| ensures EntryFits(LocalRecord, ss, i) {
      PartsGrow(LocalRecord, CentralRecord, ss, i);
    }
    forall i | 0 <= i < |ss| && EntryFits(LocalRecord, ss, i) ensures FieldsFit(ss[i]) {
    }
  }

  method MakeZipWith(crc: Checksum, entries: seq<Entry>) returns (r: Result<Bytes, Failure>)
    ensures r == if Fits(StoreAll(crc, entries)) then Ok(Archive(StoreAll(crc, entries))) else Err(OutOfRange)
  {
    ghost var ss := StoreAll(crc, entries);
    FitsMeansEntriesFit(ss);
    assert ZipLayout(LocalRecord, CentralRecord) by {
      forall s, localStart ensures LaidOutBy(LocalRecord, CentralRecord, s, localStart) { }
    }
    var ok, localParts, centralParts := EmitEntries(crc, entries, LocalRecord, CentralRecord);
    if !ok { return Err(OutOfRange); }
    assert ss[..|entries|] == ss;
    var local, central := Flatten(localParts), Flatten(centralParts);
    var eocd := EndRecordBuffer(|entries|, |central|, |local|);
    if eocd == None { return Err(OutOfRange); }
    r := Ok(local + central + eocd.value);
  }

  /** In the bytes of a result every entry stands where it should, with the checksum of its data in both headers. */
  method MakeZip(entries: seq<Entry>) returns (r: Result<Bytes, Failure>)
    ensures r == if Fits(StoreAll(CrcOf, entries)) then Ok(Archive(StoreAll(CrcOf, entries))) else Err(OutOfRange)
    ensures r.Ok? ==> forall i, octets :: 0 <= i < |entries| && Spells(octets, entries[i].data) ==>
                        Stands(r.value, entries, i, Inverted(Crc32.State(Crc32.ZIP_FEED, 0, octets)))
  {
    r := MakeZipWith(CrcOf, entries);
    if r.Ok? { AllStand(entries); }
  }

  // ---------------------------------------------------------------- what is where

  /** The bytes as octets. */
  predicate Spells(octets: seq<Crc32.Octet>, data: Bytes) {
    |octets| == |data| && forall k :: 0 <= k < |data| ==> octets[k] == data[k] as bv8
  }

  function Inverted(register: bv32): nat {
    (register ^ 0xffff_ffff) as nat
  }

  function LocalStart(entries: seq<Entry>, i: nat): nat
    requires i <= |entries|
  {
    if i == 0 then 0 else LocalStart(entries, i - 1) + 30 + |entries[i - 1].name| + |entries[i - 1].data|
  }

  function DirectoryStart(entries: seq<Entry>, i: nat): nat
    requires i <= |entries|
  {
    if i == 0 then LocalStart(entries, |entries|) else DirectoryStart(entries, i - 1) + 46 + |entries[i - 1].name|
  }

  /** The `n` bytes at `at` as a little-endian number. */
  predicate Holds(z: Bytes, at: nat, n: nat, value: nat) {
    at + n <= |z| && FromLittleEndian(z[at..at + n]) == value
  }

  predicate IsLocalHeader(h: Bytes, word: nat, size: nat, nameLength: nat) {
    && Holds(h, 0, 4, 0x04034b50) && Holds(h, 8, 2, 0) && Holds(h, 14, 4, word)
    && Holds(h, 18, 4, size) && Holds(h, 22, 4, size) && Holds(h, 26, 2, nameLength) && Holds(h, 28, 2, 0)
  }

  predicate IsDirectoryHeader(h: Bytes, word: nat, size: nat, nameLength: nat, attrs: nat, localStart: nat) {
    && Holds(h, 0, 4, 0x02014b50) && Holds(h, 10, 2, 0) && Holds(h, 16, 4, word)
    && Holds(h, 20, 4, size) && Holds(h, 24, 4, size) && Holds(h, 28, 2, nameLength)
    && Holds(h, 38, 4, attrs) && Holds(h, 42, 4, localStart)
  }

  /** A record at `at` and its directory entry at `dir`, each a header followed by the entry's own bytes. */
  predicate StandsAt(z: Bytes, at: nat, dir: nat, name: Bytes, data: Bytes, attrs: nat, word: nat) {
    && at + 30 + |name| + |data| <= |z| && dir + 46 + |name| <= |z|
    && IsLocalHeader(z[at..at + 30], word, |data|, |name|)
    && z[at + 30..at + 30 + |name|] == name
    && z[at + 30 + |name|..at + 30 + |name| + |data|] == data
    && IsDirectoryHeader(z[dir..dir + 46], word, |data|, |name|, attrs, at)
    && z[dir + 46..dir + 46 + |name|] == name
  }

  /** Entry `i` stands where the lengths of the entries put it. */
  predicate Stands(z: Bytes, entries: seq<Entry>, i: nat, word: nat)
    requires i < |entries|
  {
    StandsAt(z, LocalStart(entries, i), DirectoryStart(entries, i), entries[i].name, entries[i].data,
             (match entries[i].attrs case None => 0 case Some(upper) => upper % 0x1_0000 * 0x1_0000), word)
  }

  lemma FieldIn(pre: Bytes, n: nat, width: nat, h: Bytes)
    requires n < Pow256(width) && pre + LittleEndian(n, width) <= h
    ensures Holds(h, |pre|, width, n)
  {
    LittleEndianRoundTrip(n, width);
    assert h[|pre|..|pre| + width] == LittleEndian(n, width);
  }

  lemma LocalHeaderFields(crc: Word, size: Word, nameLength: nat)
    requires nameLength < 0x1_0000
    ensures |LocalHeader(crc, size, nameLength)| == 30
    ensures IsLocalHeader(LocalHeader(crc, size, nameLength), crc, size, nameLength)
  {
    Pow256Values();
    var h := LocalHeader(crc, size, nameLength);
    var p1 := U32(LOCAL_SIGNATURE);
    var p2 := p1 + U16(20) + U16(0);
    var p3 := p2 + U16(0) + U16(0) + U16(0);
    var p4 := p3 + U32(crc);
    var p5 := p4 + U32(size);
    var p6 := p5 + U32(size);
    var p7 := p6 + U16(nameLength);
    assert h == p7 + U16(0);
    LocalPrefixes(p1, p2, p3, p4, p5, p6, p7, h, crc, size, nameLength);
  }

  lemma LocalPrefixes(p1: Bytes, p2: Bytes, p3: Bytes, p4: Bytes, p5: Bytes, p6: Bytes, p7: Bytes, h: Bytes,
                      crc: Word, size: Word, nameLength: nat)
    requires nameLength < Pow256(2) && crc < Pow256(4) && size < Pow256(4)
    requires p1 == LittleEndian(0x04034b50, 4) && 0x04034b50 < Pow256(4) && 0 < Pow256(2)
    requires p1 <= p2 && |p2| == 8 && p2 + LittleEndian(0, 2) <= p3 && |p3| == 14
    requires p4 == p3 + LittleEndian(crc, 4) && p5 == p4 + LittleEndian(size, 4) && p6 == p5 + LittleEndian(size, 4)
    requires p7 == p6 + LittleEndian(nameLength, 2) && h == p7 + LittleEndian(0, 2)
    ensures |h| == 30 && IsLocalHeader(h, crc, size, nameLength)
  {
    assert p6 <= h && p5 <= h && p4 <= h && p3 <= h && p7 <= h;
    assert p1 <= p3;
    assert [] + p1 == p1;
    FieldIn([], 0x04034b50, 4, h);
    FieldIn(p2, 0, 2, h);
    FieldIn(p3, crc, 4, h);
    FieldIn(p4, size, 4, h);
    FieldIn(p5, size, 4, h);
    FieldIn(p6, nameLength, 2, h);
    FieldIn(p7, 0, 2, h);
  }

  lemma DirectoryHeaderFields(crc: Word, size: Word, nameLength: nat, attrs: Word, localStart: Word)
    requires nameLength < 0x1_0000
    ensures |CentralHeader(crc, size, nameLength, attrs, localStart)| == 46
    ensures IsDirectoryHeader(CentralHeader(crc, size, nameLength, attrs, localStart), crc, size, nameLength, attrs,
                              localStart)
  {
    Pow256Values();
    var h := CentralHeader(crc, size, nameLength, attrs, localStart);
    var p1 := U32(CENTRAL_SIGNATURE);
    var p2 := p1 + U16(20) + U16(20) + U16(0);
    var p3 := p2 + U16(0) + U16(0) + U16(0);
    var p4 := p3 + U32(crc);
    var p5 := p4 + U32(size);
    var p6 := p5 + U32(size);
    var p7 := p6 + U16(nameLength);
    var p8 := p7 + U16(0) + U16(0) + U16(0) + U16(0);
    var p9 := p8 + U32(attrs);
    assert h == p9 + U32(localStart);
    DirectoryPrefixes(p1, p2, p3, p4, p5, p6, p7, p8, p9, h, crc, size, nameLength, attrs, localStart);
  }

  lemma DirectoryPrefixes(p1: Bytes, p2: Bytes, p3: Bytes, p4: Bytes, p5: Bytes, p6: Bytes, p7: Bytes, p8: Bytes,
                          p9: Bytes, h: Bytes, crc: Word, size: Word, nameLength: nat, attrs: Word, localStart: Word)
    requires nameLength < Pow256(2) && 0 < Pow256(2)
    requires crc < Pow256(4) && size < Pow256(4) && attrs < Pow256(4) && localStart < Pow256(4)
    requires p1 == LittleEndian(0x02014b50, 4) && 0x02014b50 < Pow256(4)
    requires p1 <= p2 && |p2| == 10 && p2 + LittleEndian(0, 2) <= p3 && |p3| == 16
    requires p4 == p3 + LittleEndian(crc, 4) && p5 == p4 + LittleEndian(size, 4) && p6 == p5 + LittleEndian(size, 4)
    requires p7 == p6 + LittleEndian(nameLength, 2) && p7 <= p8 && |p8| == 38
    requires p9 == p8 + LittleEndian(attrs, 4) && h == p9 + LittleEndian(localStart, 4)
    ensures |h| == 46 && IsDirectoryHeader(h, crc, size, nameLength, attrs, localStart)
  {
    assert p8 <= h && p7 <= h;
    assert p6 <= h && p5 <= h && p4 <= h && p3 <= h;
    assert p1 <= p3;
    assert [] + p1 == p1;
    FieldIn([], 0x02014b50, 4, h);
    FieldIn(p2, 0, 2, h);
    FieldIn(p3, crc, 4, h);
    FieldIn(p4, size, 4, h);
    FieldIn(p5, size, 4, h);
    FieldIn(p6, nameLength, 2, h);
    FieldIn(p8, attrs, 4, h);
    FieldIn(p9, localStart, 4, h);
  }

  predicate SizedAt(record: Record, entry: DirectoryEntry, s: Stored, localStart: nat) {
    && |record(s)| == 30 + |s.name| + |s.data|
    && |entry(s, localStart)| == 46 + |s.name|
  }

  /** The lengths of records and directory entries. */
  ghost predicate Sized(record: Record, entry: DirectoryEntry) {
    forall s, localStart :: SizedAt(record, entry, s, localStart)
  }

  lemma HeadersAreSized()
    ensures Sized(LocalRecord, CentralRecord)
  {
    forall s, localStart ensures SizedAt(LocalRecord, CentralRecord, s, localStart) {
      assert |LocalRecord(s)| == 30 + |s.name| + |s.data|;
    }
  }

  lemma {:induction false} LocalStartIs(
      record: Record, entry: DirectoryEntry, crc: Checksum, entries: seq<Entry>, i: nat)
    requires i <= |entries| && Sized(record, entry)
    ensures |Records(record, StoreAll(crc, entries)[..i])| == LocalStart(entries, i)
  {
    var ss := StoreAll(crc, entries);
    if i > 0 {
      LocalStartIs(record, entry, crc, entries, i - 1);
      PartsGrow(record, entry, ss, i - 1);
      assert SizedAt(record, entry, ss[i - 1], 0);
    }
  }

  lemma {:induction false} DirectoryStartIs(
      record: Record, entry: DirectoryEntry, crc: Checksum, entries: seq<Entry>, i: nat)
    requires i <= |entries| && Sized(record, entry)
    ensures |Records(record, StoreAll(crc, entries))| + |Directory(record, entry, StoreAll(crc, entries)[..i])|
            == DirectoryStart(entries, i)
  {
    var ss := StoreAll(crc, entries);
    if i == 0 {
      LocalStartIs(record, entry, crc, entries, |entries|);
      assert ss[..|entries|] == ss;
    } else {
      DirectoryStartIs(record, entry, crc, entries, i - 1);
      PartsGrow(record, entry, ss, i - 1);
      assert SizedAt(record, entry, ss[i - 1], |Records(record, ss[..i - 1])|);
    }
  }

  /** A piece of a prefix is a piece of the whole. */
  lemma PieceAt(a: Bytes, piece: Bytes, prefix: Bytes, whole: Bytes)
    requires a + piece <= prefix <= whole
    ensures |a| + |piece| <= |whole| && whole[|a|..|a| + |piece|] == piece
  {
    assert a + piece <= whole;
    assert (a + piece)[|a|..] == piece;
  }

  lemma SubPiece(z: Bytes, at: nat, piece: Bytes, i: nat, j: nat)
    requires i <= j <= |piece| && at + |piece| <= |z| && z[at..at + |piece|] == piece
    ensures z[at + i..at + j] == piece[i..j]
  {
    forall k | 0 <= k < j - i ensures z[at + i..at + j][k] == piece[i..j][k] {
      assert z[at..at + |piece|][i + k] == piece[i + k];
    }
  }

  lemma ThreeParts(local: Bytes, central: Bytes, end: Bytes, front: Bytes, piece: Bytes)
    requires front + piece <= central
    ensures local <= local + central + end && local + front + piece <= local + central
    ensures local + central <= local + central + end
  {
    assert (local + central)[..|local| + |front + piece|] == local + front + piece;
  }

  lemma MiddlePiece(local: Bytes, central: Bytes, end: Bytes, front: Bytes, piece: Bytes, z: Bytes)
    requires front + piece <= central && z == local + central + end
    ensures var at := |local| + |front|; at + |piece| <= |z| && z[at..at + |piece|] == piece
  {
    ThreeParts(local, central, end, front, piece);
    PieceAt(local + front, piece, local + central, z);
  }

  lemma FirstPiece(local: Bytes, central: Bytes, end: Bytes, front: Bytes, piece: Bytes, z: Bytes)
    requires front + piece <= local && z == local + central + end
    ensures |front| + |piece| <= |z| && z[|front|..|front| + |piece|] == piece
  {
    ThreeParts(local, central, end, [], []);
    PieceAt(front, piece, local, z);
  }

  /** The pieces of entry `i`, wherever records and directory entries come from. */
  lemma {:induction false} PiecesStand(
      record: Record, entry: DirectoryEntry, ss: seq<Stored>, end: Bytes, i: nat, z: Bytes)
    requires i < |ss| && z == Records(record, ss) + Directory(record, entry, ss) + end
    ensures var at, piece := |Records(record, ss[..i])|, record(ss[i]);
            at + |piece| <= |z| && z[at..at + |piece|] == piece
    ensures var dir := |Records(record, ss)| + |Directory(record, entry, ss[..i])|;
            var piece := entry(ss[i], |Records(record, ss[..i])|);
            dir + |piece| <= |z| && z[dir..dir + |piece|] == piece
  {
    PartsGrow(record, entry, ss, i);
    PartsArePrefixes(record, entry, ss, i + 1);
    FirstPiece(Records(record, ss), Directory(record, entry, ss), end, Records(record, ss[..i]), record(ss[i]), z);
    MiddlePiece(Records(record, ss), Directory(record, entry, ss), end, Directory(record, entry, ss[..i]),
                entry(ss[i], |Records(record, ss[..i])|), z);
  }

  /** The same, at the places that the entries' own lengths give. */
  lemma {:induction false} PiecesPlaced(record: Record, entry: DirectoryEntry, crc: Checksum, entries: seq<Entry>,
                                        i: nat, end: Bytes, z: Bytes)
    requires i < |entries| && Sized(record, entry)
    requires var ss := StoreAll(crc, entries); z == Records(record, ss) + Directory(record, entry, ss) + end
    ensures var at, dir, s := LocalStart(entries, i), DirectoryStart(entries, i), Store(crc, entries[i]);
            && at + |record(s)| <= |z| && z[at..at + |record(s)|] == record(s)
            && dir + |entry(s, at)| <= |z| && z[dir..dir + |entry(s, at)|] == entry(s, at)
  {
    var ss := StoreAll(crc, entries);
    LocalStartIs(record, entry, crc, entries, i);
    DirectoryStartIs(record, entry, crc, entries, i);
    PiecesStand(record, entry, ss, end, i, z);
    assert ss[i] == Store(crc, entries[i]);
  }

  // ---------------------------------------------------------------- headers and bytes

  /** A header, the name and the data. */
  predicate IsRecord(piece: Bytes, s: Stored) {
    && |piece| == 30 + |s.name| + |s.data|
    && IsLocalHeader(piece[..30], s.crc, |s.data|, |s.name|)
    && piece[30..30 + |s.name|] == s.name && piece[30 + |s.name|..] == s.data
  }

  predicate IsEntry(piece: Bytes, s: Stored, localStart: nat) {
    && |piece| == 46 + |s.name|
    && IsDirectoryHeader(piece[..46], s.crc, |s.data|, |s.name|, s.attrs, localStart)
    && piece[46..] == s.name
  }

  predicate IsLaid(record: Record, entry: DirectoryEntry, s: Stored, localStart: nat) {
    FieldsFit(s) && localStart < 0x1_0000_0000 ==>
      IsRecord(record(s), s) && IsEntry(entry(s, localStart), s, localStart)
  }

  ghost predicate Laid(record: Record, entry: DirectoryEntry) {
    forall s, localStart :: IsLaid(record, entry, s, localStart)
  }

  lemma HeaderThenBytes(h: Bytes, name: Bytes, data: Bytes, piece: Bytes)
    requires piece == h + name + data
    ensures piece[..|h|] == h && piece[|h|..|h| + |name|] == name && piece[|h| + |name|..] == data
  {
  }

  lemma {:induction false} RecordIs(s: Stored)
    requires FieldsFit(s)
    ensures IsRecord(LocalRecord(s), s)
  {
    LocalHeaderFields(s.crc, |s.data|, |s.name|);
    HeaderThenBytes(LocalHeader(s.crc, |s.data|, |s.name|), s.name, s.data, LocalRecord(s));
  }

  lemma {:induction false} EntryIs(s: Stored, localStart: nat)
    requires FieldsFit(s) && localStart < 0x1_0000_0000
    ensures IsEntry(CentralRecord(s, localStart), s, localStart)
  {
    var h := CentralHeader(s.crc, |s.data|, |s.name|, s.attrs, localStart);
    DirectoryHeaderFields(s.crc, |s.data|, |s.name|, s.attrs, localStart);
    HeaderThenBytes(h, s.name, [], h + s.name + []);
    assert h + s.name + [] == CentralRecord(s, localStart);
  }

  lemma HeadersAreLaid()
    ensures Laid(LocalRecord, CentralRecord)
  {
    forall s, localStart ensures IsLaid(LocalRecord, CentralRecord, s, localStart) {
      if FieldsFit(s) && localStart < 0x1_0000_0000 {
        RecordIs(s);
        EntryIs(s, localStart);
      }
    }
  }

  lemma {:induction false} BothStand(z: Bytes, at: nat, dir: nat, record: Bytes, entry: Bytes, s: Stored)
    requires IsRecord(record, s) && IsEntry(entry, s, at)
    requires at + |record| <= |z| && z[at..at + |record|] == record
    requires dir + |entry| <= |z| && z[dir..dir + |entry|] == entry
    ensures StandsAt(z, at, dir, s.name, s.data, s.attrs, s.crc)
  {
    SubPiece(z, at, record, 0, 30);
    SubPiece(z, at, record, 30, 30 + |s.name|);
    SubPiece(z, at, record, 30 + |s.name|, |record|);
    SubPiece(z, dir, entry, 0, 46);
    SubPiece(z, dir, entry, 46, |entry|);
  }

  lemma {:induction false} EntryStandsIn(record: Record, entry: DirectoryEntry, crc: Checksum, entries: seq<Entry>,
                                         i: nat, end: Bytes, z: Bytes, s: Stored, at: nat, dir: nat)
    requires i < |entries| && Sized(record, entry) && Laid(record, entry)
    requires s == Store(crc, entries[i]) && FieldsFit(s)
    requires at == LocalStart(entries, i) && dir == DirectoryStart(entries, i) && at < 0x1_0000_0000
    requires var ss := StoreAll(crc, entries); z == Records(record, ss) + Directory(record, entry, ss) + end
    ensures StandsAt(z, at, dir, s.name, s.data, s.attrs, s.crc)
  {
    PiecesPlaced(record, entry, crc, entries, i, end, z);
    assert IsLaid(record, entry, s, at);
    BothStand(z, at, dir, record(s), entry(s, at), s);
  }

  lemma {:induction false} EntryStands(crc: Checksum, entries: seq<Entry>, i: nat, z: Bytes)
    requires Fits(StoreAll(crc, entries)) && i < |entries| && z == Archive(StoreAll(crc, entries))
    ensures Stands(z, entries, i, crc(entries[i].data))
  {
    var ss := StoreAll(crc, entries);
    HeadersAreSized();
    HeadersAreLaid();
    LocalStartIs(LocalRecord, CentralRecord, crc, entries, i);
    StartsBelow(ss, i);
    assert ss[i] == Store(crc, entries[i]) && FieldsFit(ss[i]);
    EntryStandsIn(LocalRecord, CentralRecord, crc, entries, i, EndRecord(|ss|, |CentralPart(ss)|, |LocalPart(ss)|), z,
                  ss[i], LocalStart(entries, i), DirectoryStart(entries, i));
  }

  lemma StartsBelow(ss: seq<Stored>, i: nat)
    requires Fits(ss) && i < |ss|
    ensures |Records(LocalRecord, ss[..i])| < 0x1_0000_0000
  {
    PartsGrow(LocalRecord, CentralRecord, ss, i);
  }

  lemma SameOctets(octets: seq<Crc32.Octet>, data: Bytes)
    requires Spells(octets, data)
    ensures Octets(data) == octets
  {
  }

  lemma CrcOfIs(octets: seq<Crc32.Octet>, data: Bytes)
    requires Spells(octets, data)
    ensures CrcOf(data) == Inverted(Crc32.State(Crc32.ZIP_FEED, 0, octets))
  {
    SameOctets(octets, data);
    InvertedIs(Crc32.State(Crc32.ZIP_FEED, 0, octets), octets);
  }

  lemma InvertedIs(register: bv32, octets: seq<Crc32.Octet>)
    requires register == Crc32.State(Crc32.ZIP_FEED, 0, octets)
    ensures Crc32.Checksum(octets) as nat == Inverted(register)
  {
  }

  lemma AllStand(entries: seq<Entry>)
    requires Fits(StoreAll(CrcOf, entries))
    ensures forall i, octets :: 0 <= i < |entries| && Spells(octets, entries[i].data) ==>
              Stands(Archive(StoreAll(CrcOf, entries)), entries, i, Inverted(Crc32.State(Crc32.ZIP_FEED, 0, octets)))
  {
    forall i, octets | 0 <= i < |entries| && Spells(octets, entries[i].data)
      ensures Stands(Archive(StoreAll(CrcOf, entries)), entries, i, Inverted(Crc32.State(Crc32.ZIP_FEED, 0, octets))) {
      EntryStands(CrcOf, entries, i, Archive(StoreAll(CrcOf, entries)));
      CrcOfIs(octets, entries[i].data);
    }
  }

  lemma Appended(parts: seq<Bytes>, a: Bytes, b: Bytes, c: Bytes)
    ensures Flatten(parts + [a, b, c]) == Flatten(parts) + (a + b + c)
    ensures Flatten(parts + [a, b]) == Flatten(parts) + (a + b)
  {
    FlattenConcat(parts, [a, b, c]);
    FlattenConcat(parts, [a, b]);
    FlattenThree(a, b, c);
    FlattenTwo(a, b);
  }

  lemma PartsGrow<S>(record: S -> Bytes, entry: (S, nat) -> Bytes, ss: seq<S>, i: nat)
    requires i < |ss|
    ensures Records(record, ss[..i + 1]) == Records(record, ss[..i]) + record(ss[i])
    ensures Directory(record, entry, ss[..i + 1])
         == Directory(record, entry, ss[..i]) + entry(ss[i], |Records(record, ss[..i])|)
    ensures |Records(record, ss[..i])| <= |Records(record, ss)|
  {
    assert ss[..i + 1][..i] == ss[..i];
    PartsArePrefixes(record, entry, ss, i);
  }

  lemma {:induction false} PartsArePrefixes<S>(record: S -> Bytes, entry: (S, nat) -> Bytes, ss: seq<S>, k: nat)
    requires k <= |ss|
    ensures Records(record, ss[..k]) <= Records(record, ss)
    ensures Directory(record, entry, ss[..k]) <= Directory(record, entry, ss)
    decreases |ss|
  {
    if k == |ss| {
      assert ss[..k] == ss;
    } else {
      var front := ss[..|ss| - 1];
      assert front[..k] == ss[..k];
      PartsArePrefixes(record, entry, front, k);
    }
  }
}
