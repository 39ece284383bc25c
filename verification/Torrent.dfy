/** The piece splitter and fixture torrents of src/test-utils/bt-storage.ts. */
module Torrent {
  import opened ByteStrings
  import opened Options
  import opened Bencode
  import opened BencodeProofs

  /** SHA-1 is any function to twenty bytes. */
  type Hash = Bytes -> Bytes

  datatype File = File(name: Bytes, data: Bytes)

  datatype Failure = NoFirstFile

  function Contents(files: seq<File>): seq<Bytes> {
    if files == [] then [] else [files[0].data] + Contents(files[1..])
  }

  /** The slices between consecutive multiples of the piece length. */
  function Pieces(data: Bytes, pieceLength: nat): seq<Bytes>
    requires pieceLength > 0
    decreases |data|
  {
    if data == [] then []
    else if |data| <= pieceLength then [data]
    else [data[..pieceLength]] + Pieces(data[pieceLength..], pieceLength)
  }

  function HashAll(sha1: Hash, parts: seq<Bytes>): seq<Bytes> {
    if parts == [] then [] else [sha1(parts[0])] + HashAll(sha1, parts[1..])
  }

  /** `Buffer.subarray` clamps its end to the buffer. */
  function Subarray(data: Bytes, from: nat, to: nat): Bytes
    requires from <= |data| && from <= to
  {
    data[from..if to <= |data| then to else |data|]
  }

  lemma PiecesStep(data: Bytes, pieceLength: nat)
    requires pieceLength > 0 && data != []
    ensures var cut := if pieceLength <= |data| then pieceLength else |data|;
            Pieces(data, pieceLength) == [data[..cut]] + Pieces(data[cut..], pieceLength)
  {
    if |data| == pieceLength {
      assert data[..pieceLength] == data && data[pieceLength..] == [];
    } else if |data| < pieceLength {
      assert data[..|data|] == data && data[|data|..] == [];
    }
  }

  /** What is left of the data from an offset that may lie past its end. */
  function From(data: Bytes, offset: nat): Bytes {
    if offset <= |data| then data[offset..] else []
  }

  lemma HashStep(data: Bytes, offset: nat, pieceLength: nat, sha1: Hash)
    requires pieceLength > 0 && offset < |data|
    ensures HashAll(sha1, Pieces(From(data, offset), pieceLength))
         == [sha1(Subarray(data, offset, offset + pieceLength))]
            + HashAll(sha1, Pieces(From(data, offset + pieceLength), pieceLength))
  {
    var rest := data[offset..];
    PiecesStep(rest, pieceLength);
    var cut := if pieceLength <= |rest| then pieceLength else |rest|;
    assert rest[cut..] == From(data, offset + pieceLength);
    assert rest[..cut] == Subarray(data, offset, offset + pieceLength);
    assert Pieces(rest, pieceLength)[1..] == Pieces(rest[cut..], pieceLength);
  }

  method PieceHashes(data: Bytes, pieceLength: nat, sha1: Hash) returns (hashes: seq<Bytes>)
    requires pieceLength > 0
    ensures hashes == HashAll(sha1, Pieces(data, pieceLength))
  {
    hashes := [];
    var offset := 0;
    ghost var all := HashAll(sha1, Pieces(data, pieceLength));
    assert From(data, 0) == data;
    while offset < |data|
      invariant 0 <= offset
      invariant hashes + HashAll(sha1, Pieces(From(data, offset), pieceLength)) == all
      decreases |data| - offset
    {
      HashStep(data, offset, pieceLength, sha1);
      hashes := hashes + [sha1(Subarray(data, offset, offset + pieceLength))];
      offset := offset + pieceLength;
    }
  }

  /** The pieces are the data, cut into the expected number of slices, all full but the last. */
  lemma {:induction false} PiecesCover(data: Bytes, pieceLength: nat)
    requires pieceLength > 0
    ensures var ps := Pieces(data, pieceLength);
            && Flatten(ps) == data
            && |ps| == (|data| + pieceLength - 1) / pieceLength
            && (forall i :: 0 <= i < |ps| ==> 0 < |ps[i]| <= pieceLength)
            && (forall i :: 0 <= i < |ps| - 1 ==> |ps[i]| == pieceLength)
    decreases |data|
  {
    if data == [] {
      CeilSmall(0, pieceLength);
    } else if |data| <= pieceLength {
      assert Flatten([data]) == data + Flatten([]);
      CeilSmall(|data|, pieceLength);
    } else {
      PiecesCover(data[pieceLength..], pieceLength);
      CeilStep(|data| - pieceLength, pieceLength);
      assert data == data[..pieceLength] + data[pieceLength..];
      assert Pieces(data, pieceLength)[1..] == Pieces(data[pieceLength..], pieceLength);
    }
  }

  lemma CeilSmall(n: nat, p: nat)
    requires n <= p && p > 0
    ensures (n + p - 1) / p == if n == 0 then 0 else 1
  {
    if n > 0 {
      assert (n - 1) / p == 0;
      assert n + p - 1 == p * 1 + (n - 1);
    }
  }

  lemma CeilStep(n: nat, p: nat)
    requires p > 0
    ensures (n + p + p - 1) / p == (n + p - 1) / p + 1
  {
    var m := n + p - 1;
    QuotientIs(m + p, p, m / p + 1, m % p);
  }

  lemma QuotientIs(a: nat, p: nat, q: nat, r: nat)
    requires p > 0 && r < p && a == p * q + r
    ensures a / p == q
  {
    var d := a / p - q;
    assert p * d == r - a % p;
    assert d >= 1 ==> p * d >= p;
    assert d <= -1 ==> p * d + p <= 0;
  }

  // ---------------------------------------------------------------- the torrent

  /** `'/'`-separated components, as `String.split` gives them. */
  function SplitPath(name: Bytes): (parts: seq<Bytes>)
    ensures parts != []
  {
    if name == [] then [[]]
    else if name[0] == 47 then [[]] + SplitPath(name[1..])
    else
      var parts := SplitPath(name[1..]);
      [[name[0]] + parts[0]] + parts[1..]
  }

  function Strings(parts: seq<Bytes>): (vs: seq<Value>)
    ensures |vs| == |parts| && forall i :: 0 <= i < |vs| ==> vs[i] == Str(parts[i])
  {
    if parts == [] then [] else [Str(parts[0])] + Strings(parts[1..])
  }

  const PATH: Bytes := [112, 97, 116, 104]
  const LENGTH: Bytes := [108, 101, 110, 103, 116, 104]
  const NAME: Bytes := [110, 97, 109, 101]
  const PIECE_LENGTH: Bytes := [112, 105, 101, 99, 101, 32] + LENGTH
  const PIECES: Bytes := [112, 105, 101, 99, 101, 115]
  const FILES: Bytes := [102, 105, 108, 101, 115]
  const INFO: Bytes := [105, 110, 102, 111]
  const BUNDLE: Bytes := [98, 117, 110, 100, 108, 101]

  function FileEntry(file: File): Value {
    Dict([Keyed(PATH, List(Strings(SplitPath(file.name)))), Keyed(LENGTH, Num(|file.data|))])
  }

  function FileEntries(files: seq<File>): (vs: seq<Value>)
    ensures |vs| == |files| && forall i :: 0 <= i < |vs| ==> vs[i] == FileEntry(files[i])
  {
    if files == [] then [] else [FileEntry(files[0])] + FileEntries(files[1..])
  }

  /** The object handed to the encoder, entries in the order they are written in the source. */
  function TorrentValue(files: seq<File>, multiFile: bool, pieceLength: nat, hashes: seq<Bytes>): Value
    requires multiFile || files != []
  {
    Dict([Keyed(INFO, Dict([
      Keyed(NAME, Str(if multiFile then BUNDLE else files[0].name)),
      Keyed(PIECE_LENGTH, Num(pieceLength)),
      Keyed(PIECES, Str(Flatten(hashes))),
      if multiFile then Keyed(FILES, List(FileEntries(files)))
      else Keyed(LENGTH, Num(|Flatten(Contents(files))|))]))])
  }

  method StorageTorrent(files: seq<File>, multiFile: bool, pieceLength: nat, sha1: Hash)
    returns (r: Result<Bytes, Failure>)
    requires pieceLength > 0
    ensures !multiFile && files == [] ==> r == Err(NoFirstFile)
    ensures multiFile || files != [] ==>
      r == Ok(Encode(TorrentValue(files, multiFile, pieceLength,
                                  HashAll(sha1, Pieces(Flatten(Contents(files)), pieceLength)))))
  {
    var data := Flatten(Contents(files));
    var hashes := PieceHashes(data, pieceLength, sha1);
    if !multiFile && files == [] {
      return Err(NoFirstFile);
    }
    r := Ok(Encode(TorrentValue(files, multiFile, pieceLength, hashes)));
  }

  // ---------------------------------------------------------------- what a reader of the torrent finds

  lemma FileEntryIsObject(file: File)
    ensures IsObject(FileEntry(file))
  {
    assert PATH[0] != LENGTH[0];
    assert forall i :: 0 <= i < |Strings(SplitPath(file.name))| ==> IsObject(Strings(SplitPath(file.name))[i]);
  }

  lemma TorrentIsObject(files: seq<File>, multiFile: bool, pieceLength: nat, hashes: seq<Bytes>)
    requires multiFile || files != []
    ensures IsObject(TorrentValue(files, multiFile, pieceLength, hashes))
  {
    var info := TorrentValue(files, multiFile, pieceLength, hashes).entries[0].item;
    forall i | 0 <= i < |files| ensures IsObject(FileEntries(files)[i]) {
      FileEntryIsObject(files[i]);
    }
    assert NAME[0] == 110 && PIECE_LENGTH[5] == 32 && PIECES[5] == 115 && PIECES[0] == 112 && FILES[0] == 102
           && LENGTH[0] == 108;
    assert DistinctKeys(info.entries);
    assert forall i :: 0 <= i < |info.entries| ==> IsObject(info.entries[i].item);
  }

  /** A strict BEP 3 reader recovers the torrent, with each object's entries in key order. */
  lemma TorrentReadsBack(files: seq<File>, multiFile: bool, pieceLength: nat, hashes: seq<Bytes>)
    requires multiFile || files != []
    ensures var v := TorrentValue(files, multiFile, pieceLength, hashes);
            Parse(Encode(v)) == Some((Canonical(v), []))
  {
    var v := TorrentValue(files, multiFile, pieceLength, hashes);
    TorrentIsObject(files, multiFile, pieceLength, hashes);
    DecodeEncode(v, []);
    assert Encode(v) + [] == Encode(v);
  }

  lemma {:induction false} HashesLength(sha1: Hash, parts: seq<Bytes>)
    requires forall b: Bytes :: |sha1(b)| == 20
    ensures |HashAll(sha1, parts)| == |parts|
    ensures |Flatten(HashAll(sha1, parts))| == 20 * |parts|
  {
    if parts != [] {
      HashesLength(sha1, parts[1..]);
      assert HashAll(sha1, parts)[1..] == HashAll(sha1, parts[1..]);
    }
  }

  /** The pieces string holds twenty bytes for each of the ceil(n / pieceLength) pieces. */
  lemma PiecesStringLength(sha1: Hash, data: Bytes, pieceLength: nat)
    requires pieceLength > 0 && forall b: Bytes :: |sha1(b)| == 20
    ensures |Flatten(HashAll(sha1, Pieces(data, pieceLength)))| == 20 * ((|data| + pieceLength - 1) / pieceLength)
  {
    PiecesCover(data, pieceLength);
    HashesLength(sha1, Pieces(data, pieceLength));
  }

  function LengthField(entry: Value): int {
    if entry.Dict? && |entry.entries| == 2 && entry.entries[1].item.Num? then entry.entries[1].item.n else 0
  }

  function SumOfLengths(entries: seq<Value>): int {
    if entries == [] then 0 else LengthField(entries[0]) + SumOfLengths(entries[1..])
  }

  /** The length fields of a multi-file torrent add up to the data that was hashed. */
  lemma {:induction false} LengthsAddUp(files: seq<File>)
    ensures SumOfLengths(FileEntries(files)) == |Flatten(Contents(files))|
  {
    if files != [] {
      LengthsAddUp(files[1..]);
      assert FileEntries(files)[1..] == FileEntries(files[1..]);
    }
  }
}
