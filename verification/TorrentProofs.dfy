/** What stands in a fixture torrent, field by field, and in which order. */
module TorrentProofs {
  import opened ByteStrings
  import opened Options
  import opened Bencode
  import opened BencodeProofs
  import opened Torrent
  import L = Lexicographic

  // ---------------------------------------------------------------- byte order

  const BYTE_LESS: (Byte, Byte) -> bool := (x, y) => x < y

  /** The sort of the encoder and the check of the reader use dictionary order on bytes. */
  lemma {:induction false} KeyOrderIsByteOrder(a: Bytes, b: Bytes)
    ensures KeyLess(a, b) <==> L.Before(BYTE_LESS, a, b)
  {
    if a == [] || b == [] {
      L.BeforeEmpty(BYTE_LESS, a, b);
    } else {
      L.BeforeStep(BYTE_LESS, a, b);
      KeyOrderIsByteOrder(a[1..], b[1..]);
    }
  }

  lemma {:induction false} AscendingAt<T>(es: seq<Keyed<T>>, i: nat)
    requires Ascending(es) && i + 1 < |es|
    ensures KeyLess(es[i].key, es[i + 1].key)
  {
    if i > 0 {
      AscendingAt(es[1..], i - 1);
    }
  }

  /** In an object that a reader accepts, each key stands before the next in dictionary order on bytes. */
  lemma AcceptedInByteOrder(bs: Bytes, i: nat)
    requires Parse(bs).Some? && Parse(bs).value.0.Dict? && i + 1 < |Parse(bs).value.0.entries|
    ensures var entries := Parse(bs).value.0.entries; L.Before(BYTE_LESS, entries[i].key, entries[i + 1].key)
  {
    var entries := Parse(bs).value.0.entries;
    PrintParse(bs);
    AscendingAt(entries, i);
    KeyOrderIsByteOrder(entries[i].key, entries[i + 1].key);
  }

  // ---------------------------------------------------------------- names

  /** The octets of an ASCII string. */
  function Ascii(s: string): (r: Bytes)
    requires forall i :: 0 <= i < |s| ==> s[i] as int < 128
    ensures |r| == |s| && forall i :: 0 <= i < |s| ==> r[i] == s[i] as int
  {
    seq(|s|, i requires 0 <= i < |s| => s[i] as int)
  }

  lemma Names()
    ensures INFO == Ascii("info") && NAME == Ascii("name") && PIECE_LENGTH == Ascii("piece length")
    ensures PIECES == Ascii("pieces") && FILES == Ascii("files") && LENGTH == Ascii("length")
    ensures PATH == Ascii("path") && BUNDLE == Ascii("bundle")
  {
  }

  predicate NoSlash(part: Bytes) {
    forall i :: 0 <= i < |part| ==> part[i] != '/' as int
  }

  function WithSlashes(parts: seq<Bytes>): Bytes
    requires parts != []
  {
    if |parts| == 1 then parts[0] else parts[0] + ['/' as int] + WithSlashes(parts[1..])
  }

  /** The components of a path, between its slashes. */
  ghost predicate ComponentsOf(parts: seq<Bytes>, name: Bytes) {
    parts != [] && WithSlashes(parts) == name && forall i :: 0 <= i < |parts| ==> NoSlash(parts[i])
  }

  lemma {:induction false} SplitGivesComponents(name: Bytes)
    ensures ComponentsOf(SplitPath(name), name)
  {
    if name != [] {
      var parts, rest := SplitPath(name), SplitPath(name[1..]);
      SplitGivesComponents(name[1..]);
      assert name == [name[0]] + name[1..];
      if name[0] == 47 {
        assert parts[1..] == rest;
        assert parts[0] + ['/' as int] + WithSlashes(rest) == [name[0]] + name[1..];
      } else {
        assert parts[1..] == rest[1..];
        if |rest| > 1 {
          assert [name[0]] + (rest[0] + ['/' as int] + WithSlashes(rest[1..]))
              == [name[0]] + rest[0] + ['/' as int] + WithSlashes(rest[1..]);
        }
      }
    }
  }

  // ---------------------------------------------------------------- reading a torrent

  lemma EachCons(e: Keyed<Value>, es: seq<Keyed<Value>>)
    ensures CanonicalEach([e] + es) == [Keyed(e.key, Canonical(e.item))] + CanonicalEach(es)
  {
    assert ([e] + es)[1..] == es;
  }

  lemma InsertBehind<T>(e: Keyed<T>, first: Keyed<T>, rest: seq<Keyed<T>>)
    requires !KeyLess(e.key, first.key)
    ensures Insert(e, [first] + rest) == [first] + Insert(e, rest)
  {
    assert ([first] + rest)[1..] == rest;
  }

  lemma InsertBefore<T>(e: Keyed<T>, es: seq<Keyed<T>>)
    requires es == [] || KeyLess(e.key, es[0].key)
    ensures Insert(e, es) == [e] + es
  {
  }

  lemma SortCons<T>(e: Keyed<T>, es: seq<Keyed<T>>)
    ensures SortByKey([e] + es) == Insert(e, SortByKey(es))
  {
    assert ([e] + es)[1..] == es;
  }

  /** Two entries in the wrong order. */
  lemma SortTwo<T>(a: Keyed<T>, b: Keyed<T>)
    requires !KeyLess(a.key, b.key)
    ensures SortByKey([a] + ([b] + [])) == [b] + ([a] + [])
  {
    SortCons(b, []);
    SortCons(a, [b] + []);
    InsertBefore(b, []);
    InsertBehind(a, b, []);
    InsertBefore(a, []);
  }

  /** Four entries, of which the last belongs in front. */
  lemma SortFour<T>(a: Keyed<T>, b: Keyed<T>, c: Keyed<T>, d: Keyed<T>)
    requires !KeyLess(a.key, d.key) && !KeyLess(b.key, d.key) && !KeyLess(c.key, d.key)
    requires KeyLess(a.key, b.key) && KeyLess(b.key, c.key)
    ensures SortByKey([a] + ([b] + ([c] + ([d] + [])))) == [d] + ([a] + ([b] + ([c] + [])))
  {
    SortTwo(c, d);
    SortCons(b, [c] + ([d] + []));
    InsertBehind(b, d, [c] + []);
    InsertBefore(b, [c] + []);
    SortCons(a, [b] + ([c] + ([d] + [])));
    InsertBehind(a, d, [b] + ([c] + []));
    InsertBefore(a, [b] + ([c] + []));
  }

  lemma KeysInOrder()
    ensures KeyLess(NAME, PIECE_LENGTH) && KeyLess(PIECE_LENGTH, PIECES)
    ensures forall key :: key == LENGTH || key == FILES ==>
              !KeyLess(NAME, key) && !KeyLess(PIECE_LENGTH, key) && !KeyLess(PIECES, key)
    ensures !KeyLess(PATH, LENGTH)
  {
    var tail, other := PIECE_LENGTH[5..], PIECES[5..];
    assert KeyLess(tail, other);
    assert PIECE_LENGTH[..5] == PIECES[..5];
    CommonFront(PIECES[..5], tail, other);
    assert PIECE_LENGTH == PIECES[..5] + tail && PIECES == PIECES[..5] + other;
  }

  lemma {:induction false} CommonFront(front: Bytes, a: Bytes, b: Bytes)
    requires KeyLess(a, b)
    ensures KeyLess(front + a, front + b)
  {
    if front == [] {
      assert front + a == a && front + b == b;
    } else {
      CommonFront(front[1..], a, b);
      assert (front + a)[1..] == front[1..] + a && (front + b)[1..] == front[1..] + b;
    }
  }

  /** One file of a torrent as a reader finds it. */
  ghost predicate IsFile(v: Value, file: File) {
    && v.Dict? && |v.entries| == 2
    && v.entries[0] == Keyed(Ascii("length"), Num(|file.data|))
    && v.entries[1].key == Ascii("path") && v.entries[1].item.List?
    && exists parts :: ComponentsOf(parts, file.name) && v.entries[1].item == List(Strings(parts))
  }

  lemma FileReads(file: File)
    ensures IsFile(Canonical(FileEntry(file)), file)
  {
    var parts := SplitPath(file.name);
    var path, length := Keyed(PATH, List(Strings(parts))), Keyed(LENGTH, Num(|file.data|));
    Names();
    SplitGivesComponents(file.name);
    CanonicalItemsFixed(Strings(parts));
    EachCons(path, [length] + []);
    EachCons(length, []);
    KeysInOrder();
    SortTwo(path, length);
    assert FileEntry(file).entries == [path] + ([length] + []);
  }

  lemma {:induction false} ItemsAt(items: seq<Value>, i: nat)
    requires i < |items|
    ensures |CanonicalItems(items)| == |items| && CanonicalItems(items)[i] == Canonical(items[i])
  {
    if |items| > 1 {
      ItemsAt(items[1..], if i > 0 then i - 1 else 0);
    }
  }

  /** The files of a torrent as a reader finds them: one entry each, in order. */
  ghost predicate AreFiles(v: Value, files: seq<File>) {
    v.List? && |v.items| == |files| && forall i :: 0 <= i < |files| ==> IsFile(v.items[i], files[i])
  }

  lemma FilesRead(files: seq<File>)
    ensures AreFiles(Canonical(List(FileEntries(files))), files)
  {
    var items := CanonicalItems(FileEntries(files));
    if files != [] { ItemsAt(FileEntries(files), 0); }
    forall i | 0 <= i < |files| ensures IsFile(items[i], files[i]) {
      ItemsAt(FileEntries(files), i);
      FileReads(files[i]);
    }
  }

  /** The dictionary under `info`, entries in byte order. */
  ghost predicate IsInfo(info: Value, files: seq<File>, multiFile: bool, pieceLength: nat, hashes: seq<Bytes>)
    requires multiFile || files != []
  {
    && info.Dict? && |info.entries| == 4
    && (if multiFile then info.entries[0].key == Ascii("files") && AreFiles(info.entries[0].item, files)
        else info.entries[0] == Keyed(Ascii("length"), Num(|Flatten(Contents(files))|)))
    && info.entries[1] == Keyed(Ascii("name"), Str(if multiFile then Ascii("bundle") else files[0].name))
    && info.entries[2] == Keyed(Ascii("piece length"), Num(pieceLength))
    && info.entries[3] == Keyed(Ascii("pieces"), Str(Flatten(hashes)))
  }

  lemma InfoReads(a: Keyed<Value>, b: Keyed<Value>, c: Keyed<Value>, d: Keyed<Value>)
    requires a.key == NAME && b.key == PIECE_LENGTH && c.key == PIECES && (d.key == LENGTH || d.key == FILES)
    requires a.item.Str? && b.item.Num? && c.item.Str?
    ensures Canonical(Dict([a] + ([b] + ([c] + ([d] + [])))))
         == Dict([Keyed(d.key, Canonical(d.item))] + ([a] + ([b] + ([c] + []))))
  {
    EachCons(a, [b] + ([c] + ([d] + [])));
    EachCons(b, [c] + ([d] + []));
    EachCons(c, [d] + []);
    EachCons(d, []);
    KeysInOrder();
    SortFour(a, b, c, Keyed(d.key, Canonical(d.item)));
  }

  /**
   * What a BEP 3 reader finds in a torrent: a dictionary with `info` alone; in it the name, the piece length, the
   * hashes one behind the other, and either the length or the files, each with its length and its path in components.
   */
  lemma TorrentFields(files: seq<File>, multiFile: bool, pieceLength: nat, hashes: seq<Bytes>)
    requires multiFile || files != []
    ensures var found := Parse(Encode(TorrentValue(files, multiFile, pieceLength, hashes)));
            && found.Some? && found.value.1 == [] && found.value.0.Dict? && |found.value.0.entries| == 1
            && found.value.0.entries[0].key == Ascii("info")
            && IsInfo(found.value.0.entries[0].item, files, multiFile, pieceLength, hashes)
  {
    var v := TorrentValue(files, multiFile, pieceLength, hashes);
    var entries := v.entries[0].item.entries;
    TorrentReadsBack(files, multiFile, pieceLength, hashes);
    Names();
    assert entries == [entries[0]] + ([entries[1]] + ([entries[2]] + ([entries[3]] + [])));
    InfoReads(entries[0], entries[1], entries[2], entries[3]);
    if multiFile { FilesRead(files); }
    OnlyEntry(v.entries[0]);
  }

  lemma OnlyEntry(e: Keyed<Value>)
    ensures Canonical(Dict([e])) == Dict([Keyed(e.key, Canonical(e.item))])
  {
    EachCons(e, []);
    SortCons(Keyed(e.key, Canonical(e.item)), []);
    InsertBefore(Keyed(e.key, Canonical(e.item)), []);
    assert [e] + [] == [e];
  }
}
