/** Encoding and strict reading are inverse to each other. */
module BencodeProofs {
  import opened ByteStrings
  import opened Options
  import opened Decimals
  import opened Bencode

  // ---------------------------------------------------------------- sorting

  lemma {:induction false} KeyLessTotal(a: Bytes, b: Bytes)
    requires a != b
    ensures KeyLess(a, b) || KeyLess(b, a)
  {
    if a != [] && b != [] && a[0] == b[0] {
      assert a == [a[0]] + a[1..] && b == [b[0]] + b[1..];
      KeyLessTotal(a[1..], b[1..]);
    }
  }

  lemma {:induction false} InsertMembers<T>(e: Keyed<T>, es: seq<Keyed<T>>)
    ensures multiset(Insert(e, es)) == multiset([e] + es)
  {
    if es != [] && !KeyLess(e.key, es[0].key) {
      InsertMembers(e, es[1..]);
      assert es == [es[0]] + es[1..];
    }
  }

  /** Sorting permutes. */
  lemma {:induction false} SortPermutes<T>(es: seq<Keyed<T>>)
    ensures multiset(SortByKey(es)) == multiset(es)
  {
    if es != [] {
      SortPermutes(es[1..]);
      InsertMembers(es[0], SortByKey(es[1..]));
      assert es == [es[0]] + es[1..];
    }
  }

  lemma {:induction false} InsertAscends<T>(e: Keyed<T>, es: seq<Keyed<T>>)
    requires Ascending(es) && forall i :: 0 <= i < |es| ==> es[i].key != e.key
    ensures Ascending(Insert(e, es))
  {
    if es != [] && !KeyLess(e.key, es[0].key) {
      KeyLessTotal(e.key, es[0].key);
      InsertAscends(e, es[1..]);
      assert Insert(e, es)[1..] == Insert(e, es[1..]);
    } else {
      assert ([e] + es)[1..] == es;
    }
  }

  lemma {:induction false} SortAscends<T(!new)>(es: seq<Keyed<T>>)
    requires DistinctKeys(es)
    ensures Ascending(SortByKey(es))
  {
    if es != [] {
      var rest := SortByKey(es[1..]);
      SortAscends(es[1..]);
      SortPermutes(es[1..]);
      forall i | 0 <= i < |rest| ensures rest[i].key != es[0].key {
        assert rest[i] in multiset(rest);
        assert rest[i] in es[1..];
      }
      InsertAscends(es[0], rest);
    }
  }

  /** An ascending sequence is its own sorted form. */
  lemma {:induction false} SortOfAscending<T>(es: seq<Keyed<T>>)
    requires Ascending(es)
    ensures SortByKey(es) == es
  {
    if es != [] {
      SortOfAscending(es[1..]);
      assert es == [es[0]] + es[1..];
    }
  }

  // ---------------------------------------------------------------- encoding is printing the canonical value

  function PrintEach(entries: seq<Keyed<Value>>): seq<Keyed<Bytes>> {
    if entries == [] then []
    else [Keyed(entries[0].key, Print(entries[0].item))] + PrintEach(entries[1..])
  }

  lemma {:induction false} JoinedPrints(entries: seq<Keyed<Value>>)
    ensures Joined(PrintEach(entries)) == PrintEntries(entries)
  {
    if entries != [] {
      JoinedPrints(entries[1..]);
      assert PrintEach(entries)[1..] == PrintEach(entries[1..]);
    }
  }

  lemma {:induction false} PrintInsert(e: Keyed<Value>, es: seq<Keyed<Value>>)
    ensures PrintEach(Insert(e, es)) == Insert(Keyed(e.key, Print(e.item)), PrintEach(es))
  {
    if es != [] && !KeyLess(e.key, es[0].key) {
      PrintInsert(e, es[1..]);
      assert Insert(e, es)[1..] == Insert(e, es[1..]);
      assert PrintEach(es)[1..] == PrintEach(es[1..]);
    } else {
      assert ([e] + es)[1..] == es;
    }
  }

  lemma {:induction false} PrintSort(es: seq<Keyed<Value>>)
    ensures PrintEach(SortByKey(es)) == SortByKey(PrintEach(es))
  {
    if es != [] {
      PrintSort(es[1..]);
      PrintInsert(es[0], SortByKey(es[1..]));
      assert PrintEach(es)[1..] == PrintEach(es[1..]);
    }
  }

  lemma {:induction false} EncodePrints(v: Value)
    ensures Encode(v) == Print(Canonical(v))
    decreases v
  {
    match v
    case Num(_) =>
    case Str(_) =>
    case List(items) => EncodeItemsPrints(items);
    case Dict(entries) =>
      EncodeEachPrints(entries);
      PrintSort(CanonicalEach(entries));
      JoinedPrints(SortByKey(CanonicalEach(entries)));
  }

  lemma {:induction false} EncodeItemsPrints(items: seq<Value>)
    ensures EncodeItems(items) == PrintItems(CanonicalItems(items))
    decreases items
  {
    if items != [] {
      EncodePrints(items[0]);
      EncodeItemsPrints(items[1..]);
      assert CanonicalItems(items)[1..] == CanonicalItems(items[1..]);
    }
  }

  lemma {:induction false} EncodeEachPrints(entries: seq<Keyed<Value>>)
    ensures EncodeEach(entries) == PrintEach(CanonicalEach(entries))
    decreases entries
  {
    if entries != [] {
      EncodePrints(entries[0].item);
      EncodeEachPrints(entries[1..]);
      assert CanonicalEach(entries)[1..] == CanonicalEach(entries[1..]);
    }
  }

  lemma {:induction false} CanonicalIsCanonical(v: Value)
    requires IsObject(v)
    ensures IsCanonical(Canonical(v))
    decreases v
  {
    match v
    case Num(_) =>
    case Str(_) =>
    case List(items) => CanonicalItemsAre(items);
    case Dict(entries) =>
      var each := CanonicalEach(entries);
      CanonicalEachAre(entries);
      SortAscends(each);
      SortPermutes(each);
      forall i | 0 <= i < |SortByKey(each)| ensures IsCanonical(SortByKey(each)[i].item) {
        assert SortByKey(each)[i] in multiset(SortByKey(each));
        assert SortByKey(each)[i] in each;
      }
  }

  lemma {:induction false} CanonicalItemsAre(items: seq<Value>)
    requires forall i :: 0 <= i < |items| ==> IsObject(items[i])
    ensures var cs := CanonicalItems(items); |cs| == |items| && forall i :: 0 <= i < |cs| ==> IsCanonical(cs[i])
    decreases items
  {
    if items != [] {
      CanonicalIsCanonical(items[0]);
      CanonicalItemsAre(items[1..]);
    }
  }

  lemma {:induction false} CanonicalEachAre(entries: seq<Keyed<Value>>)
    requires DistinctKeys(entries) && forall i :: 0 <= i < |entries| ==> IsObject(entries[i].item)
    ensures var cs := CanonicalEach(entries);
            && |cs| == |entries| && DistinctKeys(cs)
            && forall i :: 0 <= i < |cs| ==> cs[i].key == entries[i].key && IsCanonical(cs[i].item)
    decreases entries
  {
    if entries != [] {
      CanonicalIsCanonical(entries[0].item);
      CanonicalEachAre(entries[1..]);
    }
  }

  // ---------------------------------------------------------------- reading back what was printed

  lemma StrReads(data: Bytes, rest: Bytes)
    ensures ParseStr(EncodeStr(data) + rest) == Some((data, rest))
    ensures IsDigit((EncodeStr(data) + rest)[0])
  {
    var ds, tail := Digits(|data|), [COLON] + data + rest;
    var bs := EncodeStr(data) + rest;
    assert bs == ds + tail;
    DigitsAreNumeral(|data|);
    RunOfNumeral(ds, tail);
    assert bs[..|ds|] == ds && bs[|ds|] == COLON;
    assert bs[|ds| + 1..] == data + rest;
    assert bs[|ds| + 1..|ds| + 1 + |data|] == data;
    assert bs[|ds| + 1 + |data|..] == rest;
  }

  lemma UnsignedReads(n: nat, rest: Bytes)
    ensures ParseUnsigned(Digits(n) + ([END_MARK] + rest)) == Some((n as int, rest))
    ensures (Digits(n) + ([END_MARK] + rest))[0] != MINUS
  {
    var ds, tail := Digits(n), [END_MARK] + rest;
    DigitsAreNumeral(n);
    RunOfNumeral(ds, tail);
    assert (ds + tail)[..|ds|] == ds && (ds + tail)[|ds|] == END_MARK;
    assert (ds + tail)[|ds| + 1..] == rest;
  }

  lemma ParseSigned(bs: Bytes, n: int, rest: Bytes)
    requires bs != []
    requires bs[0] == MINUS ==> n < 0 && ParseUnsigned(bs[1..]) == Some((-n, rest))
    requires bs[0] != MINUS ==> ParseUnsigned(bs) == Some((n, rest))
    ensures ParseNum(bs) == Some((n, rest))
  {
  }

  lemma NumShape(n: int, digits: Bytes, rest: Bytes)
    requires digits == Digits(if n < 0 then -n else n) + ([END_MARK] + rest)
    ensures (EncodeNum(n) + rest)[1..] == if n < 0 then [MINUS] + digits else digits
  {
  }

  lemma NumReads(n: int, rest: Bytes)
    ensures ParseNum((EncodeNum(n) + rest)[1..]) == Some((n, rest))
  {
    var size: nat := if n < 0 then -n else n;
    var digits := Digits(size) + ([END_MARK] + rest);
    UnsignedReads(size, rest);
    NumShape(n, digits, rest);
    SignedReads(n, size, digits, rest);
  }

  lemma SignedReads(n: int, size: nat, digits: Bytes, rest: Bytes)
    requires size == (if n < 0 then -n else n) && digits != [] && digits[0] != MINUS
    requires ParseUnsigned(digits) == Some((size as int, rest))
    ensures ParseNum(if n < 0 then [MINUS] + digits else digits) == Some((n, rest))
  {
    assert ([MINUS] + digits)[1..] == digits;
    ParseSigned(if n < 0 then [MINUS] + digits else digits, n, rest);
  }

  /** The first byte tells the kinds of value apart and never ends a list. */
  lemma FirstByte(v: Value, rest: Bytes)
    ensures Print(v) != []
    ensures (Print(v) + rest)[0] == (match v case Num(_) => INT_MARK case List(_) => LIST_MARK case Dict(_) => DICT_MARK
                                     case Str(data) => EncodeStr(data)[0])
    ensures v.Str? ==> IsDigit(Print(v)[0])
  {
    if v.Str? {
      StrReads(v.data, []);
      assert EncodeStr(v.data) + [] == EncodeStr(v.data);
    }
  }

  lemma ParsePrintNum(n: int, rest: Bytes)
    ensures Parse(EncodeNum(n) + rest) == Some((Num(n), rest))
  {
    NumReads(n, rest);
    assert (EncodeNum(n) + rest)[0] == INT_MARK;
  }

  lemma ParsePrintStr(data: Bytes, rest: Bytes)
    ensures Parse(EncodeStr(data) + rest) == Some((Str(data), rest))
  {
    StrReads(data, rest);
  }

  lemma Wrapped(mark: Byte, body: Bytes, rest: Bytes)
    ensures var bs := [mark] + body + [END_MARK] + rest; bs[0] == mark && bs[1..] == body + ([END_MARK] + rest)
  {
  }

  lemma ParseList(bs: Bytes, items: seq<Value>, rest: Bytes)
    requires bs != [] && bs[0] == LIST_MARK && ParseItems(bs[1..]) == Some((items, rest))
    ensures Parse(bs) == Some((List(items), rest))
  {
  }

  lemma ParseDict(bs: Bytes, entries: seq<Keyed<Value>>, rest: Bytes)
    requires bs != [] && bs[0] == DICT_MARK && ParseEntries(bs[1..]) == Some((entries, rest)) && Ascending(entries)
    ensures Parse(bs) == Some((Dict(entries), rest))
  {
  }

  lemma {:induction false} ParsePrint(v: Value, rest: Bytes)
    requires IsCanonical(v)
    ensures Parse(Print(v) + rest) == Some((v, rest))
    decreases v
  {
    match v
    case Num(n) => ParsePrintNum(n, rest);
    case Str(data) => ParsePrintStr(data, rest);
    case List(items) =>
      ParsePrintItems(items, rest);
      Wrapped(LIST_MARK, PrintItems(items), rest);
      ParseList(Print(v) + rest, items, rest);
    case Dict(entries) =>
      ParsePrintEntries(entries, rest);
      Wrapped(DICT_MARK, PrintEntries(entries), rest);
      ParseDict(Print(v) + rest, entries, rest);
  }

  lemma {:induction false} ParsePrintItems(items: seq<Value>, rest: Bytes)
    requires forall i :: 0 <= i < |items| ==> IsCanonical(items[i])
    ensures ParseItems(PrintItems(items) + ([END_MARK] + rest)) == Some((items, rest))
    decreases items
  {
    var tail := [END_MARK] + rest;
    if items == [] {
      assert PrintItems(items) + tail == tail;
      assert tail[1..] == rest;
    } else {
      var after := PrintItems(items[1..]) + tail;
      assert PrintItems(items) + tail == Print(items[0]) + after;
      FirstByte(items[0], after);
      ParsePrint(items[0], after);
      ParsePrintItems(items[1..], rest);
      assert [items[0]] + items[1..] == items;
    }
  }

  lemma EntriesCons(bs: Bytes, key: Bytes, item: Value, mid: Bytes, after: Bytes, more: seq<Keyed<Value>>, rest: Bytes)
    requires bs != [] && bs[0] != END_MARK && ParseStr(bs) == Some((key, mid)) && Parse(mid) == Some((item, after))
    requires ParseEntries(after) == Some((more, rest))
    ensures ParseEntries(bs) == Some(([Keyed(key, item)] + more, rest))
  {
  }

  lemma {:induction false} ParsePrintEntries(entries: seq<Keyed<Value>>, rest: Bytes)
    requires forall i :: 0 <= i < |entries| ==> IsCanonical(entries[i].item)
    ensures ParseEntries(PrintEntries(entries) + ([END_MARK] + rest)) == Some((entries, rest))
    decreases entries
  {
    var tail := [END_MARK] + rest;
    if entries == [] {
      assert PrintEntries(entries) + tail == tail;
      assert tail[1..] == rest;
    } else {
      var after := PrintEntries(entries[1..]) + tail;
      var mid := Print(entries[0].item) + after;
      assert [entries[0]] + entries[1..] == entries;
      PrintEntriesCons(entries[0], entries[1..], tail);
      StrReads(entries[0].key, mid);
      ParsePrint(entries[0].item, after);
      ParsePrintEntries(entries[1..], rest);
      EntriesCons(PrintEntries(entries) + tail, entries[0].key, entries[0].item, mid, after, entries[1..], rest);
    }
  }

  // ---------------------------------------------------------------- printing back what was read

  lemma StrReadOnly(bs: Bytes)
    requires ParseStr(bs).Some?
    ensures bs == EncodeStr(ParseStr(bs).value.0) + ParseStr(bs).value.1
  {
    var k := DigitRun(bs);
    NumeralDigits(bs[..k]);
    assert bs == bs[..k] + [COLON] + bs[k + 1..];
  }

  lemma UnsignedReadOnly(bs: Bytes)
    requires ParseUnsigned(bs).Some?
    ensures ParseUnsigned(bs).value.0 >= 0
    ensures bs == Digits(ParseUnsigned(bs).value.0) + [END_MARK] + ParseUnsigned(bs).value.1
    ensures bs[0] != MINUS
  {
    var k := DigitRun(bs);
    NumeralDigits(bs[..k]);
    assert bs == bs[..k] + [END_MARK] + bs[k + 1..];
  }

  lemma NumReadOnly(bs: Bytes)
    requires ParseNum(bs).Some?
    ensures [INT_MARK] + bs == EncodeNum(ParseNum(bs).value.0) + ParseNum(bs).value.1
  {
    if bs[0] == MINUS {
      UnsignedReadOnly(bs[1..]);
      assert bs == [MINUS] + bs[1..];
    } else {
      UnsignedReadOnly(bs);
    }
  }

  lemma {:induction false} PrintParse(bs: Bytes)
    requires Parse(bs).Some?
    ensures IsCanonical(Parse(bs).value.0)
    ensures bs == Print(Parse(bs).value.0) + Parse(bs).value.1
    decreases |bs|, 1
  {
    assert bs == [bs[0]] + bs[1..];
    if bs[0] == INT_MARK {
      NumReadOnly(bs[1..]);
    } else if bs[0] == LIST_MARK {
      PrintParseItems(bs[1..]);
    } else if bs[0] == DICT_MARK {
      PrintParseEntries(bs[1..]);
    } else {
      StrReadOnly(bs);
    }
  }

  lemma PrintItemsCons(v: Value, vs: seq<Value>, tail: Bytes)
    ensures PrintItems([v] + vs) + tail == Print(v) + (PrintItems(vs) + tail)
  {
    assert ([v] + vs)[1..] == vs;
  }

  lemma {:induction false} PrintParseItems(bs: Bytes)
    requires ParseItems(bs).Some?
    ensures var r := ParseItems(bs).value;
            && (forall i :: 0 <= i < |r.0| ==> IsCanonical(r.0[i]))
            && bs == PrintItems(r.0) + ([END_MARK] + r.1)
    decreases |bs|, 2
  {
    if bs[0] == END_MARK {
      assert bs == [bs[0]] + bs[1..];
    } else {
      PrintParse(bs);
      var (v, rest) := Parse(bs).value;
      PrintParseItems(rest);
      var (vs, end) := ParseItems(rest).value;
      PrintItemsCons(v, vs, [END_MARK] + end);
      assert ParseItems(bs).value == ([v] + vs, end);
    }
  }

  lemma PrintEntriesCons(e: Keyed<Value>, es: seq<Keyed<Value>>, tail: Bytes)
    ensures PrintEntries([e] + es) + tail == EncodeStr(e.key) + (Print(e.item) + (PrintEntries(es) + tail))
  {
    assert ([e] + es)[1..] == es;
  }

  lemma {:induction false} PrintParseEntries(bs: Bytes)
    requires ParseEntries(bs).Some?
    ensures var r := ParseEntries(bs).value;
            && (forall i :: 0 <= i < |r.0| ==> IsCanonical(r.0[i].item))
            && bs == PrintEntries(r.0) + ([END_MARK] + r.1)
    decreases |bs|, 2
  {
    if bs[0] == END_MARK {
      assert bs == [bs[0]] + bs[1..];
    } else {
      StrReadOnly(bs);
      var (key, afterKey) := ParseStr(bs).value;
      PrintParse(afterKey);
      var (v, rest) := Parse(afterKey).value;
      PrintParseEntries(rest);
      var (es, end) := ParseEntries(rest).value;
      PrintEntriesCons(Keyed(key, v), es, [END_MARK] + end);
      assert ParseEntries(bs).value == ([Keyed(key, v)] + es, end);
    }
  }

  // ---------------------------------------------------------------- main results

  /** Decoding an encoding recovers the value, objects in key order, and every byte that follows. */
  lemma DecodeEncode(v: Value, rest: Bytes)
    requires IsObject(v)
    ensures Parse(Encode(v) + rest) == Some((Canonical(v), rest))
  {
    EncodePrints(v);
    CanonicalIsCanonical(v);
    ParsePrint(Canonical(v), rest);
  }

  /** No encoding is a proper prefix of another, and equal encodings carry equal values. */
  lemma PrefixFree(v: Value, w: Value, r: Bytes, s: Bytes)
    requires IsObject(v) && IsObject(w)
    requires Encode(v) + r == Encode(w) + s
    ensures Canonical(v) == Canonical(w) && r == s
  {
    DecodeEncode(v, r);
    DecodeEncode(w, s);
  }

  lemma {:induction false} CanonicalIsFixed(v: Value)
    requires IsCanonical(v)
    ensures Canonical(v) == v
    decreases v
  {
    match v
    case Num(_) =>
    case Str(_) =>
    case List(items) => CanonicalItemsFixed(items);
    case Dict(entries) =>
      CanonicalEachFixed(entries);
      SortOfAscending(entries);
  }

  lemma {:induction false} CanonicalItemsFixed(items: seq<Value>)
    requires forall i :: 0 <= i < |items| ==> IsCanonical(items[i])
    ensures CanonicalItems(items) == items
    decreases items
  {
    if items != [] {
      CanonicalIsFixed(items[0]);
      CanonicalItemsFixed(items[1..]);
    }
  }

  lemma {:induction false} CanonicalEachFixed(entries: seq<Keyed<Value>>)
    requires forall i :: 0 <= i < |entries| ==> IsCanonical(entries[i].item)
    ensures CanonicalEach(entries) == entries
    decreases entries
  {
    if entries != [] {
      CanonicalIsFixed(entries[0].item);
      CanonicalEachFixed(entries[1..]);
    }
  }

  /** The strict reader accepts nothing but encodings: re-encoding what it read reproduces the input. */
  lemma EncodeDecode(bs: Bytes)
    requires Parse(bs).Some?
    ensures Encode(Parse(bs).value.0) + Parse(bs).value.1 == bs
  {
    PrintParse(bs);
    EncodePrints(Parse(bs).value.0);
    CanonicalIsFixed(Parse(bs).value.0);
  }
}
