/** Bencoding of the storage fixtures (src/test-utils/bt-storage.ts), with a strict reader of BEP 3. */
module Bencode {
  import opened ByteStrings
  import opened Options
  import opened Decimals

  const INT_MARK: Byte := 105
  const LIST_MARK: Byte := 108
  const DICT_MARK: Byte := 100
  const END_MARK: Byte := 101
  const COLON: Byte := 58
  const MINUS: Byte := 45

  datatype Keyed<+T> = Keyed(key: Bytes, item: T)

  /** An encodable value; strings and buffers are both byte strings, and object entries stand in insertion order. */
  datatype Value =
    | Num(n: int)
    | Str(data: Bytes)
    | List(items: seq<Value>)
    | Dict(entries: seq<Keyed<Value>>)

  // ---------------------------------------------------------------- key order

  predicate KeyLess(a: Bytes, b: Bytes) {
    b != [] && (a == [] || a[0] < b[0] || (a[0] == b[0] && KeyLess(a[1..], b[1..])))
  }

  function Insert<T>(e: Keyed<T>, es: seq<Keyed<T>>): seq<Keyed<T>> {
    if es == [] || KeyLess(e.key, es[0].key) then [e] + es else [es[0]] + Insert(e, es[1..])
  }

  function SortByKey<T>(es: seq<Keyed<T>>): seq<Keyed<T>> {
    if es == [] then [] else Insert(es[0], SortByKey(es[1..]))
  }

  /** Keys strictly increase. */
  predicate Ascending<T>(es: seq<Keyed<T>>) {
    |es| <= 1 || (KeyLess(es[0].key, es[1].key) && Ascending(es[1..]))
  }

  ghost predicate DistinctKeys<T(!new)>(es: seq<Keyed<T>>) {
    forall i, j :: 0 <= i < j < |es| ==> es[i].key != es[j].key
  }

  // ---------------------------------------------------------------- the encoder

  function EncodeStr(data: Bytes): Bytes {
    Digits(|data|) + [COLON] + data
  }

  function EncodeNum(n: int): Bytes {
    [INT_MARK] + (if n < 0 then [MINUS] + Digits(-n) else Digits(n)) + [END_MARK]
  }

  function Encode(v: Value): Bytes {
    match v
    case Num(n) => EncodeNum(n)
    case Str(data) => EncodeStr(data)
    case List(items) => [LIST_MARK] + EncodeItems(items) + [END_MARK]
    case Dict(entries) => [DICT_MARK] + Joined(SortByKey(EncodeEach(entries))) + [END_MARK]
  }

  function EncodeItems(items: seq<Value>): Bytes {
    if items == [] then [] else Encode(items[0]) + EncodeItems(items[1..])
  }

  function EncodeEach(entries: seq<Keyed<Value>>): seq<Keyed<Bytes>> {
    if entries == [] then []
    else [Keyed(entries[0].key, Encode(entries[0].item))] + EncodeEach(entries[1..])
  }

  function Joined(es: seq<Keyed<Bytes>>): Bytes {
    if es == [] then [] else EncodeStr(es[0].key) + es[0].item + Joined(es[1..])
  }

  // ---------------------------------------------------------------- the reader

  function ParseStr(bs: Bytes): (r: Option<(Bytes, Bytes)>)
    ensures r.Some? ==> |r.value.1| < |bs|
  {
    var k := DigitRun(bs);
    if k == 0 || (bs[0] == 48 && k > 1) || k == |bs| || bs[k] != COLON then None
    else
      var size := FromDigits(bs[..k]);
      if 0 <= size <= |bs| - k - 1
      then Some((bs[k + 1..k + 1 + size], bs[k + 1 + size..]))
      else None
  }

  /** An unsigned numeral and its end mark. */
  function ParseUnsigned(bs: Bytes): (r: Option<(int, Bytes)>)
    ensures r.Some? ==> |r.value.1| < |bs|
  {
    var k := DigitRun(bs);
    if k == 0 || (bs[0] == 48 && k > 1) || k == |bs| || bs[k] != END_MARK then None
    else Some((FromDigits(bs[..k]), bs[k + 1..]))
  }

  function ParseNum(bs: Bytes): (r: Option<(int, Bytes)>)
    ensures r.Some? ==> |r.value.1| < |bs|
  {
    if bs == [] || bs[0] != MINUS then ParseUnsigned(bs)
    else match ParseUnsigned(bs[1..])
      case None => None
      case Some((n, rest)) => if n == 0 then None else Some((-n, rest))
  }

  /** Reads one value off the front of the input. */
  function Parse(bs: Bytes): (r: Option<(Value, Bytes)>)
    ensures r.Some? ==> |r.value.1| < |bs|
    decreases |bs|, 1
  {
    if bs == [] then None
    else if bs[0] == INT_MARK then
      match ParseNum(bs[1..]) case None => None case Some((n, rest)) => Some((Num(n), rest))
    else if bs[0] == LIST_MARK then
      match ParseItems(bs[1..]) case None => None case Some((items, rest)) => Some((List(items), rest))
    else if bs[0] == DICT_MARK then
      match ParseEntries(bs[1..]) case None => None
      case Some((entries, rest)) => if Ascending(entries) then Some((Dict(entries), rest)) else None
    else
      match ParseStr(bs) case None => None case Some((data, rest)) => Some((Str(data), rest))
  }

  function ParseItems(bs: Bytes): (r: Option<(seq<Value>, Bytes)>)
    ensures r.Some? ==> |r.value.1| < |bs|
    decreases |bs|, 2
  {
    if bs == [] then None
    else if bs[0] == END_MARK then Some(([], bs[1..]))
    else match Parse(bs) case None => None case Some((v, rest)) =>
      match ParseItems(rest) case None => None
      case Some((vs, rest')) => Some(([v] + vs, rest'))
  }

  function ParseEntries(bs: Bytes): (r: Option<(seq<Keyed<Value>>, Bytes)>)
    ensures r.Some? ==> |r.value.1| < |bs|
    decreases |bs|, 2
  {
    if bs == [] then None
    else if bs[0] == END_MARK then Some(([], bs[1..]))
    else match ParseStr(bs) case None => None case Some((k, afterKey)) =>
      match Parse(afterKey) case None => None case Some((v, rest)) =>
        match ParseEntries(rest) case None => None
        case Some((es, rest')) => Some(([Keyed(k, v)] + es, rest'))
  }

  // ---------------------------------------------------------------- canonical values

  /** What a reader of the encoding can recover: every object with its entries in key order. */
  function Canonical(v: Value): Value {
    match v
    case Num(_) => v
    case Str(_) => v
    case List(items) => List(CanonicalItems(items))
    case Dict(entries) => Dict(SortByKey(CanonicalEach(entries)))
  }

  function CanonicalItems(items: seq<Value>): seq<Value> {
    if items == [] then [] else [Canonical(items[0])] + CanonicalItems(items[1..])
  }

  function CanonicalEach(entries: seq<Keyed<Value>>): seq<Keyed<Value>> {
    if entries == [] then []
    else [Keyed(entries[0].key, Canonical(entries[0].item))] + CanonicalEach(entries[1..])
  }

  /** Every object inside has distinct keys, as JavaScript objects have. */
  ghost predicate IsObject(v: Value) {
    match v
    case Num(_) => true
    case Str(_) => true
    case List(items) => forall i :: 0 <= i < |items| ==> IsObject(items[i])
    case Dict(entries) => DistinctKeys(entries) && forall i :: 0 <= i < |entries| ==> IsObject(entries[i].item)
  }

  /** Every object inside already stands in key order. */
  ghost predicate IsCanonical(v: Value) {
    match v
    case Num(_) => true
    case Str(_) => true
    case List(items) => forall i :: 0 <= i < |items| ==> IsCanonical(items[i])
    case Dict(entries) => Ascending(entries) && forall i :: 0 <= i < |entries| ==> IsCanonical(entries[i].item)
  }

  /** The encoder without sorting. */
  function Print(v: Value): Bytes {
    match v
    case Num(n) => EncodeNum(n)
    case Str(data) => EncodeStr(data)
    case List(items) => [LIST_MARK] + PrintItems(items) + [END_MARK]
    case Dict(entries) => [DICT_MARK] + PrintEntries(entries) + [END_MARK]
  }

  function PrintItems(items: seq<Value>): Bytes {
    if items == [] then [] else Print(items[0]) + PrintItems(items[1..])
  }

  function PrintEntries(entries: seq<Keyed<Value>>): Bytes {
    if entries == [] then []
    else EncodeStr(entries[0].key) + Print(entries[0].item) + PrintEntries(entries[1..])
  }
}
