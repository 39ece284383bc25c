/** The canonical encoding of packages/native-host/src/canonical.rs, and the reader it determines. */
module Canonical {
  import opened ByteStrings
  import opened Options

  /** A byte string whose length fits `u64`, and integers of the two widths. */
  type Payload = s: Bytes | |s| < 0x1_0000_0000_0000_0000
  type U32 = n: nat | n < 0x1_0000_0000
  type U64 = n: nat | n < 0x1_0000_0000_0000_0000

  function Enc(s: Bytes): Bytes {
    LittleEndian(|s|, 8) + s
  }

  /** `enc`: the length and then the bytes are appended to an empty vector. */
  method EncodeBytes(s: Bytes) returns (out: Bytes)
    ensures out == Enc(s)
  {
    out := [];
    out := out + LittleEndian(|s|, 8);
    out := out + s;
  }

  predicate IsAscii(s: Bytes): (r: bool)
    ensures r <==> forall b :: b in s ==> b <= 0x7f
  {
    assert forall i :: 0 <= i < |s| ==> s[i] in s;
    forall i :: 0 <= i < |s| ==> s[i] < 128
  }

  function EncAscii(s: Bytes): Option<Bytes> {
    if IsAscii(s) then Some(Enc(s)) else None
  }

  // ---------------------------------------------------------------- one byte string

  /** Splits one encoded byte string off the front. */
  function TakeBytes(bs: Bytes): Option<(Bytes, Bytes)> {
    if |bs| < 8 then None
    else
      var n := FromLittleEndian(bs[..8]);
      if |bs| - 8 < n then None else Some((bs[8..8 + n], bs[8 + n..]))
  }

  lemma TakeEnc(s: Payload, rest: Bytes)
    ensures TakeBytes(Enc(s) + rest) == Some((s, rest))
  {
    Pow256Values();
    LittleEndianRoundTrip(|s|, 8);
    var bs := Enc(s) + rest;
    assert bs[..8] == LittleEndian(|s|, 8);
    assert bs[8..8 + |s|] == s && bs[8 + |s|..] == rest;
  }

  lemma TakeOnlyEnc(bs: Bytes, s: Bytes, rest: Bytes)
    requires TakeBytes(bs) == Some((s, rest))
    ensures |s| < 0x1_0000_0000_0000_0000 && bs == Enc(s) + rest
  {
    Pow256Values();
    LittleEndianOnto(bs[..8]);
    assert bs == bs[..8] + bs[8..8 + |s|] + bs[8 + |s|..];
  }

  /** No encoding continues another: what follows cannot change where a field ends. */
  lemma EncPrefixFree(s: Payload, t: Payload, x: Bytes, y: Bytes)
    requires Enc(s) + x == Enc(t) + y
    ensures s == t && x == y
  {
    TakeEnc(s, x);
    TakeEnc(t, y);
  }

  // ---------------------------------------------------------------- big-endian integers

  /** Strict dictionary order on byte strings of equal length. */
  predicate Before(a: Bytes, b: Bytes)
    requires |a| == |b|
  {
    a != [] && (a[0] < b[0] || (a[0] == b[0] && Before(a[1..], b[1..])))
  }

  lemma {:induction false} BeforeLast(a: Bytes, b: Bytes, x: Byte, y: Byte)
    requires |a| == |b|
    ensures Before(a + [x], b + [y]) <==> Before(a, b) || (a == b && x < y)
  {
    if a != [] {
      assert (a + [x])[1..] == a[1..] + [x] && (b + [y])[1..] == b[1..] + [y];
      BeforeLast(a[1..], b[1..], x, y);
      assert a == [a[0]] + a[1..] && b == [b[0]] + b[1..];
    }
  }

  lemma DigitsCompare(a: nat, b: nat)
    ensures a < b <==> a / 256 < b / 256 || (a / 256 == b / 256 && a % 256 < b % 256)
  {
  }

  /** Byte-wise comparison of big-endian encodings is comparison of the integers. */
  lemma {:induction false} BigEndianKeepsOrder(a: nat, b: nat, k: nat)
    requires a < Pow256(k) && b < Pow256(k)
    ensures Before(BigEndian(a, k), BigEndian(b, k)) <==> a < b
    decreases k
  {
    if k > 0 {
      BigEndianKeepsOrder(a / 256, b / 256, k - 1);
      BigEndianRoundTrip(a / 256, k - 1);
      BigEndianRoundTrip(b / 256, k - 1);
      BeforeLast(BigEndian(a / 256, k - 1), BigEndian(b / 256, k - 1), a % 256, b % 256);
      DigitsCompare(a, b);
    }
  }

  // ---------------------------------------------------------------- whole structures

  datatype Kind = Text | Raw | Word32 | Word64

  datatype Field = TextField(s: Payload) | RawField(s: Payload) | U32Field(n: U32) | U64Field(m: U64)
  {
    function Kind(): Kind {
      match this
      case TextField(_) => Text
      case RawField(_) => Raw
      case U32Field(_) => Word32
      case U64Field(_) => Word64
    }
  }

  function EncField(f: Field): Option<Bytes> {
    match f
    case TextField(s) => EncAscii(s)
    case RawField(s) => Some(Enc(s))
    case U32Field(n) => Some(BigEndian(n, 4))
    case U64Field(n) => Some(BigEndian(n, 8))
  }

  /** The concatenation of the fields, or nothing when a text field is not ASCII. */
  function EncFields(fs: seq<Field>): Option<Bytes> {
    if fs == [] then Some([])
    else match EncField(fs[0]) case None => None case Some(head) =>
      match EncFields(fs[1..]) case None => None case Some(tail) => Some(head + tail)
  }

  function Kinds(fs: seq<Field>): (ks: seq<Kind>)
    ensures |ks| == |fs|
  {
    seq(|fs|, i requires 0 <= i < |fs| => fs[i].Kind())
  }

  function TakeField(k: Kind, bs: Bytes): Option<(Field, Bytes)> {
    match k
    case Word32 => if |bs| < 4 then None else U32From(bs)
    case Word64 => if |bs| < 8 then None else U64From(bs)
    case Text =>
      (match TakeBytes(bs) case None => None case Some((s, rest)) =>
         if IsAscii(s) && |s| < 0x1_0000_0000_0000_0000 then Some((TextField(s), rest)) else None)
    case Raw =>
      match TakeBytes(bs) case None => None case Some((s, rest)) =>
        if |s| < 0x1_0000_0000_0000_0000 then Some((RawField(s), rest)) else None
  }

  function U32From(bs: Bytes): Option<(Field, Bytes)>
    requires |bs| >= 4
  {
    Pow256Values();
    Some((U32Field(FromBigEndian(bs[..4])), bs[4..]))
  }

  function U64From(bs: Bytes): Option<(Field, Bytes)>
    requires |bs| >= 8
  {
    Pow256Values();
    Some((U64Field(FromBigEndian(bs[..8])), bs[8..]))
  }

  /** Reads one field of each kind, and what is left over. */
  function TakeFields(ks: seq<Kind>, bs: Bytes): Option<(seq<Field>, Bytes)>
    decreases |ks|
  {
    if ks == [] then Some(([], bs))
    else match TakeField(ks[0], bs) case None => None case Some((f, rest)) =>
      match TakeFields(ks[1..], rest) case None => None case Some((fs, tail)) => Some(([f] + fs, tail))
  }

  lemma TakeEncodedField(f: Field, rest: Bytes)
    requires EncField(f).Some?
    ensures TakeField(f.Kind(), EncField(f).value + rest) == Some((f, rest))
  {
    var e := EncField(f).value;
    match f
    case TextField(s) => TakeEnc(s, rest);
    case RawField(s) => TakeEnc(s, rest);
    case U32Field(n) =>
      Pow256Values();
      BigEndianRoundTrip(n, 4);
      assert (e + rest)[..4] == e && (e + rest)[4..] == rest;
    case U64Field(n) =>
      Pow256Values();
      BigEndianRoundTrip(n, 8);
      assert (e + rest)[..8] == e && (e + rest)[8..] == rest;
  }

  lemma TakenFieldIsEncoded(k: Kind, bs: Bytes, f: Field, rest: Bytes)
    requires TakeField(k, bs) == Some((f, rest))
    ensures f.Kind() == k && EncField(f).Some? && bs == EncField(f).value + rest
  {
    match k
    case Text => TakeOnlyEnc(bs, f.s, rest);
    case Raw => TakeOnlyEnc(bs, f.s, rest);
    case Word32 =>
      BigEndianOnto(bs[..4]);
      assert bs == bs[..4] + bs[4..];
    case Word64 =>
      BigEndianOnto(bs[..8]);
      assert bs == bs[..8] + bs[8..];
  }

  /** A structure reads back as its fields, whatever follows it. */
  lemma {:induction false} FieldsReadBack(fs: seq<Field>, rest: Bytes)
    requires EncFields(fs).Some?
    ensures TakeFields(Kinds(fs), EncFields(fs).value + rest) == Some((fs, rest))
    decreases |fs|
  {
    if fs == [] {
      assert EncFields(fs).value + rest == rest;
    } else {
      var head, tail := EncField(fs[0]).value, EncFields(fs[1..]).value;
      assert head + tail + rest == head + (tail + rest);
      TakeEncodedField(fs[0], tail + rest);
      FieldsReadBack(fs[1..], rest);
      assert Kinds(fs)[0] == fs[0].Kind() && Kinds(fs)[1..] == Kinds(fs[1..]);
      assert fs == [fs[0]] + fs[1..];
    }
  }

  /** The reader accepts nothing but encodings. */
  lemma {:induction false} ReadFieldsAreEncoded(ks: seq<Kind>, bs: Bytes, fs: seq<Field>, rest: Bytes)
    requires TakeFields(ks, bs) == Some((fs, rest))
    ensures Kinds(fs) == ks && EncFields(fs).Some? && bs == EncFields(fs).value + rest
    decreases |ks|
  {
    if ks == [] {
      assert bs == [] + rest;
    } else {
      var (f, mid) := TakeField(ks[0], bs).value;
      var (gs, _) := TakeFields(ks[1..], mid).value;
      TakenFieldIsEncoded(ks[0], bs, f, mid);
      ReadFieldsAreEncoded(ks[1..], mid, gs, rest);
      EncodedCons(f, gs, rest);
      assert ks == [ks[0]] + ks[1..];
    }
  }

  lemma EncodedCons(f: Field, gs: seq<Field>, rest: Bytes)
    requires EncField(f).Some? && EncFields(gs).Some?
    ensures Kinds([f] + gs) == [f.Kind()] + Kinds(gs) && EncFields([f] + gs).Some?
    ensures EncFields([f] + gs).value + rest == EncField(f).value + (EncFields(gs).value + rest)
  {
    assert ([f] + gs)[1..] == gs;
    assert EncField(f).value + EncFields(gs).value + rest == EncField(f).value + (EncFields(gs).value + rest);
  }

  /** Structures with the same kinds of fields never share an encoding, even followed by other bytes. */
  lemma FieldsPrefixFree(fs: seq<Field>, gs: seq<Field>, x: Bytes, y: Bytes)
    requires Kinds(fs) == Kinds(gs) && EncFields(fs).Some? && EncFields(gs).Some?
    requires EncFields(fs).value + x == EncFields(gs).value + y
    ensures fs == gs && x == y
  {
    FieldsReadBack(fs, x);
    FieldsReadBack(gs, y);
  }

  /** A structure has an encoding exactly when its text fields are ASCII. */
  lemma {:induction false} EncodableIffAscii(fs: seq<Field>)
    ensures EncFields(fs).Some? <==> forall i :: 0 <= i < |fs| && fs[i].TextField? ==> IsAscii(fs[i].s)
  {
    if fs != [] {
      EncodableIffAscii(fs[1..]);
      assert forall i :: 1 <= i < |fs| ==> fs[i] == fs[1..][i - 1];
      if EncFields(fs[1..]).Some? && EncField(fs[0]).Some? {
        forall i | 0 <= i < |fs| && fs[i].TextField? ensures IsAscii(fs[i].s) {
          if i > 0 {
            assert fs[1..][i - 1].TextField?;
          }
        }
      } else if EncFields(fs[1..]).None? {
        var j :| 0 <= j < |fs[1..]| && fs[1..][j].TextField? && !IsAscii(fs[1..][j].s);
        assert fs[j + 1].TextField? && !IsAscii(fs[j + 1].s);
      }
    }
  }

  /** Without a fixed schema encodings do collide: an empty byte string and a zero `u64` look alike. */
  lemma KindsMatter()
    ensures EncFields([RawField([])]) == EncFields([U64Field(0)])
  {
    LittleEndianZeros(8);
    BigEndianZeros(8);
    EncOne(RawField([]));
    EncOne(U64Field(0));
    assert Enc([]) == LittleEndian(0, 8);
  }

  lemma EncOne(f: Field)
    ensures EncFields([f]) == EncField(f)
  {
    assert [f][1..] == [] && EncFields([f][1..]) == Some([]);
    if EncField(f).Some? {
      assert EncField(f).value + [] == EncField(f).value;
    }
  }

  lemma {:induction false} LittleEndianZeros(k: nat)
    ensures LittleEndian(0, k) == seq(k, _ => 0)
  {
    if k > 0 {
      LittleEndianZeros(k - 1);
    }
  }

  lemma {:induction false} BigEndianZeros(k: nat)
    ensures BigEndian(0, k) == seq(k, _ => 0)
  {
    if k > 0 {
      BigEndianZeros(k - 1);
    }
  }

  // ---------------------------------------------------------------- the attestation ticket

  datatype Ticket = Ticket(generation: Payload, browser: Payload, callerId: Payload, exp: U64, bindingPub: Payload)

  /** "mbp1-attestation" */
  const PURPOSE: Payload := [109, 98, 112, 49, 45, 97, 116, 116, 101, 115, 116, 97, 116, 105, 111, 110]
  const TICKET_VERSION: U32 := 1
  const PROTOCOL_VERSION: U32 := 1

  function TicketFields(t: Ticket): seq<Field> {
    [TextField(PURPOSE), U32Field(TICKET_VERSION), U32Field(PROTOCOL_VERSION), TextField(t.generation),
     TextField(t.browser), TextField(t.callerId), U64Field(t.exp), RawField(t.bindingPub)]
  }

  lemma {:induction false} EncFieldsSnoc(fs: seq<Field>, f: Field)
    ensures EncFields(fs + [f]) == (if EncFields(fs).None? || EncField(f).None? then None
                                    else Some(EncFields(fs).value + EncField(f).value))
  {
    if fs == [] {
      EncOne(f);
      assert fs + [f] == [f];
      if EncField(f).Some? {
        assert [] + EncField(f).value == EncField(f).value;
      }
    } else {
      EncFieldsSnoc(fs[1..], f);
      assert (fs + [f])[1..] == fs[1..] + [f];
      if EncFields(fs).Some? && EncField(f).Some? {
        assert EncField(fs[0]).value + (EncFields(fs[1..]).value + EncField(f).value)
            == EncField(fs[0]).value + EncFields(fs[1..]).value + EncField(f).value;
      }
    }
  }

  lemma TicketLayout(t: Ticket)
    requires IsAscii(t.generation) && IsAscii(t.browser) && IsAscii(t.callerId)
    ensures EncFields(TicketFields(t))
         == Some(Enc(PURPOSE) + BigEndian(TICKET_VERSION, 4) + BigEndian(PROTOCOL_VERSION, 4) + Enc(t.generation)
                 + Enc(t.browser) + Enc(t.callerId) + BigEndian(t.exp, 8) + Enc(t.bindingPub))
  {
    var fs := TicketFields(t);
    EncOne(fs[0]);
    assert fs[..1] == [fs[0]];
    forall i | 1 <= i < 8 ensures fs[..i + 1] == fs[..i] + [fs[i]] { }
    EncFieldsSnoc(fs[..1], fs[1]);
    EncFieldsSnoc(fs[..2], fs[2]);
    EncFieldsSnoc(fs[..3], fs[3]);
    EncFieldsSnoc(fs[..4], fs[4]);
    EncFieldsSnoc(fs[..5], fs[5]);
    EncFieldsSnoc(fs[..6], fs[6]);
    EncFieldsSnoc(fs[..7], fs[7]);
    assert fs[..8] == fs;
  }

  /** `ticket_canonical`: extends one buffer field by field; a non-ASCII string field is a panic. */
  method TicketCanonical(t: Ticket) returns (r: Option<Bytes>)
    ensures r == EncFields(TicketFields(t))
  {
    EncodableIffAscii(TicketFields(t));
    assert TicketFields(t)[3].s == t.generation && TicketFields(t)[4].s == t.browser
           && TicketFields(t)[5].s == t.callerId;
    var generation, browser, callerId := EncAscii(t.generation), EncAscii(t.browser), EncAscii(t.callerId);
    if generation == None || browser == None || callerId == None {
      return None;
    }
    var canonical := EncodeBytes(PURPOSE);
    canonical := canonical + BigEndian(TICKET_VERSION, 4);
    canonical := canonical + BigEndian(PROTOCOL_VERSION, 4);
    canonical := canonical + generation.value;
    canonical := canonical + browser.value;
    canonical := canonical + callerId.value;
    canonical := canonical + BigEndian(t.exp, 8);
    var bindingPub := EncodeBytes(t.bindingPub);
    TicketLayout(t);
    r := Some(canonical + bindingPub);
  }

  /** The MAC input determines every ticket input. */
  lemma TicketInjective(t: Ticket, u: Ticket)
    requires EncFields(TicketFields(t)).Some? && EncFields(TicketFields(t)) == EncFields(TicketFields(u))
    ensures t == u
  {
    var a, b := TicketFields(t), TicketFields(u);
    assert Kinds(a) == Kinds(b);
    FieldsPrefixFree(a, b, [], []);
    assert a[3] == b[3] && a[4] == b[4] && a[5] == b[5] && a[6] == b[6] && a[7] == b[7];
  }
}
