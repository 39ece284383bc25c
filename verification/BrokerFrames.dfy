/** The versioned frames of packages/native-host/src/broker_protocol.rs; the JSON codec is a parameter. */
module BrokerFrames {
  import opened ByteStrings
  import opened Options
  import opened Streams

  /** "MXBR" */
  const MAGIC: Bytes := [77, 88, 66, 82]
  const VERSION: nat := 1
  const HEADER: nat := 12
  const MAX_BODY: nat := 64 * 1024
  const MAX_FRAME: nat := HEADER + MAX_BODY
  const U32_MAX: nat := 0xffff_ffff

  datatype Failure =
    | Io
    | InvalidMagic
    | UnsupportedVersion(version: nat)
    | MessageTooLarge(announced: nat, maximum: nat)
    | InvalidJson
    | Serialization
    | TrailingBytes

  /** A body that does not parse, and a value that does not serialize, are `None`. */
  type Parser<T> = Bytes -> Option<T>
  type Serializer<!T> = T -> Option<Bytes>

  function Frame(body: Bytes): Bytes {
    MAGIC + LittleEndian(VERSION, 4) + LittleEndian(|body|, 4) + body
  }

  // ---------------------------------------------------------------- reading

  /** The body at the front of `bs` and how many bytes were read, also when it fails. */
  function ReadBody(bs: Bytes): (r: (Result<Bytes, Failure>, nat))
    ensures r.1 <= |bs|
  {
    if |bs| < HEADER then (Err(Io), |bs|)
    else if bs[..4] != MAGIC then (Err(InvalidMagic), HEADER)
    else
      var version, announced := FromLittleEndian(bs[4..8]), FromLittleEndian(bs[8..12]);
      if version != VERSION then (Err(UnsupportedVersion(version)), HEADER)
      else if announced > MAX_BODY then (Err(MessageTooLarge(announced, MAX_BODY)), HEADER)
      else if |bs| - HEADER < announced then (Err(Io), |bs|)
      else (Ok(bs[HEADER..HEADER + announced]), HEADER + announced)
  }

  function Parsed<T>(parse: Parser<T>, body: Result<Bytes, Failure>): Result<T, Failure> {
    match body
    case Err(e) => Err(e)
    case Ok(b) => match parse(b) case None => Err(InvalidJson) case Some(v) => Ok(v)
  }

  method ReadBrokerMessage<T>(parse: Parser<T>, reader: Reader) returns (r: Result<T, Failure>)
    requires reader.Valid()
    modifies reader
    ensures reader.Valid()
    ensures r == Parsed(parse, ReadBody(old(reader.Rest())).0)
    ensures reader.Rest() == old(reader.Rest())[ReadBody(old(reader.Rest())).1..]
  {
    ghost var bs := reader.Rest();
    var header := reader.ReadExact(HEADER);
    if header == None { return Err(Io); }
    assert header.value[..4] == bs[..4] && header.value[4..8] == bs[4..8] && header.value[8..12] == bs[8..12];
    if header.value[..4] != MAGIC { return Err(InvalidMagic); }
    var version := FromLittleEndian(header.value[4..8]);
    if version != VERSION { return Err(UnsupportedVersion(version)); }
    var announced := FromLittleEndian(header.value[8..12]);
    if announced > MAX_BODY { return Err(MessageTooLarge(announced, MAX_BODY)); }
    var body := reader.ReadExact(announced);
    if body == None { return Err(Io); }
    assert bs[HEADER..][..announced] == bs[HEADER..HEADER + announced];
    assert bs[HEADER..][announced..] == bs[HEADER + announced..];
    var value := parse(body.value);
    if value.None? { return Err(InvalidJson); }
    return Ok(value.value);
  }

  function DecodeExact<T>(parse: Parser<T>, bs: Bytes): Result<T, Failure> {
    var (body, used) := ReadBody(bs);
    match Parsed(parse, body)
    case Err(e) => Err(e)
    case Ok(v) => if used != |bs| then Err(TrailingBytes) else Ok(v)
  }

  method DecodeBrokerMessageExact<T>(parse: Parser<T>, bytes: Bytes) returns (r: Result<T, Failure>)
    ensures r == DecodeExact(parse, bytes)
  {
    var cursor := new Reader(bytes);
    r := ReadBrokerMessage(parse, cursor);
    if r.Ok? && cursor.position != |bytes| {
      return Err(TrailingBytes);
    }
  }

  /** The reader thread of the timed variant, when it answers in time. */
  function DecodeBounded<T>(parse: Parser<T>, bs: Bytes): Result<T, Failure> {
    var cut := if |bs| > MAX_FRAME + 1 then bs[..MAX_FRAME + 1] else bs;
    if |cut| > MAX_FRAME then Err(MessageTooLarge(U32_MAX, MAX_BODY)) else DecodeExact(parse, cut)
  }

  // ---------------------------------------------------------------- writing

  lemma Appended(before: Bytes, version: Bytes, size: Bytes, body: Bytes)
    ensures before + MAGIC + version + size + body == before + (MAGIC + version + size + body)
  {
  }

  /** Nothing is written unless the whole frame is. */
  method WriteBrokerMessage<T>(serialize: Serializer<T>, writer: Writer, value: T) returns (r: Result<(), Failure>)
    modifies writer
    ensures serialize(value).None? ==> r == Err(Serialization)
    ensures serialize(value).Some? && |serialize(value).value| > MAX_BODY ==>
              r.Err? && r.error.MessageTooLarge? && r.error.maximum == MAX_BODY
              && r.error.announced
                 == (if |serialize(value).value| <= U32_MAX then |serialize(value).value| else U32_MAX)
    ensures r.Ok? <==> serialize(value).Some? && |serialize(value).value| <= MAX_BODY
    ensures writer.written == old(writer.written) + if r.Ok? then Frame(serialize(value).value) else []
  {
    var body := serialize(value);
    if body.None? { return Err(Serialization); }
    if |body.value| > MAX_BODY {
      return Err(MessageTooLarge(if |body.value| <= U32_MAX then |body.value| else U32_MAX, MAX_BODY));
    }
    var version, size := LittleEndian(VERSION, 4), LittleEndian(|body.value|, 4);
    writer.WriteAll(MAGIC);
    writer.WriteAll(version);
    writer.WriteAll(size);
    writer.WriteAll(body.value);
    Appended(old(writer.written), version, size, body.value);
    r := Ok(());
  }

  method EncodeBrokerMessage<T>(serialize: Serializer<T>, value: T) returns (r: Result<Bytes, Failure>)
    ensures r.Ok? <==> serialize(value).Some? && |serialize(value).value| <= MAX_BODY
    ensures r.Ok? ==> r.value == Frame(serialize(value).value)
  {
    var writer := new Writer();
    var w := WriteBrokerMessage(serialize, writer, value);
    if w.Err? { return Err(w.error); }
    r := Ok(writer.written);
  }

  // ---------------------------------------------------------------- what is accepted

  lemma HeaderOf(body: Bytes, rest: Bytes)
    ensures var bs := Frame(body) + rest;
            && |bs| == HEADER + |body| + |rest|
            && bs[..4] == MAGIC && bs[4..8] == LittleEndian(VERSION, 4) && bs[8..12] == LittleEndian(|body|, 4)
            && bs[HEADER..HEADER + |body|] == body && bs[HEADER + |body|..] == rest
  {
  }

  /** A frame is read to its last byte and no further. */
  lemma FrameReads(body: Bytes, rest: Bytes)
    requires |body| <= MAX_BODY
    ensures ReadBody(Frame(body) + rest) == (Ok(body), |Frame(body)|)
  {
    Pow256Values();
    HeaderOf(body, rest);
    LittleEndianRoundTrip(VERSION, 4);
    LittleEndianRoundTrip(|body|, 4);
  }

  lemma HeaderDetermines(header: Bytes, length: nat)
    requires |header| == HEADER && header[..4] == MAGIC
    requires FromLittleEndian(header[4..8]) == VERSION && FromLittleEndian(header[8..12]) == length
    ensures header == MAGIC + LittleEndian(VERSION, 4) + LittleEndian(length, 4)
  {
    LittleEndianOnto(header[4..8]);
    LittleEndianOnto(header[8..12]);
    assert header == header[..4] + header[4..8] + header[8..12];
  }

  /** Only frames are read successfully. */
  lemma ReadsOnlyFrames(bs: Bytes, body: Bytes, used: nat)
    requires ReadBody(bs) == (Ok(body), used)
    ensures |body| <= MAX_BODY && bs[..used] == Frame(body) && used == |Frame(body)|
  {
    assert bs[..HEADER][..4] == bs[..4] && bs[..HEADER][4..8] == bs[4..8] && bs[..HEADER][8..12] == bs[8..12];
    HeaderDetermines(bs[..HEADER], |body|);
    assert bs[..used] == bs[..HEADER] + bs[HEADER..used];
  }

  /** `decode_broker_message_exact` accepts exactly the frames of at most 64 KiB whose body parses. */
  lemma AcceptsExactlyFrames<T>(parse: Parser<T>, bs: Bytes, v: T)
    ensures DecodeExact(parse, bs) == Ok(v)
       <==> exists body :: |body| <= MAX_BODY && bs == Frame(body) && parse(body) == Some(v)
  {
    forall body | |body| <= MAX_BODY && bs == Frame(body) ensures ReadBody(bs) == (Ok(body), |bs|) {
      FrameReads(body, []);
      assert Frame(body) + [] == bs;
    }
    if DecodeExact(parse, bs) == Ok(v) {
      var body := ReadBody(bs).0.value;
      ReadsOnlyFrames(bs, body, |bs|);
      assert bs[..|bs|] == bs;
    }
  }

  /** What `encode_broker_message` produces is decoded to the value it was made from. */
  lemma DecodesEncoded<T>(serialize: Serializer<T>, parse: Parser<T>, v: T)
    requires serialize(v).Some? && |serialize(v).value| <= MAX_BODY && parse(serialize(v).value) == Some(v)
    ensures DecodeExact(parse, Frame(serialize(v).value)) == Ok(v)
  {
    AcceptsExactlyFrames(parse, Frame(serialize(v).value), v);
  }

  /** Cutting the stream one byte past the largest frame changes no accepted value, and only one error. */
  lemma BoundedAgrees<T>(parse: Parser<T>, bs: Bytes)
    ensures |bs| <= MAX_FRAME ==> DecodeBounded(parse, bs) == DecodeExact(parse, bs)
    ensures |bs| > MAX_FRAME ==>
              DecodeBounded(parse, bs) == Err(MessageTooLarge(U32_MAX, MAX_BODY)) && DecodeExact(parse, bs).Err?
  {
    if |bs| > MAX_FRAME && DecodeExact(parse, bs).Ok? {
      var body := ReadBody(bs).0.value;
      ReadsOnlyFrames(bs, body, |bs|);
      assert false;
    }
  }

  /** The number in four bytes, least significant first. */
  function Word(w: Bytes): nat
    requires |w| == 4
  {
    w[0] as int + 256 * (w[1] as int) + 65536 * (w[2] as int) + 16777216 * (w[3] as int)
  }

  lemma WordIs(w: Bytes)
    requires |w| == 4
    ensures FromLittleEndian(w) == Word(w)
  {
    assert w[1..][1..] == w[2..] && w[2..][1..] == w[3..] && w[3..][1..] == [];
    assert FromLittleEndian(w[2..]) == w[2] + 256 * FromLittleEndian(w[3..]);
    assert FromLittleEndian(w[1..]) == w[1] + 256 * FromLittleEndian(w[2..]);
  }

  /** Where the three fields of a header stand. */
  lemma Fields(magic: Bytes, version: Bytes, size: Bytes, rest: Bytes)
    requires |magic| == 4 && |version| == 4 && |size| == 4
    ensures var bs := magic + version + size + rest;
            bs[..4] == magic && bs[4..8] == version && bs[8..12] == size && bs[12..] == rest
  {
  }

  /**
   * The first field that is wrong decides the error: "MXBR", then the version, then the size, then the body that
   * should follow; if nothing is wrong the body is what the size says.
   */
  lemma FirstWrongField(magic: Bytes, version: Bytes, size: Bytes, rest: Bytes)
    requires |magic| == 4 && |version| == 4 && |size| == 4
    ensures ReadBody(magic + version + size + rest)
         == if magic != [77, 88, 66, 82] then (Err(InvalidMagic), 12)
            else if Word(version) != 1 then (Err(UnsupportedVersion(Word(version))), 12)
            else if Word(size) > 65536 then (Err(MessageTooLarge(Word(size), 65536)), 12)
            else if |rest| < Word(size) then (Err(Io), 12 + |rest|)
            else (Ok(rest[..Word(size)]), 12 + Word(size))
  {
    Fields(magic, version, size, rest);
    WordIs(version);
    WordIs(size);
    var bs := magic + version + size + rest;
    if |rest| >= Word(size) {
      assert bs[12..12 + Word(size)] == bs[12..][..Word(size)];
    }
  }

  /** Every stream either has such a header or ends within it. */
  lemma HeaderOrShort(bs: Bytes) returns (magic: Bytes, version: Bytes, size: Bytes, rest: Bytes)
    ensures |bs| < 12 ==> ReadBody(bs) == (Err(Io), |bs|)
    ensures |bs| >= 12 ==> |magic| == |version| == |size| == 4 && bs == magic + version + size + rest
  {
    if |bs| >= 12 {
      magic, version, size, rest := bs[..4], bs[4..8], bs[8..12], bs[12..];
      assert bs == bs[..4] + bs[4..8] + bs[8..12] + bs[12..];
    } else {
      magic, version, size, rest := [], [], [], [];
    }
  }

  /** A frame with bytes missing is an I/O error; with bytes added it is refused as trailing. */
  lemma FramesAreExact<T>(parse: Parser<T>, body: Bytes, k: nat, extra: Bytes)
    requires |body| <= MAX_BODY && k < |Frame(body)| && extra != []
    ensures DecodeExact(parse, Frame(body)[..k]) == Err(Io)
    ensures DecodeExact(parse, Frame(body) + extra)
            == if parse(body).Some? then Err(TrailingBytes) else Err(InvalidJson)
  {
    Pow256Values();
    var f := Frame(body);
    FrameReads(body, extra);
    if k >= HEADER {
      HeaderOf(body, []);
      assert f + [] == f;
      var cut := f[..k];
      assert cut[..4] == f[..4] && cut[4..8] == f[4..8] && cut[8..12] == f[8..12];
      LittleEndianRoundTrip(VERSION, 4);
      LittleEndianRoundTrip(|body|, 4);
    }
  }
}
