/** The length-prefixed frames of packages/finalize-fs/src/protocol.rs and the request loop over them. */
module SidecarFrames {
  import opened ByteStrings
  import opened Options
  import opened Streams

  const MAX_PAYLOAD: nat := 64 * 1024

  datatype Failure = InvalidData | UnexpectedEof

  function Frame(payload: Bytes): Bytes {
    LittleEndian(|payload|, 4) + payload
  }

  /** `None` is the end of the stream; otherwise the payload and the bytes used. */
  function ReadOne(bs: Bytes): (r: Result<Option<(Bytes, nat)>, Failure>)
    ensures r.Ok? && r.value.Some? ==> 4 <= r.value.value.1 <= |bs|
  {
    if |bs| < 4 then Ok(None)
    else
      var length := FromLittleEndian(bs[..4]);
      if length > MAX_PAYLOAD then Err(InvalidData)
      else if |bs| - 4 < length then Err(UnexpectedEof)
      else Ok(Some((bs[4..4 + length], 4 + length)))
  }

  method ReadFrame(input: Reader) returns (r: Result<Option<Bytes>, Failure>)
    requires input.Valid()
    modifies input
    ensures input.Valid()
    ensures match ReadOne(old(input.Rest()))
            case Err(e) => r == Err(e)
            case Ok(None) => r == Ok(None)
            case Ok(Some((payload, used))) => r == Ok(Some(payload)) && input.Rest() == old(input.Rest())[used..]
  {
    ghost var bs := input.Rest();
    var header := input.ReadExact(4);
    if header == None { return Ok(None); }
    var length := FromLittleEndian(header.value);
    if length > MAX_PAYLOAD { return Err(InvalidData); }
    var payload := input.ReadExact(length);
    if payload == None { return Err(UnexpectedEof); }
    assert bs[4..][..length] == bs[4..4 + length] && bs[4..][length..] == bs[4 + length..];
    r := Ok(Some(payload.value));
  }

  /** `write_frame` bounds the payload only by its 32-bit length field. */
  method WriteFrame(output: Writer, payload: Bytes) returns (ok: bool)
    modifies output
    ensures ok <==> |payload| < 0x1_0000_0000
    ensures output.written == old(output.written) + if ok then Frame(payload) else []
  {
    if |payload| >= 0x1_0000_0000 { return false; }
    output.WriteAll(LittleEndian(|payload|, 4));
    output.WriteAll(payload);
    ok := true;
  }

  // ---------------------------------------------------------------- sessions

  /** How a session over a whole stream ends. */
  datatype End = Closed | Failed(error: Failure)

  /** All payloads of a stream, in order, up to its end or its first failure. */
  function ReadAll(bs: Bytes): (seq<Bytes>, End)
    decreases |bs|
  {
    match ReadOne(bs)
    case Err(e) => ([], Failed(e))
    case Ok(None) => ([], Closed)
    case Ok(Some((payload, used))) =>
      var (payloads, end) := ReadAll(bs[used..]);
      ([payload] + payloads, end)
  }

  lemma OneMore(start: Bytes, handled: seq<Bytes>, rest: Bytes)
    requires ReadAll(start) == (handled + ReadAll(rest).0, ReadAll(rest).1)
    ensures ReadOne(rest).Err? ==> ReadAll(start) == (handled, Failed(ReadOne(rest).error))
    ensures ReadOne(rest) == Ok(None) ==> ReadAll(start) == (handled, Closed)
    ensures ReadOne(rest).Ok? && ReadOne(rest).value.Some? ==>
              var more := rest[ReadOne(rest).value.value.1..];
              ReadAll(start) == (handled + [ReadOne(rest).value.value.0] + ReadAll(more).0, ReadAll(more).1)
  {
    assert handled + [] == handled;
    if ReadOne(rest).Ok? && ReadOne(rest).value.Some? {
      var payload, more := ReadOne(rest).value.value.0, rest[ReadOne(rest).value.value.1..];
      assert handled + ([payload] + ReadAll(more).0) == handled + [payload] + ReadAll(more).0;
    }
  }

  /** The loop of packages/finalize-fs/src/main.rs, keeping what it hands to the state. */
  method Serve(input: Reader) returns (handled: seq<Bytes>, end: End)
    requires input.Valid()
    modifies input
    ensures (handled, end) == ReadAll(old(input.Rest()))
  {
    handled := [];
    ghost var start := input.Rest();
    var reading := true;
    end := Closed;
    assert [] + ReadAll(start).0 == ReadAll(start).0;
    while reading
      invariant input.Valid()
      invariant reading ==> ReadAll(start) == (handled + ReadAll(input.Rest()).0, ReadAll(input.Rest()).1)
      invariant !reading ==> (handled, end) == ReadAll(start)
      decreases reading, |input.bytes| - input.position
    {
      OneMore(start, handled, input.Rest());
      var frame := ReadFrame(input);
      match frame {
        case Err(e) =>
          reading, end := false, Failed(e);
        case Ok(None) =>
          reading, end := false, Closed;
        case Ok(Some(payload)) =>
          handled := handled + [payload];
      }
    }
  }

  function Written(payloads: seq<Bytes>): Bytes {
    if payloads == [] then [] else Frame(payloads[0]) + Written(payloads[1..])
  }

  lemma FrameReads(payload: Bytes, rest: Bytes)
    requires |payload| < 0x1_0000_0000
    ensures ReadOne(Frame(payload) + rest)
         == if |payload| <= MAX_PAYLOAD then Ok(Some((payload, |Frame(payload)|))) else Err(InvalidData)
    ensures (Frame(payload) + rest)[|Frame(payload)|..] == rest
  {
    Pow256Values();
    var bs := Frame(payload) + rest;
    assert bs[..4] == LittleEndian(|payload|, 4) && bs[4..4 + |payload|] == payload;
    LittleEndianRoundTrip(|payload|, 4);
  }

  lemma Associate(a: Bytes, b: Bytes, c: Bytes)
    ensures a + b + c == a + (b + c)
  {
  }

  lemma FirstFrame(p: Bytes, rest: Bytes)
    requires |p| <= MAX_PAYLOAD
    ensures ReadAll(Frame(p) + rest) == ([p] + ReadAll(rest).0, ReadAll(rest).1)
  {
    FrameReads(p, rest);
    assert (Frame(p) + rest)[|Frame(p)|..] == rest;
  }

  /** Payloads of up to 64 KiB come back in order, and reading goes on with what follows them. */
  lemma {:induction false} SessionReadsBack(payloads: seq<Bytes>, tail: Bytes)
    requires forall i :: 0 <= i < |payloads| ==> |payloads[i]| <= MAX_PAYLOAD
    ensures ReadAll(Written(payloads) + tail) == (payloads + ReadAll(tail).0, ReadAll(tail).1)
    decreases |payloads|
  {
    if payloads == [] {
      assert Written(payloads) + tail == tail && payloads + ReadAll(tail).0 == ReadAll(tail).0;
    } else {
      var p, ps := payloads[0], payloads[1..];
      var more := Written(ps) + tail;
      Associate(Frame(p), Written(ps), tail);
      FirstFrame(p, more);
      SessionReadsBack(ps, tail);
      Prepended(p, ps, ReadAll(more).0, ReadAll(tail).0);
      assert payloads == [p] + ps;
    }
  }

  lemma Prepended(p: Bytes, ps: seq<Bytes>, read: seq<Bytes>, last: seq<Bytes>)
    requires read == ps + last
    ensures [p] + read == [p] + ps + last
  {
  }

  /** A stream of complete frames ends cleanly after exactly its payloads. */
  lemma CompleteSession(payloads: seq<Bytes>)
    requires forall i :: 0 <= i < |payloads| ==> |payloads[i]| <= MAX_PAYLOAD
    ensures ReadAll(Written(payloads)) == (payloads, Closed)
  {
    SessionReadsBack(payloads, []);
    assert Written(payloads) + [] == Written(payloads) && payloads + [] == payloads;
  }

  lemma TruncatedFrame(p: Bytes, k: nat)
    requires |p| <= MAX_PAYLOAD && k < |Frame(p)|
    ensures ReadAll(Frame(p)[..k]) == ([], if k < 4 then Closed else Failed(UnexpectedEof))
  {
    if k >= 4 {
      Pow256Values();
      LittleEndianRoundTrip(|p|, 4);
      assert Frame(p)[..k][..4] == LittleEndian(|p|, 4);
    }
  }

  /** A truncated last frame never yields a payload: inside the header it is a clean end, later an error. */
  lemma TruncatedTail(payloads: seq<Bytes>, last: Bytes, k: nat)
    requires forall i :: 0 <= i < |payloads| ==> |payloads[i]| <= MAX_PAYLOAD
    requires |last| <= MAX_PAYLOAD && k < |Frame(last)|
    ensures ReadAll(Written(payloads) + Frame(last)[..k]) == (payloads, if k < 4 then Closed else Failed(UnexpectedEof))
  {
    SessionReadsBack(payloads, Frame(last)[..k]);
    TruncatedFrame(last, k);
    assert payloads + [] == payloads;
  }

  /** The writer's own frames above 64 KiB are refused by the reader, after everything before them. */
  lemma OversizeIsRefused(payloads: seq<Bytes>, big: Bytes, rest: Bytes)
    requires forall i :: 0 <= i < |payloads| ==> |payloads[i]| <= MAX_PAYLOAD
    requires MAX_PAYLOAD < |big| < 0x1_0000_0000
    ensures ReadAll(Written(payloads) + (Frame(big) + rest)) == (payloads, Failed(InvalidData))
  {
    SessionReadsBack(payloads, Frame(big) + rest);
    FrameReads(big, rest);
    assert payloads + [] == payloads;
  }

  /** The other way round: what was read is what the stream holds, frame after frame. */
  lemma {:induction false} ReadsOnlyFrames(bs: Bytes)
    ensures var (payloads, end) := ReadAll(bs);
            && Written(payloads) <= bs
            && (end == Closed ==> |bs| < |Written(payloads)| + 4)
            && forall i :: 0 <= i < |payloads| ==> |payloads[i]| <= MAX_PAYLOAD
    decreases |bs|
  {
    match ReadOne(bs)
    case Err(_) =>
    case Ok(None) =>
    case Ok(Some((payload, used))) =>
      ReadsOnlyFrames(bs[used..]);
      FrameStands(bs, payload, used);
      WrittenPrefix(payload, ReadAll(bs[used..]).0, bs, bs[used..]);
  }

  lemma FrameStands(bs: Bytes, payload: Bytes, used: nat)
    requires ReadOne(bs) == Ok(Some((payload, used)))
    ensures used <= |bs| && bs == Frame(payload) + bs[used..] && |payload| <= MAX_PAYLOAD
  {
    LittleEndianOnto(bs[..4]);
    assert bs[..used] == Frame(payload);
  }

  lemma WrittenPrefix(p: Bytes, ps: seq<Bytes>, bs: Bytes, rest: Bytes)
    requires bs == Frame(p) + rest && Written(ps) <= rest
    ensures Written([p] + ps) <= bs && |Written([p] + ps)| == |Frame(p)| + |Written(ps)|
  {
    assert ([p] + ps)[1..] == ps;
  }
}
