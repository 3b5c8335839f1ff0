/**
 Frames: a length, a type, flags, a request id and a payload
 (crates/tunnel-protocol/src/frame.rs, message.rs, datagram.rs and
 crates/tunnel-core/src/frame_io.rs).
 */
module Frames {
  import opened Prelude
  import opened Bytes
  import opened Streams

  // ---------------------------------------------------------------- message types

  datatype MessageType =
    | Hello | Auth | AuthOk | AuthFail
    | Ping | Pong
    | ConfigSnapshot | ConfigUpdate | ConfigAck | ConfigResync
    | OpenTcp | OpenOk | OpenFail | Close
    | UdpOpen | UdpClose
    | Stats | Health
    | Error

  function AsU16(t: MessageType): u16 {
    match t
    case Hello => 0x0001
    case Auth => 0x0002
    case AuthOk => 0x0003
    case AuthFail => 0x0004
    case Ping => 0x0010
    case Pong => 0x0011
    case ConfigSnapshot => 0x0020
    case ConfigUpdate => 0x0021
    case ConfigAck => 0x0022
    case ConfigResync => 0x0023
    case OpenTcp => 0x0030
    case OpenOk => 0x0031
    case OpenFail => 0x0032
    case Close => 0x0033
    case UdpOpen => 0x0040
    case UdpClose => 0x0041
    case Stats => 0x0050
    case Health => 0x0051
    case Error => 0x0060
  }

  /** The wire values, in the groups the protocol numbers them by. */
  lemma WireValues()
    ensures AsU16(Hello) == 1 && AsU16(Auth) == 2 && AsU16(AuthOk) == 3 && AsU16(AuthFail) == 4
    ensures AsU16(Ping) == 16 && AsU16(Pong) == 17
    ensures AsU16(ConfigSnapshot) == 32 && AsU16(ConfigUpdate) == 33
    ensures AsU16(ConfigAck) == 34 && AsU16(ConfigResync) == 35
    ensures AsU16(OpenTcp) == 48 && AsU16(OpenOk) == 49 && AsU16(OpenFail) == 50 && AsU16(Close) == 51
    ensures AsU16(UdpOpen) == 64 && AsU16(UdpClose) == 65
    ensures AsU16(Stats) == 80 && AsU16(Health) == 81 && AsU16(Error) == 96
  {
  }

  /** The type of a wire value: the one whose value it is, if there is one. */
  function FromU16(v: u16): (r: Option<MessageType>)
    ensures forall t :: r == Some(t) <==> AsU16(t) == v
  {
    if v == 0x0001 then Some(Hello)
    else if v == 0x0002 then Some(Auth)
    else if v == 0x0003 then Some(AuthOk)
    else if v == 0x0004 then Some(AuthFail)
    else if v == 0x0010 then Some(Ping)
    else if v == 0x0011 then Some(Pong)
    else if v == 0x0020 then Some(ConfigSnapshot)
    else if v == 0x0021 then Some(ConfigUpdate)
    else if v == 0x0022 then Some(ConfigAck)
    else if v == 0x0023 then Some(ConfigResync)
    else if v == 0x0030 then Some(OpenTcp)
    else if v == 0x0031 then Some(OpenOk)
    else if v == 0x0032 then Some(OpenFail)
    else if v == 0x0033 then Some(Close)
    else if v == 0x0040 then Some(UdpOpen)
    else if v == 0x0041 then Some(UdpClose)
    else if v == 0x0050 then Some(Stats)
    else if v == 0x0051 then Some(Health)
    else if v == 0x0060 then Some(Error)
    else None
  }

  // ---------------------------------------------------------------- frames

  const MinFrameLen: nat := 12
  const MaxFrameLen: nat := 4 * 1024 * 1024

  datatype Frame = Frame(messageType: MessageType, flags: u16, requestId: u64, payload: seq<byte>)

  datatype DecodeError =
    | LengthTooSmall(length: nat)
    | FrameTooLarge(length: nat)
    | UnknownMessage(ty: u16)

  datatype Decoded =
    | Incomplete
    | Complete(frame: Frame, consumed: nat)
    | Invalid(error: DecodeError)

  /** The bytes of a frame; the length is cut to 32 bits, as the cast in the source does. */
  function Encode(f: Frame): seq<byte> {
    Be((MinFrameLen + |f.payload|) % 0x1_0000_0000, 4)
    + Be(AsU16(f.messageType), 2) + Be(f.flags, 2) + Be(f.requestId, 8) + f.payload
  }

  function TryDecode(buf: seq<byte>): Decoded {
    if |buf| < 4 then Incomplete
    else
      var length := Value(buf[..4]);
      if length < MinFrameLen then Invalid(LengthTooSmall(length))
      else if length > MaxFrameLen then Invalid(FrameTooLarge(length))
      else if |buf| < 4 + length then Incomplete
      else DecodeBody(buf[..4 + length])
  }

  /** A whole frame, with its length. */
  function DecodeBody(buf: seq<byte>): Decoded
    requires |buf| >= 16
  {
    Widths();
    BeValue(buf[4..6]);
    BeValue(buf[6..8]);
    BeValue(buf[8..16]);
    match FromU16(Value(buf[4..6]))
    case None => Invalid(UnknownMessage(Value(buf[4..6])))
    case Some(t) => Complete(Frame(t, Value(buf[6..8]), Value(buf[8..16]), buf[16..]), |buf|)
  }

  lemma Widths()
    ensures Pow256(2) == 0x1_0000 && Pow256(4) == 0x1_0000_0000 && Pow256(8) == 0x1_0000_0000_0000_0000
  {
    assert Pow256(1) == 256 && Pow256(3) == 0x100_0000;
    assert Pow256(5) == 0x100_0000_0000 && Pow256(6) == 0x1_0000_0000_0000 && Pow256(7) == 0x100_0000_0000_0000;
  }

  // ---------------------------------------------------------------- byte by byte

  /**
   The decoder, byte by byte and with the limits as numbers. A bad length is refused as soon as
   its four bytes are there; anything else waits for the whole frame.
   */
  lemma DecodeExactly(buf: seq<byte>)
    ensures |buf| < 4 ==> TryDecode(buf) == Incomplete
    ensures |buf| >= 4 && U32(buf, 0) < 12 ==> TryDecode(buf) == Invalid(LengthTooSmall(U32(buf, 0)))
    ensures |buf| >= 4 && U32(buf, 0) > 4194304 ==> TryDecode(buf) == Invalid(FrameTooLarge(U32(buf, 0)))
    ensures |buf| >= 4 && 12 <= U32(buf, 0) <= 4194304 && |buf| < 4 + U32(buf, 0) ==> TryDecode(buf) == Incomplete
    ensures |buf| >= 4 && 12 <= U32(buf, 0) <= 4194304 && |buf| >= 4 + U32(buf, 0) ==>
      BodyExactly(buf, U32(buf, 0), TryDecode(buf))
  {
    if |buf| >= 4 {
      Value4(buf[..4]);
      if 12 <= U32(buf, 0) <= 4194304 && |buf| >= 4 + U32(buf, 0) {
        BodyFields(buf, U32(buf, 0));
      }
    }
  }

  /** A frame of `length` at the front of `buf`: type, flags, request id and payload at their places. */
  ghost predicate BodyExactly(buf: seq<byte>, length: nat, d: Decoded)
    requires 12 <= length && |buf| >= 4 + length
  {
    if exists t :: AsU16(t) == U16(buf, 4) then
      && d.Complete? && d.consumed == 4 + length
      && AsU16(d.frame.messageType) == U16(buf, 4) && d.frame.flags == U16(buf, 6)
      && d.frame.requestId == U64(buf, 8) && d.frame.payload == buf[16..4 + length]
    else d == Invalid(UnknownMessage(U16(buf, 4)))
  }

  lemma BodyFields(buf: seq<byte>, length: nat)
    requires 12 <= length && |buf| >= 4 + length
    ensures BodyExactly(buf, length, DecodeBody(buf[..4 + length]))
  {
    var b := buf[..4 + length];
    Value2(b[4..6]);
    Value2(b[6..8]);
    Value8(b[8..16]);
  }

  /** At most four mebibytes and the length are ever waited for. */
  lemma BoundedBuffering(buf: seq<byte>)
    requires TryDecode(buf) == Incomplete
    ensures |buf| < 4 + 4194304
  {
    DecodeExactly(buf);
  }

  /** What is decided stays decided when more bytes come. */
  lemma DecodeStable(buf: seq<byte>, more: seq<byte>)
    requires TryDecode(buf) != Incomplete
    ensures TryDecode(buf + more) == TryDecode(buf)
  {
    assert (buf + more)[..4] == buf[..4];
    var length := Value(buf[..4]);
    if MinFrameLen <= length <= MaxFrameLen {
      assert (buf + more)[..4 + length] == buf[..4 + length];
    }
  }

  /** Decoding is canonical: the bytes consumed are the encoding of what was decoded. */
  lemma DecodeCanonical(buf: seq<byte>)
    requires TryDecode(buf).Complete?
    ensures TryDecode(buf).consumed <= |buf|
    ensures Encode(TryDecode(buf).frame) == buf[..TryDecode(buf).consumed]
  {
    var b := buf[..4 + Value(buf[..4])];
    assert b[..4] == buf[..4];
    EncodeBody(b);
  }

  lemma EncodeBody(b: seq<byte>)
    requires |b| >= 16 && Value(b[..4]) == |b| - 4 && DecodeBody(b).Complete?
    ensures Encode(DecodeBody(b).frame) == b
  {
    var f := DecodeBody(b).frame;
    LengthField(b[..4], |b| - 4);
    BeValue(b[4..6]);
    BeValue(b[6..8]);
    BeValue(b[8..16]);
    EncodeIs(f, b[..4], b[4..6], b[6..8], b[8..16]);
    Sections(b);
  }

  lemma EncodeIs(f: Frame, length: seq<byte>, ty: seq<byte>, flags: seq<byte>, id: seq<byte>)
    requires length == Be((MinFrameLen + |f.payload|) % 0x1_0000_0000, 4) && ty == Be(AsU16(f.messageType), 2)
    requires flags == Be(f.flags, 2) && id == Be(f.requestId, 8)
    ensures Encode(f) == length + ty + flags + id + f.payload
  {
  }

  lemma Sections(b: seq<byte>)
    requires |b| >= 16
    ensures b[..4] + b[4..6] + b[6..8] + b[8..16] + b[16..] == b
  {
  }

  lemma LengthField(s: seq<byte>, n: nat)
    requires |s| == 4 && Value(s) == n
    ensures Be(n % 0x1_0000_0000, 4) == s
  {
    BeValue(s);
    Widths();
    assert n % 0x1_0000_0000 == n;
  }

  predicate Fits(f: Frame) {
    MinFrameLen + |f.payload| <= MaxFrameLen
  }

  /** The bytes spell the frame field by field, the length cut to 32 bits. */
  ghost predicate Spells(b: seq<byte>, f: Frame) {
    && |b| == 16 + |f.payload|
    && Value(b[..4]) == (MinFrameLen + |f.payload|) % 0x1_0000_0000
    && Value(b[4..6]) == AsU16(f.messageType) && Value(b[6..8]) == f.flags
    && Value(b[8..16]) == f.requestId && b[16..] == f.payload
  }

  lemma EncodeParts(f: Frame)
    ensures Spells(Encode(f), f)
  {
    var b := Encode(f);
    var len := (MinFrameLen + |f.payload|) % 0x1_0000_0000;
    Widths();
    ValueBe(len, 4);
    ValueBe(AsU16(f.messageType), 2);
    ValueBe(f.flags, 2);
    ValueBe(f.requestId, 8);
    assert b[..4] == Be(len, 4);
    assert b[4..6] == Be(AsU16(f.messageType), 2);
    assert b[6..8] == Be(f.flags, 2);
    assert b[8..16] == Be(f.requestId, 8);
  }

  lemma DecodeSpelled(b: seq<byte>, f: Frame, rest: seq<byte>)
    requires Spells(b, f)
    ensures TryDecode(b + rest) == Complete(f, |b|) <==> Fits(f)
  {
    if Fits(f) {
      assert b[..|b|] == b;
      assert DecodeBody(b) == Complete(f, |b|);
      DecodeStable(b, rest);
    } else if TryDecode(b + rest).Complete? {
      assert (b + rest)[..4] == b[..4];
    }
  }

  /** A frame comes back from its bytes if and only if it is within the size limit. */
  lemma RoundTrip(f: Frame, rest: seq<byte>)
    ensures TryDecode(Encode(f) + rest) == Complete(f, |Encode(f)|) <==> Fits(f)
  {
    EncodeParts(f);
    DecodeSpelled(Encode(f), f, rest);
  }

  function EncodeAll(fs: seq<Frame>): seq<byte> {
    if fs == [] then [] else Encode(fs[0]) + EncodeAll(fs[1..])
  }

  /** The frames at the front of a byte sequence, and what stops the decoding. */
  datatype DecodeRun = DecodeRun(frames: seq<Frame>, stop: Decoded)

  function DecodeAll(buf: seq<byte>): DecodeRun
    decreases |buf|
  {
    match TryDecode(buf)
    case Complete(f, n) => Prepend([f], DecodeAll(buf[n..]))
    case stop => DecodeRun([], stop)
  }

  function Prepend(fs: seq<Frame>, run: DecodeRun): DecodeRun {
    DecodeRun(fs + run.frames, run.stop)
  }

  /** One step of the decoding, after the frames `fs`. */
  lemma DecodeStep(fs: seq<Frame>, buf: seq<byte>)
    ensures var d := TryDecode(buf);
      if d.Complete? then
        d.consumed <= |buf| && Prepend(fs, DecodeAll(buf)) == Prepend(fs + [d.frame], DecodeAll(buf[d.consumed..]))
      else Prepend(fs, DecodeAll(buf)) == DecodeRun(fs, d)
  {
    if TryDecode(buf).Complete? {
      DecodeUnfold(buf);
      PrependAll(fs, [TryDecode(buf).frame], DecodeAll(buf[TryDecode(buf).consumed..]));
    }
  }

  lemma DecodeUnfold(buf: seq<byte>)
    requires TryDecode(buf).Complete?
    ensures TryDecode(buf).consumed <= |buf|
    ensures DecodeAll(buf) == Prepend([TryDecode(buf).frame], DecodeAll(buf[TryDecode(buf).consumed..]))
  {
  }

  lemma DecodeFirst(fs: seq<Frame>, rest: seq<byte>)
    requires fs != [] && Fits(fs[0])
    ensures DecodeAll(EncodeAll(fs) + rest) == Prepend([fs[0]], DecodeAll(EncodeAll(fs[1..]) + rest))
  {
    var e, tail := Encode(fs[0]), EncodeAll(fs[1..]) + rest;
    assert EncodeAll(fs) + rest == e + tail;
    RoundTrip(fs[0], tail);
    assert (e + tail)[|e|..] == tail;
  }

  lemma PrependAll(fs: seq<Frame>, gs: seq<Frame>, run: DecodeRun)
    ensures Prepend(fs, Prepend(gs, run)) == Prepend(fs + gs, run)
  {
    assert fs + (gs + run.frames) == fs + gs + run.frames;
  }

  /** Frames written one after the other come back one after the other, to the last byte. */
  lemma {:induction false} StreamRoundTrip(fs: seq<Frame>, rest: seq<byte>)
    requires forall i | 0 <= i < |fs| :: Fits(fs[i])
    ensures DecodeAll(EncodeAll(fs) + rest) == Prepend(fs, DecodeAll(rest))
  {
    if fs == [] {
      assert EncodeAll(fs) + rest == rest;
    } else {
      DecodeFirst(fs, rest);
      StreamRoundTrip(fs[1..], rest);
      PrependAll([fs[0]], fs[1..], DecodeAll(rest));
      assert fs == [fs[0]] + fs[1..];
    }
  }

  /** Whatever the network does to the bytes of some frames, the frames are what is decoded. */
  lemma WrittenThenRead(fs: seq<Frame>, arrivals: seq<seq<byte>>)
    requires forall i | 0 <= i < |fs| :: Fits(fs[i])
    requires Join(arrivals) == EncodeAll(fs)
    ensures DecodeAll(Join(arrivals)) == DecodeRun(fs, Incomplete)
  {
    StreamRoundTrip(fs, []);
    assert EncodeAll(fs) + [] == EncodeAll(fs);
    assert fs + [] == fs;
  }

  // ---------------------------------------------------------------- reading from a stream

  datatype ReadError = Io | BadLength(length: nat) | BodyShort | Decode(error: DecodeError) | Truncated

  /**
   Reads one frame. On the stream's bytes this is the decoder: the same frame with the same
   bytes left; an error for what the decoder refuses, for a bad length with nothing but that
   length consumed; and where the decoder would wait, the end of the stream is a clean close
   only within the length.
   */
  method ReadFrame(stream: ByteStream) returns (r: Result<Option<Frame>, ReadError>)
    requires stream.Valid()
    modifies stream
    ensures stream.Valid()
    ensures var all := old(Join(stream.arrivals));
      match TryDecode(all)
      case Complete(f, n) => n <= |all| && r == Ok(Some(f)) && Join(stream.arrivals) == all[n..]
      case Invalid(e) =>
        if e.UnknownMessage? then
          4 + U32(all, 0) <= |all| && r == Err(Decode(e)) && Join(stream.arrivals) == all[4 + U32(all, 0)..]
        else |all| >= 4 && r == Err(BadLength(e.length)) && Join(stream.arrivals) == all[4..]
      case Incomplete =>
        && r == (if stream.broken then Err(Io) else if |all| < 4 then Ok(None) else Err(BodyShort))
        && stream.arrivals == []
  {
    ghost var all := Join(stream.arrivals);
    var head := stream.ReadExact(4);
    if |all| >= 4 {
      Value4(all[..4]);
    }
    match head {
      case Short =>
        return Ok(None);
      case Failure =>
        return Err(Io);
      case Whole(lenBuf) =>
        var len := Value(lenBuf);
        assert lenBuf == all[..4];
        if !(MinFrameLen <= len <= MaxFrameLen) {
          return Err(BadLength(len));
        }
        assert lenBuf + all[4..] == all;
        WholeFrame(lenBuf, all[4..]);
        r := ReadBody(stream, lenBuf);
    }
  }

  /** The part after a good length. */
  method ReadBody(stream: ByteStream, lenBuf: seq<byte>) returns (r: Result<Option<Frame>, ReadError>)
    requires stream.Valid() && |lenBuf| == 4 && MinFrameLen <= Value(lenBuf) <= MaxFrameLen
    modifies stream
    ensures stream.Valid()
    ensures var len, rest := Value(lenBuf), old(Join(stream.arrivals));
      if len <= |rest| then
        r == ResultOf(TryDecode(lenBuf + rest[..len])) && Join(stream.arrivals) == rest[len..]
      else r == (if stream.broken then Err(Io) else Err(BodyShort)) && stream.arrivals == []
  {
    var body := stream.ReadExact(Value(lenBuf));
    match body {
      case Short =>
        return Err(BodyShort);
      case Failure =>
        return Err(Io);
      case Whole(bytes) =>
        var d := TryDecode(lenBuf + bytes);
        r := ResultOf(d);
    }
  }

  function ResultOf(d: Decoded): Result<Option<Frame>, ReadError> {
    match d
    case Complete(f, _) => Ok(Some(f))
    case Invalid(e) => Err(Decode(e))
    case Incomplete => Err(Truncated)
  }

  /** Behind a good length the decoder sees only the frame. */
  lemma WholeFrame(lenBuf: seq<byte>, rest: seq<byte>)
    requires |lenBuf| == 4 && MinFrameLen <= Value(lenBuf) <= MaxFrameLen
    ensures var len := Value(lenBuf);
      if len <= |rest| then
        var d := TryDecode(lenBuf + rest[..len]);
        && TryDecode(lenBuf + rest) == d && d != Incomplete
        && (d.Complete? ==> d.consumed == 4 + len) && (d.Invalid? ==> d.error.UnknownMessage?)
      else TryDecode(lenBuf + rest) == Incomplete
  {
    var len, all := Value(lenBuf), lenBuf + rest;
    assert all[..4] == lenBuf;
    if len <= |rest| {
      var full := lenBuf + rest[..len];
      assert full[..4] == lenBuf && full[..4 + len] == full && all[..4 + len] == full;
    }
  }

  lemma {:induction false} EncodeAppend(fs: seq<Frame>, f: Frame)
    ensures EncodeAll(fs + [f]) == EncodeAll(fs) + Encode(f)
  {
    var gs := fs + [f];
    if fs == [] {
      assert gs[1..] == [];
    } else {
      assert gs[1..] == fs[1..] + [f];
      EncodeAppend(fs[1..], f);
    }
  }

  /** What one more frame leaves to read. */
  lemma ReadOne(fs: seq<Frame>, buf: seq<byte>)
    requires TryDecode(buf).Complete?
    ensures TryDecode(buf).consumed <= |buf|
    ensures EncodeAll(fs) + buf == EncodeAll(fs + [TryDecode(buf).frame]) + buf[TryDecode(buf).consumed..]
  {
    var f, n := TryDecode(buf).frame, TryDecode(buf).consumed;
    DecodeCanonical(buf);
    EncodeAppend(fs, f);
    assert buf == Encode(f) + buf[n..];
  }

  /**
   Reads frames until the stream ends, as a control loop does that nothing interrupts. The end
   counts as clean even when up to three bytes of another frame were lost with it.
   */
  method ReadFrames(stream: ByteStream) returns (fs: seq<Frame>, clean: bool)
    requires stream.Valid()
    modifies stream
    ensures fs == DecodeAll(old(Join(stream.arrivals))).frames
    ensures EncodeAll(fs) <= old(Join(stream.arrivals))
    ensures clean <==> !stream.broken && |old(Join(stream.arrivals))| < |EncodeAll(fs)| + 4
  {
    fs := [];
    ghost var all := Join(stream.arrivals);
    while true
      invariant stream.Valid()
      invariant DecodeAll(all) == Prepend(fs, DecodeAll(Join(stream.arrivals)))
      invariant all == EncodeAll(fs) + Join(stream.arrivals)
      decreases |Join(stream.arrivals)|
    {
      ghost var buf := Join(stream.arrivals);
      DecodeStep(fs, buf);
      if TryDecode(buf).Complete? {
        ReadOne(fs, buf);
      }
      var r := ReadFrame(stream);
      match r {
        case Ok(Some(f)) =>
          fs := fs + [f];
        case Ok(None) =>
          return fs, true;
        case Err(_) =>
          return fs, false;
      }
    }
  }

  // ---------------------------------------------------------------- datagrams

  datatype Datagram = Datagram(flags: u16, sessionId: u64, payload: seq<byte>)

  const DatagramHeader: nat := 10

  function EncodeDatagram(sessionId: u64, payload: seq<byte>): seq<byte> {
    Be(0, 2) + Be(sessionId, 8) + payload
  }

  function DecodeDatagram(data: seq<byte>): Option<Datagram> {
    if |data| < DatagramHeader then None
    else
      Widths();
      BeValue(data[..2]);
      BeValue(data[2..10]);
      Some(Datagram(Value(data[..2]), Value(data[2..10]), data[10..]))
  }

  /** A datagram comes back whole. */
  lemma DatagramRoundTrip(id: u64, payload: seq<byte>)
    ensures DecodeDatagram(EncodeDatagram(id, payload)) == Some(Datagram(0, id, payload))
  {
    Widths();
    ValueBe(0, 2);
    ValueBe(id, 8);
    var e := EncodeDatagram(id, payload);
    assert e[..2] == Be(0, 2) && e[2..10] == Be(id, 8) && e[10..] == payload;
  }

  /** Every datagram without flags is the encoding of what it decodes to. */
  lemma DatagramCanonical(data: seq<byte>)
    requires DecodeDatagram(data).Some? && DecodeDatagram(data).value.flags == 0
    ensures var d := DecodeDatagram(data).value; data == EncodeDatagram(d.sessionId, d.payload)
  {
    Rebuild(data[..2], data[2..10], data[10..]);
    assert data == data[..2] + data[2..10] + data[10..];
  }

  lemma Rebuild(flags: seq<byte>, id: seq<byte>, payload: seq<byte>)
    requires |flags| == 2 && |id| == 8
    ensures Be(Value(flags), 2) + Be(Value(id), 8) + payload == flags + id + payload
  {
    BeValue(flags);
    BeValue(id);
  }

  /** A datagram byte by byte: two of flags, eight of the session id, and the payload. */
  lemma DatagramExactly(data: seq<byte>)
    ensures DecodeDatagram(data).Some? <==> |data| >= 10
    ensures |data| >= 10 ==> DecodeDatagram(data) == Some(Datagram(U16(data, 0), U64(data, 2), data[10..]))
  {
    if |data| >= 10 {
      Value2(data[..2]);
      Value8(data[2..10]);
    }
  }
}
