/**
 Frames read by a control loop that may give up a read half way.

 Both ends of a control stream read frames in one branch of a select (server/src/quic.rs,
 agent/src/session.rs). When another branch is taken, the read in progress is dropped, and with
 it the bytes it has consumed so far; the next read begins where it stopped.
 */
module CancelledReads {
  import opened Prelude
  import opened Bytes
  import opened Streams
  import opened Frames

  /** What becomes of one read: it finishes, or it is dropped after it consumed some bytes. */
  datatype Turn = Finish | Cancel(consumed: nat)

  /** The reads of the loop, as far as the stream goes; a read that finds no frame is the last. */
  ghost predicate Possible(buf: seq<byte>, turns: seq<Turn>)
    decreases |turns|
  {
    turns != [] ==>
      match turns[0]
      case Cancel(c) => c <= |buf| && Possible(buf[c..], turns[1..])
      case Finish =>
        var d := TryDecode(buf);
        if d.Complete? then d.consumed <= |buf| && Possible(buf[d.consumed..], turns[1..]) else turns[1..] == []
  }

  /** The frames the loop sees, if after these turns nothing interrupts it any more. */
  function Seen(buf: seq<byte>, turns: seq<Turn>): seq<Frame>
    decreases |turns|
  {
    if turns == [] then DecodeAll(buf).frames
    else
      match turns[0]
      case Cancel(c) => if c <= |buf| then Seen(buf[c..], turns[1..]) else []
      case Finish =>
        match TryDecode(buf)
        case Complete(f, n) => if n <= |buf| then [f] + Seen(buf[n..], turns[1..]) else []
        case _ => []
  }

  /** The bytes lost with reads that were dropped. */
  function Lost(turns: seq<Turn>): nat {
    if turns == [] then 0
    else (if turns[0].Cancel? then turns[0].consumed else 0) + Lost(turns[1..])
  }

  /** One turn: the frame it yields, if any, and whether the loop goes on. */
  method TakeTurn(stream: ByteStream, turn: Turn) returns (f: Option<Frame>, more: bool)
    requires stream.Valid() && (turn.Cancel? ==> turn.consumed <= |Join(stream.arrivals)|)
    modifies stream
    ensures stream.Valid()
    ensures turn.Cancel? ==> f == None && more && Join(stream.arrivals) == old(Join(stream.arrivals))[turn.consumed..]
    ensures turn.Finish? ==>
      var d := TryDecode(old(Join(stream.arrivals)));
      && (more <==> d.Complete?) && (f.Some? <==> d.Complete?)
      && (d.Complete? ==>
            && f == Some(d.frame) && d.consumed <= |old(Join(stream.arrivals))|
            && Join(stream.arrivals) == old(Join(stream.arrivals))[d.consumed..])
  {
    match turn {
      case Cancel(c) =>
        var _ := stream.ReadExact(c);
        return None, true;
      case Finish =>
        var r := ReadFrame(stream);
        match r {
          case Ok(Some(frame)) =>
            return Some(frame), true;
          case Ok(None) =>
            return None, false;
          case Err(_) =>
            return None, false;
        }
    }
  }

  /** What is seen, one turn at a time. */
  lemma SeenNext(buf: seq<byte>, turns: seq<Turn>)
    requires turns != [] && Possible(buf, turns)
    ensures match turns[0]
            case Cancel(c) =>
              && c <= |buf| && Possible(buf[c..], turns[1..])
              && Seen(buf, turns) == Seen(buf[c..], turns[1..])
            case Finish =>
              var d := TryDecode(buf);
              if d.Complete? then
                && d.consumed <= |buf| && Possible(buf[d.consumed..], turns[1..])
                && Seen(buf, turns) == [d.frame] + Seen(buf[d.consumed..], turns[1..])
              else Seen(buf, turns) == []
  {
  }

  /** The loop, on a stream that arrives in any chunks. */
  method ReadWithTurns(stream: ByteStream, turns: seq<Turn>) returns (fs: seq<Frame>)
    requires stream.Valid() && Possible(Join(stream.arrivals), turns)
    modifies stream
    ensures fs == Seen(old(Join(stream.arrivals)), turns)
  {
    fs := [];
    ghost var all := Seen(Join(stream.arrivals), turns);
    for i := 0 to |turns|
      invariant stream.Valid() && Possible(Join(stream.arrivals), turns[i..])
      invariant all == fs + Seen(Join(stream.arrivals), turns[i..])
    {
      assert turns[i..][1..] == turns[i + 1..];
      SeenNext(Join(stream.arrivals), turns[i..]);
      var f, more := TakeTurn(stream, turns[i]);
      if !more {
        return;
      }
      if f.Some? {
        fs := fs + [f.value];
      }
    }
    assert turns[|turns|..] == [];
    var rest, _ := ReadFrames(stream);
    fs := fs + rest;
  }

  // ---------------------------------------------------------------- nothing lost

  /** Reads dropped before they consumed anything do no harm, whatever the bytes. */
  lemma {:induction false} NothingLost(buf: seq<byte>, turns: seq<Turn>)
    requires Possible(buf, turns) && Lost(turns) == 0
    ensures Seen(buf, turns) == DecodeAll(buf).frames
    decreases |turns|
  {
    if turns != [] {
      match turns[0] {
        case Cancel(c) =>
          assert buf[c..] == buf;
          NothingLost(buf, turns[1..]);
        case Finish =>
          if TryDecode(buf).Complete? {
            NothingLost(buf[TryDecode(buf).consumed..], turns[1..]);
          }
      }
    }
  }

  // ---------------------------------------------------------------- conservation

  /** The frames of a byte sequence are no longer than it. */
  lemma {:induction false} DecodedFits(buf: seq<byte>)
    ensures |EncodeAll(DecodeAll(buf).frames)| <= |buf|
    decreases |buf|
  {
    if TryDecode(buf).Complete? {
      DecodeCanonical(buf);
      var d := TryDecode(buf);
      var rest := DecodeAll(buf[d.consumed..]).frames;
      DecodedFits(buf[d.consumed..]);
      assert ([d.frame] + rest)[1..] == rest;
    }
  }

  /** What is seen and what is lost come out of the same bytes. */
  lemma {:induction false} Conservation(buf: seq<byte>, turns: seq<Turn>)
    requires Possible(buf, turns)
    ensures |EncodeAll(Seen(buf, turns))| + Lost(turns) <= |buf|
    decreases |turns|
  {
    if turns == [] {
      DecodedFits(buf);
    } else {
      match turns[0] {
        case Cancel(c) => Conservation(buf[c..], turns[1..]);
        case Finish =>
          if TryDecode(buf).Complete? {
            DecodeCanonical(buf);
            var d := TryDecode(buf);
            var rest := Seen(buf[d.consumed..], turns[1..]);
            Conservation(buf[d.consumed..], turns[1..]);
            assert ([d.frame] + rest)[1..] == rest;
          }
      }
    }
  }

  /**
   Exactly: of frames written whole, the loop sees all and only those written if and only if no
   read is dropped inside a frame, that is after it consumed anything.
   */
  lemma SeenExactly(fs: seq<Frame>, turns: seq<Turn>)
    requires forall i | 0 <= i < |fs| :: Fits(fs[i])
    requires Possible(EncodeAll(fs), turns)
    ensures Seen(EncodeAll(fs), turns) == fs <==> Lost(turns) == 0
  {
    var buf := EncodeAll(fs);
    if Lost(turns) == 0 {
      NothingLost(buf, turns);
      StreamRoundTrip(fs, []);
      assert buf + [] == buf && fs + [] == fs;
    }
    Conservation(buf, turns);
  }

  // ---------------------------------------------------------------- unfinished streams

  /** On any bytes, what is seen can be all frames only if the loss is made up for by bytes after them. */
  lemma SeenBound(buf: seq<byte>, turns: seq<Turn>)
    requires Possible(buf, turns) && Seen(buf, turns) == DecodeAll(buf).frames
    ensures |EncodeAll(DecodeAll(buf).frames)| + Lost(turns) <= |buf|
  {
    Conservation(buf, turns);
  }

  /** A ping whose payload is the beginning of its own encoding. */
  predicate IsEcho(f: Frame) {
    f.messageType == Ping && f.flags == 0 && f.payload == [0, 0, 0, 16]
  }

  lemma {:induction false} BeZero(width: nat, n: nat)
    requires n == 0
    ensures Be(n, width) == seq(width, _ => 0)
    decreases width
  {
    if width > 0 {
      BeZero(width - 1, n / 256);
    }
  }

  lemma BeLow(n: nat, width: nat)
    requires n < 256 && width > 0
    ensures Be(n, width) == seq(width - 1, _ => 0) + [n]
  {
    BeZero(width - 1, n / 256);
  }

  /** The fields in front of the payload. */
  lemma EchoFields(f: Frame) returns (length: seq<byte>, ty: seq<byte>, flags: seq<byte>, id: seq<byte>)
    requires IsEcho(f)
    ensures |length| == 4 && |ty| == 2 && |flags| == 2 && |id| == 8
    ensures length == f.payload && ty == [0, 16] && flags == [0, 0]
    ensures Encode(f) == length + ty + flags + id + f.payload
  {
    var n := (MinFrameLen + |f.payload|) % 0x1_0000_0000;
    length, ty, flags, id := Be(n, 4), Be(AsU16(f.messageType), 2), Be(f.flags, 2), Be(f.requestId, 8);
    BeLow(n, 4);
    BeLow(AsU16(f.messageType), 2);
    BeZero(2, f.flags);
  }

  /** What follows the first echo is the beginning of a frame of a mebibyte. */
  lemma EchoTail(rest: seq<byte>)
    requires |rest| == 16 && rest[..4] == [0, 16, 0, 0]
    ensures TryDecode(rest) == Incomplete
  {
    var s: seq<byte> := rest[..4];
    assert s[..3] == [0, 16, 0] && s[..3][..2] == [0, 16];
    assert s[..3][..2][..1] == [0] && s[..3][..2][..1][..0] == [];
    assert Value(s[..3][..2][..1]) == 0;
    assert Value(s[..3][..2]) == 16;
    assert Value(s[..3]) == 4096;
    assert Value(s) == 0x10_0000;
  }

  /** Such a frame, in terms of its fields: the length is the payload, and the others no complete frame. */
  ghost predicate EchoesItself(f: Frame, head: seq<byte>) {
    && Fits(f) && |head| == 16 && Encode(f) == head + f.payload
    && head[..4] == f.payload && TryDecode(head[4..] + f.payload) == Incomplete
  }

  lemma EchoEchoes(f: Frame) returns (head: seq<byte>)
    requires IsEcho(f)
    ensures EchoesItself(f, head)
  {
    var length, ty, flags, id := EchoFields(f);
    head := length + ty + flags + id;
    Slots(length, ty, flags, id, f.payload);
    EchoTail(head[4..] + f.payload);
  }

  lemma Slots(length: seq<byte>, ty: seq<byte>, flags: seq<byte>, id: seq<byte>, payload: seq<byte>)
    requires |length| == 4 && |ty| == 2 && |flags| == 2
    ensures var head := length + ty + flags + id;
      head[..4] == length && (head[4..] + payload)[..4] == ty + flags
  {
  }

  /**
   So the loss of an unfinished stream can go unnoticed: the first 16 bytes are lost inside a
   frame, and what follows reads as that same frame.
   */
  lemma LossUnnoticed(f: Frame, head: seq<byte>)
    requires EchoesItself(f, head)
    ensures var buf, turns := head + Encode(f), [Cancel(16)];
      && Possible(buf, turns) && Lost(turns) == 16
      && DecodeAll(buf).frames == [f] && Seen(buf, turns) == [f]
  {
    var buf, turns, rest := head + Encode(f), [Cancel(16)], head[4..] + f.payload;
    Overlap(head, f.payload, Encode(f));
    FirstOnly(f, rest);
    FirstOnly(f, []);
    assert buf[16..] == Encode(f) + [];
    assert turns[1..] == [];
    assert Lost(turns) == 16 + Lost([]);
  }

  lemma Overlap(head: seq<byte>, payload: seq<byte>, e: seq<byte>)
    requires |head| >= 4 && head[..4] == payload && e == head + payload
    ensures head + e == e + (head[4..] + payload)
  {
    assert head == payload + head[4..];
  }

  lemma FirstOnly(f: Frame, rest: seq<byte>)
    requires Fits(f) && TryDecode(rest) == Incomplete
    ensures DecodeAll(Encode(f) + rest).frames == [f]
  {
    StreamRoundTrip([f], rest);
    assert EncodeAll([f]) == Encode(f) by {
      assert [f][1..] == [];
    }
    assert DecodeAll(rest).frames == [];
  }
}
