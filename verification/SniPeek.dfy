/**
 Peeking at the server name of a connection, and giving the bytes back
 (server/src/tls_passthrough.rs).
 */
module SniPeek {
  import opened Prelude
  import opened Bytes
  import opened Streams
  import opened ClientHello

  const MaxPeek: nat := 16384
  const ReadBuffer: nat := 8192

  datatype Peeked =
    | Peeked(sni: Option<seq<byte>>, prefix: seq<byte>, rest: seq<seq<byte>>)
    | PeekFailed

  function NameOf(s: Sni): Option<seq<byte>> {
    match s
    case Found(name) => Some(name)
    case _ => None
  }

  /** The peek of a stream of which `buf` was read already. */
  ghost function Peek(buf: seq<byte>, arrivals: seq<seq<byte>>, broken: bool): Peeked
    requires Chunked(arrivals)
    decreases |Join(arrivals)|
  {
    if !SniOf(buf).NeedMore? || |buf| >= MaxPeek then Peeked(NameOf(SniOf(buf)), buf, arrivals)
    else if arrivals == [] then (if broken then PeekFailed else Peeked(None, buf, []))
    else
      ReadSplits(arrivals, ReadBuffer);
      Peek(buf + Head(arrivals, ReadBuffer), Tail(arrivals, ReadBuffer), broken)
  }

  /** The source's loop. */
  method PeekSni(stream: ByteStream) returns (sni: Result<Option<seq<byte>>, ()>, prefix: seq<byte>)
    requires stream.Valid()
    modifies stream
    ensures stream.Valid()
    ensures match Peek([], old(stream.arrivals), stream.broken)
            case Peeked(s, p, rest) => sni == Ok(s) && prefix == p && stream.arrivals == rest
            case PeekFailed => sni == Err(())
  {
    var buf: seq<byte> := [];
    ghost var all := stream.arrivals;
    while true
      invariant stream.Valid()
      invariant Peek([], all, stream.broken) == Peek(buf, stream.arrivals, stream.broken)
      decreases |Join(stream.arrivals)|
    {
      var verdict := ExtractSni(buf);
      match verdict {
        case Found(name) =>
          return Ok(Some(name)), buf;
        case Absent =>
          return Ok(None), buf;
        case NotTls =>
          return Ok(None), buf;
        case NeedMore =>
          if |buf| >= MaxPeek {
            return Ok(None), buf;
          }
          if stream.arrivals != [] {
            ReadSplits(stream.arrivals, ReadBuffer);
          }
          var got := stream.Read(ReadBuffer);
          if got == None {
            return Err(()), buf;
          }
          if got.value == [] {
            return Ok(None), buf;
          }
          buf := buf + got.value;
      }
    }
  }

  // ---------------------------------------------------------------- no byte is lost

  /** What was read and what is left to read are the stream, and what was read is bounded. */
  lemma {:induction false} PeekKeepsBytes(buf: seq<byte>, arrivals: seq<seq<byte>>, broken: bool)
    requires Chunked(arrivals) && |buf| <= 24575
    ensures var p := Peek(buf, arrivals, broken);
      p.Peeked? ==>
        && Chunked(p.rest)
        && p.prefix + Join(p.rest) == buf + Join(arrivals)
        && |p.prefix| <= 24575
    decreases |Join(arrivals)|
  {
    if SniOf(buf).NeedMore? && |buf| < MaxPeek && arrivals != [] {
      ReadSplits(arrivals, ReadBuffer);
      var got, rest := Head(arrivals, ReadBuffer), Tail(arrivals, ReadBuffer);
      PeekKeepsBytes(buf + got, rest, broken);
      assert buf + got + Join(rest) == buf + (got + Join(rest));
    }
  }

  // ---------------------------------------------------------------- chunking

  /** How many bytes of a stream settle its verdict. */
  function Needed(all: seq<byte>): nat
    requires |all| >= 5
  {
    if all[0] != 0x16 then 5 else RecordEnd(all)
  }

  /** A prefix of the stream has a verdict, the stream's own, if and only if it is long enough. */
  lemma PrefixVerdict(all: seq<byte>, n: nat)
    requires n <= |all|
    ensures SniOf(all[..n]) == if |all| < 5 || n < Needed(all) then NeedMore else SniOf(all)
  {
    if |all| >= 5 && n >= Needed(all) {
      assert all == all[..n] + all[n..];
      VerdictStable(all[..n], all[n..]);
    }
  }

  /** The peek's answer is the verdict on its prefix. */
  lemma {:induction false} PeekAnswer(buf: seq<byte>, arrivals: seq<seq<byte>>, broken: bool)
    requires Chunked(arrivals)
    ensures var p := Peek(buf, arrivals, broken);
      p.Peeked? ==>
        && p.sni == NameOf(SniOf(p.prefix))
        && (SniOf(p.prefix).NeedMore? ==> |p.prefix| >= MaxPeek || p.rest == [])
    decreases |Join(arrivals)|
  {
    if SniOf(buf).NeedMore? && |buf| < MaxPeek && arrivals != [] {
      ReadSplits(arrivals, ReadBuffer);
      PeekAnswer(buf + Head(arrivals, ReadBuffer), Tail(arrivals, ReadBuffer), broken);
    }
  }

  /** The peek of these bytes fails, however they are cut: the stream breaks before anything is settled. */
  predicate Fails(all: seq<byte>, broken: bool) {
    broken && SniOf(all).NeedMore? && |all| < 16384
  }

  lemma {:induction false} PeekFails(buf: seq<byte>, arrivals: seq<seq<byte>>, broken: bool)
    requires Chunked(arrivals)
    ensures Peek(buf, arrivals, broken).PeekFailed? <==> Fails(buf + Join(arrivals), broken)
    decreases |Join(arrivals)|
  {
    var all := buf + Join(arrivals);
    if !SniOf(buf).NeedMore? {
      VerdictStable(buf, Join(arrivals));
    } else if |buf| < MaxPeek {
      if arrivals == [] {
        assert all == buf;
      } else {
        ReadSplits(arrivals, ReadBuffer);
        var got, rest := Head(arrivals, ReadBuffer), Tail(arrivals, ReadBuffer);
        PeekFails(buf + got, rest, broken);
        assert buf + got + Join(rest) == buf + (got + Join(rest));
      }
    }
  }

  /** The streams whose name depends on how they are cut: their hello straddles the limit. */
  predicate Straddles(all: seq<byte>) {
    SniOf(all).Found? && 16384 < RecordEnd(all) <= 24575
  }

  /** What a stream that does not straddle the limit is routed by. */
  function Routed(all: seq<byte>): Option<seq<byte>> {
    if SniOf(all).Found? && RecordEnd(all) <= 16384 then NameOf(SniOf(all)) else None
  }

  /**
   However the bytes of a stream are cut, the peek fails, gives its server name if its hello is
   within the limit, or gives none: all streams but those that straddle the limit.
   */
  lemma PeekIsRouted(arrivals: seq<seq<byte>>, broken: bool)
    requires Chunked(arrivals) && !Straddles(Join(arrivals))
    ensures var p := Peek([], arrivals, broken);
      if Fails(Join(arrivals), broken) then p.PeekFailed? else p.Peeked? && p.sni == Routed(Join(arrivals))
  {
    var all, p := Join(arrivals), Peek([], arrivals, broken);
    PeekKeepsBytes([], arrivals, broken);
    PeekAnswer([], arrivals, broken);
    PeekFails([], arrivals, broken);
    assert [] + all == all;
    if p.Peeked? {
      var n := |p.prefix|;
      assert all[..n] == p.prefix;
      PrefixVerdict(all, n);
      if SniOf(p.prefix).NeedMore? && p.rest == [] {
        assert p.prefix == all;
      }
    }
  }

  // ---------------------------------------------------------------- two ways to cut a stream

  /** Full reads all the way. */
  function Chop(all: seq<byte>): seq<seq<byte>>
    decreases |all|
  {
    if all == [] then []
    else if |all| <= ReadBuffer then [all]
    else [all[..ReadBuffer]] + Chop(all[ReadBuffer..])
  }

  /** A chunk in front of more chunks. */
  lemma Cons(c: seq<byte>, cs: seq<seq<byte>>)
    requires c != [] && Chunked(cs)
    ensures Chunked([c] + cs) && Join([c] + cs) == c + Join(cs)
  {
    assert ([c] + cs)[1..] == cs;
  }

  lemma {:induction false} ChopJoins(all: seq<byte>)
    ensures Chunked(Chop(all)) && Join(Chop(all)) == all
    decreases |all|
  {
    if |all| > ReadBuffer {
      ChopJoins(all[ReadBuffer..]);
      Cons(all[..ReadBuffer], Chop(all[ReadBuffer..]));
    } else if all != [] {
      Cons(all, []);
      assert [all] + [] == [all];
    }
  }

  /** One read of a chunk the buffer has room for. */
  lemma PeekCons(buf: seq<byte>, c: seq<byte>, cs: seq<seq<byte>>, broken: bool)
    requires c != [] && |c| <= ReadBuffer && Chunked(cs)
    requires SniOf(buf).NeedMore? && |buf| < MaxPeek
    ensures Chunked([c] + cs) && Peek(buf, [c] + cs, broken) == Peek(buf + c, cs, broken)
  {
    var a := [c] + cs;
    Cons(c, cs);
    assert Head(a, ReadBuffer) == c;
    assert Tail(a, ReadBuffer) == cs;
  }

  /** A cut whose first two chunks are `i` and `j - i` bytes long. */
  function Cut(all: seq<byte>, i: nat, j: nat): seq<seq<byte>>
    requires i <= j <= |all|
  {
    [all[..i]] + ([all[i..j]] + Chop(all[j..]))
  }

  /** The peek of such a cut that has no verdict yet after its first two chunks. */
  lemma PeekCut(all: seq<byte>, i: nat, j: nat, broken: bool)
    requires 0 < i <= ReadBuffer && i < j <= i + ReadBuffer && j <= |all|
    requires |all| >= 5 && j < Needed(all)
    ensures Chunked(Cut(all, i, j)) && Join(Cut(all, i, j)) == all
    ensures Chunked(Chop(all[j..]))
    ensures Peek([], Cut(all, i, j), broken) == Peek(all[..j], Chop(all[j..]), broken)
  {
    var c, d, rest := all[..i], all[i..j], Chop(all[j..]);
    ChopJoins(all[j..]);
    Cons(d, rest);
    Cons(c, [d] + rest);
    assert c + (d + all[j..]) == all;
    PrefixVerdict(all, 0);
    PrefixVerdict(all, i);
    PeekCons([], c, [d] + rest, broken);
    assert [] + c == c;
    PeekCons(c, d, rest, broken);
    assert c + d == all[..j];
  }

  /** Two full reads: the peek gives up. */
  lemma GivesUp(all: seq<byte>, broken: bool)
    requires Straddles(all)
    ensures var cut := Cut(all, ReadBuffer, MaxPeek);
      Chunked(cut) && Join(cut) == all && Peek([], cut, broken).Peeked? && Peek([], cut, broken).sni == None
  {
    PeekCut(all, ReadBuffer, MaxPeek, broken);
    PrefixVerdict(all, MaxPeek);
  }

  /** One byte less, and the third read brings the rest of the hello. */
  lemma Succeeds(all: seq<byte>, broken: bool)
    requires Straddles(all)
    ensures var cut := Cut(all, ReadBuffer, MaxPeek - 1);
      && Chunked(cut) && Join(cut) == all && Peek([], cut, broken).Peeked?
      && Peek([], cut, broken).sni == NameOf(SniOf(all))
  {
    CutSettles(all, ReadBuffer, MaxPeek - 1, broken);
  }

  /** A cut whose third chunk, a full read if there is as much, brings what is needed. */
  lemma CutSettles(all: seq<byte>, i: nat, j: nat, broken: bool)
    requires 0 < i <= ReadBuffer && i < j <= i + ReadBuffer && j < |all| && j < MaxPeek
    requires |all| >= 5 && j < Needed(all) <= Min(j + ReadBuffer, |all|)
    ensures Chunked(Cut(all, i, j)) && Join(Cut(all, i, j)) == all
    ensures var p := Peek([], Cut(all, i, j), broken); p.Peeked? && p.sni == NameOf(SniOf(all))
  {
    PeekCut(all, i, j, broken);
    RestSettles(all, j, broken);
  }

  lemma RestSettles(all: seq<byte>, j: nat, broken: bool)
    requires j < |all| && j < MaxPeek && |all| >= 5 && j < Needed(all) <= Min(j + ReadBuffer, |all|)
    ensures Chunked(Chop(all[j..]))
    ensures var p := Peek(all[..j], Chop(all[j..]), broken); p.Peeked? && p.sni == NameOf(SniOf(all))
  {
    var k := Min(ReadBuffer, |all| - j);
    var buf, more := all[..j], all[..j + k];
    PrefixVerdict(all, j);
    PrefixVerdict(all, j + k);
    assert buf + all[j..][..k] == more;
    PeekFull(buf, all[j..], more, broken);
  }

  /** One read of what is cut into full reads; if that settles it, the peek is over. */
  lemma PeekFull(buf: seq<byte>, rest: seq<byte>, more: seq<byte>, broken: bool)
    requires SniOf(buf).NeedMore? && |buf| < MaxPeek && rest != []
    requires more == buf + rest[..Min(ReadBuffer, |rest|)] && !SniOf(more).NeedMore?
    ensures Chunked(Chop(rest))
    ensures var p := Peek(buf, Chop(rest), broken); p.Peeked? && p.sni == NameOf(SniOf(more))
  {
    ChopJoins(rest);
    ReadSplits(Chop(rest), ReadBuffer);
    assert Head(Chop(rest), ReadBuffer) == rest[..Min(ReadBuffer, |rest|)];
  }

  /** Such streams exist: a hello with a long list of cipher suites. */
  lemma Straddler() returns (all: seq<byte>)
    ensures Straddles(all)
  {
    var host: seq<Name> := [Name(0, [97])];
    var exts := [ServerName(host)];
    var h := Hello(seq(34, _ => 0), [], seq(MaxPeek, _ => 0), [], Some(exts));
    assert host[1..] == [] && exts[1..] == [];
    assert NameBytes(host) == [0, 0, 1, 97];
    assert ExtensionBytes(exts) == [0, 0, 0, 6, 0, 4] + NameBytes(host);
    assert HelloFits(h);
    all := RecordBytes(h, 0x0301, []);
    SniComplete(h, 0x0301, [], []);
    assert all + [] == all;
    assert RecordEnd(all) == |all|;
  }

  /** The answer does not depend on how the stream is cut. */
  ghost predicate CutIndependent(all: seq<byte>) {
    forall a, b, broken ::
      Chunked(a) && Chunked(b) && Join(a) == all && Join(b) == all ==>
        SameAnswer(Peek([], a, broken), Peek([], b, broken))
  }

  ghost predicate SameAnswer(p: Peeked, q: Peeked) {
    (p.Peeked? <==> q.Peeked?) && (p.Peeked? ==> p.sni == q.sni)
  }

  /** Exactly the streams that do not straddle the limit get the same answer however cut. */
  lemma ChunkingIndependence(all: seq<byte>)
    ensures CutIndependent(all) <==> !Straddles(all)
  {
    if Straddles(all) {
      GivesUp(all, false);
      Succeeds(all, false);
      var a, b := Cut(all, ReadBuffer, MaxPeek), Cut(all, ReadBuffer, MaxPeek - 1);
      assert !SameAnswer(Peek([], a, false), Peek([], b, false));
    } else {
      forall a, b, broken | Chunked(a) && Chunked(b) && Join(a) == all && Join(b) == all
        ensures SameAnswer(Peek([], a, broken), Peek([], b, broken))
      {
        PeekIsRouted(a, broken);
        PeekIsRouted(b, broken);
      }
    }
  }

  // ---------------------------------------------------------------- replay

  /** A stream with the peeked bytes put back in front. */
  class Prefixed {
    const prefix: seq<byte>
    var position: nat
    const inner: ByteStream

    constructor (prefix: seq<byte>, inner: ByteStream)
      requires inner.Valid()
      ensures this.inner == inner && Valid()
      ensures Remaining() == prefix + Join(inner.arrivals)
    {
      this.prefix, position, this.inner := prefix, 0, inner;
    }

    ghost predicate Valid()
      reads this, inner
    {
      position <= |prefix| && inner.Valid()
    }

    /** The bytes a reader will still see. */
    ghost function Remaining(): seq<byte>
      reads this, inner
      requires Valid()
    {
      prefix[position..] + Join(inner.arrivals)
    }

    /** A read yields the next bytes; none at the end only, and fails at the end only. */
    method Read(room: nat) returns (r: Option<seq<byte>>)
      requires Valid() && room > 0
      modifies this, inner
      ensures Valid()
      ensures r.Some? ==> |r.value| <= room && old(Remaining()) == r.value + Remaining()
      ensures r.Some? && r.value == [] ==> old(Remaining()) == [] && !inner.broken
      ensures r.None? ==> old(Remaining()) == [] && Remaining() == [] && inner.broken
    {
      if |prefix| - position > 0 {
        var n := Min(room, |prefix| - position);
        r := Some(prefix[position..position + n]);
        position := position + n;
        assert old(prefix[position..]) == r.value + prefix[position..];
      } else {
        if inner.arrivals != [] {
          ReadSplits(inner.arrivals, room);
        }
        r := inner.Read(room);
      }
    }
  }

  /**
   The peeked connection handed on: a reader of the adapter sees the original stream from its
   first byte, whatever the peek concluded.
   */
  method PeekAndReplay(stream: ByteStream) returns (sni: Result<Option<seq<byte>>, ()>, replay: Option<Prefixed>)
    requires stream.Valid()
    modifies stream
    ensures sni.Ok? <==> replay.Some?
    ensures sni.Err? <==> Fails(old(Join(stream.arrivals)), stream.broken)
    ensures replay.Some? ==>
      && replay.value.Valid() && replay.value.inner == stream
      && replay.value.Remaining() == old(Join(stream.arrivals))
      && (!Straddles(old(Join(stream.arrivals))) ==> sni == Ok(Routed(old(Join(stream.arrivals)))))
  {
    PeekKeepsBytes([], stream.arrivals, stream.broken);
    PeekFails([], stream.arrivals, stream.broken);
    assert [] + Join(stream.arrivals) == Join(stream.arrivals);
    if !Straddles(Join(stream.arrivals)) {
      PeekIsRouted(stream.arrivals, stream.broken);
    }
    var prefix;
    sni, prefix := PeekSni(stream);
    if sni.Err? {
      return sni, None;
    }
    var p := new Prefixed(prefix, stream);
    assert p.Remaining() == [] + old(Join(stream.arrivals));
    replay := Some(p);
  }
}
