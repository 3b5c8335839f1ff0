/**
 A byte stream as its reader sees it: the bytes come in chunks of the network's choosing, and
 then the stream ends or fails. A read takes what has arrived, as far as its buffer goes.
 */
module Streams {
  import opened Prelude
  import opened Bytes

  ghost predicate Chunked(arrivals: seq<seq<byte>>) {
    forall i | 0 <= i < |arrivals| :: arrivals[i] != []
  }

  /** All the bytes still to come. */
  function Join(arrivals: seq<seq<byte>>): seq<byte> {
    if arrivals == [] then [] else arrivals[0] + Join(arrivals[1..])
  }

  /** What one read returns. */
  function Head(arrivals: seq<seq<byte>>, room: nat): (r: seq<byte>)
    requires arrivals != []
    ensures |r| <= room
  {
    arrivals[0][..Min(room, |arrivals[0]|)]
  }

  /** What it leaves. */
  function Tail(arrivals: seq<seq<byte>>, room: nat): seq<seq<byte>>
    requires arrivals != []
  {
    if |arrivals[0]| <= room then arrivals[1..] else [arrivals[0][room..]] + arrivals[1..]
  }

  lemma ReadSplits(arrivals: seq<seq<byte>>, room: nat)
    requires Chunked(arrivals) && arrivals != [] && room > 0
    ensures Chunked(Tail(arrivals, room)) && Head(arrivals, room) != []
    ensures Head(arrivals, room) + Join(Tail(arrivals, room)) == Join(arrivals)
    ensures |Join(Tail(arrivals, room))| < |Join(arrivals)|
  {
    if |arrivals[0]| > room {
      var t := Tail(arrivals, room);
      assert t[1..] == arrivals[1..];
      assert arrivals[0] == arrivals[0][..room] + arrivals[0][room..];
    }
  }

  lemma JoinNonEmpty(arrivals: seq<seq<byte>>)
    requires Chunked(arrivals)
    ensures Join(arrivals) == [] <==> arrivals == []
  {
  }

  lemma Regroup(a: seq<byte>, b: seq<byte>, c: seq<byte>, all: seq<byte>)
    requires a + (b + c) == all
    ensures a + b + c == all
  {
  }

  /** Reading a fixed number of bytes. */
  datatype Exact = Whole(bytes: seq<byte>) | Short | Failure

  class ByteStream {
    var arrivals: seq<seq<byte>>
    const broken: bool

    constructor (arrivals: seq<seq<byte>>, broken: bool)
      ensures this.arrivals == arrivals && this.broken == broken
    {
      this.arrivals, this.broken := arrivals, broken;
    }

    ghost predicate Valid()
      reads this
    {
      Chunked(arrivals)
    }

    /** Reads into a buffer with `room`: no bytes at the end, `None` on failure. */
    method Read(room: nat) returns (r: Option<seq<byte>>)
      requires Valid() && room > 0
      modifies this
      ensures Valid()
      ensures old(arrivals) == [] ==> arrivals == [] && r == if broken then None else Some([])
      ensures old(arrivals) != [] ==>
        arrivals == Tail(old(arrivals), room) && r == Some(Head(old(arrivals), room))
    {
      if arrivals == [] {
        return if broken then None else Some([]);
      }
      ReadSplits(arrivals, room);
      r := Some(Head(arrivals, room));
      arrivals := Tail(arrivals, room);
    }

    /** Reads until the buffer is full, or there is no more to read. */
    method ReadExact(n: nat) returns (r: Exact)
      requires Valid()
      modifies this
      ensures Valid()
      ensures n <= |old(Join(arrivals))| ==>
        r == Whole(old(Join(arrivals))[..n]) && Join(arrivals) == old(Join(arrivals))[n..]
      ensures n > |old(Join(arrivals))| ==> r == (if broken then Failure else Short) && arrivals == []
    {
      var buf := [];
      ghost var all := Join(arrivals);
      while |buf| < n
        invariant Valid() && |buf| <= n
        invariant buf + Join(arrivals) == all
        decreases n - |buf|
      {
        JoinNonEmpty(arrivals);
        if arrivals != [] {
          ReadSplits(arrivals, n - |buf|);
        }
        var got := Read(n - |buf|);
        if got == None || got == Some([]) {
          return if broken then Failure else Short;
        }
        Regroup(buf, got.value, Join(arrivals), all);
        buf := buf + got.value;
      }
      assert buf == all[..n] && Join(arrivals) == all[n..];
      r := Whole(buf);
    }
  }
}
