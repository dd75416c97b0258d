/**
 * The result channel's framing: a `size_t` length `L`, then `L` payload
 * bytes. The servers' writers produce it (two writes per result) and the
 * clients' `recv_result` consumes it (two exact reads per result).
 */
module Framing {
  import opened Bytes
  import opened Wrappers

  /** A message body: a `std::string` whose `size()` fits a `size_t`. */
  type Payload = s: seq<byte> | |s| < SIZE_LIMIT

  /** What the writer puts on the socket for one payload: length, then bytes. */
  function Frame(p: Payload): (wire: seq<byte>)
    ensures |wire| == SIZE_BYTES + |p|
  {
    EncodeSize(|p|) + p
  }

  /** A frame's first 8 bytes read back as the payload's length, and the payload follows them. */
  lemma FrameLayout(p: Payload)
    ensures Frame(p)[..SIZE_BYTES] == EncodeSize(|p|)
    ensures DecodeSize(Frame(p)[..SIZE_BYTES]) == |p| && Frame(p)[SIZE_BYTES..] == p
  {
    DecodeSizeOfEncodeSize(|p|);
    assert (EncodeSize(|p|) + p)[..SIZE_BYTES] == EncodeSize(|p|);
  }

  datatype ReadOutcome = ShortRead | Message(payload: Payload, rest: seq<byte>)

  /**
   * Two exact reads from `stream`: 8 bytes for the length `L`, then `L`
   * bytes. A stream that ends before either is complete is a short read.
   */
  function ReadFrame(stream: seq<byte>): ReadOutcome
  {
    if |stream| < SIZE_BYTES then ShortRead
    else
      var n := DecodeSize(stream[..SIZE_BYTES]);
      if |stream| - SIZE_BYTES < n then ShortRead
      else Message(stream[SIZE_BYTES..SIZE_BYTES + n], stream[SIZE_BYTES + n..])
  }

  /**
   * A read is short exactly when the stream ends inside the length or
   * inside the bytes it announces; otherwise the stream is that frame
   * followed by the rest.
   */
  lemma ReadFrameSpec(stream: seq<byte>)
    ensures ReadFrame(stream).ShortRead? <==>
              |stream| < SIZE_BYTES || |stream| - SIZE_BYTES < DecodeSize(stream[..SIZE_BYTES])
    ensures ReadFrame(stream).Message? ==> stream == Frame(ReadFrame(stream).payload) + ReadFrame(stream).rest
  {
    if |stream| >= SIZE_BYTES {
      var n := DecodeSize(stream[..SIZE_BYTES]);
      if |stream| - SIZE_BYTES >= n {
        EncodeSizeOfDecodeSize(stream[..SIZE_BYTES]);
        assert stream == EncodeSize(n) + stream[SIZE_BYTES..SIZE_BYTES + n] + stream[SIZE_BYTES + n..];
      }
    }
  }

  /** Reading back a framed payload yields it, and leaves what follows untouched. */
  lemma ReadFrameOfFrame(p: Payload, rest: seq<byte>)
    ensures ReadFrame(Frame(p) + rest) == Message(p, rest)
  {
    var s := Frame(p) + rest;
    FrameLayout(p);
    assert s[..SIZE_BYTES] == Frame(p)[..SIZE_BYTES];
    assert s[SIZE_BYTES..SIZE_BYTES + |p|] == p;
    assert s[SIZE_BYTES + |p|..] == rest;
  }

  /** The bytes of several results written one after the other. */
  function Frames(ps: seq<Payload>): (wire: seq<byte>)
  {
    if ps == [] then [] else Frames(ps[..|ps| - 1]) + Frame(ps[|ps| - 1])
  }

  /** The stream of several results starts with the first one's frame. */
  lemma {:induction false} FramesCons(ps: seq<Payload>)
    requires ps != []
    ensures Frames(ps) == Frame(ps[0]) + Frames(ps[1..])
  {
    var n := |ps|;
    if n == 1 {
      assert ps[..0] == [] && ps[1..] == [];
    } else {
      var init, tail := ps[..n - 1], ps[1..];
      FramesCons(init);
      assert init[0] == ps[0] && init[1..] == tail[..n - 2] && tail[n - 2] == ps[n - 1];
      calc {
        Frames(ps);
        Frames(init) + Frame(ps[n - 1]);
        Frame(ps[0]) + Frames(tail[..n - 2]) + Frame(ps[n - 1]);
        Frame(ps[0]) + (Frames(tail[..n - 2]) + Frame(tail[n - 2]));
        Frame(ps[0]) + Frames(tail);
      }
    }
  }

  /** `n` successive reads of the result channel, or None at a short read. */
  function ReadFrames(stream: seq<byte>, n: nat): (r: Option<seq<Payload>>)
    ensures r.Some? ==> |r.value| == n
  {
    if n == 0 then Some([])
    else match ReadFrame(stream)
      case ShortRead => None
      case Message(p, rest) =>
        match ReadFrames(rest, n - 1)
        case None => None
        case Some(ps) => Some([p] + ps)
  }

  /** Results are read back in the order they were written, none lost or merged. */
  lemma {:induction false} ReadFramesOfFrames(ps: seq<Payload>, rest: seq<byte>)
    ensures ReadFrames(Frames(ps) + rest, |ps|) == Some(ps)
  {
    if ps != [] {
      var tail := Frames(ps[1..]) + rest;
      assert Frames(ps) + rest == Frame(ps[0]) + tail by {
        FramesCons(ps);
      }
      assert ReadFrame(Frame(ps[0]) + tail) == Message(ps[0], tail) by {
        ReadFrameOfFrame(ps[0], tail);
      }
      ReadFramesOfFrames(ps[1..], rest);
      assert [ps[0]] + ps[1..] == ps;
    }
  }
}
