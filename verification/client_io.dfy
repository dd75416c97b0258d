/**
 * What the two clients share: how a capture path is recognised as a
 * camera, how a captured frame is fitted to the model's size, the raw
 * pixel stream `send_frame` writes, and what `recv_result` reads: a
 * `size_t` length, that many bytes, parsed as JSON. A short read and a
 * parse failure both throw, which ends the program; here they are `None`.
 * `parse` stands for `boost::json::parse` on the received text.
 */
module ClientIo {
  import opened Wrappers
  import opened Bytes
  import opened Framing
  import opened Json
  import opened Vision

  const CAMERA_DEVICE: string := "/dev/video"

  function Min(a: int, b: int): int
  {
    if a <= b then a else b
  }

  /** The path starts with "/dev/video": the capture is a camera, with no frame count. */
  predicate IsCameraDevice(path: string)
  {
    |path| >= |CAMERA_DEVICE| && path[..|CAMERA_DEVICE|] == CAMERA_DEVICE
  }

  /** A captured frame as queued: resized to `cols` x `rows` unless it is exactly that size. */
  function Fitted(m: Mat, cols: int, rows: int, resize: Mat -> Mat): Mat
  {
    if m.cols != cols || m.rows != rows then resize(m) else m
  }

  function FittedAll(frames: seq<Mat>, cols: int, rows: int, resize: Mat -> Mat): (fs: seq<Mat>)
    ensures |fs| == |frames|
  {
    seq(|frames|, i requires 0 <= i < |frames| => Fitted(frames[i], cols, rows, resize))
  }

  /** The raw pixel bytes of frames sent one after the other, with no length prefix. */
  function Pixels(frames: seq<Mat>): seq<byte>
  {
    if frames == [] then [] else Pixels(frames[..|frames| - 1]) + frames[|frames| - 1].data
  }

  /** One pass: a length-prefixed message, parsed, and the bytes after it. */
  function ReceiveOne(stream: seq<byte>, parse: seq<byte> -> Option<Json>): Option<(Json, seq<byte>)>
  {
    match ReadFrame(stream)
    case ShortRead => None
    case Message(p, rest) =>
      match parse(p)
      case None => None
      case Some(j) => Some((j, rest))
  }

  /** A received value is the parse of a framed payload at the front of the stream, and the rest follows it. */
  lemma ReceiveOneSpec(stream: seq<byte>, parse: seq<byte> -> Option<Json>)
    ensures ReceiveOne(stream, parse).Some? ==>
              exists p: Payload :: stream == Frame(p) + ReceiveOne(stream, parse).value.1 &&
                                   parse(p) == Some(ReceiveOne(stream, parse).value.0)
  {
    ReadFrameSpec(stream);
  }

  /** `n` passes one after the other: the values parsed, in order, and what is left. */
  function ReceiveMany(stream: seq<byte>, n: nat, parse: seq<byte> -> Option<Json>): (r: Option<(seq<Json>, seq<byte>)>)
    ensures r.Some? ==> |r.value.0| == n
  {
    if n == 0 then Some(([], stream))
    else match ReceiveMany(stream, n - 1, parse)
      case None => None
      case Some((js, rest)) =>
        match ReceiveOne(rest, parse)
        case None => None
        case Some((j, rest')) => Some((js + [j], rest'))
  }

  /** One more pass: the values grow by the one it parses, or the run fails with it. */
  lemma ReceiveManyNext(stream: seq<byte>, n: nat, parse: seq<byte> -> Option<Json>)
    ensures ReceiveMany(stream, n, parse).Some? && ReceiveOne(ReceiveMany(stream, n, parse).value.1, parse).Some? ==>
              var (js, rest) := ReceiveMany(stream, n, parse).value;
              ReceiveMany(stream, n + 1, parse) ==
              Some((js + [ReceiveOne(rest, parse).value.0], ReceiveOne(rest, parse).value.1))
    ensures ReceiveMany(stream, n, parse).Some? && ReceiveOne(ReceiveMany(stream, n, parse).value.1, parse).None? ==>
              ReceiveMany(stream, n + 1, parse).None?
  {
  }

  /** The values payloads parse to, in order, when every one of them parses. */
  function ParsedAll(ps: seq<Payload>, parse: seq<byte> -> Option<Json>): (js: seq<Json>)
    requires forall i :: 0 <= i < |ps| ==> parse(ps[i]).Some?
    ensures |js| == |ps|
    ensures forall i :: 0 <= i < |ps| ==> parse(ps[i]) == Some(js[i])
  {
    if ps == [] then []
    else ParsedAll(ps[..|ps| - 1], parse) + [parse(ps[|ps| - 1]).value]
  }

  /** A pass that meets a framed payload which parses receives its value and moves past it. */
  lemma ReceiveManySnoc(stream: seq<byte>, n: nat, js: seq<Json>, p: Payload, rest: seq<byte>,
                        parse: seq<byte> -> Option<Json>)
    requires ReceiveMany(stream, n, parse) == Some((js, Frame(p) + rest)) && parse(p).Some?
    ensures ReceiveMany(stream, n + 1, parse) == Some((js + [parse(p).value], rest))
  {
    ReadFrameOfFrame(p, rest);
    ReceiveManyNext(stream, n, parse);
  }

  /** Results written by the server in order are received in order, each parsed. */
  lemma {:induction false} ReceiveManyOfFrames(ps: seq<Payload>, rest: seq<byte>, parse: seq<byte> -> Option<Json>)
    requires forall i :: 0 <= i < |ps| ==> parse(ps[i]).Some?
    ensures ReceiveMany(Frames(ps) + rest, |ps|, parse) == Some((ParsedAll(ps, parse), rest))
  {
    if ps == [] {
      assert Frames(ps) + rest == rest;
    } else {
      var n := |ps|;
      var init, last := ps[..n - 1], ps[n - 1];
      var stream := Frames(ps) + rest;
      assert stream == Frames(init) + (Frame(last) + rest);
      assert ReceiveMany(stream, n - 1, parse) == Some((ParsedAll(init, parse), Frame(last) + rest)) by {
        assert forall i :: 0 <= i < |init| ==> init[i] == ps[i];
        ReceiveManyOfFrames(init, Frame(last) + rest, parse);
      }
      assert ParsedAll(ps, parse) == ParsedAll(init, parse) + [parse(last).value];
      ReceiveManySnoc(stream, n - 1, ParsedAll(init, parse), last, rest, parse);
    }
  }
}
