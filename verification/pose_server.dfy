/**
 * The pose-estimation server's per-connection pipeline with the threads
 * taken out, as for the face server. The client sends raw 368x368 BGR
 * frames with no prefix, so the reader takes exactly `FRAME_SIZE` bytes at
 * a time. It reads them into one buffer and queues an image header that
 * points at that buffer without copying: every queued image shares it.
 * Here the buffer is an array and the queue holds references to arrays, so
 * that sharing is visible.
 */
module PoseServer {
  import opened Bytes
  import opened Framing
  import opened Json
  import opened Vision
  import opened PoseJson

  const WIDTH: int := 368
  const HEIGHT: int := 368
  const CHANNEL: int := 3
  /** Bytes in one raw frame. */
  const FRAME_SIZE: int := WIDTH * HEIGHT * CHANNEL

  /** The image a queued buffer stands for when the worker takes it. */
  function ImageOf(pixels: seq<byte>): Mat
  {
    Mat(HEIGHT, WIDTH, pixels)
  }

  class Session {
    /** `image_in`: each entry is the buffer a queued image header points at. */
    var imageIn: seq<array<byte>>
    /** `result`: estimates waiting to be sent back. */
    var results: seq<OpenPoseResult>
    /** `already_stopped` */
    var stopped: bool
    /** Bytes the client sends that `tcp_recv` has not consumed yet. */
    var inbound: seq<byte>
    /** Bytes `tcp_send` has put on the socket so far. */
    var outbound: seq<byte>
    /** `buf`: the reader's frame buffer, the same storage on every pass. */
    const buf: array<byte>

    constructor (clientBytes: seq<byte>)
      ensures imageIn == [] && results == [] && !stopped
      ensures inbound == clientBytes && outbound == []
      ensures fresh(buf) && buf.Length == FRAME_SIZE
    {
      imageIn, results, stopped := [], [], false;
      inbound, outbound := clientBytes, [];
      buf := new byte[FRAME_SIZE];
    }

    /**
     * One pass of `pose_estimate`: an empty queue ends the stage if the
     * session is stopped and otherwise changes nothing; else the head image
     * is run through the model as its buffer reads now, with no resize.
     */
    method WorkerStep(run: Mat -> OpenPoseResult) returns (exit: bool)
      modifies this`imageIn, this`results
      ensures old(imageIn) == [] ==> exit == stopped && imageIn == old(imageIn) && results == old(results)
      ensures old(imageIn) != [] ==>
                !exit && imageIn == old(imageIn)[1..] &&
                results == old(results) + [run(ImageOf(old(imageIn)[0][..]))]
    {
      if imageIn == [] {
        return stopped;
      }
      var image := ImageOf(imageIn[0][..]);
      imageIn := imageIn[1..];
      var result := run(image);
      results := results + [result];
      exit := false;
    }

    /**
     * One pass of `tcp_send`, as written: an empty queue ends the stage if
     * stopped; otherwise the head estimate is serialised and handed to two
     * `async_write`s, a length, then the payload. No thread runs the
     * `io_service`, so the completion handlers never run: a write that fails
     * leaves `stopped` as it was and the stage goes on.
     */
    method SenderStep(serialize: Json -> Payload, lengthSent: bool, payloadSent: bool) returns (exit: bool)
      modifies this`results, this`outbound
      ensures old(results) == [] ==> exit == stopped && results == old(results) && outbound == old(outbound)
      ensures old(results) != [] ==>
                var p := serialize(PoseObject(old(results)[0]));
                && !exit && results == old(results)[1..]
                && outbound == old(outbound) + (if lengthSent then EncodeSize(|p|) else []) + (if payloadSent then p else [])
      ensures old(results) != [] && lengthSent && payloadSent ==>
                outbound == old(outbound) + Frame(serialize(PoseObject(old(results)[0])))
    {
      if results == [] {
        return stopped;
      }
      var result := results[0];
      results := results[1..];
      var json := ResultToJson(result);
      var data := serialize(json);
      if lengthSent {
        outbound := outbound + EncodeSize(|data|);
      }
      if payloadSent {
        outbound := outbound + data;
      }
      exit := false;
    }

    /**
     * One pass of `tcp_send` with its completion handlers run, as they are
     * written to be: a failed write sets `stopped` and the stage goes on.
     */
    method SenderStepHandled(serialize: Json -> Payload, lengthSent: bool, payloadSent: bool) returns (exit: bool)
      modifies this`results, this`outbound, this`stopped
      ensures old(results) == [] ==>
                exit == old(stopped) && stopped == old(stopped) && results == old(results) && outbound == old(outbound)
      ensures old(results) != [] ==>
                var p := serialize(PoseObject(old(results)[0]));
                && !exit && results == old(results)[1..]
                && outbound == old(outbound) + (if lengthSent then EncodeSize(|p|) else []) + (if payloadSent then p else [])
                && stopped == (old(stopped) || !lengthSent || !payloadSent)
      ensures old(results) != [] && lengthSent && payloadSent ==>
                outbound == old(outbound) + Frame(serialize(PoseObject(old(results)[0])))
    {
      if results == [] {
        return stopped;
      }
      var result := results[0];
      results := results[1..];
      var json := ResultToJson(result);
      var data := serialize(json);
      if lengthSent {
        outbound := outbound + EncodeSize(|data|);
      } else {
        stopped := true;
      }
      if payloadSent {
        outbound := outbound + data;
      } else {
        stopped := true;
      }
      exit := false;
    }

    /**
     * One pass of `tcp_recv`, as written: read `FRAME_SIZE` bytes into `buf`
     * and queue a header over `buf` itself. A short read leaves what did
     * arrive at the front of `buf`, sets `stopped` and ends the stage.
     */
    method ReceiverStep() returns (exit: bool)
      requires buf.Length == FRAME_SIZE
      modifies this`inbound, this`imageIn, this`stopped, buf
      ensures |old(inbound)| < FRAME_SIZE ==>
                exit && stopped && inbound == [] && imageIn == old(imageIn) &&
                buf[..] == old(inbound) + old(buf[..])[|old(inbound)|..]
      ensures |old(inbound)| >= FRAME_SIZE ==>
                !exit && stopped == old(stopped) && inbound == old(inbound)[FRAME_SIZE..] &&
                buf[..] == old(inbound)[..FRAME_SIZE] && imageIn == old(imageIn) + [buf]
    {
      var n := if |inbound| < FRAME_SIZE then |inbound| else FRAME_SIZE;
      forall i | 0 <= i < n {
        buf[i] := inbound[i];
      }
      if n < FRAME_SIZE {
        stopped, inbound := true, [];
        assert buf[..] == old(inbound) + old(buf[..])[n..];
        return true;
      }
      inbound := inbound[FRAME_SIZE..];
      imageIn := imageIn + [buf];
      assert buf[..] == old(inbound)[..FRAME_SIZE];
      exit := false;
    }

    /**
     * The reader with the image cloned before it is queued: the queued
     * entry is new storage holding the frame just read.
     */
    method ReceiverStepCloned() returns (exit: bool, image: array<byte>)
      requires buf.Length == FRAME_SIZE
      modifies this`inbound, this`imageIn, this`stopped, buf
      ensures |old(inbound)| < FRAME_SIZE ==>
                exit && stopped && inbound == [] && imageIn == old(imageIn)
      ensures |old(inbound)| >= FRAME_SIZE ==>
                !exit && stopped == old(stopped) && inbound == old(inbound)[FRAME_SIZE..] &&
                fresh(image) && image[..] == old(inbound)[..FRAME_SIZE] && imageIn == old(imageIn) + [image]
    {
      exit := ReceiverStep();
      image := new byte[FRAME_SIZE];
      if exit {
        return;
      }
      forall i | 0 <= i < FRAME_SIZE {
        image[i] := buf[i];
      }
      imageIn := imageIn[..|imageIn| - 1] + [image];
    }
  }

  /**
   * Two frames read as written: by the time the worker takes the first
   * queued image, it shows the second frame's pixels.
   */
  method TwoFramesAlias(f1: seq<byte>, f2: seq<byte>) returns (first: Mat, second: Mat)
    requires |f1| == FRAME_SIZE && |f2| == FRAME_SIZE
    ensures first == ImageOf(f2) && second == ImageOf(f2)
  {
    var s := new Session(f1 + f2);
    var exit := s.ReceiverStep();
    assert s.inbound == f2;
    exit := s.ReceiverStep();
    first := ImageOf(s.imageIn[0][..]);
    second := ImageOf(s.imageIn[1][..]);
  }

  /** Two frames read with the clone: each queued image keeps its own frame. */
  method TwoFramesKept(f1: seq<byte>, f2: seq<byte>) returns (first: Mat, second: Mat)
    requires |f1| == FRAME_SIZE && |f2| == FRAME_SIZE
    ensures first == ImageOf(f1) && second == ImageOf(f2)
  {
    var s := new Session(f1 + f2);
    var exit, a := s.ReceiverStepCloned();
    assert s.inbound == f2 && a[..] == f1;
    var b;
    exit, b := s.ReceiverStepCloned();
    first := ImageOf(s.imageIn[0][..]);
    second := ImageOf(s.imageIn[1][..]);
  }

  /**
   * As written: an estimate whose writes both fail leaves the session
   * running, and the sender then waits on an empty queue instead of ending.
   */
  method FailedSendUnnoticed(res: OpenPoseResult, serialize: Json -> Payload)
    returns (stoppedAfter: bool, exitNext: bool)
    ensures !stoppedAfter && !exitNext
  {
    var s := new Session([]);
    s.results := [res];
    var exit := s.SenderStep(serialize, false, false);
    stoppedAfter := s.stopped;
    exitNext := s.SenderStep(serialize, true, true);
  }

  /** With the handlers run: the failed writes stop the session and the sender's next pass ends it. */
  method FailedSendNoticed(res: OpenPoseResult, serialize: Json -> Payload)
    returns (stoppedAfter: bool, exitNext: bool)
    ensures stoppedAfter && exitNext
  {
    var s := new Session([]);
    s.results := [res];
    var exit := s.SenderStepHandled(serialize, false, false);
    stoppedAfter := s.stopped;
    exitNext := s.SenderStepHandled(serialize, true, true);
  }
}
