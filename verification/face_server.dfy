/**
 * The face-detection server's per-connection pipeline with the threads
 * taken out. A `Session` holds the two hand-off queues, the shared
 * `already_stopped` flag and the two directions of the socket; each stage's
 * loop body is one method. A condition-variable wait whose predicate is
 * "queue not empty" comes back with the queue empty exactly when it timed
 * out, so a step that finds its queue empty is the timed-out case.
 */
module FaceServer {
  import opened Bytes
  import opened Framing
  import opened Json
  import opened Vision
  import opened FaceJson
  import opened ClientIo

  /** Width and height the detector is given. */
  const MODEL_COLS: int := 640
  const MODEL_ROWS: int := 360

  /** The worker's resize test, as written: both dimensions must differ. */
  predicate NeedsResize(m: Mat)
  {
    m.rows != MODEL_ROWS && m.cols != MODEL_COLS
  }

  /** The image handed to the detector: resized when `NeedsResize`, else as received. */
  function Prepared(m: Mat, resize: Mat -> Mat): Mat
  {
    if NeedsResize(m) then resize(m) else m
  }

  /** A 360-row frame of any width reaches the detector unchanged. */
  lemma SameRowsNotResized(cols: int, data: seq<byte>, resize: Mat -> Mat)
    ensures Prepared(Mat(MODEL_ROWS, cols, data), resize) == Mat(MODEL_ROWS, cols, data)
  {
  }

  /**
   * The worker's test against the clients' `Fitted`: they agree on a frame
   * whose two dimensions both match or both differ; a frame with exactly one
   * matching dimension passes the worker unresized.
   */
  lemma PreparedVersusFitted(m: Mat, resize: Mat -> Mat)
    ensures (m.rows == MODEL_ROWS) == (m.cols == MODEL_COLS) ==>
              Prepared(m, resize) == Fitted(m, MODEL_COLS, MODEL_ROWS, resize)
    ensures (m.rows == MODEL_ROWS) != (m.cols == MODEL_COLS) ==> Prepared(m, resize) == m
    ensures Prepared(m, resize) != m ==> Prepared(m, resize) == Fitted(m, MODEL_COLS, MODEL_ROWS, resize)
  {
  }

  /** A 480x360 frame skips the worker's resize, though the clients would resize it. */
  lemma BothTestLetsOtherSizesThrough(resize: Mat -> Mat)
    ensures Prepared(Mat(360, 480, []), resize) == Mat(360, 480, [])
    ensures Fitted(Mat(360, 480, []), MODEL_COLS, MODEL_ROWS, resize) == resize(Mat(360, 480, []))
  {
  }

  /** The box of a rectangle with the origin clamped as the serialiser writes it. */
  lemma ClampedBox(r: FaceRect, width: int, height: int)
    ensures BoxOf(r, width, height, true) ==
            Box(Trunc((if r.x < 0.0 then 0.0 else r.x) * width as real),
                Trunc((if r.y < 0.0 then 0.0 else r.y) * height as real),
                Trunc(r.width * width as real), Trunc(r.height * height as real))
  {
    assert Origin(r.x, true) == (if r.x < 0.0 then 0.0 else r.x);
    assert Origin(r.y, true) == (if r.y < 0.0 then 0.0 else r.y);
  }

  /** One rectangle's object, assigned field by field with the origin clamped at 0. */
  method RectToJson(r: FaceRect, width: int, height: int) returns (pos: Json)
    ensures pos == BoxJson(BoxOf(r, width, height, true))
  {
    var x := Trunc((if r.x < 0.0 then 0.0 else r.x) * width as real);
    var y := Trunc((if r.y < 0.0 then 0.0 else r.y) * height as real);
    var sizeCol := Trunc(r.width * width as real);
    var sizeRow := Trunc(r.height * height as real);
    var ms: seq<Member> := [];
    ms := Put(ms, "x", Int(x));
    ms := Put(ms, "y", Int(y));
    ms := Put(ms, "size_col", Int(sizeCol));
    ms := Put(ms, "size_row", Int(sizeRow));
    BoxByAssignments(Box(x, y, sizeCol, sizeRow));
    ClampedBox(r, width, height);
    pos := Object(ms);
  }

  /**
   * `result_to_json_string` up to the text form: builds the object member by
   * member with `operator[]`, numbering rectangles with `++num`.
   */
  method ResultToJson(res: FaceDetectResult) returns (j: Json)
    ensures j == FaceObject(res, true)
  {
    var members: seq<Member> := [];
    members := Put(members, "num", Int(|res.rects|));
    members := Put(members, "height", Int(res.height));
    members := Put(members, "width", Int(res.width));
    FaceObjectComplete(res, true);
    var num := 0;
    for i := 0 to |res.rects|
      invariant num == i
      invariant members == FaceObject(res, true).members[..3 + i]
    {
      var pos := RectToJson(res.rects[i], res.width, res.height);
      num := num + 1;
      PutNextRect(res, true, i, members);
      members := Put(members, NatToString(num), pos);
    }
    j := Object(members);
  }

  /** `max_size()` of a `std::vector<uchar>`: `PTRDIFF_MAX` on a 64-bit target. */
  const VECTOR_MAX_SIZE: int := 0x7FFF_FFFF_FFFF_FFFF

  /** What `tcp_recv` makes of the bytes the client has sent. */
  datatype Received =
    | ReadFailed                             // short read: the connection ended
    | Terminated(rest: seq<byte>)            // `std::vector` of that length throws; nothing catches it
    | EmptyImage(rest: seq<byte>)            // a zero length prefix
    | Encoded(image: Payload, rest: seq<byte>)

  /**
   * One `tcp_recv` iteration: a `size_t` prefix, a `std::vector` of that
   * length, then that many bytes of encoded image.
   */
  function ReceiveImage(inbound: seq<byte>): (r: Received)
    ensures r.Terminated? <==>
              |inbound| >= SIZE_BYTES && DecodeSize(inbound[..SIZE_BYTES]) > VECTOR_MAX_SIZE
    ensures r.Terminated? ==> r.rest == inbound[SIZE_BYTES..]
    ensures r.ReadFailed? ==> ReadFrame(inbound).ShortRead?
    ensures r.Encoded? ==> r.image != [] && inbound == Frame(r.image) + r.rest
    ensures r.EmptyImage? ==> inbound == Frame([]) + r.rest
  {
    ReadFrameSpec(inbound);
    if |inbound| >= SIZE_BYTES && DecodeSize(inbound[..SIZE_BYTES]) > VECTOR_MAX_SIZE then
      Terminated(inbound[SIZE_BYTES..])
    else
      match ReadFrame(inbound)
      case ShortRead => ReadFailed
      case Message(p, rest) => if p == [] then EmptyImage(rest) else Encoded(p, rest)
  }

  class Session {
    /** `image_in`: decoded frames waiting for the detector. */
    var imageIn: seq<Mat>
    /** `result`: detections waiting to be sent back. */
    var results: seq<FaceDetectResult>
    /** `already_stopped` */
    var stopped: bool
    /** Bytes the client sends that `tcp_recv` has not consumed yet. */
    var inbound: seq<byte>
    /** Bytes `tcp_send` has put on the socket so far. */
    var outbound: seq<byte>
    /** An uncaught exception has called `std::terminate`: the whole server process is gone. */
    var terminated: bool

    constructor (clientBytes: seq<byte>)
      ensures imageIn == [] && results == [] && !stopped && !terminated
      ensures inbound == clientBytes && outbound == []
    {
      imageIn, results, stopped, terminated := [], [], false, false;
      inbound, outbound := clientBytes, [];
    }

    /**
     * One pass of `face_detect`. An empty queue ends the stage if the session
     * is stopped and otherwise changes nothing; a frame is taken from the
     * head, prepared, run through the detector, and its result appended.
     */
    method WorkerStep(run: Mat -> FaceDetectResult, resize: Mat -> Mat) returns (exit: bool)
      modifies this`imageIn, this`results
      ensures old(imageIn) == [] ==> exit == stopped && imageIn == old(imageIn) && results == old(results)
      ensures old(imageIn) != [] ==>
                !exit && imageIn == old(imageIn)[1..] &&
                results == old(results) + [run(Prepared(old(imageIn)[0], resize))]
    {
      if imageIn == [] {
        return stopped;
      }
      var image := imageIn[0];
      imageIn := imageIn[1..];
      if image.rows != MODEL_ROWS && image.cols != MODEL_COLS {
        image := resize(image);
      }
      var result := run(image);
      results := results + [result];
      exit := false;
    }

    /**
     * One pass of `tcp_send`, as written: an empty queue ends the stage if
     * stopped; otherwise the head result is serialised and handed to two
     * `async_write`s, a length, then the payload. No thread runs the
     * `io_service`, so the completion handlers never run: a write that fails
     * leaves `stopped` as it was and the stage goes on.
     */
    method SenderStep(serialize: Json -> Payload, lengthSent: bool, payloadSent: bool) returns (exit: bool)
      modifies this`results, this`outbound
      ensures old(results) == [] ==> exit == stopped && results == old(results) && outbound == old(outbound)
      ensures old(results) != [] ==>
                var p := serialize(FaceObject(old(results)[0], true));
                && !exit && results == old(results)[1..]
                && outbound == old(outbound) + (if lengthSent then EncodeSize(|p|) else []) + (if payloadSent then p else [])
      ensures old(results) != [] && lengthSent && payloadSent ==>
                outbound == old(outbound) + Frame(serialize(FaceObject(old(results)[0], true)))
    {
      if results == [] {
        return stopped;
      }
      var result := results[0];
      results := results[1..];
      var json := ResultToJson(result);
      var data := serialize(json);
      if lengthSent {
        outbound := outbound + EncodeSize(|data|);
      }
      if payloadSent {
        outbound := outbound + data;
      }
      exit := false;
    }

    /**
     * One pass of `tcp_send` with its completion handlers run, as they are
     * written to be: a failed write sets `stopped` and the stage goes on.
     */
    method SenderStepHandled(serialize: Json -> Payload, lengthSent: bool, payloadSent: bool) returns (exit: bool)
      modifies this`results, this`outbound, this`stopped
      ensures old(results) == [] ==>
                exit == old(stopped) && stopped == old(stopped) && results == old(results) && outbound == old(outbound)
      ensures old(results) != [] ==>
                var p := serialize(FaceObject(old(results)[0], true));
                && !exit && results == old(results)[1..]
                && outbound == old(outbound) + (if lengthSent then EncodeSize(|p|) else []) + (if payloadSent then p else [])
                && stopped == (old(stopped) || !lengthSent || !payloadSent)
      ensures old(results) != [] && lengthSent && payloadSent ==>
                outbound == old(outbound) + Frame(serialize(FaceObject(old(results)[0], true)))
    {
      if results == [] {
        return stopped;
      }
      var result := results[0];
      results := results[1..];
      var json := ResultToJson(result);
      var data := serialize(json);
      if lengthSent {
        outbound := outbound + EncodeSize(|data|);
      } else {
        stopped := true;
      }
      if payloadSent {
        outbound := outbound + data;
      } else {
        stopped := true;
      }
      exit := false;
    }

    /**
     * One pass of `tcp_recv`: a short read sets `stopped` and ends the stage;
     * a length `std::vector` cannot hold throws `length_error`, which ends
     * the process; a zero length ends the stage without setting `stopped`;
     * otherwise the bytes are decoded and exactly one image is queued.
     */
    method ReceiverStep(imdecode: seq<byte> -> Mat) returns (exit: bool)
      modifies this`inbound, this`imageIn, this`stopped, this`terminated
      ensures ReceiveImage(old(inbound)).ReadFailed? ==>
                exit && stopped && terminated == old(terminated) && imageIn == old(imageIn) && inbound == []
      ensures ReceiveImage(old(inbound)).Terminated? ==>
                exit && terminated && stopped == old(stopped) && imageIn == old(imageIn) &&
                inbound == ReceiveImage(old(inbound)).rest
      ensures ReceiveImage(old(inbound)).EmptyImage? ==>
                exit && stopped == old(stopped) && terminated == old(terminated) && imageIn == old(imageIn) &&
                inbound == ReceiveImage(old(inbound)).rest
      ensures ReceiveImage(old(inbound)).Encoded? ==>
                !exit && stopped == old(stopped) && terminated == old(terminated) && inbound == ReceiveImage(old(inbound)).rest &&
                imageIn == old(imageIn) + [imdecode(ReceiveImage(old(inbound)).image)]
    {
      if |inbound| < SIZE_BYTES {
        stopped, inbound := true, [];
        return true;
      }
      var frameSize := DecodeSize(inbound[..SIZE_BYTES]);
      if frameSize > VECTOR_MAX_SIZE {
        terminated, inbound := true, inbound[SIZE_BYTES..];
        return true;
      }
      if |inbound| - SIZE_BYTES < frameSize {
        stopped, inbound := true, [];
        return true;
      }
      var buf := inbound[SIZE_BYTES..SIZE_BYTES + frameSize];
      inbound := inbound[SIZE_BYTES + frameSize..];
      if buf == [] {
        return true;
      }
      imageIn := imageIn + [imdecode(buf)];
      exit := false;
    }

    /**
     * The worker's loop run while frames are queued: every queued frame
     * yields one result, in arrival order, and the queue ends up empty.
     */
    method DrainImages(run: Mat -> FaceDetectResult, resize: Mat -> Mat)
      modifies this`imageIn, this`results
      ensures imageIn == []
      ensures |results| == |old(results)| + |old(imageIn)|
      ensures results[..|old(results)|] == old(results)
      ensures forall i :: 0 <= i < |old(imageIn)| ==>
                results[|old(results)| + i] == run(Prepared(old(imageIn)[i], resize))
    {
      ghost var queued := imageIn;
      ghost var before := results;
      while imageIn != []
        invariant |results| - |before| + |imageIn| == |queued|
        invariant imageIn == queued[|queued| - |imageIn|..]
        invariant results[..|before|] == before
        invariant forall i :: 0 <= i < |results| - |before| ==>
                    results[|before| + i] == run(Prepared(queued[i], resize))
        decreases |imageIn|
      {
        var exit := WorkerStep(run, resize);
      }
    }
  }

  /**
   * The face client sends raw pixels with no length prefix. An all-black
   * 640x360 frame starts with eight zero bytes, which this reader takes as a
   * zero length: it stops without queueing anything.
   */
  lemma RawBlackFrameReadAsEmpty(rest: seq<byte>)
    ensures var black := seq(MODEL_ROWS * MODEL_COLS * 3, _ => 0 as byte);
            ReceiveImage(black + rest).EmptyImage?
  {
    var black := seq(MODEL_ROWS * MODEL_COLS * 3, _ => 0 as byte);
    var s := black + rest;
    FromLittleEndianZeros(s[..SIZE_BYTES]);
  }

  /**
   * A raw 640x360 frame whose third pixel has a green value of 0x80 or more
   * is read as a length of at least 2^63, which no `std::vector` can hold:
   * the server process ends.
   */
  lemma RawFrameTerminates(pixels: seq<byte>, rest: seq<byte>)
    requires |pixels| == MODEL_ROWS * MODEL_COLS * 3 && pixels[7] >= 0x80
    ensures ReceiveImage(pixels + rest).Terminated?
  {
    var s := pixels + rest;
    assert s[..SIZE_BYTES][SIZE_BYTES - 1] == pixels[7];
    DecodeSizeTopBit(s[..SIZE_BYTES]);
  }

  /**
   * As written: a result whose writes both fail leaves the session running,
   * and the sender then waits on an empty queue instead of ending.
   */
  method FailedSendUnnoticed(res: FaceDetectResult, serialize: Json -> Payload)
    returns (stoppedAfter: bool, exitNext: bool)
    ensures !stoppedAfter && !exitNext
  {
    var s := new Session([]);
    s.results := [res];
    var exit := s.SenderStep(serialize, false, false);
    stoppedAfter := s.stopped;
    exitNext := s.SenderStep(serialize, true, true);
  }

  /** With the handlers run: the failed writes stop the session and the sender's next pass ends it. */
  method FailedSendNoticed(res: FaceDetectResult, serialize: Json -> Payload)
    returns (stoppedAfter: bool, exitNext: bool)
    ensures stoppedAfter && exitNext
  {
    var s := new Session([]);
    s.results := [res];
    var exit := s.SenderStepHandled(serialize, false, false);
    stoppedAfter := s.stopped;
    exitNext := s.SenderStepHandled(serialize, true, true);
  }
}
