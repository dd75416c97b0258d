/**
 * The pose-estimation client with the threads taken out, built as the face
 * client is: a `Client` holds the capture's two queues, the queue of parsed
 * results, both directions of the socket and the frames shown. It differs
 * in the frame size, in its loop guard, and in what it draws.
 */
module PoseClient {
  import opened Wrappers
  import opened Bytes
  import opened Json
  import opened Vision
  import opened StreamGuard
  import opened ClientIo
  import opened PoseDrawing

  const FRAME_COLS: int := 368
  const FRAME_ROWS: int := 368

  /** A frame shown with the circles and lines drawn on it. */
  datatype Shown = Shown(frame: Mat, drawings: seq<Drawing>)

  /** How one pass of `show_result` ends. */
  datatype ShowOutcome =
    | Showed          // a frame was drawn and shown
    | ResultTimeout   // no result arrived
    | FrameTimeout    // a result arrived, its frame did not; the result is dropped
    | Fault           // reading the result threw

  class Client {
    /** `frame_count`: 0 for a camera. */
    const frameCount: FrameCount
    /** `image_in`: captured frames waiting to be sent. */
    var imageIn: seq<Mat>
    /** `image_in_`: the same frames, kept to draw the results on. */
    var retained: seq<Mat>
    /** `result`: parsed results waiting to be shown. */
    var results: seq<Json>
    /** Bytes `send_frame` has written. */
    var outbound: seq<byte>
    /** Bytes the server sends that `recv_result` has not consumed yet. */
    var inbound: seq<byte>
    /** Frames `show_result` has displayed, in order. */
    var shown: seq<Shown>

    /** `fileFrames` is what the capture reports as its frame count. */
    constructor (path: string, fileFrames: FrameCount, serverBytes: seq<byte>)
      ensures frameCount == (if IsCameraDevice(path) then 0 else fileFrames)
      ensures imageIn == [] && retained == [] && results == [] && shown == []
      ensures outbound == [] && inbound == serverBytes
    {
      frameCount := if IsCameraDevice(path) then 0 else fileFrames;
      imageIn, retained, results, shown := [], [], [], [];
      outbound, inbound := [], serverBytes;
    }

    /** One pass of `read_image`: an empty capture ends it; a frame is fitted and queued twice. */
    method CaptureStep(next: Option<Mat>, resize: Mat -> Mat) returns (exit: bool)
      modifies this`imageIn, this`retained
      ensures next.None? ==> exit && imageIn == old(imageIn) && retained == old(retained)
      ensures next.Some? ==>
                !exit && imageIn == old(imageIn) + [Fitted(next.value, FRAME_COLS, FRAME_ROWS, resize)] &&
                retained == old(retained) + [Fitted(next.value, FRAME_COLS, FRAME_ROWS, resize)]
    {
      if next.None? {
        return true;
      }
      var frame := next.value;
      if frame.cols != FRAME_COLS || frame.rows != FRAME_ROWS {
        frame := resize(frame);
      }
      imageIn := imageIn + [frame];
      retained := retained + [frame];
      exit := false;
    }

    /** `read_image` over a capture yielding `frames`, then an empty frame. */
    method CaptureAll(frames: seq<Mat>, resize: Mat -> Mat)
      modifies this`imageIn, this`retained
      ensures imageIn == old(imageIn) + FittedAll(frames, FRAME_COLS, FRAME_ROWS, resize)
      ensures retained == old(retained) + FittedAll(frames, FRAME_COLS, FRAME_ROWS, resize)
    {
      for i := 0 to |frames|
        invariant imageIn == old(imageIn) + FittedAll(frames[..i], FRAME_COLS, FRAME_ROWS, resize)
        invariant retained == old(retained) + FittedAll(frames[..i], FRAME_COLS, FRAME_ROWS, resize)
      {
        var exit := CaptureStep(Some(frames[i]), resize);
        assert FittedAll(frames[..i + 1], FRAME_COLS, FRAME_ROWS, resize) ==
               FittedAll(frames[..i], FRAME_COLS, FRAME_ROWS, resize) + [Fitted(frames[i], FRAME_COLS, FRAME_ROWS, resize)];
      }
      var exit := CaptureStep(None, resize);
      assert frames[..|frames|] == frames;
    }

    /** One pass of `send_frame` after the guard: no frame means a timeout; else its raw pixels are written. */
    method SendStep() returns (timedOut: bool)
      modifies this`imageIn, this`outbound
      ensures old(imageIn) == [] ==> timedOut && imageIn == old(imageIn) && outbound == old(outbound)
      ensures old(imageIn) != [] ==>
                !timedOut && imageIn == old(imageIn)[1..] && outbound == old(outbound) + old(imageIn)[0].data
    {
      if imageIn == [] {
        return true;
      }
      var frame := imageIn[0];
      imageIn := imageIn[1..];
      outbound := outbound + frame.data;
      timedOut := false;
    }

    /**
     * `send_frame`: as many frames as both the queue and the guard allow
     * are sent, in order, as raw pixels.
     */
    method SendFrames() returns (sent: nat)
      modifies this`imageIn, this`outbound
      ensures sent == Min(|old(imageIn)|, PosePasses(frameCount))
      ensures imageIn == old(imageIn)[sent..]
      ensures outbound == old(outbound) + Pixels(old(imageIn)[..sent])
    {
      ghost var queued := imageIn;
      sent := 0;
      var count: SizeT := 0;
      while true
        invariant count == sent <= PosePasses(frameCount) && sent <= |queued|
        invariant imageIn == queued[sent..]
        invariant outbound == old(outbound) + Pixels(queued[..sent])
        decreases PosePasses(frameCount) - sent
      {
        PoseGuardPasses(count, frameCount);
        count := Inc(count);
        if count == frameCount {
          break;
        }
        var timedOut := SendStep();
        if timedOut {
          break;
        }
        assert queued[..sent + 1][..sent] == queued[..sent];
        sent := sent + 1;
      }
    }

    /** One pass of `recv_result` after the guard; `ok` is false where a read or the parse throws. */
    method ReceiveStep(parse: seq<byte> -> Option<Json>) returns (ok: bool)
      modifies this`inbound, this`results
      ensures ReceiveOne(old(inbound), parse).None? ==> !ok && inbound == old(inbound) && results == old(results)
      ensures ReceiveOne(old(inbound), parse).Some? ==>
                ok && results == old(results) + [ReceiveOne(old(inbound), parse).value.0] &&
                inbound == ReceiveOne(old(inbound), parse).value.1
    {
      if |inbound| < SIZE_BYTES {
        return false;
      }
      var resultSize := DecodeSize(inbound[..SIZE_BYTES]);
      if |inbound| - SIZE_BYTES < resultSize {
        return false;
      }
      var resultData := inbound[SIZE_BYTES..SIZE_BYTES + resultSize];
      var resultJson := parse(resultData);
      if resultJson.None? {
        return false;
      }
      inbound := inbound[SIZE_BYTES + resultSize..];
      results := results + [resultJson.value];
      ok := true;
    }

    /**
     * `recv_result`: each pass the guard allows receives one result; the
     * results so far are those `ReceiveMany` reads, and a fault is a pass
     * whose read or parse throws.
     */
    method ReceiveResults(parse: seq<byte> -> Option<Json>) returns (received: nat, faulted: bool)
      modifies this`inbound, this`results
      ensures received <= PosePasses(frameCount)
      ensures |results| == |old(results)| + received && results[..|old(results)|] == old(results)
      ensures ReceiveMany(old(inbound), received, parse) == Some((results[|old(results)|..], inbound))
      ensures !faulted ==> received == PosePasses(frameCount)
      ensures faulted ==> received < PosePasses(frameCount) && ReceiveMany(old(inbound), received + 1, parse).None?
    {
      received, faulted := 0, false;
      assert results[|old(results)|..] == [];
      var count: SizeT := 0;
      while true
        invariant count == received <= PosePasses(frameCount) && !faulted
        invariant |results| == |old(results)| + received && results[..|old(results)|] == old(results)
        invariant ReceiveMany(old(inbound), received, parse) == Some((results[|old(results)|..], inbound))
        decreases PosePasses(frameCount) - received
      {
        PoseGuardPasses(count, frameCount);
        count := Inc(count);
        if count == frameCount {
          break;
        }
        ghost var before := results;
        var ok := ReceiveStep(parse);
        if !ok {
          ReceiveManyNext(old(inbound), received, parse);
          faulted := true;
          break;
        }
        ReceiveManyNext(old(inbound), received, parse);
        assert results[|old(results)|..] == before[|old(results)|..] + [results[|results| - 1]];
        received := received + 1;
      }
    }

    /**
     * One pass of `show_result` after the guard: take a result, then its
     * frame, then draw the poses the result holds on the frame.
     */
    method ShowStep() returns (outcome: ShowOutcome)
      modifies this`results, this`retained, this`shown
      ensures old(results) == [] ==>
                outcome == ResultTimeout && results == old(results) && retained == old(retained) && shown == old(shown)
      ensures old(results) != [] && old(retained) == [] ==>
                outcome == FrameTimeout && results == old(results)[1..] && retained == old(retained) && shown == old(shown)
      ensures old(results) != [] && old(retained) != [] ==>
                results == old(results)[1..] && retained == old(retained)[1..] &&
                (ResultDrawings(old(results)[0]).None? ==> outcome == Fault && shown == old(shown)) &&
                (ResultDrawings(old(results)[0]).Some? ==>
                   outcome == Showed && shown == old(shown) + [Shown(old(retained)[0], ResultDrawings(old(results)[0]).value)])
    {
      if results == [] {
        return ResultTimeout;
      }
      var resultJson := results[0];
      results := results[1..];
      if retained == [] {
        return FrameTimeout;
      }
      var frame := retained[0];
      retained := retained[1..];
      var drawings := DrawResult(resultJson);
      if drawings.None? {
        return Fault;
      }
      shown := shown + [Shown(frame, drawings.value)];
      outcome := Showed;
    }

    /**
     * `show_result`: pass i shows frame i with the poses of result i, until
     * the guard ends the loop (`stop` is None) or a pass does not show.
     */
    method ShowResults() returns (showed: nat, stop: Option<ShowOutcome>)
      modifies this`results, this`retained, this`shown
      ensures showed <= PosePasses(frameCount) && showed <= |old(results)| && showed <= |old(retained)|
      ensures |shown| == |old(shown)| + showed && shown[..|old(shown)|] == old(shown)
      ensures forall i :: 0 <= i < showed ==>
                ResultDrawings(old(results)[i]).Some? &&
                shown[|old(shown)| + i] == Shown(old(retained)[i], ResultDrawings(old(results)[i]).value)
      ensures stop.None? ==> showed == PosePasses(frameCount)
      ensures stop.Some? ==> stop.value != Showed && showed < PosePasses(frameCount)
      ensures stop.None? ==> results == old(results)[showed..] && retained == old(retained)[showed..]
      ensures stop == Some(ResultTimeout) ==>
                showed == |old(results)| && results == [] && retained == old(retained)[showed..]
      ensures stop == Some(FrameTimeout) ==>
                showed == |old(retained)| < |old(results)| && results == old(results)[showed + 1..] && retained == []
      ensures stop == Some(Fault) ==>
                showed < |old(results)| && showed < |old(retained)| && ResultDrawings(old(results)[showed]).None? &&
                results == old(results)[showed + 1..] && retained == old(retained)[showed + 1..]
    {
      ghost var rs, fs, s0 := results, retained, shown;
      showed, stop := 0, None;
      var count: SizeT := 0;
      while true
        invariant count == showed <= PosePasses(frameCount) && stop.None?
        invariant showed <= |rs| && showed <= |fs|
        invariant results == rs[showed..] && retained == fs[showed..]
        invariant |shown| == |s0| + showed && shown[..|s0|] == s0
        invariant forall i :: 0 <= i < showed ==>
                    ResultDrawings(rs[i]).Some? && shown[|s0| + i] == Shown(fs[i], ResultDrawings(rs[i]).value)
        decreases PosePasses(frameCount) - showed
      {
        PoseGuardPasses(count, frameCount);
        count := Inc(count);
        if count == frameCount {
          break;
        }
        var outcome := ShowStep();
        if outcome != Showed {
          if showed < |rs| {
            assert rs[showed..][1..] == rs[showed + 1..];
          }
          if showed < |fs| {
            assert fs[showed..][1..] == fs[showed + 1..];
          }
          stop := Some(outcome);
          break;
        }
        showed := showed + 1;
      }
    }
  }
}
