/**
 * The face-detection client with the threads taken out. A `Client` holds
 * the capture's two queues (frames to send, frames to draw on), the queue
 * of parsed results, both directions of the socket and the frames shown.
 * Each thread's loop body is one step method and each loop one method; a
 * timed wait on a queue comes back empty exactly when it timed out.
 */
module FaceClient {
  import opened Wrappers
  import opened Bytes
  import opened Json
  import opened Vision
  import opened FaceJson
  import opened StreamGuard
  import opened ClientIo

  const FRAME_COLS: int := 640
  const FRAME_ROWS: int := 360

  /** `face[k].as_int64()`: the integer under `k`, or None where the read throws. */
  function IntField(fs: seq<Member>, k: string): (r: Option<int>)
    ensures r.Some? <==> Get(fs, k).Some? && Get(fs, k).value.Int?
    ensures r.Some? ==> Get(fs, k) == Some(Int(r.value))
  {
    match Get(fs, k)
    case Some(Int(v)) => Some(v)
    case _ => None
  }

  /** The four integer fields of a rectangle's object, or None where a read throws. */
  function ReadBox(fs: seq<Member>): Option<Box>
  {
    var x, y, c, r := IntField(fs, "x"), IntField(fs, "y"), IntField(fs, "size_col"), IntField(fs, "size_row");
    if x.Some? && y.Some? && c.Some? && r.Some? then Some(Box(x.value, y.value, c.value, r.value)) else None
  }

  /** The box the client reads under `to_string(i)`, or None where a read throws. */
  function FaceAt(ms: seq<Member>, i: nat): Option<Box>
  {
    var face := Get(ms, NatToString(i));
    if face.Some? && face.value.Object? then ReadBox(face.value.members) else None
  }

  /** Boxes 1..k in order, or None if reading any of them throws. */
  function FacesUpTo(ms: seq<Member>, k: nat): (r: Option<seq<Box>>)
    ensures r.Some? ==> |r.value| == k
  {
    if k == 0 then Some([])
    else match FacesUpTo(ms, k - 1)
      case None => None
      case Some(bs) =>
        match FaceAt(ms, k)
        case None => None
        case Some(b) => Some(bs + [b])
  }

  /** The boxes `show_result` draws for a result: `num`, then boxes 1..num; None where it throws. */
  function DecodeFaces(j: Json): Option<seq<Box>>
  {
    match j
    case Object(ms) =>
      (match Get(ms, "num")
       case Some(Int(n)) => if n <= 0 then Some([]) else FacesUpTo(ms, n)
       case _ => None)
    case _ => None
  }

  /** Once a box cannot be read, no longer run of boxes can be. */
  lemma {:induction false} FacesUpToNone(ms: seq<Member>, i: nat, k: nat)
    requires i <= k && FacesUpTo(ms, i).None?
    ensures FacesUpTo(ms, k).None?
  {
    if i < k {
      FacesUpToNone(ms, i, k - 1);
    }
  }

  /** One more box: the run grows by it, or fails when it cannot be read. */
  lemma FacesUpToNext(ms: seq<Member>, k: nat)
    ensures FacesUpTo(ms, k).Some? && FaceAt(ms, k + 1).Some? ==>
              FacesUpTo(ms, k + 1) == Some(FacesUpTo(ms, k).value + [FaceAt(ms, k + 1).value])
    ensures FacesUpTo(ms, k).None? || FaceAt(ms, k + 1).None? ==> FacesUpTo(ms, k + 1).None?
  {
  }

  /** Boxes that read back one by one read back as a run. */
  lemma {:induction false} FacesUpToAll(ms: seq<Member>, bs: seq<Box>, k: nat)
    requires k <= |bs|
    requires forall i :: 1 <= i <= k ==> FaceAt(ms, i) == Some(bs[i - 1])
    ensures FacesUpTo(ms, k) == Some(bs[..k])
  {
    if k > 0 {
      var before, b := bs[..k - 1], bs[k - 1];
      assert FacesUpTo(ms, k - 1) == Some(before) by {
        FacesUpToAll(ms, bs, k - 1);
      }
      assert FaceAt(ms, k) == Some(b);
      FacesUpToNext(ms, k - 1);
      assert FacesUpTo(ms, k) == Some(before + [b]);
      assert bs[..k] == before + [b];
    }
  }

  /** The client reads back exactly the boxes the server wrote, in order. */
  lemma DecodeFacesOfFaceObject(res: FaceDetectResult, clamp: bool)
    ensures DecodeFaces(FaceObject(res, clamp)) == Some(Boxes(res, clamp))
  {
    var ms := FaceObject(res, clamp).members;
    var bs := Boxes(res, clamp);
    FaceHeader(res, clamp);
    forall i | 1 <= i <= |bs| ensures FaceAt(ms, i) == Some(bs[i - 1]) {
      FaceBoxLookup(res, clamp, i);
      BoxFields(bs[i - 1]);
    }
    FacesUpToAll(ms, bs, |bs|);
    assert bs[..|bs|] == bs;
  }

  /**
   * `as_int64()` after `obj[k] = v` with an integer `v`: key `k` reads back
   * as `v`, and every other key reads as it did before.
   */
  lemma IntFieldOfPut(fs: seq<Member>, k: string, v: int, k': string)
    ensures IntField(Put(fs, k, Int(v)), k) == Some(v)
    ensures k' != k ==> IntField(Put(fs, k, Int(v)), k') == IntField(fs, k')
  {
    PutGetSame(fs, k, Int(v));
    if k' != k {
      PutGetOther(fs, k, Int(v), k');
    }
  }

  /** The four fields of a box object read back as the box. */
  lemma BoxFields(b: Box)
    ensures IntField(BoxJson(b).members, "x") == Some(b.x)
    ensures IntField(BoxJson(b).members, "y") == Some(b.y)
    ensures IntField(BoxJson(b).members, "size_col") == Some(b.sizeCol)
    ensures IntField(BoxJson(b).members, "size_row") == Some(b.sizeRow)
  {
    var fs := BoxJson(b).members;
    assert fs[0].key[0] == 'x' && fs[1].key[0] == 'y' && fs[2].key[5] == 'c' && fs[3].key[5] == 'r';
    assert UniqueKeys(fs);
    GetMember(fs, 0);
    GetMember(fs, 1);
    GetMember(fs, 2);
    GetMember(fs, 3);
  }

  /** One pass of the drawing loop: the object under `to_string(i)` and its four integers. */
  method ReadFace(ms: seq<Member>, i: nat) returns (r: Option<Box>)
    ensures r == FaceAt(ms, i)
  {
    var face := Get(ms, NatToString(i));
    if !(face.Some? && face.value.Object?) {
      return None;
    }
    var fs := face.value.members;
    var x := IntField(fs, "x");
    var y := IntField(fs, "y");
    var sizeCol := IntField(fs, "size_col");
    var sizeRow := IntField(fs, "size_row");
    if x.None? || y.None? || sizeCol.None? || sizeRow.None? {
      return None;
    }
    return Some(Box(x.value, y.value, sizeCol.value, sizeRow.value));
  }

  /** The drawing loop of `show_result`: boxes 1..num in order, stopping where a read throws. */
  method ReadBoxes(ms: seq<Member>, num: int) returns (r: Option<seq<Box>>)
    ensures num <= 0 ==> r == Some([])
    ensures num > 0 ==> r == FacesUpTo(ms, num)
  {
    if num <= 0 {
      return Some([]);
    }
    var boxes: seq<Box> := [];
    var i := 1;
    while i <= num
      invariant 1 <= i <= num + 1
      invariant FacesUpTo(ms, i - 1) == Some(boxes)
      decreases num - i
    {
      FacesUpToNext(ms, i - 1);
      var face := ReadFace(ms, i);
      if face.None? {
        assert FacesUpTo(ms, i).None?;
        FacesUpToNone(ms, i, num);
        return None;
      }
      assert FacesUpTo(ms, i) == Some(boxes + [face.value]);
      boxes := boxes + [face.value];
      i := i + 1;
    }
    assert i - 1 == num;
    return Some(boxes);
  }

  /** What `show_result` reads from a result: `num`, then the boxes. */
  method ReadFaces(j: Json) returns (r: Option<seq<Box>>)
    ensures r == DecodeFaces(j)
  {
    if !j.Object? {
      return None;
    }
    var numField := Get(j.members, "num");
    if !(numField.Some? && numField.value.Int?) {
      return None;
    }
    r := ReadBoxes(j.members, numField.value.i);
  }

  /** A frame shown with the rectangles drawn on it. */
  datatype Shown = Shown(frame: Mat, boxes: seq<Box>)

  /** How one pass of `show_result` ends. */
  datatype ShowOutcome =
    | Showed          // a frame was drawn and shown
    | ResultTimeout   // no result arrived
    | FrameTimeout    // a result arrived, its frame did not; the result is dropped
    | Fault           // reading the result threw

  class Client {
    /** `frame_count`: 0 for a camera. */
    const frameCount: FrameCount
    /** `image_in`: captured frames waiting to be sent. */
    var imageIn: seq<Mat>
    /** `image_in_`: the same frames, kept to draw the results on. */
    var retained: seq<Mat>
    /** `result`: parsed results waiting to be shown. */
    var results: seq<Json>
    /** Bytes `send_frame` has written. */
    var outbound: seq<byte>
    /** Bytes the server sends that `recv_result` has not consumed yet. */
    var inbound: seq<byte>
    /** Frames `show_result` has displayed, in order. */
    var shown: seq<Shown>

    /** `fileFrames` is what the capture reports as its frame count. */
    constructor (path: string, fileFrames: FrameCount, serverBytes: seq<byte>)
      ensures frameCount == (if IsCameraDevice(path) then 0 else fileFrames)
      ensures imageIn == [] && retained == [] && results == [] && shown == []
      ensures outbound == [] && inbound == serverBytes
    {
      frameCount := if IsCameraDevice(path) then 0 else fileFrames;
      imageIn, retained, results, shown := [], [], [], [];
      outbound, inbound := [], serverBytes;
    }

    /** One pass of `read_image`: an empty capture ends it; a frame is fitted and queued twice. */
    method CaptureStep(next: Option<Mat>, resize: Mat -> Mat) returns (exit: bool)
      modifies this`imageIn, this`retained
      ensures next.None? ==> exit && imageIn == old(imageIn) && retained == old(retained)
      ensures next.Some? ==>
                !exit && imageIn == old(imageIn) + [Fitted(next.value, FRAME_COLS, FRAME_ROWS, resize)] &&
                retained == old(retained) + [Fitted(next.value, FRAME_COLS, FRAME_ROWS, resize)]
    {
      if next.None? {
        return true;
      }
      var frame := next.value;
      if frame.cols != FRAME_COLS || frame.rows != FRAME_ROWS {
        frame := resize(frame);
      }
      imageIn := imageIn + [frame];
      retained := retained + [frame];
      exit := false;
    }

    /** `read_image` over a capture yielding `frames`, then an empty frame. */
    method CaptureAll(frames: seq<Mat>, resize: Mat -> Mat)
      modifies this`imageIn, this`retained
      ensures imageIn == old(imageIn) + FittedAll(frames, FRAME_COLS, FRAME_ROWS, resize)
      ensures retained == old(retained) + FittedAll(frames, FRAME_COLS, FRAME_ROWS, resize)
    {
      for i := 0 to |frames|
        invariant imageIn == old(imageIn) + FittedAll(frames[..i], FRAME_COLS, FRAME_ROWS, resize)
        invariant retained == old(retained) + FittedAll(frames[..i], FRAME_COLS, FRAME_ROWS, resize)
      {
        var exit := CaptureStep(Some(frames[i]), resize);
        assert FittedAll(frames[..i + 1], FRAME_COLS, FRAME_ROWS, resize) ==
               FittedAll(frames[..i], FRAME_COLS, FRAME_ROWS, resize) + [Fitted(frames[i], FRAME_COLS, FRAME_ROWS, resize)];
      }
      var exit := CaptureStep(None, resize);
      assert frames[..|frames|] == frames;
    }

    /** One pass of `send_frame` after the guard: no frame means a timeout; else its raw pixels are written. */
    method SendStep() returns (timedOut: bool)
      modifies this`imageIn, this`outbound
      ensures old(imageIn) == [] ==> timedOut && imageIn == old(imageIn) && outbound == old(outbound)
      ensures old(imageIn) != [] ==>
                !timedOut && imageIn == old(imageIn)[1..] && outbound == old(outbound) + old(imageIn)[0].data
    {
      if imageIn == [] {
        return true;
      }
      var frame := imageIn[0];
      imageIn := imageIn[1..];
      outbound := outbound + frame.data;
      timedOut := false;
    }

    /**
     * `send_frame`: as many frames as both the queue and the guard allow
     * are sent, in order, as raw pixels.
     */
    method SendFrames() returns (sent: nat)
      modifies this`imageIn, this`outbound
      ensures sent == Min(|old(imageIn)|, FacePasses(frameCount))
      ensures imageIn == old(imageIn)[sent..]
      ensures outbound == old(outbound) + Pixels(old(imageIn)[..sent])
    {
      ghost var queued := imageIn;
      sent := 0;
      var count: SizeT := 0;
      while true
        invariant count == sent <= FacePasses(frameCount) && sent <= |queued|
        invariant imageIn == queued[sent..]
        invariant outbound == old(outbound) + Pixels(queued[..sent])
        decreases FacePasses(frameCount) - sent
      {
        FaceGuardPasses(count, frameCount);
        count := Inc(count);
        if !(count <= frameCount) {
          break;
        }
        var timedOut := SendStep();
        if timedOut {
          break;
        }
        assert queued[..sent + 1][..sent] == queued[..sent];
        sent := sent + 1;
      }
    }

    /** One pass of `recv_result` after the guard; `ok` is false where a read or the parse throws. */
    method ReceiveStep(parse: seq<byte> -> Option<Json>) returns (ok: bool)
      modifies this`inbound, this`results
      ensures ReceiveOne(old(inbound), parse).None? ==> !ok && inbound == old(inbound) && results == old(results)
      ensures ReceiveOne(old(inbound), parse).Some? ==>
                ok && results == old(results) + [ReceiveOne(old(inbound), parse).value.0] &&
                inbound == ReceiveOne(old(inbound), parse).value.1
    {
      if |inbound| < SIZE_BYTES {
        return false;
      }
      var resultSize := DecodeSize(inbound[..SIZE_BYTES]);
      if |inbound| - SIZE_BYTES < resultSize {
        return false;
      }
      var resultData := inbound[SIZE_BYTES..SIZE_BYTES + resultSize];
      var resultJson := parse(resultData);
      if resultJson.None? {
        return false;
      }
      inbound := inbound[SIZE_BYTES + resultSize..];
      results := results + [resultJson.value];
      ok := true;
    }

    /**
     * `recv_result`: each pass the guard allows receives one result; the
     * results so far are those `ReceiveMany` reads, and a fault is a pass
     * whose read or parse throws.
     */
    method ReceiveResults(parse: seq<byte> -> Option<Json>) returns (received: nat, faulted: bool)
      modifies this`inbound, this`results
      ensures received <= FacePasses(frameCount)
      ensures |results| == |old(results)| + received && results[..|old(results)|] == old(results)
      ensures ReceiveMany(old(inbound), received, parse) == Some((results[|old(results)|..], inbound))
      ensures !faulted ==> received == FacePasses(frameCount)
      ensures faulted ==> received < FacePasses(frameCount) && ReceiveMany(old(inbound), received + 1, parse).None?
    {
      received, faulted := 0, false;
      assert results[|old(results)|..] == [];
      var count: SizeT := 0;
      while true
        invariant count == received <= FacePasses(frameCount) && !faulted
        invariant |results| == |old(results)| + received && results[..|old(results)|] == old(results)
        invariant ReceiveMany(old(inbound), received, parse) == Some((results[|old(results)|..], inbound))
        decreases FacePasses(frameCount) - received
      {
        FaceGuardPasses(count, frameCount);
        count := Inc(count);
        if !(count <= frameCount) {
          break;
        }
        ghost var before := results;
        var ok := ReceiveStep(parse);
        if !ok {
          ReceiveManyNext(old(inbound), received, parse);
          faulted := true;
          break;
        }
        ReceiveManyNext(old(inbound), received, parse);
        assert results[|old(results)|..] == before[|old(results)|..] + [results[|results| - 1]];
        received := received + 1;
      }
    }

    /**
     * One pass of `show_result` after the guard: take a result, then its
     * frame, then draw the boxes the result holds on the frame.
     */
    method ShowStep() returns (outcome: ShowOutcome)
      modifies this`results, this`retained, this`shown
      ensures old(results) == [] ==>
                outcome == ResultTimeout && results == old(results) && retained == old(retained) && shown == old(shown)
      ensures old(results) != [] && old(retained) == [] ==>
                outcome == FrameTimeout && results == old(results)[1..] && retained == old(retained) && shown == old(shown)
      ensures old(results) != [] && old(retained) != [] ==>
                results == old(results)[1..] && retained == old(retained)[1..] &&
                (DecodeFaces(old(results)[0]).None? ==> outcome == Fault && shown == old(shown)) &&
                (DecodeFaces(old(results)[0]).Some? ==>
                   outcome == Showed && shown == old(shown) + [Shown(old(retained)[0], DecodeFaces(old(results)[0]).value)])
    {
      if results == [] {
        return ResultTimeout;
      }
      var resultJson := results[0];
      results := results[1..];
      if retained == [] {
        return FrameTimeout;
      }
      var frame := retained[0];
      retained := retained[1..];
      var boxes := ReadFaces(resultJson);
      if boxes.None? {
        return Fault;
      }
      shown := shown + [Shown(frame, boxes.value)];
      outcome := Showed;
    }

    /**
     * `show_result`: pass i shows frame i with the boxes of result i, until
     * the guard ends the loop (`stop` is None) or a pass does not show.
     */
    method ShowResults() returns (showed: nat, stop: Option<ShowOutcome>)
      modifies this`results, this`retained, this`shown
      ensures showed <= FacePasses(frameCount) && showed <= |old(results)| && showed <= |old(retained)|
      ensures |shown| == |old(shown)| + showed && shown[..|old(shown)|] == old(shown)
      ensures forall i :: 0 <= i < showed ==>
                DecodeFaces(old(results)[i]).Some? &&
                shown[|old(shown)| + i] == Shown(old(retained)[i], DecodeFaces(old(results)[i]).value)
      ensures stop.None? ==> showed == FacePasses(frameCount)
      ensures stop.Some? ==> stop.value != Showed && showed < FacePasses(frameCount)
      ensures stop.None? ==> results == old(results)[showed..] && retained == old(retained)[showed..]
      ensures stop == Some(ResultTimeout) ==>
                showed == |old(results)| && results == [] && retained == old(retained)[showed..]
      ensures stop == Some(FrameTimeout) ==>
                showed == |old(retained)| < |old(results)| && results == old(results)[showed + 1..] && retained == []
      ensures stop == Some(Fault) ==>
                showed < |old(results)| && showed < |old(retained)| && DecodeFaces(old(results)[showed]).None? &&
                results == old(results)[showed + 1..] && retained == old(retained)[showed + 1..]
    {
      ghost var rs, fs, s0 := results, retained, shown;
      showed, stop := 0, None;
      var count: SizeT := 0;
      while true
        invariant count == showed <= FacePasses(frameCount) && stop.None?
        invariant showed <= |rs| && showed <= |fs|
        invariant results == rs[showed..] && retained == fs[showed..]
        invariant |shown| == |s0| + showed && shown[..|s0|] == s0
        invariant forall i :: 0 <= i < showed ==>
                    DecodeFaces(rs[i]).Some? && shown[|s0| + i] == Shown(fs[i], DecodeFaces(rs[i]).value)
        decreases FacePasses(frameCount) - showed
      {
        FaceGuardPasses(count, frameCount);
        count := Inc(count);
        if !(count <= frameCount) {
          break;
        }
        var outcome := ShowStep();
        if outcome != Showed {
          if showed < |rs| {
            assert rs[showed..][1..] == rs[showed + 1..];
          }
          if showed < |fs| {
            assert fs[showed..][1..] == fs[showed + 1..];
          }
          stop := Some(outcome);
          break;
        }
        showed := showed + 1;
      }
    }
  }
}
