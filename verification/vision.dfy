/**
 * The values the pipeline moves between stages: OpenCV images and the
 * results of the Vitis AI face and pose models. Pixel arithmetic and the
 * models themselves are outside the core; numbers the models produce as
 * `float` are `real` here.
 */
module Vision {
  import opened Bytes

  /** A `cv::Mat` of 8-bit, 3-channel pixels: its size and its contiguous bytes. */
  datatype Mat = Mat(rows: int, cols: int, data: seq<byte>)

  /** `static_cast<int>` of a floating-point value: truncation toward zero. */
  function Trunc(v: real): int
  {
    if v >= 0.0 then v.Floor else -((-v).Floor)
  }

  /** Truncation drops the fraction toward zero: it never moves a value by a whole unit. */
  lemma TruncBounds(v: real)
    ensures 0.0 <= v ==> Trunc(v) as real <= v < Trunc(v) as real + 1.0
    ensures v < 0.0 ==> Trunc(v) as real - 1.0 < v <= Trunc(v) as real
    ensures Trunc(-v) == -Trunc(v)
  {
  }

  /** One detected face, each coordinate a fraction of the image size. */
  datatype FaceRect = FaceRect(x: real, y: real, width: real, height: real)

  datatype FaceDetectResult = FaceDetectResult(width: int, height: int, rects: seq<FaceRect>)

  /** One keypoint of a pose: its body-part number and its pixel position. */
  datatype PosePoint = PosePoint(part: int, x: real, y: real)

  datatype OpenPoseResult = OpenPoseResult(width: int, height: int, poses: seq<seq<PosePoint>>)
}
