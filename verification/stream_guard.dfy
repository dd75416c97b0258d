/**
 * The loop guards of the clients' send, receive and show stages. Each stage
 * keeps a `size_t` counter starting at 0 and pre-increments it in its
 * guard against `frame_count`, which is 0 for a camera and the file's frame
 * count otherwise. `frame_count` comes from a `double` converted to
 * `size_t`, so it never exceeds the largest `double` below 2^64; a negative
 * or unknown count is not modelled.
 */
module StreamGuard {
  import opened Bytes

  /** 2^64 - 2048: the largest `double` below 2^64. */
  const MAX_FRAME_COUNT: int := SIZE_LIMIT - 2048

  type FrameCount = n: int | 0 <= n <= MAX_FRAME_COUNT

  /** The face client's guard, `++count <= frame_count`, before the increment. */
  predicate FaceContinues(count: SizeT, frameCount: FrameCount)
  {
    Inc(count) <= frameCount
  }

  /** The pose client's guard, `++count != frame_count`, before the increment. */
  predicate PoseContinues(count: SizeT, frameCount: FrameCount)
  {
    Inc(count) != frameCount
  }

  /** The passes the face guard allows from a zero counter: `frame_count`, none for a camera. */
  function FacePasses(frameCount: FrameCount): nat
  {
    frameCount
  }

  /** The passes the pose guard allows from a zero counter: one short for a file, 2^64 - 1 for a camera. */
  function PosePasses(frameCount: FrameCount): nat
  {
    if frameCount == 0 then SIZE_LIMIT - 1 else frameCount - 1
  }

  /** From 0 up to `FacePasses`, the face guard holds exactly before the last counter value. */
  lemma FaceGuardPasses(count: SizeT, frameCount: FrameCount)
    requires count <= FacePasses(frameCount)
    ensures FaceContinues(count, frameCount) <==> count < FacePasses(frameCount)
  {
  }

  /** From 0 up to `PosePasses`, the pose guard holds exactly before the last counter value. */
  lemma PoseGuardPasses(count: SizeT, frameCount: FrameCount)
    requires count <= PosePasses(frameCount)
    ensures PoseContinues(count, frameCount) <==> count < PosePasses(frameCount)
  {
  }

  /** With a camera the face client's stages stop before their first pass. */
  lemma FaceCameraNeverRuns()
    ensures !FaceContinues(0, 0) && FacePasses(0) == 0
  {
  }

  /** A three-frame file gets two passes of each pose client stage. */
  lemma PoseFileLosesLastFrame()
    ensures PoseContinues(0, 3) && PoseContinues(1, 3) && !PoseContinues(2, 3) && PosePasses(3) == 2
  {
  }

  /** The guard both clients evidently intend: a camera runs without end, a file once per frame. */
  predicate StreamContinues(count: SizeT, frameCount: FrameCount)
  {
    frameCount == 0 || Inc(count) <= frameCount
  }

  /** With a camera the intended guard always holds; with a file it holds for exactly `frame_count` passes. */
  lemma StreamGuardPasses(count: SizeT, frameCount: FrameCount)
    ensures frameCount == 0 ==> StreamContinues(count, frameCount)
    ensures frameCount > 0 && count <= frameCount ==> (StreamContinues(count, frameCount) <==> count < frameCount)
  {
  }
}
