/**
 * Presentation timestamps: CoreMedia's rational CMTime and the rule by which
 * `addImage` stamps each frame at 24 frames per second.
 */
module Timing {

  /** A CMTime: `value / timescale` seconds, both as unbounded integers. */
  datatype CMTime = CMTime(value: int, timescale: int)

  /** The fixed frame rate of the output video. */
  const Fps: int := 24

  function CMTimeMake(value: int, timescale: int): CMTime {
    CMTime(value, timescale)
  }

  function Seconds(t: CMTime): real
    requires t.timescale > 0
  {
    t.value as real / t.timescale as real
  }

  /** CMTimeAdd on two times of the same timescale. */
  function CMTimeAdd(a: CMTime, b: CMTime): CMTime
    requires a.timescale == b.timescale && a.timescale > 0
  {
    CMTime(a.value + b.value, a.timescale)
  }

  /** Adding keeps the timescale and adds the durations. */
  lemma CMTimeAddSeconds(a: CMTime, b: CMTime)
    requires a.timescale == b.timescale && a.timescale > 0
    ensures CMTimeAdd(a, b).timescale == a.timescale
    ensures Seconds(CMTimeAdd(a, b)) == Seconds(a) + Seconds(b)
  {
  }

  /**
   * The timestamp `addImage` gives to a frame when `frameCount` frames were
   * added before it: `frameCount/24` for the first frame, and one frame
   * duration later than `frameCount/24` for every other frame.
   */
  function PresentationTime(frameCount: nat): CMTime {
    var frameDuration := CMTimeMake(1, Fps);
    var lastFrameTime := CMTimeMake(frameCount, Fps);
    if frameCount == 0 then lastFrameTime else CMTimeAdd(lastFrameTime, frameDuration)
  }

  /** The timestamp of frame n is 0 for the first frame and (n+1)/24 seconds afterwards. */
  lemma PresentationTimeInSeconds(n: nat)
    ensures PresentationTime(n).timescale == Fps
    ensures Seconds(PresentationTime(n)) == if n == 0 then 0.0 else (n + 1) as real / 24.0
  {
  }

  /** Later frames get strictly later timestamps, on the common timescale and in seconds. */
  lemma PresentationTimeStrictlyIncreasing(m: nat, n: nat)
    requires m < n
    ensures PresentationTime(m).timescale == PresentationTime(n).timescale == Fps
    ensures PresentationTime(m).value < PresentationTime(n).value
    ensures Seconds(PresentationTime(m)) < Seconds(PresentationTime(n))
  {
    var a, b := PresentationTime(m), PresentationTime(n);
    assert a.value < b.value;
    assert a.value as real < b.value as real;
  }

  /** The gap between consecutive frames: two frame durations after the first frame, one thereafter. */
  lemma PresentationTimeSpacing(n: nat)
    ensures Seconds(PresentationTime(n + 1)) - Seconds(PresentationTime(n))
         == if n == 0 then 2.0 / 24.0 else 1.0 / 24.0
  {
    PresentationTimeInSeconds(n);
    PresentationTimeInSeconds(n + 1);
  }

  // ---------------------------------------------------------------------
  // Reference: a uniform frame clock
  // ---------------------------------------------------------------------

  /** Slot n of a uniform 24 fps clock, accumulated one frame duration at a time from zero. */
  function UniformTime(n: nat): real {
    if n == 0 then 0.0 else UniformTime(n - 1) + 1.0 / 24.0
  }

  /** Accumulating the frame duration n times gives exactly n/24 seconds. */
  lemma {:induction false} UniformTimeIsProduct(n: nat)
    ensures UniformTime(n) == n as real / 24.0
  {
    if n > 0 {
      UniformTimeIsProduct(n - 1);
    }
  }

  /**
   * Against the uniform clock, frame 0 sits on slot 0 and every later frame
   * n on slot n+1: slot 1 is never used.
   */
  lemma PresentationTimeAgainstUniform(n: nat)
    ensures Seconds(PresentationTime(n)) == if n == 0 then UniformTime(0) else UniformTime(n + 1)
    ensures forall k: nat :: Seconds(PresentationTime(k)) != UniformTime(1)
  {
    UniformTimeIsProduct(n + 1);
    UniformTimeIsProduct(1);
    PresentationTimeInSeconds(n);
    forall k: nat ensures Seconds(PresentationTime(k)) != UniformTime(1) {
      PresentationTimeInSeconds(k);
      if k > 0 {
        assert (k + 1) as real >= 2.0;
      }
    }
  }
}
