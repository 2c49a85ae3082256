/**
 * Frame extraction: a video is sampled at source times 0, I, 2I, ... while the
 * time does not pass its duration, and each sample is captured on a canvas of
 * half the native resolution. Seeking, drawing and JPEG encoding are the
 * abstract capture step `Capture`.
 */
module FrameSampler {
  import opened Media

  /** The interval the analysis uses, in milliseconds. */
  const AnalysisIntervalMs: nat := 2000

  /**
   * The capture canvas is half the native size. Assigning a fractional size to
   * a canvas truncates it, so an odd dimension is rounded down.
   */
  function CaptureSize(meta: VideoMeta): (size: (nat, nat))
    ensures 2 * size.0 <= meta.width < 2 * size.0 + 2
    ensures 2 * size.1 <= meta.height < 2 * size.1 + 2
  {
    (meta.width / 2, meta.height / 2)
  }

  /** The still captured after seeking to `timeMs`. */
  function Capture(meta: VideoMeta, timeMs: nat): Frame
  {
    var size := CaptureSize(meta);
    Frame(timeMs, size.0, size.1)
  }

  /** The number of sample points: every multiple of `interval` up to the duration. */
  function SampleCount(durationMs: nat, interval: nat): nat
    requires interval > 0
  {
    durationMs / interval + 1
  }

  /** The frames extraction must produce: one capture per sample point. */
  function Frames(meta: VideoMeta, interval: nat): seq<Frame>
    requires interval > 0
  {
    var n := SampleCount(meta.durationMs, interval);
    seq(n, k requires 0 <= k < n => Capture(meta, k * interval))
  }

  lemma MulMonotone(a: nat, b: nat, c: nat)
    requires a <= b
    ensures a * c <= b * c
  {
  }

  /** `k` is the quotient of `d` by `i` when `k * i <= d < (k + 1) * i`. */
  lemma QuotientUnique(d: nat, i: nat, k: nat)
    requires i > 0 && k * i <= d < (k + 1) * i
    ensures d / i == k
  {
    var q, r := d / i, d % i;
    assert d == q * i + r && 0 <= r < i;
    if q < k {
      MulMonotone(q + 1, k, i);
      assert false;
    } else if q > k {
      MulMonotone(k + 1, q, i);
      assert false;
    }
  }

  /**
   * The sample times are 0, I, 2I, ..., kI with kI <= duration < (k+1)I,
   * strictly increasing, each frame at half resolution.
   */
  lemma SampleSchedule(meta: VideoMeta, interval: nat)
    requires interval > 0
    ensures var fs := Frames(meta, interval);
      && |fs| >= 1
      && fs[0].timeMs == 0
      && fs[|fs| - 1].timeMs <= meta.durationMs < fs[|fs| - 1].timeMs + interval
      && (forall k :: 0 <= k < |fs| ==> fs[k].timeMs == k * interval)
      && (forall j, k :: 0 <= j < k < |fs| ==> fs[j].timeMs < fs[k].timeMs)
      && (forall k :: 0 <= k < |fs| ==> 2 * fs[k].width <= meta.width && 2 * fs[k].height <= meta.height)
  {
    var fs := Frames(meta, interval);
    var n := |fs| - 1;
    var d := meta.durationMs;
    assert n == d / interval;
    assert n * interval <= d by {
      assert d == (d / interval) * interval + d % interval;
    }
    assert d < n * interval + interval by {
      assert d == (d / interval) * interval + d % interval;
    }
    forall j, k | 0 <= j < k < |fs|
      ensures fs[j].timeMs < fs[k].timeMs
    {
      assert j * interval < k * interval;
    }
  }

  /**
   * The extraction loop: capture while `currentTime <= duration`, advancing
   * by `interval` after each capture.
   */
  method ExtractFrames(meta: VideoMeta, interval: nat) returns (frames: seq<Frame>)
    requires interval > 0
    ensures frames == Frames(meta, interval)
  {
    frames := [];
    var currentTime: nat := 0;
    while currentTime <= meta.durationMs
      invariant currentTime == |frames| * interval
      invariant (|frames| - 1) * interval <= meta.durationMs
      invariant forall k :: 0 <= k < |frames| ==> frames[k] == Capture(meta, k * interval)
      decreases meta.durationMs + interval - currentTime
    {
      frames := frames + [Capture(meta, currentTime)];
      currentTime := currentTime + interval;
    }
    QuotientUnique(meta.durationMs, interval, |frames| - 1);
  }
}
