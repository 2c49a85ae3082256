/**
 * The processing hook: analysing uploaded videos into scenes and compiling
 * selected scenes into a video, with the busy flag and progress it exposes.
 * Both operations reset `isProcessing` and `progress` on every exit path.
 */
module VideoProcessing {
  import opened Wrappers
  import opened Media
  import FrameSampler
  import Timestamps
  import Compositor

  /** The scene built from frame `index` of the video called `name`. */
  function SceneFor(name: string, index: nat, frame: Frame): Scene
  {
    var timestamp := Timestamps.FormatTimestamp(index);
    Scene(timestamp, "Scene from " + name + " at " + timestamp, None, Some(frame))
  }

  /** One scene per extracted frame, numbered from 0. */
  function VideoScenes(name: string, frames: seq<Frame>): seq<Scene>
  {
    seq(|frames|, j requires 0 <= j < |frames| => SceneFor(name, j, frames[j]))
  }

  function VideoFrames(v: VideoFile): seq<Frame>
  {
    FrameSampler.Frames(v.meta, FrameSampler.AnalysisIntervalMs)
  }

  /** The scenes of all videos, concatenated in video order. */
  function AllScenes(videos: seq<VideoFile>): seq<Scene>
  {
    if videos == [] then []
    else
      var last := videos[|videos| - 1];
      AllScenes(videos[..|videos| - 1]) + VideoScenes(last.name, VideoFrames(last))
  }

  /** The total number of frames extracted from `videos`. */
  function FrameTotal(videos: seq<VideoFile>): nat
  {
    if videos == [] then 0
    else FrameTotal(videos[..|videos| - 1]) + |VideoFrames(videos[|videos| - 1])|
  }

  /** Progress after video `i` of `count` has been analysed. */
  function AnalysisProgress(i: nat, count: nat): real
    requires count > 0
  {
    ((i + 1) as real / count as real) * 100.0
  }

  /** The progress values reported while the first `done` of `count` videos complete. */
  function AnalysisReports(done: nat, count: nat): seq<real>
    requires done <= count
  {
    seq(done, i requires 0 <= i < done => AnalysisProgress(i, count))
  }

  /** Analysing one more video appends that video's scenes. */
  lemma AllScenesStep(videos: seq<VideoFile>, i: nat)
    requires i < |videos|
    ensures AllScenes(videos[..i + 1]) == AllScenes(videos[..i]) + VideoScenes(videos[i].name, VideoFrames(videos[i]))
    ensures FrameTotal(videos[..i + 1]) == FrameTotal(videos[..i]) + |VideoFrames(videos[i])|
  {
    assert videos[..i + 1][..i] == videos[..i];
  }

  /** The analysis yields exactly one scene per extracted frame. */
  lemma {:induction false} AllScenesLength(videos: seq<VideoFile>)
    ensures |AllScenes(videos)| == FrameTotal(videos)
  {
    if videos != [] {
      AllScenesLength(videos[..|videos| - 1]);
    }
  }

  /**
   * The scene of frame `j` of video `i` sits after the frames of all earlier
   * videos; numbering restarts at 0 for every video.
   */
  lemma {:induction false} AllScenesAt(videos: seq<VideoFile>, i: nat, j: nat)
    requires i < |videos| && j < |VideoFrames(videos[i])|
    ensures FrameTotal(videos[..i]) + j < |AllScenes(videos)|
    ensures AllScenes(videos)[FrameTotal(videos[..i]) + j] == SceneFor(videos[i].name, j, VideoFrames(videos[i])[j])
  {
    var n := |videos| - 1;
    var front := videos[..n];
    AllScenesLength(front);
    AllScenesLength(videos);
    if i == n {
      assert videos[..i] == front;
    } else {
      AllScenesAt(front, i, j);
      assert front[..i] == videos[..i];
    }
  }

  /** Each scene's label and description follow from its frame number and video name. */
  lemma SceneContents(name: string, frames: seq<Frame>, j: nat)
    requires j < |frames|
    ensures var s := VideoScenes(name, frames)[j];
      && s.timestamp == Timestamps.FormatTimestamp(j)
      && s.description == "Scene from " + name + " at " + s.timestamp
      && s.frameUrl == Some(frames[j])
      && !IsSelected(s)
  {
  }

  lemma DivStrict(a: real, b: real, c: real)
    requires a < b && c > 0.0
    ensures a / c < b / c
  {
    assert a / c * c == a && b / c * c == b;
  }

  /** Analysis progress strictly increases and ends at exactly 100. */
  lemma AnalysisProgressMonotone(count: nat, i: nat, j: nat)
    requires 0 < count
    ensures i < j ==> AnalysisProgress(i, count) < AnalysisProgress(j, count)
    ensures AnalysisProgress(count - 1, count) == 100.0
    ensures i < count ==> 0.0 < AnalysisProgress(i, count) <= 100.0
  {
    if i < j {
      DivStrict((i + 1) as real, (j + 1) as real, count as real);
    }
    if i < count {
      DivStrict((i + 1) as real, count as real + 1.0, count as real);
    }
  }

  /** The `forEach` over one video's frames, pushing one scene per frame. */
  method AppendScenes(acc: seq<Scene>, name: string, frames: seq<Frame>) returns (r: seq<Scene>)
    ensures r == acc + VideoScenes(name, frames)
  {
    r := acc;
    var index := 0;
    while index < |frames|
      invariant index <= |frames|
      invariant r == acc + VideoScenes(name, frames[..index])
    {
      r := r + [SceneFor(name, index, frames[index])];
      index := index + 1;
      assert VideoScenes(name, frames[..index])
          == VideoScenes(name, frames[..index - 1]) + [SceneFor(name, index - 1, frames[index - 1])];
    }
    assert frames[..index] == frames;
  }

  class Processor {
    var isProcessing: bool
    var progress: real
    var scenes: seq<Scene>

    constructor ()
      ensures !isProcessing && progress == 0.0 && scenes == []
    {
      isProcessing, progress, scenes := false, 0.0, [];
    }

    /**
     * Analyse `videos` in order. `failAt` is the index of the first video
     * whose extraction rejects, if any; the loop stops there, `scenes` is left
     * as it was, and the scenes gathered so far are still returned.
     */
    method AnalyzeVideos(videos: seq<VideoFile>, failAt: Option<nat>) returns (allScenes: seq<Scene>, reported: seq<real>)
      requires failAt.Some? ==> failAt.value < |videos|
      modifies this
      ensures !isProcessing && progress == 0.0
      ensures var done := if failAt.Some? then failAt.value else |videos|;
        allScenes == AllScenes(videos[..done]) && reported == AnalysisReports(done, |videos|)
      ensures scenes == if failAt.None? then allScenes else old(scenes)
    {
      isProcessing := true;
      progress := 0.0;
      allScenes, reported := [], [];
      var done := if failAt.Some? then failAt.value else |videos|;
      var i := 0;
      while i < done
        invariant i <= done
        invariant allScenes == AllScenes(videos[..i])
        invariant reported == AnalysisReports(i, |videos|)
        invariant scenes == old(scenes)
      {
        var video := videos[i];
        var frames := FrameSampler.ExtractFrames(video.meta, FrameSampler.AnalysisIntervalMs);
        allScenes := AppendScenes(allScenes, video.name, frames);
        AllScenesStep(videos, i);
        progress := AnalysisProgress(i, |videos|);
        reported := reported + [progress];
        assert reported == AnalysisReports(i + 1, |videos|);
        i := i + 1;
      }
      assert videos[..done] == videos[..i];
      if failAt.None? {
        assert videos[..done] == videos;
        scenes := allScenes;
      }
      isProcessing := false;
      progress := 0.0;
    }

    /**
     * Compile `selected` into a video. `failed` says whether loading the
     * images and audio or starting the recorder rejects; that happens before
     * any frame is rendered. `mint` is `URL.createObjectURL`.
     */
    method CreateCompilation(selected: seq<Scene>, failed: bool, mint: Compositor.Blob -> string)
      returns (url: Option<string>, reported: seq<real>)
      requires !failed ==> AllDecodable(selected)
      modifies this
      ensures !isProcessing && progress == 0.0 && scenes == old(scenes)
      ensures url.None? <==> failed
      ensures failed ==> reported == []
      ensures !failed ==>
        && |reported| == Compositor.TotalFrames(selected)
        && (forall k :: 0 <= k < |reported| ==> reported[k] == Compositor.ProgressAt(k, Compositor.TotalFrames(selected)))
        && exists frames :: url == Some(mint(Compositor.Blob(Compositor.OutputMimeType, frames)))
             && |frames| == Compositor.TotalFrames(selected)
             && forall k :: 0 <= k < |frames| ==> frames[k] == Compositor.RenderFrame(selected, k)
    {
      isProcessing := true;
      progress := 0.0;
      if failed {
        url, reported := None, [];
      } else {
        var frames;
        frames, reported := Compositor.GenerateVideo(selected);
        url := Some(mint(Compositor.Blob(Compositor.OutputMimeType, frames)));
      }
      isProcessing := false;
      progress := 0.0;
    }
  }
}
