/**
 * The compilation render loop. Every selected scene is shown for 3 seconds at
 * 30 frames per second (90 frames); during its last 15 frames, when another
 * scene follows, its image fades out while the next image fades in. Each
 * frame also zooms the current image slowly and labels it with the scene's
 * timestamp. Drawing, capture and encoding are recorded as per-frame draw
 * decisions.
 */
module Compositor {
  import opened Wrappers
  import opened Media

  const FramesPerSecond: nat := 30
  const SecondsPerScene: nat := 3
  const FramesPerScene: nat := FramesPerSecond * SecondsPerScene
  const TransitionFrames: nat := 15
  /** First frame of a scene's transition window (75). */
  const TransitionStart: nat := FramesPerScene - TransitionFrames
  const CanvasWidth: nat := 1280
  const CanvasHeight: nat := 720
  const OutputMimeType: string := "video/webm"

  /** Where and how large an image is drawn on the canvas. */
  datatype Placement = Placement(x: real, y: real, width: real, height: real)

  /** One image drawn with a global alpha. */
  datatype Layer = Layer(image: Frame, at: Placement, alpha: real)

  /** What is drawn for output frame `index`. */
  datatype RenderedFrame = RenderedFrame(
    index: nat,
    sceneIndex: nat,
    frameInScene: nat,
    current: Layer,
    incoming: Option<Layer>,
    overlay: string)

  /** The encoded output, standing for the recorded chunks. */
  datatype Blob = Blob(mimeType: string, frames: seq<RenderedFrame>)

  function MinReal(a: real, b: real): real
  {
    if a <= b then a else b
  }

  function TotalFrames(scenes: seq<Scene>): nat
  {
    |scenes| * FramesPerScene
  }

  /** The image a scene's frame decodes to. */
  function ImageOf(s: Scene): Frame
    requires Decodable(s)
  {
    s.frameUrl.value
  }

  /** Opacity of the outgoing image: a linear ramp over the transition window. */
  function Opacity(frameInScene: nat, hasNext: bool): real
  {
    if frameInScene >= TransitionStart && hasNext
    then 1.0 - (frameInScene - TransitionStart) as real / TransitionFrames as real
    else 1.0
  }

  /** How far through its scene a frame is, in [0, 1). */
  function MotionProgress(frameInScene: nat): real
  {
    frameInScene as real / FramesPerScene as real
  }

  function Zoom(frameInScene: nat): real
  {
    1.0 + MotionProgress(frameInScene) * 0.05
  }

  /** The largest uniform scale at which the image fits the canvas. */
  function FitRatio(img: Frame): real
    requires img.width > 0 && img.height > 0
  {
    MinReal(CanvasWidth as real / img.width as real, CanvasHeight as real / img.height as real)
  }

  /** The image scaled by `ratio` and centred on the canvas. */
  function Centered(img: Frame, ratio: real): Placement
  {
    var w := img.width as real * ratio;
    var h := img.height as real * ratio;
    Placement((CanvasWidth as real - w) / 2.0, (CanvasHeight as real - h) / 2.0, w, h)
  }

  /** The progress reported before frame `f` of `total` is drawn. */
  function ProgressAt(f: nat, total: nat): real
    requires total > 0
  {
    (f as real / total as real) * 100.0
  }

  /** The draw decisions for output frame `k`. */
  function RenderFrame(scenes: seq<Scene>, k: nat): (r: RenderedFrame)
    requires AllDecodable(scenes)
    requires k < TotalFrames(scenes)
  {
    var sceneIndex := k / FramesPerScene;
    var frameInScene := k % FramesPerScene;
    var hasNext := sceneIndex + 1 < |scenes|;
    var opacity := Opacity(frameInScene, hasNext);
    var img := ImageOf(scenes[sceneIndex]);
    var current := Layer(img, Centered(img, FitRatio(img) * Zoom(frameInScene)), opacity);
    var incoming :=
      if frameInScene >= TransitionStart && hasNext then
        var next := ImageOf(scenes[sceneIndex + 1]);
        Some(Layer(next, Centered(next, FitRatio(next)), 1.0 - opacity))
      else None;
    RenderedFrame(k, sceneIndex, frameInScene, current, incoming, scenes[sceneIndex].timestamp)
  }

  /**
   * The render loop: report progress, draw frame `currentFrame`, advance, and
   * stop once `currentFrame >= totalFrames`.
   */
  method GenerateVideo(scenes: seq<Scene>) returns (frames: seq<RenderedFrame>, reported: seq<real>)
    requires AllDecodable(scenes)
    ensures |frames| == TotalFrames(scenes) && |reported| == |frames|
    ensures forall k :: 0 <= k < |frames| ==> frames[k] == RenderFrame(scenes, k)
    ensures forall k :: 0 <= k < |reported| ==> reported[k] == ProgressAt(k, TotalFrames(scenes))
  {
    var totalFrames := TotalFrames(scenes);
    var currentFrame := 0;
    frames, reported := [], [];
    while currentFrame < totalFrames
      invariant currentFrame <= totalFrames
      invariant |frames| == currentFrame && |reported| == currentFrame
      invariant forall k :: 0 <= k < currentFrame ==> frames[k] == RenderFrame(scenes, k)
      invariant forall k :: 0 <= k < currentFrame ==> reported[k] == ProgressAt(k, totalFrames)
    {
      reported := reported + [ProgressAt(currentFrame, totalFrames)];
      frames := frames + [RenderFrame(scenes, currentFrame)];
      currentFrame := currentFrame + 1;
    }
  }

  // ---------------------------------------------------------------------------
  // Properties of a rendered frame

  /**
   * Frame `k` belongs to scene `k / 90` at offset `k % 90`, never past the last
   * scene, and carries that scene's timestamp label.
   */
  lemma FrameIndexing(scenes: seq<Scene>, k: nat)
    requires AllDecodable(scenes) && k < TotalFrames(scenes)
    ensures var r := RenderFrame(scenes, k);
      && r.index == k
      && r.sceneIndex < |scenes|
      && r.frameInScene < FramesPerScene
      && r.sceneIndex * FramesPerScene + r.frameInScene == k
      && r.overlay == scenes[r.sceneIndex].timestamp
      && r.current.image == ImageOf(scenes[r.sceneIndex])
  {
  }

  /** The timestamp label is the same for all 90 frames of a scene. */
  lemma LabelConstantPerScene(scenes: seq<Scene>, j: nat, k: nat)
    requires AllDecodable(scenes) && j < TotalFrames(scenes) && k < TotalFrames(scenes)
    requires j / FramesPerScene == k / FramesPerScene
    ensures RenderFrame(scenes, j).overlay == RenderFrame(scenes, k).overlay
  {
  }

  /**
   * The outgoing opacity is 1 outside the transition window or without a next
   * scene; inside, it lies in [1/15, 1] and falls strictly from frame to frame.
   */
  lemma OpacityRange(frameInScene: nat, hasNext: bool)
    requires frameInScene < FramesPerScene
    ensures !(frameInScene >= TransitionStart && hasNext) ==> Opacity(frameInScene, hasNext) == 1.0
    ensures 1.0 / 15.0 <= Opacity(frameInScene, hasNext) <= 1.0
    ensures Opacity(frameInScene, hasNext) < 1.0 <==> frameInScene > TransitionStart && hasNext
  {
  }

  lemma OpacityDecreasing(f: nat, g: nat)
    requires TransitionStart <= f < g < FramesPerScene
    ensures Opacity(g, true) < Opacity(f, true)
  {
  }

  /**
   * A second image is drawn exactly in the last 15 frames of a scene that has
   * a successor; it is the successor's image, and the two alphas sum to 1.
   */
  lemma Crossfade(scenes: seq<Scene>, k: nat)
    requires AllDecodable(scenes) && k < TotalFrames(scenes)
    ensures var r := RenderFrame(scenes, k);
      && (r.incoming.Some? <==> r.frameInScene >= TransitionStart && r.sceneIndex + 1 < |scenes|)
      && (r.incoming.Some? ==>
            && r.incoming.value.image == ImageOf(scenes[r.sceneIndex + 1])
            && r.current.alpha + r.incoming.value.alpha == 1.0
            && 0.0 <= r.incoming.value.alpha < 1.0)
      && (r.incoming.None? ==> r.current.alpha == 1.0)
  {
    var r := RenderFrame(scenes, k);
    OpacityRange(r.frameInScene, r.sceneIndex + 1 < |scenes|);
  }

  /** The last scene never fades and never draws a second image. */
  lemma LastSceneNeverFades(scenes: seq<Scene>, k: nat)
    requires AllDecodable(scenes) && k < TotalFrames(scenes)
    requires k / FramesPerScene == |scenes| - 1
    ensures RenderFrame(scenes, k).incoming.None?
    ensures RenderFrame(scenes, k).current.alpha == 1.0
  {
  }

  /** Within one scene's transition window, the outgoing alpha falls strictly. */
  lemma FadeOutStrict(scenes: seq<Scene>, k: nat)
    requires AllDecodable(scenes) && k + 1 < TotalFrames(scenes)
    requires k / FramesPerScene == (k + 1) / FramesPerScene
    requires RenderFrame(scenes, k).incoming.Some?
    ensures RenderFrame(scenes, k + 1).incoming.Some?
    ensures RenderFrame(scenes, k + 1).current.alpha < RenderFrame(scenes, k).current.alpha
  {
    OpacityDecreasing(k % FramesPerScene, (k + 1) % FramesPerScene);
  }

  // ---------------------------------------------------------------------------
  // Geometry

  lemma ZoomRange(frameInScene: nat)
    requires frameInScene < FramesPerScene
    ensures 1.0 <= Zoom(frameInScene) < 1.05
    ensures 0.0 <= MotionProgress(frameInScene) < 1.0
  {
  }

  lemma MulMonotone(a: real, b: real, c: real)
    requires a <= b && c > 0.0
    ensures c * a <= c * b
  {
  }

  /**
   * At its fit ratio an image lies inside the canvas, centred, touching two
   * opposite edges, with its aspect ratio kept.
   */
  lemma FitInsideCanvas(img: Frame)
    requires img.width > 0 && img.height > 0
    ensures var p := Centered(img, FitRatio(img));
      && 0.0 <= p.x && 0.0 <= p.y
      && p.width <= CanvasWidth as real && p.height <= CanvasHeight as real
      && (p.width == CanvasWidth as real || p.height == CanvasHeight as real)
      && 2.0 * p.x + p.width == CanvasWidth as real
      && 2.0 * p.y + p.height == CanvasHeight as real
      && p.width * img.height as real == p.height * img.width as real
  {
    var w, h := img.width as real, img.height as real;
    var rw, rh := 1280.0 / w, 720.0 / h;
    assert w * rw == 1280.0;
    assert h * rh == 720.0;
    if rw <= rh {
      MulMonotone(rw, rh, h);
    } else {
      MulMonotone(rh, rw, w);
    }
  }

  /**
   * The current image is drawn at its fit size times the zoom, centred; the
   * incoming image at exactly its fit placement.
   */
  lemma LayerGeometry(scenes: seq<Scene>, k: nat)
    requires AllDecodable(scenes) && k < TotalFrames(scenes)
    ensures var r := RenderFrame(scenes, k);
      var fit := Centered(r.current.image, FitRatio(r.current.image));
      && r.current.at.width == fit.width * Zoom(r.frameInScene)
      && r.current.at.height == fit.height * Zoom(r.frameInScene)
      && 2.0 * r.current.at.x + r.current.at.width == CanvasWidth as real
      && 2.0 * r.current.at.y + r.current.at.height == CanvasHeight as real
      && (r.incoming.Some? ==>
            var next := r.incoming.value;
            && 0.0 <= next.at.x && 0.0 <= next.at.y
            && next.at.x + next.at.width <= CanvasWidth as real
            && next.at.y + next.at.height <= CanvasHeight as real)
  {
    var r := RenderFrame(scenes, k);
    if r.incoming.Some? {
      FitInsideCanvas(r.incoming.value.image);
    }
  }

  // ---------------------------------------------------------------------------
  // Reported progress

  /**
   * Progress is reported before each frame is drawn: the first report is 0,
   * the reports strictly increase, and none reaches 100.
   */
  lemma ProgressReports(total: nat, f: nat, g: nat)
    requires 0 < total
    ensures ProgressAt(0, total) == 0.0
    ensures f < g ==> ProgressAt(f, total) < ProgressAt(g, total)
    ensures f < total ==> ProgressAt(f, total) < 100.0
  {
  }

  /**
   * Two selected scenes make 180 frames; scene 0 fades in frames 75..89,
   * reaching alpha 1/15 at frame 89; frame 150 is 60/90 through scene 1.
   */
  lemma TwoSceneScenario(scenes: seq<Scene>)
    requires AllDecodable(scenes) && |scenes| == 2
    ensures TotalFrames(scenes) == 180
    ensures forall k :: 0 <= k < 180 ==>
      (RenderFrame(scenes, k).incoming.Some? <==> 75 <= k <= 89)
    ensures RenderFrame(scenes, 89).current.alpha == 1.0 / 15.0
    ensures RenderFrame(scenes, 150).frameInScene == 60
    ensures MotionProgress(60) == 2.0 / 3.0
  {
  }

  /** A single scene never cross-fades. */
  lemma SingleSceneScenario(scenes: seq<Scene>)
    requires AllDecodable(scenes) && |scenes| == 1
    ensures TotalFrames(scenes) == 90
    ensures forall k :: 0 <= k < 90 ==>
      RenderFrame(scenes, k).incoming.None? && RenderFrame(scenes, k).current.alpha == 1.0
  {
  }
}
