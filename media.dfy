/**
 * The entities the pipeline passes around: uploaded video files, the stills
 * captured from them, and the scenes built from those stills.
 */
module Media {
  import opened Wrappers

  /** What the browser reports once a video's metadata has loaded. */
  datatype VideoMeta = VideoMeta(durationMs: nat, width: nat, height: nat)

  /** An uploaded file: its name, its MIME type and, for videos, its metadata. */
  datatype VideoFile = VideoFile(name: string, mimeType: string, meta: VideoMeta)

  /**
   * A captured still (the JPEG data URL of the capture canvas): the source
   * time it was taken at and the canvas size it was drawn on. The pixels
   * themselves are not modelled.
   */
  datatype Frame = Frame(timeMs: nat, width: nat, height: nat)

  /** A scene: `selected` is `undefined`, `false` or `true`; `frameUrl` may be absent. */
  datatype Scene = Scene(timestamp: string, description: string, selected: Option<bool>, frameUrl: Option<Frame>)

  /** JavaScript truthiness of `scene.selected`: `undefined` and `false` are both unselected. */
  predicate IsSelected(s: Scene)
  {
    s.selected == Some(true)
  }

  /** The scene's frame is present and decodes to a non-empty image. */
  predicate Decodable(s: Scene)
  {
    s.frameUrl.Some? && s.frameUrl.value.width > 0 && s.frameUrl.value.height > 0
  }

  predicate AllDecodable(scenes: seq<Scene>)
  {
    forall i :: 0 <= i < |scenes| ==> Decodable(scenes[i])
  }
}
