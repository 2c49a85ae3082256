/**
 * The uploader hands files on to the application: dropped files are filtered
 * to video MIME types, files picked in the browse dialog are passed unchanged.
 * Attaching a preview URL to each file is not modelled.
 */
module VideoUploader {
  import opened Wrappers
  import opened Media
  import Sequences

  /** `file.type.startsWith('video/')`. */
  predicate IsVideoType(f: VideoFile)
  {
    "video/" <= f.mimeType
  }

  /** The files a drop passes on. */
  function HandleDrop(dropped: seq<VideoFile>): seq<VideoFile>
  {
    Sequences.Filter(dropped, IsVideoType)
  }

  /** The browse input: no upload when no file list is present, else every picked file. */
  function HandleFileInput(picked: Option<seq<VideoFile>>): (uploaded: Option<seq<VideoFile>>)
    ensures uploaded.Some? <==> picked.Some?
    ensures uploaded.Some? ==>
      && |uploaded.value| == |picked.value|
      && (forall i :: 0 <= i < |uploaded.value| ==> uploaded.value[i] == picked.value[i])
  {
    picked
  }

  /**
   * A drop passes on exactly the video files, in the order they were dropped:
   * every passed file is a video, and every dropped video is passed.
   */
  lemma DropKeepsVideosInOrder(dropped: seq<VideoFile>)
    ensures forall i :: 0 <= i < |HandleDrop(dropped)| ==> IsVideoType(HandleDrop(dropped)[i])
    ensures Sequences.Embeds(HandleDrop(dropped), dropped, Sequences.FilterIndices(dropped, IsVideoType))
    ensures forall j :: 0 <= j < |dropped| ==>
      (IsVideoType(dropped[j]) <==> j in Sequences.FilterIndices(dropped, IsVideoType))
  {
    Sequences.FilterEmbeds(dropped, IsVideoType);
  }

  /** When every dropped file is a video, a drop behaves like the browse input. */
  lemma DropOfVideosPassesAll(dropped: seq<VideoFile>)
    requires forall i :: 0 <= i < |dropped| ==> IsVideoType(dropped[i])
    ensures Some(HandleDrop(dropped)) == HandleFileInput(Some(dropped))
  {
    Sequences.FilterKeepsAll(dropped, IsVideoType);
  }
}
