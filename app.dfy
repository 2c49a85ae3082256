/**
 * The application state: the uploaded videos (at most three), the scenes
 * chosen for the compilation, and the URL of the last compilation.
 */
module App {
  import opened Wrappers
  import opened Media
  import Compositor
  import VideoProcessing

  const MaxVideos: nat := 3

  function Min(a: nat, b: nat): nat
  {
    if a <= b then a else b
  }

  /** `[...prev, ...files].slice(0, 3)`. */
  function UploadedAfter(prev: seq<VideoFile>, files: seq<VideoFile>): (r: seq<VideoFile>)
    ensures |r| == Min(MaxVideos, |prev| + |files|)
    ensures r <= prev + files
    ensures |prev| <= MaxVideos ==> r == prev + files[..|r| - |prev|]
  {
    (prev + files)[..Min(MaxVideos, |prev| + |files|)]
  }

  /** Uploading never lets in more than three videos, and earlier uploads keep priority. */
  lemma UploadKeepsEarlier(prev: seq<VideoFile>, files: seq<VideoFile>)
    requires |prev| <= MaxVideos
    ensures prev <= UploadedAfter(prev, files)
    ensures |prev| == MaxVideos ==> UploadedAfter(prev, files) == prev
    ensures |prev| + |files| <= MaxVideos ==> UploadedAfter(prev, files) == prev + files
  {
  }

  class AppState {
    var uploadedVideos: seq<VideoFile>
    var selectedScenes: seq<Scene>
    var finalVideoUrl: string
    const processing: VideoProcessing.Processor

    ghost predicate Valid()
      reads this
    {
      |uploadedVideos| <= MaxVideos
    }

    constructor ()
      ensures Valid() && fresh(processing)
      ensures uploadedVideos == [] && selectedScenes == [] && finalVideoUrl == ""
      ensures !processing.isProcessing && processing.progress == 0.0 && processing.scenes == []
    {
      uploadedVideos, selectedScenes, finalVideoUrl := [], [], "";
      processing := new VideoProcessing.Processor();
    }

    /** Append the new files up to the cap; clear the selection and the last result. */
    method HandleVideoUpload(files: seq<VideoFile>)
      requires Valid()
      modifies this
      ensures Valid()
      ensures uploadedVideos == UploadedAfter(old(uploadedVideos), files)
      ensures selectedScenes == [] && finalVideoUrl == ""
    {
      uploadedVideos := UploadedAfter(uploadedVideos, files);
      selectedScenes := [];
      finalVideoUrl := "";
    }

    /** Analyse the uploaded videos; `failAt` is as for `AnalyzeVideos`. */
    method HandleAnalyze(failAt: Option<nat>)
      requires Valid()
      requires failAt.Some? ==> failAt.value < |uploadedVideos|
      modifies processing
      ensures Valid()
      ensures !processing.isProcessing && processing.progress == 0.0
      ensures processing.scenes ==
        if failAt.None? then VideoProcessing.AllScenes(uploadedVideos) else old(processing.scenes)
    {
      assert uploadedVideos[..|uploadedVideos|] == uploadedVideos;
      var _, _ := processing.AnalyzeVideos(uploadedVideos, failAt);
    }

    /** The selection from the results list replaces the current one wholesale. */
    method HandleSceneSelect(scenes: seq<Scene>)
      requires Valid()
      modifies this
      ensures Valid()
      ensures selectedScenes == scenes
      ensures uploadedVideos == old(uploadedVideos) && finalVideoUrl == old(finalVideoUrl)
    {
      selectedScenes := scenes;
    }

    /**
     * Generate a compilation of the selected scenes. With nothing selected
     * nothing happens; otherwise the result URL is kept only if one came back.
     */
    method HandleGenerateVideo(failed: bool, mint: Compositor.Blob -> string)
      requires Valid()
      requires !failed ==> AllDecodable(selectedScenes)
      modifies this, processing
      ensures Valid()
      ensures processing.scenes == old(processing.scenes)
      ensures uploadedVideos == old(uploadedVideos) && selectedScenes == old(selectedScenes)
      ensures old(selectedScenes) == [] ==> unchanged(this, processing)
      ensures old(selectedScenes) != [] ==> !processing.isProcessing && processing.progress == 0.0
      ensures old(selectedScenes) == [] || failed ==> finalVideoUrl == old(finalVideoUrl)
      ensures old(selectedScenes) != [] && !failed ==>
        exists frames :: |frames| == Compositor.TotalFrames(selectedScenes)
          && (forall k :: 0 <= k < |frames| ==> frames[k] == Compositor.RenderFrame(selectedScenes, k))
          && var u := mint(Compositor.Blob(Compositor.OutputMimeType, frames));
             finalVideoUrl == if u != "" then u else old(finalVideoUrl)
    {
      if |selectedScenes| == 0 {
        return;
      }
      var videoUrl, _ := processing.CreateCompilation(selectedScenes, failed, mint);
      if videoUrl.Some? && videoUrl.value != "" {
        finalVideoUrl := videoUrl.value;
      }
    }
  }
}
