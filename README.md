# Browser video scene analyser — a Dafny model

The application samples still frames from up to three uploaded videos, one every
two seconds, and turns each still into a scene labelled `MM:SS`. The user picks
scenes, and the selected scenes are compiled into one 1280×720 WebM clip. Each
scene is shown for 90 frames (3 s at 30 fps), zooms in slowly, and cross-fades
into the next scene over its last 15 frames.

This project models the logic around that pipeline, file by file:

- `frame_sampler.dfy` (`FrameSampler`): the `extractFrames` capture loop. It is
  a `while` loop over integer milliseconds. Seeking, drawing and JPEG encoding
  are one abstract capture step that records the time and the half-size canvas
  dimensions.
- `compositor.dfy` (`Compositor`): the constants of `generateVideo` and its
  `renderFrame` loop. Each frame gives a recorded draw decision: scene index,
  frame in scene, outgoing and incoming layers with opacities and placements,
  and the overlay label. Each frame also gives the progress value reported
  before it is drawn. Opacity, zoom and ratios are `real`.
- `timestamps.dfy` (`Timestamps`): the `MM:SS` formatting, with
  `toString` and `padStart` written out, and a parser that reads labels back.
- `video_processing.dfy` (`VideoProcessing`): the `useVideoProcessing` hook as a
  class whose fields are `isProcessing`, `progress` and `scenes`. It has
  `AnalyzeVideos`, with the per-video `forEach` as its own method, and
  `CreateCompilation`.
- `analysis_results.dfy` (`AnalysisResults`): toggling one scene's `selected`
  flag and reporting the selection.
- `video_uploader.dfy` (`VideoUploader`): the MIME-type filter on drop and the
  unfiltered browse input.
- `app.dfy` (`App`): the application state (uploads capped at three, selected
  scenes, final URL) as a class with one method per handler.
- `media.dfy`, `sequences.dfy`, `wrappers.dfy`: the entities (`Scene`,
  `VideoFile`, `Frame`), a generic `filter` with the positions it keeps, and
  `Option`.

Foreign steps become parameters:

- `failAt`: the video whose extraction rejects.
- `failed`: whether loading the images and audio, or starting the recorder,
  rejects.
- `mint`: `URL.createObjectURL`.

Points where the code behaves differently from what one might expect, which the model follows:

- Progress is reported as `currentFrame / totalFrames * 100` before each frame
  is drawn (`src/utils/videoProcessor.ts:116`). The first report is 0, and no
  report is ever 100. A report after each frame would end at 100; this code never
  reports 100.
- The selection handed to the compilation is in list order
  (`src/components/AnalysisResults.tsx:23`). It is not the order in which the
  scenes were clicked.
- The capture canvas is half the native size, rounded down. HTML canvas
  dimensions are integers, and assigning a fractional value truncates it.
- `analyzeVideos` returns the scenes gathered so far even when a video fails.
  Only the `scenes` state is left untouched in that case.

## Model

| member | source | states |
|---|---|---|
| `Compositor.RenderFrame` | src/utils/videoProcessor.ts:107-183 | the draw decisions of one frame; its properties are stated by `FrameIndexing`, `Crossfade`, `LastSceneNeverFades`, `FadeOutStrict` and `LayerGeometry` |
| `Compositor.TotalFrames` | src/utils/videoProcessor.ts:105 | scenes × 90; `GenerateVideo` renders exactly that many frames |
| `Compositor.Opacity` | src/utils/videoProcessor.ts:125-128 | the outgoing opacity ramp; stated by `OpacityRange` and `OpacityDecreasing` |
| `Compositor.MotionProgress` | src/utils/videoProcessor.ts:132 | frameInScene / 90; stated by `ZoomRange` |
| `Compositor.Zoom` | src/utils/videoProcessor.ts:133 | 1 + progress × 0.05; stated by `ZoomRange` |
| `Compositor.FitRatio` | src/utils/videoProcessor.ts:155-158 | min(1280/w, 720/h); stated by `FitInsideCanvas` |
| `Compositor.Centered` | src/utils/videoProcessor.ts:135-141 | the scaled, centred placement; stated by `FitInsideCanvas` and `LayerGeometry` |
| `Compositor.ProgressAt` | src/utils/videoProcessor.ts:116 | the progress reported before frame f; stated by `ProgressReports` |
| `FrameSampler.Capture` | src/utils/videoProcessor.ts:24-27 | one capture at a time on the half-size canvas; stated by `SampleSchedule` |
| `FrameSampler.Frames` | src/utils/videoProcessor.ts:19-37 | the frames extraction produces; stated by `SampleSchedule`, and `ExtractFrames` is proved to compute it |
| `Timestamps.PadStart` | src/hooks/useVideoProcessing.ts:24 | `padStart`; stated by `PaddedNumber` |
| `Timestamps.FormatTimestamp` | src/hooks/useVideoProcessing.ts:21-24 | the `MM:SS` label; stated by `TimestampShape` and `TimestampExamples` |
| `VideoProcessing.SceneFor` | src/hooks/useVideoProcessing.ts:26-30 | the scene pushed for one frame; stated by `SceneContents` |
| `VideoProcessing.VideoScenes` | src/hooks/useVideoProcessing.ts:20-31 | one video's scenes; stated by `SceneContents` and `AppendScenes` |
| `VideoProcessing.AllScenes` | src/hooks/useVideoProcessing.ts:16-31 | the concatenated scenes; stated by `AllScenesLength` and `AllScenesAt` |
| `VideoProcessing.AnalysisProgress` | src/hooks/useVideoProcessing.ts:33 | (i+1)/len × 100; stated by `AnalysisProgressMonotone` |
| `VideoProcessing.Processor.constructor` | src/hooks/useVideoProcessing.ts:6-8 | the hook starts idle, at progress 0, with no scenes |
| `AnalysisResults.SelectedScenes` | src/components/AnalysisResults.tsx:23 | the `filter` of selected scenes; stated by `SelectionInListOrder` and `SelectionCountStep` |
| `VideoUploader.HandleDrop` | src/components/VideoUploader.tsx:16-24 | the MIME-type filter on drop; stated by `DropKeepsVideosInOrder` and `DropOfVideosPassesAll` |
| `FrameSampler.CaptureSize` | src/utils/videoProcessor.ts:15-17 | the capture canvas is half the native width and height (rounded down) |
| `FrameSampler.SampleSchedule` | src/utils/videoProcessor.ts:19-37 | the sample times are exactly 0, I, 2I, …, kI with kI <= duration < (k+1)I, strictly increasing, each capture at half size |
| `FrameSampler.ExtractFrames` | src/utils/videoProcessor.ts:19-37 | the capture loop produces exactly `Frames(meta, interval)`: duration/I + 1 captures at times k·I |
| `Compositor.GenerateVideo` | src/utils/videoProcessor.ts:104-185 | the render loop draws frames 0..scenes·90−1 once each in order, with one progress report each, and stops at totalFrames (at once, with no report, for zero scenes) |
| `Compositor.FrameIndexing` | src/utils/videoProcessor.ts:108-122 | frame k is at scene k/90 < number of scenes, offset k%90 < 90, uses that scene's image and carries that scene's timestamp |
| `Compositor.LabelConstantPerScene` | src/utils/videoProcessor.ts:177 | the overlay label is the same for all frames of one 90-frame block |
| `Compositor.OpacityRange` | src/utils/videoProcessor.ts:125-128 | opacity is 1 unless frameInScene >= 75 and a next scene exists; every opacity lies in [1/15, 1], and it is below 1 exactly when frameInScene > 75 with a next scene |
| `Compositor.OpacityDecreasing` | src/utils/videoProcessor.ts:127 | inside the transition window the opacity ramp strictly decreases |
| `Compositor.FadeOutStrict` | src/utils/videoProcessor.ts:125-128 | from one frame to the next inside one scene's fade, the outgoing alpha strictly decreases |
| `Compositor.Crossfade` | src/utils/videoProcessor.ts:153-169 | a second image is drawn if and only if the frame is in the last 15 of a scene with a successor; it is the successor's image, and the two alphas sum to 1 |
| `Compositor.LastSceneNeverFades` | src/utils/videoProcessor.ts:123-128 | frames of the last scene never draw a next image and keep opacity 1 |
| `Compositor.ZoomRange` | src/utils/videoProcessor.ts:132-133 | the zoom factor lies in [1, 1.05) and the motion progress in [0, 1) |
| `Compositor.FitInsideCanvas` | src/utils/videoProcessor.ts:155-160 | at ratio min(1280/w, 720/h) the image lies inside 1280×720, centred, touching two opposite edges, with its aspect ratio kept |
| `Compositor.LayerGeometry` | src/utils/videoProcessor.ts:132-168 | the current image is drawn at fit size × zoom and centred; the incoming image is drawn inside the canvas |
| `Compositor.ProgressReports` | src/utils/videoProcessor.ts:116 | the reported progress starts at 0, strictly increases, and stays below 100 |
| `Compositor.TwoSceneScenario` | src/utils/videoProcessor.ts:104-133 | two scenes make 180 frames, fade in frames 75..89 only, reach alpha 1/15 at frame 89, and frame 150 is 2/3 through its scene |
| `Compositor.SingleSceneScenario` | src/utils/videoProcessor.ts:123-128 | a single scene renders 90 frames at alpha 1 with no second image |
| `Timestamps.NatToString` | src/hooks/useVideoProcessing.ts:24 | `toString` gives a non-empty digit string without a leading zero, of length 1 exactly below 10 and of length 2 from 10 to 99 |
| `Timestamps.NatToStringRoundTrip` | src/hooks/useVideoProcessing.ts:24 | reading the rendered digits back gives the number |
| `Timestamps.PaddedNumber` | src/hooks/useVideoProcessing.ts:24 | `padStart(2, '0')` of a number has at least two digits, exactly two below 100, and the same value |
| `Timestamps.TimestampShape` | src/hooks/useVideoProcessing.ts:21-24 | a label is minutes (>= 2 digits) ':' seconds (exactly 2 digits); it reads back as (2n/60, 2n%60), and the seconds are even and at most 58 |
| `Timestamps.TimestampExamples` | src/hooks/useVideoProcessing.ts:21-24 | frame 0 is labelled "00:00" and frame 31 "01:02" |
| `VideoProcessing.AllScenesStep` | src/hooks/useVideoProcessing.ts:16-31 | analysing one more video appends exactly that video's scenes |
| `VideoProcessing.AllScenesLength` | src/hooks/useVideoProcessing.ts:16-31 | there is one scene per extracted frame: the length is the sum of the frame counts |
| `VideoProcessing.AllScenesAt` | src/hooks/useVideoProcessing.ts:20-30 | the scene of frame j of video i sits after the earlier videos' frames, and its numbering restarts at 0 for every video |
| `VideoProcessing.SceneContents` | src/hooks/useVideoProcessing.ts:26-30 | a scene's description is "Scene from <name> at <timestamp>", its frame is the extracted frame, and it starts unselected |
| `VideoProcessing.AnalysisProgressMonotone` | src/hooks/useVideoProcessing.ts:33 | per-video progress (i+1)/len·100 strictly increases, lies in (0, 100], and is exactly 100 after the last video |
| `VideoProcessing.AppendScenes` | src/hooks/useVideoProcessing.ts:20-31 | the `forEach` appends one scene per frame, in frame order |
| `VideoProcessing.Processor.AnalyzeVideos` | src/hooks/useVideoProcessing.ts:10-45 | returns the concatenated scenes of the videos processed; replaces `scenes` only when no video fails; ends with `isProcessing` false and `progress` 0 on both paths |
| `VideoProcessing.Processor.CreateCompilation` | src/hooks/useVideoProcessing.ts:47-63 | returns no URL exactly when generation fails, and otherwise the object URL of the rendered frames; ends with `isProcessing` false and `progress` 0 |
| `AnalysisResults.Toggle` | src/components/AnalysisResults.tsx:19-21 | toggling keeps the length and flips the selection of the clicked scene only; every other scene and every other field is unchanged |
| `AnalysisResults.ToggleSceneSelection` | src/components/AnalysisResults.tsx:18-24 | a click yields the toggled list and reports exactly its selected scenes, at increasing positions (list order, none missing) |
| `AnalysisResults.ToggleOutOfRange` | src/components/AnalysisResults.tsx:19-21 | an index outside the list changes no flag |
| `AnalysisResults.ToggleTwice` | src/components/AnalysisResults.tsx:20 | two clicks on one scene restore every scene's selection state (undefined and false both count as unselected) |
| `AnalysisResults.SelectionInListOrder` | src/components/AnalysisResults.tsx:23 | the reported selection is the selected scenes of the updated list at increasing positions, so in list order and with none missing |
| `AnalysisResults.SelectionCountStep` | src/components/AnalysisResults.tsx:19-23 | each click on an in-range scene changes the selection size by exactly +1 or −1 |
| `VideoUploader.HandleFileInput` | src/components/VideoUploader.tsx:26-35 | the browse input passes every picked file on in order, and passes nothing when there is no file list |
| `VideoUploader.DropKeepsVideosInOrder` | src/components/VideoUploader.tsx:18-22 | a drop passes only files with a `video/` type, passes every dropped one, and keeps their relative order |
| `VideoUploader.DropOfVideosPassesAll` | src/components/VideoUploader.tsx:16-35 | a drop containing only videos passes the same files as the browse input |
| `Sequences.Filter` | src/components/VideoUploader.tsx:19 | `filter` keeps only elements satisfying the predicate and never grows the list |
| `Sequences.FilterEmbeds` | src/components/AnalysisResults.tsx:23 | `filter` keeps exactly the satisfying positions, in increasing order |
| `Sequences.FilterMembership` | src/components/AnalysisResults.tsx:23 | an element is kept if and only if it is in the input and satisfies the predicate |
| `Sequences.FilterKeepsAll` | src/components/VideoUploader.tsx:19 | a filter that rejects nothing returns its input |
| `Sequences.FilterUpdateCount` | src/components/AnalysisResults.tsx:19-23 | changing one element from rejected to accepted adds exactly one kept element, and the converse removes one |
| `App.UploadedAfter` | src/App.tsx:23 | the new upload list has length min(3, old + new), is a prefix of old ++ new, and is old followed by as many new files as fit |
| `App.UploadKeepsEarlier` | src/App.tsx:23 | earlier uploads are never displaced; a full list ignores new files |
| `App.AppState.constructor` | src/App.tsx:10-12 | the app starts with no uploads, no selection and no final URL |
| `App.AppState.HandleVideoUpload` | src/App.tsx:22-26 | uploads are appended and capped at 3; the selection is cleared to empty and the final URL to "" |
| `App.AppState.HandleAnalyze` | src/App.tsx:28-30 | analysing the uploads replaces the scenes unless a video fails, and always ends idle |
| `App.AppState.HandleSceneSelect` | src/App.tsx:32-34 | the selection is replaced wholesale by its argument |
| `App.AppState.HandleGenerateVideo` | src/App.tsx:36-42 | with an empty selection nothing changes and no compilation is made; the final URL changes only when a non-empty URL comes back; the analysed scenes are never touched |

## Left out

- Canvas drawing, `toDataURL` JPEG encoding, `captureStream`, `MediaRecorder`, chunk and Blob assembly, `AudioContext`, the audio fetch and `decodeAudioData`, and `Image` loading are browser calls. Captured frames are values with a time and a size. The recorded output (`Compositor.Blob`) is the sequence of draw decisions with the `video/webm` type. The 2,500,000 bit/s bitrate and the audio track are not modelled.
- `requestAnimationFrame` and the promise and callback plumbing are not modelled. The render and capture chains are plain loops in the same order.
- `panX` uses `Math.sin` and is not modelled. The model's current-image x position is `centerX` before `panX` is added. The source adds `panX` to the current image only.
- `Compositor.LayerGeometry`: does not state that the current image stays inside the canvas. Under zoom it is larger than the fit size, so it can overflow.
- Durations are natural numbers of milliseconds. A `NaN` or infinite media duration, and the `toFixed` display formatting, are not modelled.
- `FrameSampler.ExtractFrames`: requires a positive interval. With a zero or negative interval the source loops forever. Its only caller passes 2000.
- `Compositor.GenerateVideo`: requires every scene to carry a frame with a non-empty image. `CreateCompilation` and `HandleGenerateVideo` require it only on their successful path (when `failed` is false). A successful generation with such a scene is impossible in the source: the image load never completes, so generation waits forever unless an earlier step (the recorder constructor, the audio load) rejects, which is the `failed` path.
- Metadata and seek failures have no handler in the source, so those promises never settle. They are not modelled.
- A rejecting extraction or compilation is a parameter of the methods. The model does not say which browser call rejects.
- `VideoProcessing.Processor.AnalyzeVideos`: states only the final state of `isProcessing` and `progress`. The per-video progress values set inside the loop are returned as `reported`. The busy flag being `true` and the initial `setProgress(0)` while work runs are not stated.
- `VideoProcessing.Processor.CreateCompilation`: likewise states only the final state. The values forwarded by the progress callback are returned as `reported`.
- The `console.error` logging on the error paths of `analyzeVideos` and `createCompilation` is I/O and is not modelled.
- The results list copies its `results` prop into component state once (`useState(results)`). That lifetime is not modelled. `ToggleSceneSelection` receives the current list.
- Attaching a `preview` object URL to each uploaded file is not modelled.
- `src/components/FinalVideo.tsx` (play, mute and download controls) and all JSX rendering and styling are not part of this model.
