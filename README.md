# Video2AI worker lifecycle in Dafny

This project models the background worker of a desktop tool that stylises a
video with Stable Diffusion. One run of the worker does these steps in order:

1. It checks the input video path.
2. It provisions a workspace in the output directory.
3. It has ffmpeg split the video into `frame_%04d.jpg` files.
4. It optionally extracts an OpenPose skeleton for every frame.
5. It feeds every frame through the generation pipeline, with a generator
   freshly seeded from the configured seed.
6. It has ffmpeg assemble `final_output.mp4`.

While it runs, the worker reports integer progress through `progress_signal`.
At the end it sends `finished_signal`, or `error_signal` when an exception
reached its `except` block. A `stop()` call clears the `running` flag, and
the worker polls that flag before every frame.

Three parts of the repository are modelled.

- **The current worker** (core/worker.py) is module `Worker`.
  - It keeps its frames in a transient directory and removes that directory
    in a `finally` block on every way out.
  - It offers two modes: pose-conditioned generation, and image-to-image
    generation with a denoising strength.
- **The older worker and the seed field of the settings page** (gui_main.py)
  are module `LegacyGui`.
  - This worker always runs the pose stage and uses fixed 24 fps and 512 px.
  - It fails on an empty extraction.
  - It never deletes anything.
- **The configuration record the current worker reads** (core/config.py) is
  module `Config`.

The model is built from a few shared pieces.

**The filesystem** (module `Os`):
- It is a map from a directory (a sequence of path components) to the files
  directly in it.
- `os.makedirs`, `shutil.rmtree` and the image saves are methods of a `Disk`
  class.
- Each of those methods is specified by a pure function.

**The outside world** (module `Pipeline`) is an `Env` value of oracles:
- the deferred imports and `os.path.exists`;
- removal of a stale transient directory;
- ffmpeg extraction (the files it writes) and assembly;
- loading of the pose detector and of the generation pipeline;
- the detector and the pipeline themselves;
- when `stop()` is called.

Cancellation is a sequence `stops`: `stops[k]` says that `stop()` was called
before the k-th poll. Once the flag is cleared, it stays cleared.

**The signals** form one trace of `Event`s:
- `Progress(percent, status)`, where the status tag stands for the status
  text;
- `Finished`;
- `Error(reason)`.

**How a run is modelled.** Each source file is modelled twice:
- as pure functions, one per stage of the try block, threading a `World`
  (filesystem, trace, `running` flag, polls so far) and ending in a `Step`
  that either continues or halts with an outcome;
- as a class `AIWorker` whose methods do the same work in place, on `Disk`
  and on the class fields.

Each method is proved to produce exactly the state its stage function
describes, and `AIWorker.Run` is proved to agree with `Execution`. The
properties themselves are proved as lemmas about the functions, in modules
`WorkerProperties` and `LegacyProperties`.

Progress values are `int(...)` of a float product in the source. The model
uses the exact integer floor: `20 + idx*20/total` and `50 + idx*45/total`.

The current worker has no zero-frame check (core/worker.py:81-82): such a
run still loads the models and attempts assembly
(`WorkerProperties.ZeroFramesStillLoadModels`). Only the older worker fails
on an empty extraction (gui_main.py:120-121).

## Model

| member | source | states |
|---|---|---|
| Config.Default | core/config.py:6-30 | The default record: empty input path, output directory "output", 24 fps at width 512, pose mode on, seed 12345, 20 steps, cfg scale 7.5, strength 0.75, and no transient directory name. |
| Os.Ancestry | core/worker.py:59-62 | The directories that `os.makedirs(p)` ensures exist are exactly the non-empty prefixes of `p`. |
| Os.WithDirs | core/worker.py:59-62 | `os.makedirs(p, exist_ok=True)` adds exactly the missing ancestors of `p`, each empty, and keeps every existing directory with its content. |
| Os.WithAllDirs | gui_main.py:93-94 | Creating a list of directories one after another keeps every existing directory and its content, makes every ancestor of every listed path exist, and leaves each new directory empty. |
| Os.WithoutTree | core/worker.py:176 | `shutil.rmtree(p)` removes exactly the directories at or below `p` and keeps every other directory unchanged. |
| Os.WithFile | core/worker.py:142 | Saving one image changes exactly that name in that directory. |
| Os.WithFiles | core/worker.py:74-79 | ffmpeg writing into a directory adds or overwrites exactly its files there. The names already present stay, and no other directory changes. |
| Os.Lookup | core/worker.py:114 | `Image.open` of dir/name succeeds exactly when the directory exists and holds that name, and yields its content. |
| Os.WithDirsKeepsRooted | core/worker.py:59-62 | Creating directories keeps every directory's parent present. |
| Os.WithoutTreeKeepsRooted | core/worker.py:176 | Removing a tree keeps every directory's parent present. |
| Os.WritesRetain | gui_main.py:93-94 | Creating directories and writing files never delete a directory or a file. |
| Os.RetainsTransitive | gui_main.py:84-247 | Not deleting anything composes over successive steps. |
| Os.Disk.MakeDirs | core/worker.py:59-62 | In place: the directory map becomes `WithDirs` of the old one. |
| Os.Disk.MakeAllDirs | gui_main.py:93-94 | The loop over the directory list leaves exactly `WithAllDirs` of the old map. |
| Os.Disk.RemoveTree | core/worker.py:57 | In place: the directory map becomes `WithoutTree` of the old one. |
| Os.Disk.Save | core/worker.py:142 | In place: the directory map becomes `WithFile` of the old one. |
| Os.Disk.SaveAll | core/worker.py:74-79 | In place: the directory map becomes `WithFiles` of the old one. |
| Text.SortedSet | core/worker.py:81 | `sorted(...)` of a set of names returns each name exactly once, nothing else, in strictly ascending Python string order. |
| Text.LessTotal | core/worker.py:81 | Python's string order is total on distinct strings. |
| Text.LessTransitive | core/worker.py:81 | Python's string order is transitive. |
| Text.LeastExists | core/worker.py:81 | Every non-empty set of names has a least element. |
| Text.LessCommonPrefix | core/worker.py:81 | Names sharing a prefix compare as their remainders compare. |
| Text.Decimal | core/worker.py:78 | The decimal digits of a natural number are all ASCII digits, and the number has one digit exactly when it is below 10. |
| Text.DecimalRoundTrip | gui_main.py:482-483 | `int(str(n)) == n`. |
| Text.ParseDigits | gui_main.py:482-483 | `int(text)` is taken exactly when `text.isdigit()`. |
| Text.ParseDecimal | gui_main.py:482-483 | Parsing the digits of `n` yields `n`. |
| Text.FrameName | core/worker.py:78 | Every `frame_%04d.jpg` name is `frame_`, at least four digits, then `.jpg`, so the frame listing keeps it. |
| Text.FrameNameIndex | core/worker.py:78 | The zero-padded digits of frame name n read back as n. |
| Text.FrameOrderIsNotNumericPast9999 | core/worker.py:81 | Processing order is the lexicographic order of names: `frame_10000.jpg` sorts before `frame_1001.jpg`, although 10000 > 1001. |
| Pipeline.Poll | core/worker.py:90 | The flag check sees `running` false exactly when it was already false or a `stop()` came since the previous poll. It counts one poll and changes nothing else. |
| Pipeline.PoseProgress | core/worker.py:98 | `20 + int(idx/total*20)` lies in [20, 39] for every frame index. |
| Pipeline.GenProgress | core/worker.py:148 | `50 + int(idx/total*45)` lies in [50, 94] for every frame index. |
| Pipeline.BandsRise | core/worker.py:98-148 | Within each band, a later frame never reports less progress than an earlier one. |
| Pipeline.JpgFrames | core/worker.py:81 | The frame list is strictly sorted and holds exactly the directory's names that end in `.jpg`. |
| Pipeline.PoseFrameStep | core/worker.py:89-99 | One pose-loop pass polls once. When the flag is cleared it halts Cancelled with nothing written. Otherwise it changes only that frame's file in the pose directory and emits exactly its band report. When it goes on, the raw frame existed, the detector succeeded, and the pose file is the detector's skeleton of the raw frame. |
| Pipeline.Skeleton | core/worker.py:93-95 | The detector's skeleton of a frame exists only when the raw frame opens. |
| Pipeline.PoseLoop | core/worker.py:89-99 | The pose loop keeps the set of directories and only appends signals and polls. |
| Pipeline.PoseLoopWritesOnlyFrames | core/worker.py:95 | The pose loop changes no pose file other than the frames it goes through. |
| Pipeline.PoseLoopOutputs | core/worker.py:89-99 | Every pose file the loop touches is the detector's skeleton of the raw frame with that name. A loop that runs to the end has written that skeleton for every frame. |
| Pipeline.PoseLoopHonoursStop | core/worker.py:90 | A stop requested before poll k stops the pose loop: it makes no poll after poll k, and if it made poll k it halts Cancelled. |
| Pipeline.PoseLoopKeepsDone | core/worker.py:89-95 | A pose loop that halts at its m-th poll, cancelled there or failing there, has saved the skeleton of each of the m-1 frames before it. |
| Pipeline.RisingAppend | core/worker.py:98-99 | A report no lower than the last one keeps the progress sequence non-decreasing. |
| Pipeline.RisingIsSorted | core/worker.py:148-149 | A non-decreasing trace has every earlier progress value at most every later one. |
| Pipeline.PoseLoopRises | core/worker.py:98-99 | Pose-loop reports keep progress non-decreasing and at most 39. |
| Pipeline.PoseLoopKeepsOtherDirs | core/worker.py:95 | The pose loop writes only into the pose directory. |
| Pipeline.PoseLoopIsQuiet | core/worker.py:89-99 | The pose loop sends only progress short of assembly: no `finished_signal` and no `error_signal`. |
| Pipeline.PoseLoopReportsOnlyPoses | core/worker.py:98-99 | Every signal the pose loop sends is a per-frame pose report. |
| Worker.LayoutFor | core/worker.py:40-52 | Every directory of the workspace is a non-empty path, and the persistent `frames_out` lies under `output_dir`. |
| Worker.CreateDirs | core/worker.py:59-62 | After `makedirs(temp_dir)` and the loop over `dirs`, all five directories exist. |
| Worker.Prepare | core/worker.py:25-62 | Whenever the run continues, the workspace is provisioned under the configured `temp_dir_name`. No polls happen, and no signal is dropped. |
| Worker.Extract | core/worker.py:69-82 | Extraction keeps the set of directories and never polls. |
| Worker.PoseStage | core/worker.py:84-104 | The pose stage keeps the set of directories and only appends signals and polls. |
| Worker.Request | core/worker.py:118-140 | The pipeline call passes the conditioning image, prompt, negative prompt, steps and cfg scale. It passes `denoising_strength` exactly in image-to-image mode. |
| Worker.Conditioning | core/worker.py:114-120 | The conditioning image exists only when the raw frame opens. In image-to-image mode it is the raw frame; in pose mode it is the same-named pose image. |
| Worker.Stylised | core/worker.py:114-140 | A frame has a generated image only when its conditioning image exists. |
| Worker.GenFrameStep | core/worker.py:112-149 | One generation pass polls once. When the flag is cleared it halts Cancelled. Otherwise it writes exactly that frame's output, which is the `Stylised` image of that frame, and emits its band report. |
| Worker.GenLoop | core/worker.py:111-149 | The generation loop keeps the set of directories and only appends signals and polls. |
| Worker.StyliseStage | core/worker.py:106-152 | The generation stage keeps the set of directories and only appends signals and polls. |
| Worker.AssembleStage | core/worker.py:154-164 | Assembly keeps the set of directories and never polls. |
| Worker.FrameStages | core/worker.py:84-164 | The stages after extraction keep the set of directories and only append signals and polls. |
| Worker.Body | core/worker.py:25-164 | `temp_dir` is assigned exactly as preparation assigns it, and it still exists when the try block ends. |
| Worker.Finally | core/worker.py:171-178 | The finally block only appends signals and changes neither the polls nor the flag. Without `temp_dir` it changes nothing. |
| Worker.Conclude | core/worker.py:166-178 | The except and finally blocks only append signals to the try block's. |
| Worker.Execution | core/worker.py:20-178 | A run only appends signals. |
| Worker.AIWorker.constructor | core/worker.py:15-18 | A new worker holds its configuration and starts with `running` true and no signals. |
| Worker.AIWorker.Stop | core/worker.py:181-182 | `stop()` clears `running` and sends nothing. |
| Worker.AIWorker.Run | core/worker.py:20-178 | In place, `run()` reaches exactly the outcome, filesystem, signals and flag of `Execution`. |
| Worker.AIWorker.Attempt | core/worker.py:25-164 | The try block in place ends exactly where `Body` ends, with the same `temp_dir`. |
| Worker.AIWorker.Provision | core/worker.py:25-62 | Validation and provisioning in place agree with `Prepare`. |
| Worker.AIWorker.ExtractFrames | core/worker.py:69-82 | Extraction in place agrees with `Extract`, frames included. |
| Worker.AIWorker.ExtractPoses | core/worker.py:84-104 | The pose loop in place agrees with `PoseStage`. |
| Worker.AIWorker.DetectPose | core/worker.py:89-99 | One pose-loop pass in place agrees with `PoseFrameStep`. |
| Worker.AIWorker.Stylise | core/worker.py:106-152 | The generation loop in place agrees with `StyliseStage`. |
| Worker.AIWorker.GenerateFrame | core/worker.py:112-149 | One generation pass in place agrees with `GenFrameStep`. |
| Worker.AIWorker.AssembleVideo | core/worker.py:154-164 | Assembly in place agrees with `AssembleStage`. |
| WorkerProperties.InvalidInputChangesNothing | core/worker.py:33-34 | A failed import, or an empty or missing input, fails before any directory exists or any progress is sent. Because `temp_dir` is still unset there is no cleanup, and the one signal is `error_signal`. |
| WorkerProperties.MissingTempDirNameFails | core/worker.py:40 | A configuration without `temp_dir_name` fails right after `output_dir` is created, with only `error_signal`. |
| WorkerProperties.DefaultConfigNeverRuns | core/config.py:6-30 | With the default configuration, whatever input path is given, every run fails before any progress report. |
| WorkerProperties.NamedWorkspaceIsProvisioned | core/worker.py:55-62 | With a valid input and a `temp_dir_name` (and a removable old directory), provisioning succeeds and every work directory exists. |
| WorkerProperties.CreateDirsAddsEmpty | core/worker.py:59-62 | Creating the work directories keeps every existing directory unchanged. Missing raw and pose directories come out empty. |
| WorkerProperties.PrepareKeepsRooted | core/worker.py:55-62 | Provisioning keeps every directory's parent present. |
| WorkerProperties.ProvisionedWorkspaceIsFresh | core/worker.py:55-62 | After provisioning, the raw and pose directories exist and are empty, because the old `temp_dir` was removed first. Everything outside `temp_dir` is as before. That includes `frames_out` unless `temp_dir_name` is "frames_out" (`PersistentOutsideTransient`): then `frames_out` is the transient root and is removed at core/worker.py:57. |
| WorkerProperties.StylisedReadsOnlyInputs | core/worker.py:114-120 | A frame's output depends only on the raw and pose directories. |
| WorkerProperties.GenFrameStepKeepsInputs | core/worker.py:142 | Saving one output never changes what another frame would be generated from. |
| WorkerProperties.FrameOutputByMode | core/worker.py:114-140 | In pose mode the output is the pipeline applied to the pose image of the same name, with no strength. Otherwise it is applied to the raw image, with `denoising_strength`. In either mode the generator is freshly seeded from `config.seed`. |
| WorkerProperties.SameConditioningSameOutput | core/worker.py:115 | Two frames with the same conditioning image get the same output, whatever came before. |
| WorkerProperties.ImageModeSkipsPose | core/worker.py:103-104 | In image-to-image mode the pose stage is a single (20, …) report: no poll, no file, no detector. |
| WorkerProperties.GenLoopKeepsOtherDirs | core/worker.py:142 | The generation loop writes only into `frames_out`. |
| WorkerProperties.GenLoopWritesOnlyFrames | core/worker.py:142 | Only names in the frame list are written in `frames_out`. |
| WorkerProperties.GenLoopOutputs | core/worker.py:111-149 | Each frame's output is the `Stylised` image of the initial inputs, independent of earlier frames. A finished loop has written every frame. |
| WorkerProperties.GenLoopStopsAt | core/worker.py:112 | A stop before generated frame k halts the loop within k+1 polls, and frame k and later are not written. The halt is Cancelled unless an earlier frame failed before the poll of frame k. |
| WorkerProperties.PoseLoopStopsAt | core/worker.py:90 | A stop before pose frame k halts the pose loop within k+1 polls, and frame k and later get no skeleton. The halt is Cancelled unless an earlier frame failed before the poll of frame k. |
| WorkerProperties.GenLoopHonoursStop | core/worker.py:112 | A stop requested before poll k stops the generation loop: it makes no poll after poll k, and if it made poll k it halts Cancelled. |
| WorkerProperties.PoseStageHonoursStop | core/worker.py:84-104 | The same for the whole pose stage, skipped or not. |
| WorkerProperties.StyliseStageHonoursStop | core/worker.py:106-149 | The same for the whole generation stage. |
| WorkerProperties.FrameStagesHonourStop | core/worker.py:84-164 | The same for pose, generation and assembly together. |
| WorkerProperties.BodyHonoursStop | core/worker.py:25-164 | The same for the whole try block. |
| WorkerProperties.ConcludeKeepsOutcome | core/worker.py:166-178 | The run's outcome is the try block's outcome, and its poll count is the try block's poll count. |
| WorkerProperties.StopIsHonoured | core/worker.py:20-178 | When `stop()` is requested before poll k, `run` makes no poll after poll k. A run that made poll k ends Cancelled, and then sends neither `finished_signal` nor `error_signal`. |
| WorkerProperties.GenLoopKeepsDone | core/worker.py:111-142 | A generation loop that halts at its m-th poll, cancelled there or failing there, has saved the stylised output of each of the m-1 frames before it. |
| WorkerProperties.StyliseStageKeepsDone | core/worker.py:106-149 | A generation stage that halts at the poll of frame k has saved the stylised output of every frame before k. |
| WorkerProperties.BodyKeepsDone | core/worker.py:25-149 | When `temp_dir_name` is not "frames_out", a try block whose generation halts at the poll of frame k ends with the stylised output of every frame before k in `frames_out`. |
| WorkerProperties.StopKeepsWrittenOutputs | core/worker.py:20-178 | When `temp_dir_name` is not "frames_out" and a run stops at the poll of generated frame k, the outputs of the frames before k are still in `frames_out` when `run` returns. Cleanup removes only `temp_dir`. |
| WorkerProperties.PoseStageDelivers | core/worker.py:84-104 | A pose stage that runs to the end has written, for every frame, the detector's skeleton of its raw frame in the pose directory. |
| WorkerProperties.PoseModeOutputsFromSkeletons | core/worker.py:89-142 | In pose mode, when the pose and generation stages both run to the end, every frame's output is the pipeline's result on the detector's skeleton of that raw frame, with the configured seed. |
| WorkerProperties.StyliseStageStopsAt | core/worker.py:106-149 | A stop before generated frame k halts the generation stage. Only `frames_out` changes, and frame k and later are not written. |
| WorkerProperties.PoseStopSkipsLaterStages | core/worker.py:89-104 | A stop during the pose loop ends the run within k+1 polls. `frames_out` is untouched, frame k and later get no skeleton, and after the 15 report only per-frame pose reports follow, so the pipeline is never loaded. |
| WorkerProperties.GenStopSkipsAssembly | core/worker.py:111-164 | A stop during generation ends the run within k+1 polls of the generation loop. No assembly report and no `finished_signal` are sent, `output_dir` itself is untouched, and frame k and later get no output. |
| WorkerProperties.PrepareIsQuiet | core/worker.py:25-62 | Validation and provisioning send only quiet progress, and they halt only by failing. |
| WorkerProperties.ExtractIsQuiet | core/worker.py:69-82 | Extraction sends only quiet progress, and it halts only by failing. |
| WorkerProperties.PoseStageIsQuiet | core/worker.py:84-104 | The pose stage sends only quiet progress. |
| WorkerProperties.StyliseStageIsQuiet | core/worker.py:106-152 | The generation stage sends only quiet progress. |
| WorkerProperties.FrameStagesCancelledIsQuiet | core/worker.py:84-152 | The frame stages, when cancelled, sent no assembly report, no `finished_signal` and no `error_signal`. |
| WorkerProperties.BodyCancelledIsQuiet | core/worker.py:90-112 | A cancelled try block sent only quiet progress. |
| WorkerProperties.CancelledRunSignalsNothing | core/worker.py:90-178 | A cancelled run sends neither `finished_signal` nor `error_signal` and never reaches assembly. |
| WorkerProperties.ConcludeCancelledIsQuiet | core/worker.py:171-178 | The finally block adds only the cleanup report to a cancelled run. |
| WorkerProperties.PersistentOutsideTransient | core/worker.py:40-52 | Unless `temp_dir_name` is "frames_out", neither `output_dir` nor `frames_out` lies in the transient tree. |
| WorkerProperties.ConcludeCleansUp | core/worker.py:171-178 | The finally block removes the transient tree when `rmtree` succeeds and keeps every directory outside it. |
| WorkerProperties.CleanupRemovesTransientTree | core/worker.py:171-178 | When `rmtree` succeeds: on every way out once `temp_dir` is set (completion, both cancellation returns, any exception), nothing under `temp_dir` remains. |
| WorkerProperties.CleanupTouchesOnlyTransientTree | core/worker.py:171-178 | Cleanup changes nothing outside `temp_dir`, and the outcome is the try block's. |
| WorkerProperties.CleanupFailureIsSwallowed | core/worker.py:175-178 | A failing `rmtree` changes neither the outcome, nor the signals, nor the polls. |
| WorkerProperties.PrepareRises | core/worker.py:56 | Provisioning reports at most 1. |
| WorkerProperties.ExtractRises | core/worker.py:73 | Extraction keeps progress non-decreasing and at most 5. |
| WorkerProperties.PoseStageRises | core/worker.py:84-104 | The pose stage keeps progress non-decreasing and at most 39. |
| WorkerProperties.StyliseStageRises | core/worker.py:106-149 | The generation stage keeps progress non-decreasing and at most 94. |
| WorkerProperties.AssembleStageRises | core/worker.py:155-164 | Assembly keeps progress non-decreasing. A completed assembly appends exactly 95, the 100 of completion, and `finished_signal`. |
| WorkerProperties.AssembleStageEnds | core/worker.py:155-164 | A completed assembly appends exactly 95, 100 and `finished_signal`. |
| WorkerProperties.BodyRises | core/worker.py:25-164 | Through the try block progress never decreases and never passes 100. |
| WorkerProperties.BodyCompletedEnds | core/worker.py:163-164 | A try block that runs to the end ends with the 100 of completion and `finished_signal`, and `temp_dir` is set. |
| WorkerProperties.ConcludeEvents | core/worker.py:166-178 | After the try block, the only signals added are `error_signal` on failure and then the cleanup 100 once `temp_dir` is set. |
| WorkerProperties.ConcludeRises | core/worker.py:171-174 | The finally block keeps progress non-decreasing, and once `temp_dir` is set the last report is the cleanup 100. |
| WorkerProperties.ProgressRises | core/worker.py:20-178 | A whole run reports non-decreasing progress, at most 100. Whenever `temp_dir` was set, its last report is the cleanup 100. |
| WorkerProperties.CompletedRunEnds | core/worker.py:163-174 | In a completed run the try block ends with the 100 of completion and `finished_signal`, and the run then adds only the cleanup 100. |
| WorkerProperties.ConcludeCompletedEvents | core/worker.py:171-174 | For a completed try block, the finally block appends only the cleanup report. |
| WorkerProperties.PoseStageKeepsOtherDirs | core/worker.py:95 | The pose stage writes only into the pose directory. |
| WorkerProperties.StyliseStageDelivers | core/worker.py:111-149 | A completed generation stage has written the `Stylised` output of every frame. |
| WorkerProperties.AssembleStageDelivers | core/worker.py:156-161 | A completed assembly stores ffmpeg's video of `frames_out` as `final_output.mp4` and leaves `frames_out` as it was. |
| WorkerProperties.BodyStages | core/worker.py:25-164 | A try block that runs to the end went through every stage in order, and assembly came last. |
| WorkerProperties.BodyCases | core/worker.py:25-164 | The try block ends where preparation or extraction halts, otherwise where the frame stages end. |
| WorkerProperties.LaterStagesDeliver | core/worker.py:84-164 | When all stages after extraction complete, the video exists and every frame has an output. |
| WorkerProperties.ExtractedJpgsAreFrames | core/worker.py:81 | Every extracted `.jpg` name is in the frame list. |
| WorkerProperties.BodyDelivers | core/worker.py:25-164 | A completed try block leaves an output in `frames_out` for every extracted `.jpg` and leaves the video in `output_dir`. |
| WorkerProperties.CompletedRunDelivers | core/worker.py:142-178 | When `temp_dir_name` is not "frames_out", a completed run leaves an output for every extracted `.jpg` and `final_output.mp4`. When `rmtree` succeeds, cleanup also leaves no part of `temp_dir`. When it raises, core/worker.py:175-178 leaves the tree in place. |
| WorkerProperties.ExtractNoFrames | core/worker.py:81-82 | An extraction that writes no `.jpg` into the fresh raw directory continues with no frames: there is no zero-frame check. |
| WorkerProperties.FrameStagesWithoutFrames | core/worker.py:84-164 | With no frames there is no poll. The only ways to fail are the detector load, the pipeline load, or assembly. Unless the detector fails to load, the pipeline load is reported. |
| WorkerProperties.ZeroFramesStillLoadModels | core/worker.py:81-161 | A try block whose extraction yields no `.jpg` makes no poll. It can fail only at the detector load, the pipeline load or assembly, never with an empty-extraction error. Unless the detector fails to load, it reports loading the pipeline. |
| WorkerProperties.GenLoopIgnoresStrength | core/worker.py:118-129 | In pose mode the generation loop does not depend on `denoising_strength`. |
| WorkerProperties.FrameStagesIgnoreStrength | core/worker.py:84-164 | In pose mode the frame stages do not depend on `denoising_strength`. |
| WorkerProperties.StrengthIgnoredInPoseMode | core/worker.py:118-136 | In pose mode the whole run does not depend on `denoising_strength`. |
| WorkerProperties.FramesComeFromExtraction | core/worker.py:55-82 | The frames processed are exactly the `.jpg` names the current extraction wrote. Nothing is left over from an earlier run. |
| LegacyGui.Default | gui_main.py:57-67 | The legacy defaults: empty input and model path, output directory "output", seed 12345, 20 steps, cfg scale 7.5, xFormers and low-VRAM off. |
| LegacyGui.DirsFor | gui_main.py:89-91 | The three work directories lie directly under `output_dir`. |
| LegacyGui.Prepare | gui_main.py:85-94 | An empty or missing input fails with nothing changed. A valid one continues with the three directories present and no signal. |
| LegacyGui.Extract | gui_main.py:100-121 | Extraction sends exactly the 5 report, keeps the set of directories, never polls, and continues only with at least one frame, listed in sorted order. |
| LegacyGui.PoseStage | gui_main.py:127-149 | The pose stage keeps the set of directories and only appends signals and polls. |
| LegacyGui.Request | gui_main.py:214-221 | The pipeline call passes the pose image, the prompts, steps and cfg scale, and never a strength. |
| LegacyGui.Stylised | gui_main.py:205-221 | A frame has a generated image only when its pose image opens. |
| LegacyGui.GenFrameStep | gui_main.py:203-228 | One generation pass polls once. When the flag is cleared it halts Cancelled. Otherwise it writes exactly that frame's output, which is the `Stylised` image, and emits its band report. |
| LegacyGui.GenLoop | gui_main.py:202-228 | The generation loop keeps the set of directories and only appends signals and polls. |
| LegacyGui.StyliseStage | gui_main.py:159-228 | The generation stage keeps the set of directories and only appends signals and polls. |
| LegacyGui.AssembleStage | gui_main.py:233-247 | Assembly sends 95, then either fails or adds the 100 of completion and `finished_signal`. It never polls. |
| LegacyGui.FrameStages | gui_main.py:127-247 | The stages after extraction keep the set of directories and only append signals and polls. |
| LegacyGui.Body | gui_main.py:84-247 | The try block only appends signals, and its poll count never goes down. |
| LegacyGui.Execution | gui_main.py:83-252 | With no finally block, a run leaves the filesystem where the try block left it, and only appends signals. |
| LegacyGui.AIWorker.constructor | gui_main.py:78-81 | A new worker holds its configuration and starts with `running` true and no signals. |
| LegacyGui.AIWorker.Stop | gui_main.py:254-255 | `stop()` clears `running` and sends nothing. |
| LegacyGui.AIWorker.Run | gui_main.py:83-252 | In place, `run()` reaches exactly the outcome, filesystem, signals and flag of `Execution`. |
| LegacyGui.AIWorker.Attempt | gui_main.py:84-247 | The try block in place ends exactly where `Body` ends. |
| LegacyGui.AIWorker.Provision | gui_main.py:85-94 | Validation and the directory loop in place agree with `Prepare`. |
| LegacyGui.AIWorker.ExtractFrames | gui_main.py:100-121 | Extraction in place agrees with `Extract`, frames included. |
| LegacyGui.AIWorker.ExtractPoses | gui_main.py:127-149 | The pose stage in place agrees with `PoseStage`. |
| LegacyGui.AIWorker.DetectPose | gui_main.py:137-149 | One pose pass in place agrees with `PoseFrameStep`. |
| LegacyGui.AIWorker.Stylise | gui_main.py:159-228 | The generation stage in place agrees with `StyliseStage`. |
| LegacyGui.AIWorker.GenerateFrame | gui_main.py:203-228 | One generation pass in place agrees with `GenFrameStep`. |
| LegacyGui.AIWorker.AssembleVideo | gui_main.py:233-247 | Assembly in place agrees with `AssembleStage`. |
| LegacyGui.SettingInterface.UpdateSeed | gui_main.py:481-483 | The seed becomes `int(text)` exactly when the text is all digits. Otherwise the configuration is unchanged. |
| LegacyProperties.DirsAreDistinct | gui_main.py:89-91 | The three work directories are distinct and lie strictly below `output_dir`. |
| LegacyProperties.InvalidInputChangesNothing | gui_main.py:85-86 | An empty or missing input fails before any directory is created. It leaves filesystem and polls unchanged and sends only `error_signal`. |
| LegacyProperties.PreparedRaw | gui_main.py:93-94 | After the directory loop, `frames_raw` holds what it held before, or nothing if it is new. |
| LegacyProperties.ExtractNothing | gui_main.py:118-121 | With no `.jpg` from ffmpeg and none left in `frames_raw`, extraction fails with the empty-extraction error. |
| LegacyProperties.NoFramesFailsEarly | gui_main.py:118-133 | Such a run fails before the detector or any model is loaded. It has no poll and no signal but the 5 report and `error_signal`. |
| LegacyProperties.FrameStagesNeverEmpty | gui_main.py:127-247 | The stages after extraction never fail with the empty-extraction error. |
| LegacyProperties.EmptyExtractionIsEarly | gui_main.py:120-121 | Conversely, a run failing with that error stopped right after extraction. |
| LegacyProperties.BodyEmptyExtractionIsEarly | gui_main.py:120-121 | A try block failing with that error sent only the 5 report and made no poll. |
| LegacyProperties.PoseLoopOutcomes | gui_main.py:137-149 | The pose loop halts only by cancellation, a missing image, or a detector failure. |
| LegacyProperties.GenLoopOutcomes | gui_main.py:202-228 | The generation loop halts only by cancellation, a missing pose image, or a pipeline failure. |
| LegacyProperties.PoseLoopRetains | gui_main.py:137-149 | The pose loop deletes no directory and no file. |
| LegacyProperties.GenLoopRetains | gui_main.py:202-228 | The generation loop deletes no directory and no file. |
| LegacyProperties.FrameStagesRetain | gui_main.py:127-247 | The stages after extraction delete nothing. |
| LegacyProperties.ExtractRetains | gui_main.py:100-121 | Extraction deletes nothing. |
| LegacyProperties.BodyRetains | gui_main.py:84-247 | The try block deletes nothing and, on a valid input, leaves the three directories present. |
| LegacyProperties.NothingDeleted | gui_main.py:84-252 | On every way out nothing is deleted, and after a valid input the three directories persist, because there is no `finally`. |
| LegacyProperties.FrameOutputUsesPose | gui_main.py:205-221 | Each frame's output is the pipeline applied to the pose image of the same name, with no strength, and a generator freshly seeded from `config.seed`. It depends on nothing else in the filesystem. |
| LegacyProperties.GenLoopWritesOnlyFrames | gui_main.py:223-224 | Only names in the frame list are written in `frames_out`. |
| LegacyProperties.GenLoopOutputs | gui_main.py:202-228 | A finished generation loop has written the output of every frame, computed from the inputs before the loop. |
| LegacyProperties.GenLoopKeepsDone | gui_main.py:202-224 | A generation loop that halts at its m-th poll, cancelled there or failing there, has saved the output of each of the m-1 frames before it. |
| LegacyProperties.StyliseStageKeepsDone | gui_main.py:200-228 | A generation stage that halts at the poll of frame k has saved the output of every frame before k. |
| LegacyProperties.FrameStagesKeepDone | gui_main.py:127-228 | The same for the stages after extraction, with outputs computed from the pose images. |
| LegacyProperties.BodyKeepsDone | gui_main.py:84-228 | A try block whose generation halts at the poll of frame k ends with the output of every frame before k in `frames_out`. |
| LegacyProperties.StopKeepsWrittenOutputs | gui_main.py:83-252 | A run that stops at the poll of generated frame k still has the outputs of the frames before k when `run` returns. |
| LegacyProperties.GenLoopIsQuiet | gui_main.py:202-228 | The generation loop sends only progress short of assembly. |
| LegacyProperties.PoseStageIsQuiet | gui_main.py:127-149 | The pose stage sends only quiet progress. |
| LegacyProperties.StyliseStageIsQuiet | gui_main.py:159-228 | The generation stage sends only quiet progress. |
| LegacyProperties.FrameStagesCancelledIsQuiet | gui_main.py:127-228 | Cancelled frame stages sent no assembly report, no `finished_signal` and no `error_signal`. |
| LegacyProperties.ExtractIsQuiet | gui_main.py:100 | Extraction sends only quiet progress. |
| LegacyProperties.CancelledAfterExtraction | gui_main.py:138-203 | Quiet signals followed by cancelled frame stages stay quiet. |
| LegacyProperties.BodyCases | gui_main.py:84-247 | The try block ends where preparation or extraction halts, otherwise where the frame stages end. |
| LegacyProperties.ReachedFrameStages | gui_main.py:84-247 | A try block that does not fail reached the frame stages. |
| LegacyProperties.BodyCancelledIsQuiet | gui_main.py:138-203 | A cancelled try block sent only quiet progress. |
| LegacyProperties.CancelledRunSignalsNothing | gui_main.py:138-255 | A run cancelled at a frame boundary sends neither `finished_signal` nor `error_signal`. |
| LegacyProperties.GenLoopRises | gui_main.py:227-228 | Generation reports keep progress non-decreasing and at most 94. |
| LegacyProperties.PoseStageRises | gui_main.py:127-149 | From a progress of at most 15, the pose stage keeps progress non-decreasing and at most 39. |
| LegacyProperties.StyliseStageRises | gui_main.py:159-228 | From a progress of at most 40, the generation stage keeps progress non-decreasing and at most 94. |
| LegacyProperties.AssembleStageRises | gui_main.py:233-247 | From a progress of at most 95, assembly keeps progress non-decreasing and at most 100. |
| LegacyProperties.FrameStagesRise | gui_main.py:127-247 | The stages after extraction keep progress non-decreasing and at most 100. |
| LegacyProperties.BodyRises | gui_main.py:84-247 | The try block reports non-decreasing progress, at most 100. |
| LegacyProperties.ProgressRises | gui_main.py:84-252 | A whole run reports non-decreasing progress, at most 100. |
| LegacyProperties.FrameStagesCompletedEnd | gui_main.py:246-247 | Completed frame stages end with the 100 of completion and `finished_signal`. |
| LegacyProperties.CompletedRunEnds | gui_main.py:246-247 | A completed run ends with the 100 of completion and `finished_signal`. |
| LegacyProperties.BodyCompletedEnds | gui_main.py:84-247 | A try block that runs to the end ends with the 100 of completion and `finished_signal`. |
| LegacyProperties.ExtractedFrames | gui_main.py:118 | Every `.jpg` that ffmpeg wrote, or that was already in `frames_raw`, is a frame. |
| LegacyProperties.FrameStagesDeliver | gui_main.py:137-244 | Completed frame stages leave the video and an output for every frame. |
| LegacyProperties.CompletedRunDelivers | gui_main.py:84-247 | A completed run leaves `final_output.mp4` and an output for every `.jpg` extracted or already in `frames_raw`. |
| LegacyProperties.StaleFramesAreReused | gui_main.py:89-118 | A `.jpg` left in `frames_raw` by an earlier run, and not rewritten by this run's ffmpeg, is processed as a frame with its old content. After a completed run it has an output. |

## Left out

- I/O details of ffmpeg are oracles: the command line, `subprocess.run`, `startupinfo` and the exit code. Extraction returns the files written or fails, and assembly returns the video or fails.
- Where the legacy worker fixes the ffmpeg arguments (`fps=24,scale=512:-1`, `-r 24`), they are the constants `LegacyGui.Fps` and `LegacyGui.Width`, passed to those oracles.
- The Torch, diffusers and controlnet_aux calls, and `PipelineLoader` (core/pipeline_utils.py is not part of this model), are oracles: the detector load, the detector, the pipeline load and the pipeline call. The legacy worker's model choice (`.safetensors` or a fallback), the scheduler, xFormers and low-VRAM switches are folded into one "pipeline loads" answer, because they only decide whether loading raises.
- LegacyGui.PoseStage: the deferred `from controlnet_aux import OpenposeDetector` (gui_main.py:130) and `from_pretrained` (line 133) are one "detector loads" answer, because both only decide whether the stage raises.
- The legacy worker has no import failure, because its imports are at module level, outside `run()`.
- `del` and `torch.cuda.empty_cache()` release memory that no signal or file shows.
- Memory use is not modelled.
- QThread and the cross-thread `stop()` are modelled as a sequence of poll answers. `stop()` is applied, as the UI thread would, at the poll it precedes. A real race between the threads is not modelled.
- Floating point: the progress expression `int((idx / total) * 20)` is taken as the exact floor `idx*20/total`. Rounding of the float product is not modelled. `cfg_scale` and `denoising_strength` are opaque `real`s that are only passed through.
- Text.ParseDigits: `str.isdigit` and `int` are modelled on ASCII digits only. Other Unicode digit characters are not.
- Paths are sequences of components. The special cases of `os.path.join` (an absolute or empty component) are not modelled. In particular `output_dir == ""` makes `os.makedirs("")` raise at core/worker.py:37, but the model creates it and goes on. An `output_dir` that contains a path separator is one component in the model, not several.
- Os.WithDirs, Worker.Prepare, Worker.Finally: the file system holds directories only, so a regular file at a directory's path is not modelled. The source's `os.path.exists` is true of such a file (core/worker.py:55, 173), and `shutil.rmtree` then raises `NotADirectoryError`. `os.makedirs(..., exist_ok=True)` raises `FileExistsError` over it (core/worker.py:37, 59-62; gui_main.py:93-94). The model sees no directory there: it skips the removal and the cleanup and creates the directory, so `MakeDirs` never fails.
- `shutil.rmtree` either removes the whole tree or raises with nothing removed. A removal that stops part way is not modelled. Saving a file never fails.
- The status texts are tags (`Status`), not the Chinese strings. `error_signal` carries a `Failure` tag instead of `str(e)`. The traceback print is left out.
- The configuration is read once at the start of a run. A UI change to the shared config object during a run is not modelled.
- The seeded generator is the value `Seeded(seed)`: the random numbers it produces belong to the pipeline oracle.
- `frames_out` is never cleared by either worker. The assembler is handed whatever that directory holds, including outputs of an earlier run. The model shows this: `AssembleStage` passes the whole directory to the oracle. No property claims otherwise.
- The Qt user interface, the settings widgets other than the seed field, the installer, the environment checks and the entry points are not part of this model.

## Findings

| source | as written | input that shows it | evidently intended | confidence | as-written member | corrected member |
|---|---|---|---|---|---|---|
| core/worker.py:40 | The run reads `self.config.temp_dir_name`, but `GenerationConfig.__init__` (core/config.py:6-30) never sets that attribute, so the read raises `AttributeError`. | The default configuration with any existing input video: `output_dir` is created, and then the run fails with only `error_signal`. | The configuration names a transient directory, and the run provisions its workspace under it. | not executed | WorkerProperties.DefaultConfigNeverRuns | WorkerProperties.NamedWorkspaceIsProvisioned |
| gui_main.py:89-118 | `frames_raw` is created with `exist_ok=True` and never emptied, and the frame list is every `.jpg` found in it. | A first run on a 100-frame video, then a second run on a 50-frame video: frames 51-100 of the first video are stylised again and end up in the output. | Only the frames the current extraction wrote are processed. The current worker does this by removing its transient directory first. | not executed | LegacyProperties.StaleFramesAreReused | WorkerProperties.FramesComeFromExtraction |
