/**
 * The current video-stylisation worker (core/worker.py): validate the input,
 * provision a transient workspace, extract frames, optionally extract poses,
 * stylise every frame with a freshly seeded generator, assemble the video,
 * and remove the transient workspace on every way out.
 *
 * The pure functions below say what one run does; `AIWorker.Run` does it in
 * place and is proved to agree with `Execution`.
 */
module Worker {
  import opened Wrappers
  import opened Os
  import opened Config
  import opened Pipeline

  /** The run's directories: transient `temp` (with `raw` and `pose`) and persistent `out`. */
  datatype Layout = Layout(base: Path, temp: Path, raw: Path, pose: Path, out: Path)

  function LayoutFor(cfg: GenerationConfig, tempName: string): (lay: Layout)
    ensures lay.base != [] && lay.base <= lay.out && lay.temp != [] && lay.raw != [] && lay.pose != []
  {
    var base := [cfg.outputDir];
    var temp := base + [tempName];
    Layout(base, temp, temp + ["frames_raw"], temp + ["frames_pose"], base + ["frames_out"])
  }

  predicate Provisioned(lay: Layout, fs: FileSystem)
  {
    lay.base in fs && lay.temp in fs && lay.raw in fs && lay.pose in fs && lay.out in fs
  }

  /** How far the try block got: the transient directory once `temp_dir` is assigned, and the last step. */
  datatype Attempt = Attempt(layout: Option<Layout>, step: Step)

  /** `os.makedirs(temp_dir)` and then every directory of `dirs`. */
  function CreateDirs(lay: Layout, fs: FileSystem): (r: FileSystem)
    requires lay.base != [] && lay.base <= lay.out && lay.temp != [] && lay.raw != [] && lay.pose != []
    ensures Provisioned(lay, r)
  {
    WithDirs(WithDirs(WithDirs(WithDirs(fs, lay.temp), lay.raw), lay.pose), lay.out)
  }

  /** Lines 25-62: the deferred imports, input validation and workspace provisioning. */
  function Prepare(cfg: GenerationConfig, env: Env, w: World): (r: Attempt)
    ensures r.layout.Some? ==>
              cfg.tempDirName.Some? && r.layout.value == LayoutFor(cfg, cfg.tempDirName.value) &&
              r.layout.value.temp in r.step.w.fs
    ensures r.step.Next? ==> r.layout.Some? && Provisioned(r.layout.value, r.step.w.fs)
    ensures w.events <= r.step.w.events
    ensures r.step.w.polls == w.polls && r.step.w.running == w.running
  {
    if !env.importsOk then Attempt(None, Halt(w, Failed(ImportFailed)))
    else if cfg.inputVideoPath == "" || !env.videoExists then Attempt(None, Halt(w, Failed(InvalidInput)))
    else
      var w1 := w.(fs := WithDirs(w.fs, [cfg.outputDir]));
      match cfg.tempDirName
      case None => Attempt(None, Halt(w1, Failed(MissingTempDirName)))
      case Some(name) =>
        var lay := LayoutFor(cfg, name);
        if lay.temp in w1.fs then
          var w2 := Emit(w1, Progress(1, CleaningStale));
          if !env.staleRemovalOk then Attempt(Some(lay), Halt(w2, Failed(StaleRemovalFailed)))
          else Attempt(Some(lay), Next(w2.(fs := CreateDirs(lay, WithoutTree(w2.fs, lay.temp)))))
        else Attempt(Some(lay), Next(w1.(fs := CreateDirs(lay, w1.fs))))
  }

  /** Lines 69-82: ffmpeg writes the frames into the raw directory; its `.jpg` names, sorted, are the frames. */
  function Extract(cfg: GenerationConfig, env: Env, lay: Layout, w: World): (r: Extraction)
    requires Provisioned(lay, w.fs)
    ensures r.step.w.fs.Keys == w.fs.Keys
    ensures w.events <= r.step.w.events
    ensures r.step.w.polls == w.polls && r.step.w.running == w.running
  {
    var w1 := Emit(w, Progress(5, Extracting(cfg.targetFps)));
    match env.extract(cfg.inputVideoPath, cfg.targetFps, cfg.targetWidth)
    case None => Extraction([], Halt(w1, Failed(ExtractFailed)))
    case Some(files) =>
      var fs := WithFiles(w1.fs, lay.raw, files);
      Extraction(JpgFrames(fs[lay.raw]), Next(w1.(fs := fs)))
  }

  /** Lines 84-104: the pose loop when pose mode is on, a single progress report otherwise. */
  function PoseStage(cfg: GenerationConfig, env: Env, lay: Layout, frames: seq<string>, w: World): (r: Step)
    requires Provisioned(lay, w.fs)
    ensures r.w.fs.Keys == w.fs.Keys
    ensures w.events <= r.w.events
    ensures w.polls <= r.w.polls
  {
    if cfg.enablePose then
      var w1 := Emit(w, Progress(15, PoseLoading));
      if !env.detectorLoads then Halt(w1, Failed(DetectorLoadFailed))
      else PoseLoop(env, lay.raw, lay.pose, frames, 0, w1)
    else Next(Emit(w, Progress(20, PoseSkipped)))
  }

  /** The pipeline call of lines 118-140: the pose image and no strength, or the raw image and `strength`. */
  function Request(cfg: GenerationConfig, image: Blob): (r: GenRequest)
    ensures r.image == image
    ensures r.strength == if cfg.enablePose then None else Some(cfg.denoisingStrength)
    ensures r.prompt == cfg.prompt && r.negativePrompt == cfg.negativePrompt
    ensures r.steps == cfg.steps && r.guidanceScale == cfg.cfgScale
  {
    GenRequest(cfg.prompt, cfg.negativePrompt, image, cfg.steps, cfg.cfgScale,
               if cfg.enablePose then None else Some(cfg.denoisingStrength))
  }

  /** The image that conditions frame `f`: the raw frame is always opened, the pose frame in pose mode. */
  function Conditioning(cfg: GenerationConfig, lay: Layout, fs: FileSystem, f: string): (r: Option<Blob>)
    ensures r.Some? ==> Lookup(fs, lay.raw, f).Some?
    ensures !cfg.enablePose ==> r == Lookup(fs, lay.raw, f)
    ensures cfg.enablePose && Lookup(fs, lay.raw, f).Some? ==> r == Lookup(fs, lay.pose, f)
  {
    match Lookup(fs, lay.raw, f)
    case None => None
    case Some(rawImg) => if cfg.enablePose then Lookup(fs, lay.pose, f) else Some(rawImg)
  }

  /** The output image of frame `f`: one pipeline call with a generator freshly seeded from the config. */
  function Stylised(cfg: GenerationConfig, env: Env, lay: Layout, fs: FileSystem, f: string): (r: Option<Blob>)
    ensures r.Some? ==> Conditioning(cfg, lay, fs, f).Some?
  {
    match Conditioning(cfg, lay, fs, f)
    case None => None
    case Some(c) => env.gen(Request(cfg, c), Seeded(cfg.seed))
  }

  /**
   * One pass of the generation loop (lines 112-149; frame `f`, number `i` of
   * `n`): poll the flag, build the conditioning image, run the pipeline with a
   * fresh generator, save the output under the same name, report progress.
   * Only that one file of frames_out changes, and it becomes `Stylised`.
   */
  function GenFrameStep(cfg: GenerationConfig, env: Env, lay: Layout, f: string, i: nat, n: nat, w: World): (r: Step)
    requires i < n && lay.out in w.fs
    ensures r.w.polls == w.polls + 1 && r.w.fs.Keys == w.fs.Keys
    ensures forall d :: d in w.fs && d != lay.out ==> r.w.fs[d] == w.fs[d]
    ensures forall m :: m != f ==> Lookup(r.w.fs, lay.out, m) == Lookup(w.fs, lay.out, m)
    ensures !Poll(env, w).running ==> r == Halt(Poll(env, w), Cancelled)
    ensures r.Next? ==> r.w.running && r.w.events == w.events + [Progress(GenProgress(i, n), GenFrame(i + 1, n))]
    ensures r.Next? ==> Stylised(cfg, env, lay, w.fs, f).Some? && Lookup(r.w.fs, lay.out, f) == Stylised(cfg, env, lay, w.fs, f)
    ensures r.Halt? ==> r.w.events == w.events
  {
    var w1 := Poll(env, w);
    if !w1.running then Halt(w1, Cancelled)
    else match Conditioning(cfg, lay, w1.fs, f)
      case None => Halt(w1, Failed(MissingImage(f)))
      case Some(c) =>
        match env.gen(Request(cfg, c), Seeded(cfg.seed))
        case None => Halt(w1, Failed(InferenceFailed(f)))
        case Some(image) =>
          Next(Emit(w1.(fs := WithFile(w1.fs, lay.out, f, image)), Progress(GenProgress(i, n), GenFrame(i + 1, n))))
  }

  /** Lines 111-149, from frame `i` on. */
  function GenLoop(cfg: GenerationConfig, env: Env, lay: Layout, frames: seq<string>, i: nat, w: World): (r: Step)
    requires i <= |frames| && lay.out in w.fs
    ensures r.w.fs.Keys == w.fs.Keys
    ensures w.events <= r.w.events
    ensures w.polls <= r.w.polls
    decreases |frames| - i
  {
    if i == |frames| then Next(w)
    else match GenFrameStep(cfg, env, lay, frames[i], i, |frames|, w)
      case Next(w1) => GenLoop(cfg, env, lay, frames, i + 1, w1)
      case Halt(w1, outcome) => Halt(w1, outcome)
  }

  /** Lines 106-152: load the pipeline, then stylise every frame. */
  function StyliseStage(cfg: GenerationConfig, env: Env, lay: Layout, frames: seq<string>, w: World): (r: Step)
    requires Provisioned(lay, w.fs)
    ensures r.w.fs.Keys == w.fs.Keys
    ensures w.events <= r.w.events
    ensures w.polls <= r.w.polls
  {
    var w1 := Emit(w, Progress(40, ModelLoading));
    if !env.pipelineLoads then Halt(w1, Failed(ModelLoadFailed))
    else GenLoop(cfg, env, lay, frames, 0, Emit(w1, Progress(50, Generating)))
  }

  /** Lines 154-164: ffmpeg builds the video from frames_out; then 100% and finished_signal. */
  function AssembleStage(cfg: GenerationConfig, env: Env, lay: Layout, w: World): (r: Step)
    requires Provisioned(lay, w.fs)
    ensures r.w.fs.Keys == w.fs.Keys
    ensures w.events <= r.w.events
    ensures r.w.polls == w.polls
  {
    var w1 := Emit(w, Progress(95, Assembling));
    match env.assemble(w1.fs[lay.out], cfg.targetFps)
    case None => Halt(w1, Failed(AssembleFailed))
    case Some(video) =>
      var w2 := w1.(fs := WithFile(w1.fs, lay.base, VideoName, video));
      Next(Emit(Emit(w2, Progress(100, Done)), Finished))
  }

  /** Lines 84-164: the stages that work on the extracted frames, ending at the first that halts. */
  function FrameStages(cfg: GenerationConfig, env: Env, lay: Layout, frames: seq<string>, w: World): (r: Step)
    requires Provisioned(lay, w.fs)
    ensures r.w.fs.Keys == w.fs.Keys
    ensures w.events <= r.w.events
    ensures w.polls <= r.w.polls
  {
    var s3 := PoseStage(cfg, env, lay, frames, w);
    if s3.Halt? then s3
    else
      var s4 := StyliseStage(cfg, env, lay, frames, s3.w);
      if s4.Halt? then s4
      else AssembleStage(cfg, env, lay, s4.w)
  }

  /** Lines 25-164: the try block, ending at the first stage that halts. */
  function Body(cfg: GenerationConfig, env: Env, w: World): (r: Attempt)
    ensures r.layout == Prepare(cfg, env, w).layout
    ensures r.layout.Some? ==> r.layout.value.temp in r.step.w.fs
    ensures w.events <= r.step.w.events
  {
    var p := Prepare(cfg, env, w);
    if p.step.Halt? then p
    else
      var lay := p.layout.value;
      var x := Extract(cfg, env, lay, p.step.w);
      if x.step.Halt? then Attempt(p.layout, x.step)
      else Attempt(p.layout, FrameStages(cfg, env, lay, x.frames, x.step.w))
  }

  /**
   * Lines 171-178: remove the transient directory if it was assigned and
   * exists; `rmtreeOk` says whether that `shutil.rmtree` succeeds.
   */
  function Finally(rmtreeOk: bool, layout: Option<Layout>, w: World): (r: World)
    ensures w.events <= r.events && r.polls == w.polls && r.running == w.running
    ensures layout.None? ==> r == w
  {
    if layout.Some? && layout.value.temp in w.fs then
      var w1 := Emit(w, Progress(100, CleaningTemp));
      if rmtreeOk then w1.(fs := WithoutTree(w1.fs, layout.value.temp)) else w1
    else w
  }

  /** What follows the try block: the except block (error_signal) and the finally block. */
  function Conclude(rmtreeOk: bool, a: Attempt): (r: Ending)
    ensures a.step.w.events <= r.w.events
  {
    var outcome := OutcomeOf(a.step);
    var w1 := if outcome.Failed? then Emit(a.step.w, Error(outcome.reason)) else a.step.w;
    Ending(outcome, Finally(rmtreeOk, a.layout, w1))
  }

  /** One whole `run()`. */
  function Execution(cfg: GenerationConfig, env: Env, rmtreeOk: bool, w: World): (r: Ending)
    ensures w.events <= r.w.events
  {
    Conclude(rmtreeOk, Body(cfg, env, w))
  }

  /** `AIWorker(QThread)`: the configuration, the `running` flag, and the signals emitted so far. */
  class AIWorker {
    const config: GenerationConfig
    const disk: Disk
    var running: bool
    var events: seq<Event>

    constructor (config: GenerationConfig, disk: Disk)
      ensures this.config == config && this.disk == disk
      ensures running && events == []
    {
      this.config := config;
      this.disk := disk;
      running := true;
      events := [];
    }

    function State(polls: nat): World
      reads this, disk
    {
      World(disk.dirs, events, running, polls)
    }

    method Stop()
      modifies this
      ensures !running && events == old(events)
    {
      running := false;
    }

    method Run(env: Env, rmtreeOk: bool) returns (outcome: Outcome)
      modifies this, disk
      ensures var e := Execution(config, env, rmtreeOk, old(State(0)));
              outcome == e.outcome && State(e.w.polls) == e.w
    {
      var layout, halt, polls := Attempt(env);
      outcome := if halt.None? then Completed else halt.value;
      if outcome.Failed? {
        events := events + [Error(outcome.reason)];
      }
      if layout.Some? && layout.value.temp in disk.dirs {
        events := events + [Progress(100, CleaningTemp)];
        if rmtreeOk {
          disk.RemoveTree(layout.value.temp);
        }
      }
    }

    /** The try block. */
    method Attempt(env: Env) returns (layout: Option<Layout>, halt: Option<Outcome>, polls: nat)
      modifies this, disk
      ensures var a := Body(config, env, old(State(0)));
              layout == a.layout && Matches(a.step, halt, State(polls))
    {
      polls := 0;
      layout, halt := Provision(env);
      if halt.Some? {
        return;
      }
      var lay := layout.value;
      var frames;
      frames, halt := ExtractFrames(env, lay);
      if halt.Some? {
        return;
      }
      halt, polls := ExtractPoses(env, lay, frames, polls);
      if halt.Some? {
        return;
      }
      halt, polls := Stylise(env, lay, frames, polls);
      if halt.Some? {
        return;
      }
      halt := AssembleVideo(env, lay, polls);
    }

    method Provision(env: Env) returns (layout: Option<Layout>, halt: Option<Outcome>)
      modifies this, disk
      ensures var a := Prepare(config, env, old(State(0)));
              layout == a.layout && Matches(a.step, halt, State(0))
    {
      if !env.importsOk {
        return None, Some(Failed(ImportFailed));
      }
      if config.inputVideoPath == "" || !env.videoExists {
        return None, Some(Failed(InvalidInput));
      }
      disk.MakeDirs([config.outputDir]);
      if config.tempDirName.None? {
        return None, Some(Failed(MissingTempDirName));
      }
      var lay := LayoutFor(config, config.tempDirName.value);
      layout := Some(lay);
      if lay.temp in disk.dirs {
        events := events + [Progress(1, CleaningStale)];
        if !env.staleRemovalOk {
          return layout, Some(Failed(StaleRemovalFailed));
        }
        disk.RemoveTree(lay.temp);
      }
      disk.MakeDirs(lay.temp);
      disk.MakeDirs(lay.raw);
      disk.MakeDirs(lay.pose);
      disk.MakeDirs(lay.out);
      halt := None;
    }

    method ExtractFrames(env: Env, lay: Layout) returns (frames: seq<string>, halt: Option<Outcome>)
      requires Provisioned(lay, disk.dirs)
      modifies this, disk
      ensures var x := Extract(config, env, lay, old(State(0)));
              frames == x.frames && Matches(x.step, halt, State(0))
    {
      events := events + [Progress(5, Extracting(config.targetFps))];
      var written := env.extract(config.inputVideoPath, config.targetFps, config.targetWidth);
      if written.None? {
        return [], Some(Failed(ExtractFailed));
      }
      disk.SaveAll(lay.raw, written.value);
      frames := JpgFrames(disk.dirs[lay.raw]);
      halt := None;
    }

    method ExtractPoses(env: Env, lay: Layout, frames: seq<string>, polls0: nat) returns (halt: Option<Outcome>, polls: nat)
      requires Provisioned(lay, disk.dirs)
      modifies this, disk
      ensures Matches(PoseStage(config, env, lay, frames, old(State(polls0))), halt, State(polls))
    {
      polls := polls0;
      if !config.enablePose {
        events := events + [Progress(20, PoseSkipped)];
        return None, polls;
      }
      events := events + [Progress(15, PoseLoading)];
      if !env.detectorLoads {
        return Some(Failed(DetectorLoadFailed)), polls;
      }
      ghost var w0 := State(polls);
      for i := 0 to |frames|
        invariant lay.pose in disk.dirs
        invariant PoseLoop(env, lay.raw, lay.pose, frames, 0, w0) == PoseLoop(env, lay.raw, lay.pose, frames, i, State(polls))
      {
        halt, polls := DetectPose(env, lay, frames, i, polls);
        if halt.Some? {
          return;
        }
      }
      halt := None;
    }

    method Stylise(env: Env, lay: Layout, frames: seq<string>, polls0: nat) returns (halt: Option<Outcome>, polls: nat)
      requires Provisioned(lay, disk.dirs)
      modifies this, disk
      ensures Matches(StyliseStage(config, env, lay, frames, old(State(polls0))), halt, State(polls))
    {
      polls := polls0;
      events := events + [Progress(40, ModelLoading)];
      if !env.pipelineLoads {
        return Some(Failed(ModelLoadFailed)), polls;
      }
      events := events + [Progress(50, Generating)];
      ghost var w0 := State(polls);
      for i := 0 to |frames|
        invariant lay.out in disk.dirs
        invariant GenLoop(config, env, lay, frames, 0, w0) == GenLoop(config, env, lay, frames, i, State(polls))
      {
        halt, polls := GenerateFrame(env, lay, frames, i, polls);
        if halt.Some? {
          return;
        }
      }
      halt := None;
    }

    /** One pass of the pose loop (lines 89-99). */
    method DetectPose(env: Env, lay: Layout, frames: seq<string>, i: nat, polls0: nat) returns (halt: Option<Outcome>, polls: nat)
      requires i < |frames| && lay.pose in disk.dirs
      modifies this, disk
      ensures Matches(PoseFrameStep(env, lay.raw, lay.pose, frames[i], i, |frames|, old(State(polls0))), halt, State(polls))
    {
      if env.StopRequested(polls0) {
        Stop();
      }
      polls := polls0 + 1;
      if !running {
        return Some(Cancelled), polls;
      }
      var img := Lookup(disk.dirs, lay.raw, frames[i]);
      if img.None? {
        return Some(Failed(MissingImage(frames[i]))), polls;
      }
      var skeleton := env.pose(img.value);
      if skeleton.None? {
        return Some(Failed(PoseFailed(frames[i]))), polls;
      }
      disk.Save(lay.pose, frames[i], skeleton.value);
      events := events + [Progress(PoseProgress(i, |frames|), PoseFrame(i + 1, |frames|))];
      halt := None;
    }

    /** One pass of the generation loop (lines 112-149). */
    method GenerateFrame(env: Env, lay: Layout, frames: seq<string>, i: nat, polls0: nat) returns (halt: Option<Outcome>, polls: nat)
      requires i < |frames| && lay.out in disk.dirs
      modifies this, disk
      ensures Matches(GenFrameStep(config, env, lay, frames[i], i, |frames|, old(State(polls0))), halt, State(polls))
    {
      if env.StopRequested(polls0) {
        Stop();
      }
      polls := polls0 + 1;
      if !running {
        return Some(Cancelled), polls;
      }
      var rawImg := Lookup(disk.dirs, lay.raw, frames[i]);
      if rawImg.None? {
        return Some(Failed(MissingImage(frames[i]))), polls;
      }
      var generator := Seeded(config.seed);
      var request;
      if config.enablePose {
        var poseImg := Lookup(disk.dirs, lay.pose, frames[i]);
        if poseImg.None? {
          return Some(Failed(MissingImage(frames[i]))), polls;
        }
        request := GenRequest(config.prompt, config.negativePrompt, poseImg.value, config.steps, config.cfgScale, None);
      } else {
        request := GenRequest(config.prompt, config.negativePrompt, rawImg.value, config.steps, config.cfgScale,
                              Some(config.denoisingStrength));
      }
      var image := env.gen(request, generator);
      if image.None? {
        return Some(Failed(InferenceFailed(frames[i]))), polls;
      }
      disk.Save(lay.out, frames[i], image.value);
      events := events + [Progress(GenProgress(i, |frames|), GenFrame(i + 1, |frames|))];
      halt := None;
    }

    method AssembleVideo(env: Env, lay: Layout, polls: nat) returns (halt: Option<Outcome>)
      requires Provisioned(lay, disk.dirs)
      modifies this, disk
      ensures Matches(AssembleStage(config, env, lay, old(State(polls))), halt, State(polls))
    {
      events := events + [Progress(95, Assembling)];
      var video := env.assemble(disk.dirs[lay.out], config.targetFps);
      if video.None? {
        return Some(Failed(AssembleFailed));
      }
      disk.Save(lay.base, VideoName, video.value);
      events := events + [Progress(100, Done), Finished];
      halt := None;
    }
  }
}
