/**
 * The older worker and settings page in gui_main.py: always the pose
 * pipeline, a fixed 24 fps and 512 px width, the three work directories
 * directly under `output_dir`, a check that ffmpeg produced at least one
 * frame, and no cleanup at all.
 */
module LegacyGui {
  import opened Wrappers
  import opened Os
  import opened Pipeline
  import Text

  /** `GenerationConfig` of gui_main.py (lines 52-67): no fps, width, pose switch or strength. */
  datatype LegacyConfig = LegacyConfig(
    inputVideoPath: string,
    modelPath: string,
    outputDir: string,
    prompt: string,
    negativePrompt: string,
    seed: int,
    steps: int,
    cfgScale: real,
    useXformers: bool,
    lowVram: bool)

  function Default(): (c: LegacyConfig)
    ensures c.inputVideoPath == "" && c.modelPath == "" && c.outputDir == "output"
    ensures c.seed == 12345 && c.steps == 20 && c.cfgScale == 7.5
    ensures !c.useXformers && !c.lowVram
  {
    LegacyConfig(
      inputVideoPath := "",
      modelPath := "",
      outputDir := "output",
      prompt := "high quality, masterpiece, anime style, 1girl, vivid colors",
      negativePrompt := "low quality, bad anatomy, watermark, text, error",
      seed := 12345,
      steps := 20,
      cfgScale := 7.5,
      useXformers := false,
      lowVram := false)
  }

  /** The filter `fps=24,scale=512:-1` (line 107) and `-r 24` (line 238). */
  const Fps := 24
  const Width := 512

  /** Lines 89-91: the three work directories, directly under `output_dir`. */
  datatype Dirs = Dirs(base: Path, raw: Path, pose: Path, out: Path)

  function DirsFor(cfg: LegacyConfig): (d: Dirs)
    ensures d.base == [cfg.outputDir]
    ensures d.raw == d.base + ["frames_raw"] && d.pose == d.base + ["frames_pose"] && d.out == d.base + ["frames_out"]
  {
    var base := [cfg.outputDir];
    Dirs(base, base + ["frames_raw"], base + ["frames_pose"], base + ["frames_out"])
  }

  predicate Ready(d: Dirs, fs: FileSystem)
  {
    d.base in fs && d.raw in fs && d.pose in fs && d.out in fs
  }

  /** Lines 85-94: reject a missing input before touching the disk, then create the directories. */
  function Prepare(cfg: LegacyConfig, env: Env, w: World): (r: Step)
    ensures r.Halt? ==> r.w == w && r.outcome == Failed(InvalidInput)
    ensures r.Next? ==> Ready(DirsFor(cfg), r.w.fs)
    ensures r.Next? ==> r.w.events == w.events && r.w.polls == w.polls && r.w.running == w.running
    ensures r.Next? <==> cfg.inputVideoPath != "" && env.videoExists
  {
    if cfg.inputVideoPath == "" || !env.videoExists then Halt(w, Failed(InvalidInput))
    else
      var d := DirsFor(cfg);
      var ps := [d.raw, d.pose, d.out];
      assert ps[0] == d.raw && ps[1] == d.pose && ps[2] == d.out && d.base in Ancestry(d.raw);
      Next(w.(fs := WithAllDirs(w.fs, ps)))
  }

  /**
   * Lines 100-121: ffmpeg writes into frames_raw, and the sorted `.jpg` names
   * found there are the frames; none at all is an error.
   */
  function Extract(env: Env, cfg: LegacyConfig, d: Dirs, w: World): (r: Extraction)
    requires Ready(d, w.fs)
    ensures r.step.w.fs.Keys == w.fs.Keys
    ensures r.step.w.polls == w.polls && r.step.w.running == w.running
    ensures r.step.w.events == w.events + [Progress(5, Extracting(Fps))]
    ensures r.step.Next? ==> r.frames != []
    ensures Text.StrictlySorted(r.frames)
  {
    var w1 := Emit(w, Progress(5, Extracting(Fps)));
    match env.extract(cfg.inputVideoPath, Fps, Width)
    case None => Extraction([], Halt(w1, Failed(ExtractFailed)))
    case Some(files) =>
      var fs := WithFiles(w1.fs, d.raw, files);
      var frames := JpgFrames(fs[d.raw]);
      if frames == [] then Extraction([], Halt(w1.(fs := fs), Failed(EmptyExtraction)))
      else Extraction(frames, Next(w1.(fs := fs)))
  }

  /** Lines 127-149: load the detector, then extract every frame's skeleton. */
  function PoseStage(env: Env, d: Dirs, frames: seq<string>, w: World): (r: Step)
    requires Ready(d, w.fs)
    ensures r.w.fs.Keys == w.fs.Keys
    ensures w.events <= r.w.events
    ensures w.polls <= r.w.polls
  {
    var w1 := Emit(w, Progress(15, PoseLoading));
    if !env.detectorLoads then Halt(w1, Failed(DetectorLoadFailed))
    else PoseLoop(env, d.raw, d.pose, frames, 0, Emit(w1, Progress(20, PoseStarting)))
  }

  /** The pipeline call of lines 214-221: the pose image, and never a strength. */
  function Request(cfg: LegacyConfig, poseImg: Blob): (r: GenRequest)
    ensures r.image == poseImg && r.strength == None
    ensures r.prompt == cfg.prompt && r.negativePrompt == cfg.negativePrompt
    ensures r.steps == cfg.steps && r.guidanceScale == cfg.cfgScale
  {
    GenRequest(cfg.prompt, cfg.negativePrompt, poseImg, cfg.steps, cfg.cfgScale, None)
  }

  /** The output image of frame `f`: its pose image through the pipeline, with a freshly seeded generator. */
  function Stylised(cfg: LegacyConfig, env: Env, d: Dirs, fs: FileSystem, f: string): (r: Option<Blob>)
    ensures r.Some? ==> Lookup(fs, d.pose, f).Some?
  {
    match Lookup(fs, d.pose, f)
    case None => None
    case Some(p) => env.gen(Request(cfg, p), Seeded(cfg.seed))
  }

  /**
   * One pass of the generation loop (lines 202-228): poll the flag, open the
   * pose image, run the pipeline, save the output under the same name, report
   * progress. Only that one file of frames_out changes.
   */
  function GenFrameStep(cfg: LegacyConfig, env: Env, d: Dirs, f: string, i: nat, n: nat, w: World): (r: Step)
    requires i < n && d.out in w.fs
    ensures r.w.polls == w.polls + 1 && r.w.fs.Keys == w.fs.Keys
    ensures forall q :: q in w.fs && q != d.out ==> r.w.fs[q] == w.fs[q]
    ensures forall m :: m != f ==> Lookup(r.w.fs, d.out, m) == Lookup(w.fs, d.out, m)
    ensures !Poll(env, w).running ==> r == Halt(Poll(env, w), Cancelled)
    ensures r.Next? ==> r.w.running && r.w.events == w.events + [Progress(GenProgress(i, n), GenFrame(i + 1, n))]
    ensures r.Next? ==> Stylised(cfg, env, d, w.fs, f).Some? && Lookup(r.w.fs, d.out, f) == Stylised(cfg, env, d, w.fs, f)
    ensures r.Halt? ==> r.w.events == w.events
  {
    var w1 := Poll(env, w);
    if !w1.running then Halt(w1, Cancelled)
    else match Lookup(w1.fs, d.pose, f)
      case None => Halt(w1, Failed(MissingImage(f)))
      case Some(p) =>
        match env.gen(Request(cfg, p), Seeded(cfg.seed))
        case None => Halt(w1, Failed(InferenceFailed(f)))
        case Some(image) =>
          Next(Emit(w1.(fs := WithFile(w1.fs, d.out, f, image)), Progress(GenProgress(i, n), GenFrame(i + 1, n))))
  }

  /** Lines 202-228, from frame `i` on. */
  function GenLoop(cfg: LegacyConfig, env: Env, d: Dirs, frames: seq<string>, i: nat, w: World): (r: Step)
    requires i <= |frames| && d.out in w.fs
    ensures r.w.fs.Keys == w.fs.Keys
    ensures w.events <= r.w.events
    ensures w.polls <= r.w.polls
    decreases |frames| - i
  {
    if i == |frames| then Next(w)
    else match GenFrameStep(cfg, env, d, frames[i], i, |frames|, w)
      case Next(w1) => GenLoop(cfg, env, d, frames, i + 1, w1)
      case Halt(w1, outcome) => Halt(w1, outcome)
  }

  /** Lines 159-228: load ControlNet and the pipeline, then stylise every frame. */
  function StyliseStage(cfg: LegacyConfig, env: Env, d: Dirs, frames: seq<string>, w: World): (r: Step)
    requires Ready(d, w.fs)
    ensures r.w.fs.Keys == w.fs.Keys
    ensures w.events <= r.w.events
    ensures w.polls <= r.w.polls
  {
    var w1 := Emit(w, Progress(40, ModelLoading));
    if !env.pipelineLoads then Halt(w1, Failed(ModelLoadFailed))
    else GenLoop(cfg, env, d, frames, 0, Emit(w1, Progress(50, Generating)))
  }

  /** Lines 233-247: ffmpeg builds the video from frames_out at 24 fps; then 100% and finished_signal. */
  function AssembleStage(env: Env, d: Dirs, w: World): (r: Step)
    requires Ready(d, w.fs)
    ensures r.w.fs.Keys == w.fs.Keys
    ensures r.w.polls == w.polls
    ensures r.Halt? ==> r.w.events == w.events + [Progress(95, Assembling)] && r.outcome == Failed(AssembleFailed)
    ensures r.Next? ==> r.w.events == w.events + [Progress(95, Assembling), Progress(100, Done), Finished]
  {
    var w1 := Emit(w, Progress(95, Assembling));
    match env.assemble(w1.fs[d.out], Fps)
    case None => Halt(w1, Failed(AssembleFailed))
    case Some(video) =>
      var w2 := w1.(fs := WithFile(w1.fs, d.base, VideoName, video));
      Next(Emit(Emit(w2, Progress(100, Done)), Finished))
  }

  /** Lines 127-247: the stages that work on the extracted frames, ending at the first that halts. */
  function FrameStages(cfg: LegacyConfig, env: Env, d: Dirs, frames: seq<string>, w: World): (r: Step)
    requires Ready(d, w.fs)
    ensures r.w.fs.Keys == w.fs.Keys
    ensures w.events <= r.w.events
    ensures w.polls <= r.w.polls
  {
    var s1 := PoseStage(env, d, frames, w);
    if s1.Halt? then s1
    else
      var s2 := StyliseStage(cfg, env, d, frames, s1.w);
      if s2.Halt? then s2
      else AssembleStage(env, d, s2.w)
  }

  /** Lines 84-247: the try block. */
  function Body(cfg: LegacyConfig, env: Env, w: World): (r: Step)
    ensures w.polls <= r.w.polls
  {
    var p := Prepare(cfg, env, w);
    if p.Halt? then p
    else
      var d := DirsFor(cfg);
      var x := Extract(env, cfg, d, p.w);
      if x.step.Halt? then x.step
      else FrameStages(cfg, env, d, x.frames, x.step.w)
  }

  /** One whole `run()`: the try block and the except block (lines 249-252); there is no finally. */
  function Execution(cfg: LegacyConfig, env: Env, w: World): (r: Ending)
    ensures r.w.fs == Body(cfg, env, w).w.fs
    ensures w.events <= r.w.events
  {
    var s := Body(cfg, env, w);
    var outcome := OutcomeOf(s);
    Ending(outcome, if outcome.Failed? then Emit(s.w, Error(outcome.reason)) else s.w)
  }

  /** The legacy `AIWorker(QThread)` (lines 70-255). */
  class AIWorker {
    const config: LegacyConfig
    const disk: Disk
    var running: bool
    var events: seq<Event>

    constructor (config: LegacyConfig, disk: Disk)
      ensures this.config == config && this.disk == disk
      ensures running && events == []
    {
      this.config := config;
      this.disk := disk;
      running := true;
      events := [];
    }

    function State(polls: nat): World
      reads this, disk
    {
      World(disk.dirs, events, running, polls)
    }

    method Stop()
      modifies this
      ensures !running && events == old(events)
    {
      running := false;
    }

    method Run(env: Env) returns (outcome: Outcome)
      modifies this, disk
      ensures var e := Execution(config, env, old(State(0)));
              outcome == e.outcome && State(e.w.polls) == e.w
    {
      var halt, polls := Attempt(env);
      outcome := if halt.None? then Completed else halt.value;
      if outcome.Failed? {
        events := events + [Error(outcome.reason)];
      }
    }

    /** The try block. */
    method Attempt(env: Env) returns (halt: Option<Outcome>, polls: nat)
      modifies this, disk
      ensures Matches(Body(config, env, old(State(0))), halt, State(polls))
    {
      polls := 0;
      halt := Provision(env);
      if halt.Some? {
        return;
      }
      var d := DirsFor(config);
      var frames;
      frames, halt := ExtractFrames(env, d);
      if halt.Some? {
        return;
      }
      halt, polls := ExtractPoses(env, d, frames, polls);
      if halt.Some? {
        return;
      }
      halt, polls := Stylise(env, d, frames, polls);
      if halt.Some? {
        return;
      }
      halt := AssembleVideo(env, d, polls);
    }

    method Provision(env: Env) returns (halt: Option<Outcome>)
      modifies disk
      ensures Matches(Prepare(config, env, old(State(0))), halt, State(0))
    {
      if config.inputVideoPath == "" || !env.videoExists {
        return Some(Failed(InvalidInput));
      }
      var d := DirsFor(config);
      disk.MakeAllDirs([d.raw, d.pose, d.out]);
      halt := None;
    }

    method ExtractFrames(env: Env, d: Dirs) returns (frames: seq<string>, halt: Option<Outcome>)
      requires Ready(d, disk.dirs)
      modifies this, disk
      ensures var x := Extract(env, config, d, old(State(0)));
              frames == x.frames && Matches(x.step, halt, State(0))
    {
      events := events + [Progress(5, Extracting(Fps))];
      var written := env.extract(config.inputVideoPath, Fps, Width);
      if written.None? {
        return [], Some(Failed(ExtractFailed));
      }
      disk.SaveAll(d.raw, written.value);
      frames := JpgFrames(disk.dirs[d.raw]);
      if |frames| == 0 {
        return [], Some(Failed(EmptyExtraction));
      }
      halt := None;
    }

    method ExtractPoses(env: Env, d: Dirs, frames: seq<string>, polls0: nat) returns (halt: Option<Outcome>, polls: nat)
      requires Ready(d, disk.dirs)
      modifies this, disk
      ensures Matches(PoseStage(env, d, frames, old(State(polls0))), halt, State(polls))
    {
      polls := polls0;
      events := events + [Progress(15, PoseLoading)];
      if !env.detectorLoads {
        return Some(Failed(DetectorLoadFailed)), polls;
      }
      events := events + [Progress(20, PoseStarting)];
      ghost var w0 := State(polls);
      for i := 0 to |frames|
        invariant d.pose in disk.dirs
        invariant PoseLoop(env, d.raw, d.pose, frames, 0, w0) == PoseLoop(env, d.raw, d.pose, frames, i, State(polls))
      {
        halt, polls := DetectPose(env, d, frames, i, polls);
        if halt.Some? {
          return;
        }
      }
      halt := None;
    }

    /** One pass of the pose loop (lines 137-149). */
    method DetectPose(env: Env, d: Dirs, frames: seq<string>, i: nat, polls0: nat) returns (halt: Option<Outcome>, polls: nat)
      requires i < |frames| && d.pose in disk.dirs
      modifies this, disk
      ensures Matches(PoseFrameStep(env, d.raw, d.pose, frames[i], i, |frames|, old(State(polls0))), halt, State(polls))
    {
      if env.StopRequested(polls0) {
        Stop();
      }
      polls := polls0 + 1;
      if !running {
        return Some(Cancelled), polls;
      }
      var img := Lookup(disk.dirs, d.raw, frames[i]);
      if img.None? {
        return Some(Failed(MissingImage(frames[i]))), polls;
      }
      var skeleton := env.pose(img.value);
      if skeleton.None? {
        return Some(Failed(PoseFailed(frames[i]))), polls;
      }
      disk.Save(d.pose, frames[i], skeleton.value);
      events := events + [Progress(PoseProgress(i, |frames|), PoseFrame(i + 1, |frames|))];
      halt := None;
    }

    method Stylise(env: Env, d: Dirs, frames: seq<string>, polls0: nat) returns (halt: Option<Outcome>, polls: nat)
      requires Ready(d, disk.dirs)
      modifies this, disk
      ensures Matches(StyliseStage(config, env, d, frames, old(State(polls0))), halt, State(polls))
    {
      polls := polls0;
      events := events + [Progress(40, ModelLoading)];
      if !env.pipelineLoads {
        return Some(Failed(ModelLoadFailed)), polls;
      }
      events := events + [Progress(50, Generating)];
      ghost var w0 := State(polls);
      for i := 0 to |frames|
        invariant d.out in disk.dirs
        invariant GenLoop(config, env, d, frames, 0, w0) == GenLoop(config, env, d, frames, i, State(polls))
      {
        halt, polls := GenerateFrame(env, d, frames, i, polls);
        if halt.Some? {
          return;
        }
      }
      halt := None;
    }

    /** One pass of the generation loop (lines 202-228). */
    method GenerateFrame(env: Env, d: Dirs, frames: seq<string>, i: nat, polls0: nat) returns (halt: Option<Outcome>, polls: nat)
      requires i < |frames| && d.out in disk.dirs
      modifies this, disk
      ensures Matches(GenFrameStep(config, env, d, frames[i], i, |frames|, old(State(polls0))), halt, State(polls))
    {
      if env.StopRequested(polls0) {
        Stop();
      }
      polls := polls0 + 1;
      if !running {
        return Some(Cancelled), polls;
      }
      var poseImg := Lookup(disk.dirs, d.pose, frames[i]);
      if poseImg.None? {
        return Some(Failed(MissingImage(frames[i]))), polls;
      }
      var generator := Seeded(config.seed);
      var image := env.gen(GenRequest(config.prompt, config.negativePrompt, poseImg.value, config.steps, config.cfgScale, None),
                           generator);
      if image.None? {
        return Some(Failed(InferenceFailed(frames[i]))), polls;
      }
      disk.Save(d.out, frames[i], image.value);
      events := events + [Progress(GenProgress(i, |frames|), GenFrame(i + 1, |frames|))];
      halt := None;
    }

    method AssembleVideo(env: Env, d: Dirs, polls: nat) returns (halt: Option<Outcome>)
      requires Ready(d, disk.dirs)
      modifies this, disk
      ensures Matches(AssembleStage(env, d, old(State(polls))), halt, State(polls))
    {
      events := events + [Progress(95, Assembling)];
      var video := env.assemble(disk.dirs[d.out], Fps);
      if video.None? {
        return Some(Failed(AssembleFailed));
      }
      disk.Save(d.base, VideoName, video.value);
      events := events + [Progress(100, Done), Finished];
      halt := None;
    }
  }

  /** The part of `SettingInterface` that edits the configuration in place. */
  class SettingInterface {
    var config: LegacyConfig

    constructor (config: LegacyConfig)
      ensures this.config == config
    {
      this.config := config;
    }

    /** Lines 481-483: the seed changes only when the text is all digits. */
    method UpdateSeed(text: string)
      modifies this
      ensures config == if Text.IsDigits(text) then old(config).(seed := Text.DigitsValue(text)) else old(config)
    {
      var parsed := Text.ParseDigits(text);
      if parsed.Some? {
        config := config.(seed := parsed.value);
      }
    }
  }
}
