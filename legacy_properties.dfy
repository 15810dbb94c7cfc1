/** What the legacy worker of gui_main.py guarantees, and where it differs from the current one. */
module LegacyProperties {
  import opened Wrappers
  import opened Os
  import opened Pipeline
  import opened LegacyGui
  import Text

  /** The three work directories are distinct children of `output_dir`. */
  lemma DirsAreDistinct(cfg: LegacyConfig)
    ensures var d := DirsFor(cfg);
            d.base < d.raw && d.base < d.pose && d.base < d.out &&
            d.raw != d.pose && d.raw != d.out && d.pose != d.out
  {
    var d := DirsFor(cfg);
    assert d.raw[1] == "frames_raw" && d.pose[1] == "frames_pose" && d.out[1] == "frames_out";
    assert "frames_raw"[7] != "frames_pose"[7] && "frames_raw"[7] != "frames_out"[7] && "frames_pose"[7] != "frames_out"[7];
  }

  // ---------------------------------------------------------------------------
  // Validation and the empty-extraction check
  // ---------------------------------------------------------------------------

  /** An empty or missing input path fails before any directory is created. */
  lemma InvalidInputChangesNothing(cfg: LegacyConfig, env: Env, w: World)
    requires cfg.inputVideoPath == "" || !env.videoExists
    ensures var e := Execution(cfg, env, w);
            e.outcome == Failed(InvalidInput) && e.w.fs == w.fs && e.w.polls == w.polls &&
            e.w.events == w.events + [Error(InvalidInput)]
  {
  }

  /** The raw directory right after the work directories are created: whatever an earlier run left there. */
  lemma PreparedRaw(cfg: LegacyConfig, env: Env, w: World)
    requires Prepare(cfg, env, w).Next?
    ensures var d := DirsFor(cfg);
            var fs := Prepare(cfg, env, w).w.fs;
            fs[d.raw] == if d.raw in w.fs then w.fs[d.raw] else map[]
  {
    DirsAreDistinct(cfg);
  }

  /** An extraction that leaves no `.jpg` in frames_raw is the empty-extraction error. */
  lemma ExtractNothing(cfg: LegacyConfig, env: Env, d: Dirs, w: World)
    requires Ready(d, w.fs)
    requires var e := env.extract(cfg.inputVideoPath, Fps, Width);
             e.Some? && forall f :: f in e.value ==> !Text.EndsWith(f, ".jpg")
    requires forall f :: f in w.fs[d.raw] ==> !Text.EndsWith(f, ".jpg")
    ensures var x := Extract(env, cfg, d, w);
            x.step.Halt? && x.step.outcome == Failed(EmptyExtraction)
  {
  }

  /**
   * With no `.jpg` in frames_raw before the run and none produced by ffmpeg,
   * the run fails with the empty-extraction error right after the extraction
   * report: the detector is never loaded and the stop flag never polled.
   */
  lemma NoFramesFailsEarly(cfg: LegacyConfig, env: Env, w: World)
    requires cfg.inputVideoPath != "" && env.videoExists
    requires var e := env.extract(cfg.inputVideoPath, Fps, Width);
             e.Some? && forall f :: f in e.value ==> !Text.EndsWith(f, ".jpg")
    requires var raw := DirsFor(cfg).raw;
             raw in w.fs ==> forall f :: f in w.fs[raw] ==> !Text.EndsWith(f, ".jpg")
    ensures var e := Execution(cfg, env, w);
            e.outcome == Failed(EmptyExtraction) && e.w.polls == w.polls &&
            e.w.events == w.events + [Progress(5, Extracting(Fps)), Error(EmptyExtraction)]
  {
    PreparedRaw(cfg, env, w);
    var p := Prepare(cfg, env, w);
    ExtractNothing(cfg, env, DirsFor(cfg), p.w);
  }

  /** How the pose loop can stop early: a stop request, a missing raw frame, a detector error. */
  lemma {:induction false} PoseLoopOutcomes(env: Env, raw: Path, pose: Path, frames: seq<string>, i: nat, w: World)
    requires i <= |frames| && pose in w.fs
    ensures var r := PoseLoop(env, raw, pose, frames, i, w);
            r.Halt? ==> r.outcome == Cancelled || r.outcome.reason.MissingImage? || r.outcome.reason.PoseFailed?
    decreases |frames| - i
  {
    if i < |frames| {
      var s := PoseFrameStep(env, raw, pose, frames[i], i, |frames|, w);
      if s.Next? {
        PoseLoopOutcomes(env, raw, pose, frames, i + 1, s.w);
      }
    }
  }

  /** How the generation loop can stop early: a stop request, a missing pose image, an inference error. */
  lemma {:induction false} GenLoopOutcomes(cfg: LegacyConfig, env: Env, d: Dirs, frames: seq<string>, i: nat, w: World)
    requires i <= |frames| && d.out in w.fs
    ensures var r := GenLoop(cfg, env, d, frames, i, w);
            r.Halt? ==> r.outcome == Cancelled || r.outcome.reason.MissingImage? || r.outcome.reason.InferenceFailed?
    decreases |frames| - i
  {
    if i < |frames| {
      var s := GenFrameStep(cfg, env, d, frames[i], i, |frames|, w);
      if s.Next? {
        GenLoopOutcomes(cfg, env, d, frames, i + 1, s.w);
      }
    }
  }

  /** The stages after extraction never report an empty extraction. */
  lemma FrameStagesNeverEmpty(cfg: LegacyConfig, env: Env, d: Dirs, frames: seq<string>, w: World)
    requires Ready(d, w.fs)
    ensures FrameStages(cfg, env, d, frames, w).Halt? ==>
              FrameStages(cfg, env, d, frames, w).outcome != Failed(EmptyExtraction)
  {
    var s1 := PoseStage(env, d, frames, w);
    if env.detectorLoads {
      PoseLoopOutcomes(env, d.raw, d.pose, frames, 0,
                       Emit(Emit(w, Progress(15, PoseLoading)), Progress(20, PoseStarting)));
    }
    if s1.Next? && env.pipelineLoads {
      GenLoopOutcomes(cfg, env, d, frames, 0,
                      Emit(Emit(s1.w, Progress(40, ModelLoading)), Progress(50, Generating)));
    }
  }

  /**
   * Conversely, a run that fails with the empty-extraction error stopped
   * right after the extraction: no detector, no model, no poll.
   */
  lemma EmptyExtractionIsEarly(cfg: LegacyConfig, env: Env, w: World)
    requires Execution(cfg, env, w).outcome == Failed(EmptyExtraction)
    ensures var e := Execution(cfg, env, w);
            e.w.polls == w.polls &&
            e.w.events == w.events + [Progress(5, Extracting(Fps)), Error(EmptyExtraction)]
  {
    BodyEmptyExtractionIsEarly(cfg, env, w);
  }

  lemma BodyEmptyExtractionIsEarly(cfg: LegacyConfig, env: Env, w: World)
    requires Body(cfg, env, w) == Halt(Body(cfg, env, w).w, Failed(EmptyExtraction))
    ensures var s := Body(cfg, env, w);
            s.w.polls == w.polls && s.w.events == w.events + [Progress(5, Extracting(Fps))]
  {
    BodyCases(cfg, env, w);
    var p := Prepare(cfg, env, w);
    if p.Next? {
      var d := DirsFor(cfg);
      var x := Extract(env, cfg, d, p.w);
      if x.step.Next? {
        FrameStagesNeverEmpty(cfg, env, d, x.frames, x.step.w);
      }
    }
  }

  // ---------------------------------------------------------------------------
  // Nothing is deleted
  // ---------------------------------------------------------------------------

  lemma {:induction false} PoseLoopRetains(env: Env, raw: Path, pose: Path, frames: seq<string>, i: nat, w: World)
    requires i <= |frames| && pose in w.fs
    ensures Retains(w.fs, PoseLoop(env, raw, pose, frames, i, w).w.fs)
    decreases |frames| - i
  {
    if i < |frames| {
      var s := PoseFrameStep(env, raw, pose, frames[i], i, |frames|, w);
      WritesRetain(w.fs, pose, pose, map[]);
      if s.Next? {
        PoseLoopRetains(env, raw, pose, frames, i + 1, s.w);
        RetainsTransitive(w.fs, s.w.fs, PoseLoop(env, raw, pose, frames, i + 1, s.w).w.fs);
      }
    }
  }

  lemma {:induction false} GenLoopRetains(cfg: LegacyConfig, env: Env, d: Dirs, frames: seq<string>, i: nat, w: World)
    requires i <= |frames| && d.out in w.fs
    ensures Retains(w.fs, GenLoop(cfg, env, d, frames, i, w).w.fs)
    decreases |frames| - i
  {
    if i < |frames| {
      var s := GenFrameStep(cfg, env, d, frames[i], i, |frames|, w);
      WritesRetain(w.fs, d.out, d.out, map[]);
      if s.Next? {
        GenLoopRetains(cfg, env, d, frames, i + 1, s.w);
        RetainsTransitive(w.fs, s.w.fs, GenLoop(cfg, env, d, frames, i + 1, s.w).w.fs);
      }
    }
  }

  lemma FrameStagesRetain(cfg: LegacyConfig, env: Env, d: Dirs, frames: seq<string>, w: World)
    requires Ready(d, w.fs)
    ensures Retains(w.fs, FrameStages(cfg, env, d, frames, w).w.fs)
  {
    var s1 := PoseStage(env, d, frames, w);
    if env.detectorLoads {
      PoseLoopRetains(env, d.raw, d.pose, frames, 0,
                      Emit(Emit(w, Progress(15, PoseLoading)), Progress(20, PoseStarting)));
    }
    if s1.Next? {
      var s2 := StyliseStage(cfg, env, d, frames, s1.w);
      if env.pipelineLoads {
        GenLoopRetains(cfg, env, d, frames, 0,
                       Emit(Emit(s1.w, Progress(40, ModelLoading)), Progress(50, Generating)));
      }
      RetainsTransitive(w.fs, s1.w.fs, s2.w.fs);
      if s2.Next? {
        WritesRetain(s2.w.fs, d.base, d.base, map[]);
        RetainsTransitive(w.fs, s2.w.fs, AssembleStage(env, d, s2.w).w.fs);
      }
    }
  }

  lemma ExtractRetains(cfg: LegacyConfig, env: Env, d: Dirs, w: World)
    requires Ready(d, w.fs)
    ensures Retains(w.fs, Extract(env, cfg, d, w).step.w.fs)
  {
    var e := env.extract(cfg.inputVideoPath, Fps, Width);
    WritesRetain(w.fs, d.raw, d.raw, if e.Some? then e.value else map[]);
  }

  /**
   * Through the try block the legacy worker deletes nothing, and once the
   * input is accepted the three work directories exist.
   */
  lemma BodyRetains(cfg: LegacyConfig, env: Env, w: World)
    ensures var s := Body(cfg, env, w);
            Retains(w.fs, s.w.fs) &&
            (cfg.inputVideoPath != "" && env.videoExists ==> Ready(DirsFor(cfg), s.w.fs))
  {
    var p := Prepare(cfg, env, w);
    if p.Next? {
      var d := DirsFor(cfg);
      var x := Extract(env, cfg, d, p.w);
      ExtractRetains(cfg, env, d, p.w);
      RetainsTransitive(w.fs, p.w.fs, x.step.w.fs);
      if x.step.Next? {
        var s := FrameStages(cfg, env, d, x.frames, x.step.w);
        FrameStagesRetain(cfg, env, d, x.frames, x.step.w);
        RetainsTransitive(w.fs, x.step.w.fs, s.w.fs);
      }
    }
  }

  /**
   * The legacy worker deletes nothing: every directory and every file name
   * present before the run is still there after it, whatever the outcome;
   * once the input is accepted, the three work directories exist.
   */
  lemma NothingDeleted(cfg: LegacyConfig, env: Env, w: World)
    ensures var e := Execution(cfg, env, w);
            Retains(w.fs, e.w.fs) &&
            (cfg.inputVideoPath != "" && env.videoExists ==> Ready(DirsFor(cfg), e.w.fs))
  {
    BodyRetains(cfg, env, w);
  }

  // ---------------------------------------------------------------------------
  // Per-frame output
  // ---------------------------------------------------------------------------

  /**
   * The output of one frame is the pipeline's answer for its pose image, with
   * no strength and a generator freshly seeded from `config.seed`; the raw
   * frame plays no part in it.
   */
  lemma FrameOutputUsesPose(cfg: LegacyConfig, env: Env, d: Dirs, fs: FileSystem, fs': FileSystem, f: string)
    requires Lookup(fs, d.pose, f) == Lookup(fs', d.pose, f)
    ensures Stylised(cfg, env, d, fs, f) == Stylised(cfg, env, d, fs', f)
    ensures var p := Lookup(fs, d.pose, f);
            Stylised(cfg, env, d, fs, f) ==
              if p.None? then None
              else env.gen(GenRequest(cfg.prompt, cfg.negativePrompt, p.value, cfg.steps, cfg.cfgScale, None), Seeded(cfg.seed))
  {
  }

  lemma {:induction false} GenLoopWritesOnlyFrames(cfg: LegacyConfig, env: Env, d: Dirs, frames: seq<string>, i: nat, w: World)
    requires i <= |frames| && d.out in w.fs
    ensures var r := GenLoop(cfg, env, d, frames, i, w);
            forall n :: n !in frames[i..] ==> Lookup(r.w.fs, d.out, n) == Lookup(w.fs, d.out, n)
    decreases |frames| - i
  {
    if i < |frames| {
      var s := GenFrameStep(cfg, env, d, frames[i], i, |frames|, w);
      if s.Next? {
        GenLoopWritesOnlyFrames(cfg, env, d, frames, i + 1, s.w);
        assert frames[i..] == [frames[i]] + frames[i + 1..];
      }
    }
  }

  /**
   * A generation loop that halts at its `m`-th poll (a stop seen there, or
   * that frame failing) went past the `m - 1` frames before it: their outputs
   * stay in place, each the stylisation of its frame.
   */
  lemma {:induction false} GenLoopKeepsDone(cfg: LegacyConfig, env: Env, d: Dirs, frames: seq<string>, i: nat, w: World)
    requires i <= |frames| && d.out in w.fs && d.out != d.pose && Text.StrictlySorted(frames)
    ensures var r := GenLoop(cfg, env, d, frames, i, w);
            r.Halt? ==> forall j :: i <= j < |frames| && j - i + 1 < r.w.polls - w.polls ==>
              Stylised(cfg, env, d, w.fs, frames[j]).Some? &&
              Lookup(r.w.fs, d.out, frames[j]) == Stylised(cfg, env, d, w.fs, frames[j])
    decreases |frames| - i
  {
    if i < |frames| {
      var s := GenFrameStep(cfg, env, d, frames[i], i, |frames|, w);
      if s.Next? {
        var r := GenLoop(cfg, env, d, frames, i + 1, s.w);
        GenLoopKeepsDone(cfg, env, d, frames, i + 1, s.w);
        GenLoopWritesOnlyFrames(cfg, env, d, frames, i + 1, s.w);
        Text.LaterNamesDiffer(frames, i, i + 1);
        forall m ensures Stylised(cfg, env, d, s.w.fs, m) == Stylised(cfg, env, d, w.fs, m) {
          FrameOutputUsesPose(cfg, env, d, s.w.fs, w.fs, m);
        }
        assert Lookup(r.w.fs, d.out, frames[i]) == Lookup(s.w.fs, d.out, frames[i]);
      }
    }
  }

  /** A generation stage that halts at the poll of frame `k` keeps the outputs of the frames before `k`. */
  lemma StyliseStageKeepsDone(cfg: LegacyConfig, env: Env, d: Dirs, frames: seq<string>, w: World, k: nat)
    requires Ready(d, w.fs) && d.out != d.pose
    requires k < |frames| && Text.StrictlySorted(frames)
    ensures var r := StyliseStage(cfg, env, d, frames, w);
            r.Halt? && r.w.polls == w.polls + k + 1 ==>
              forall j :: 0 <= j < k ==>
                Stylised(cfg, env, d, w.fs, frames[j]).Some? &&
                Lookup(r.w.fs, d.out, frames[j]) == Stylised(cfg, env, d, w.fs, frames[j])
  {
    if env.pipelineLoads {
      GenLoopKeepsDone(cfg, env, d, frames, 0, Emit(Emit(w, Progress(40, ModelLoading)), Progress(50, Generating)));
    }
  }

  /** Frame stages whose generation stage halts at the poll of frame `k` keep the outputs of the frames before `k`. */
  lemma FrameStagesKeepDone(cfg: LegacyConfig, env: Env, d: Dirs, frames: seq<string>, w: World, k: nat)
    requires Ready(d, w.fs) && d.out != d.pose
    requires k < |frames| && Text.StrictlySorted(frames)
    requires var s1 := PoseStage(env, d, frames, w);
             s1.Next? &&
             (var s2 := StyliseStage(cfg, env, d, frames, s1.w); s2.Halt? && s2.w.polls == s1.w.polls + k + 1)
    ensures var s1 := PoseStage(env, d, frames, w);
            var r := FrameStages(cfg, env, d, frames, w);
            forall j :: 0 <= j < k ==>
              Stylised(cfg, env, d, s1.w.fs, frames[j]).Some? &&
              Lookup(r.w.fs, d.out, frames[j]) == Stylised(cfg, env, d, s1.w.fs, frames[j])
  {
    StyliseStageKeepsDone(cfg, env, d, frames, PoseStage(env, d, frames, w).w, k);
  }

  /**
   * A try block whose generation stage halts at the poll of frame `k` (a stop
   * seen there, or that frame failing) ends with the outputs of the frames
   * before `k` in frames_out.
   */
  lemma BodyKeepsDone(cfg: LegacyConfig, env: Env, w: World, k: nat)
    requires var p := Prepare(cfg, env, w);
             p.Next? &&
             (var d := DirsFor(cfg);
              var x := Extract(env, cfg, d, p.w);
              x.step.Next? && k < |x.frames| &&
              (var s1 := PoseStage(env, d, x.frames, x.step.w);
               s1.Next? &&
               (var s2 := StyliseStage(cfg, env, d, x.frames, s1.w);
                s2.Halt? && s2.w.polls == s1.w.polls + k + 1)))
    ensures var d := DirsFor(cfg);
            var x := Extract(env, cfg, d, Prepare(cfg, env, w).w);
            var s1 := PoseStage(env, d, x.frames, x.step.w);
            forall j :: 0 <= j < k ==>
              Stylised(cfg, env, d, s1.w.fs, x.frames[j]).Some? &&
              Lookup(Body(cfg, env, w).w.fs, d.out, x.frames[j]) == Stylised(cfg, env, d, s1.w.fs, x.frames[j])
  {
    var d := DirsFor(cfg);
    var x := Extract(env, cfg, d, Prepare(cfg, env, w).w);
    var s1 := PoseStage(env, d, x.frames, x.step.w);
    DirsAreDistinct(cfg);
    FrameStagesKeepDone(cfg, env, d, x.frames, x.step.w, k);
    BodyCases(cfg, env, w);
  }

  /**
   * The same holds when `run` returns: there is no finally block, and
   * nothing is deleted.
   */
  lemma StopKeepsWrittenOutputs(cfg: LegacyConfig, env: Env, w: World, k: nat)
    requires var p := Prepare(cfg, env, w);
             p.Next? &&
             (var d := DirsFor(cfg);
              var x := Extract(env, cfg, d, p.w);
              x.step.Next? && k < |x.frames| &&
              (var s1 := PoseStage(env, d, x.frames, x.step.w);
               s1.Next? &&
               (var s2 := StyliseStage(cfg, env, d, x.frames, s1.w);
                s2.Halt? && s2.w.polls == s1.w.polls + k + 1)))
    ensures var d := DirsFor(cfg);
            var x := Extract(env, cfg, d, Prepare(cfg, env, w).w);
            var s1 := PoseStage(env, d, x.frames, x.step.w);
            forall j :: 0 <= j < k ==>
              Stylised(cfg, env, d, s1.w.fs, x.frames[j]).Some? &&
              Lookup(Execution(cfg, env, w).w.fs, d.out, x.frames[j]) == Stylised(cfg, env, d, s1.w.fs, x.frames[j])
  {
    BodyKeepsDone(cfg, env, w, k);
  }

  /** Once the loop has run to the end, every frame's output is in frames_out. */
  lemma {:induction false} GenLoopOutputs(cfg: LegacyConfig, env: Env, d: Dirs, frames: seq<string>, i: nat, w: World)
    requires i <= |frames| && d.out in w.fs && d.out != d.pose
    ensures var r := GenLoop(cfg, env, d, frames, i, w);
            r.Next? ==> forall j :: i <= j < |frames| ==>
              Stylised(cfg, env, d, w.fs, frames[j]).Some? &&
              Lookup(r.w.fs, d.out, frames[j]) == Stylised(cfg, env, d, w.fs, frames[j])
    decreases |frames| - i
  {
    if i < |frames| {
      var s := GenFrameStep(cfg, env, d, frames[i], i, |frames|, w);
      if s.Next? {
        GenLoopOutputs(cfg, env, d, frames, i + 1, s.w);
        GenLoopWritesOnlyFrames(cfg, env, d, frames, i + 1, s.w);
        forall m ensures Stylised(cfg, env, d, s.w.fs, m) == Stylised(cfg, env, d, w.fs, m) {
          FrameOutputUsesPose(cfg, env, d, s.w.fs, w.fs, m);
        }
      }
    }
  }

  // ---------------------------------------------------------------------------
  // Cancellation
  // ---------------------------------------------------------------------------

  lemma {:induction false} GenLoopIsQuiet(cfg: LegacyConfig, env: Env, d: Dirs, frames: seq<string>, i: nat, w: World)
    requires i <= |frames| && d.out in w.fs
    ensures QuietFrom(GenLoop(cfg, env, d, frames, i, w).w.events, |w.events|)
    decreases |frames| - i
  {
    if i < |frames| {
      var s := GenFrameStep(cfg, env, d, frames[i], i, |frames|, w);
      if s.Next? {
        GenLoopIsQuiet(cfg, env, d, frames, i + 1, s.w);
      }
    }
  }

  lemma PoseStageIsQuiet(env: Env, d: Dirs, frames: seq<string>, w: World)
    requires Ready(d, w.fs)
    ensures QuietFrom(PoseStage(env, d, frames, w).w.events, |w.events|)
  {
    if env.detectorLoads {
      var w1 := Emit(Emit(w, Progress(15, PoseLoading)), Progress(20, PoseStarting));
      PoseLoopIsQuiet(env, d.raw, d.pose, frames, 0, w1);
      QuietChain(w.events, w1.events, PoseStage(env, d, frames, w).w.events);
    }
  }

  lemma StyliseStageIsQuiet(cfg: LegacyConfig, env: Env, d: Dirs, frames: seq<string>, w: World)
    requires Ready(d, w.fs)
    ensures QuietFrom(StyliseStage(cfg, env, d, frames, w).w.events, |w.events|)
  {
    if env.pipelineLoads {
      var w1 := Emit(Emit(w, Progress(40, ModelLoading)), Progress(50, Generating));
      GenLoopIsQuiet(cfg, env, d, frames, 0, w1);
      QuietChain(w.events, w1.events, StyliseStage(cfg, env, d, frames, w).w.events);
    }
  }

  /** Up to a cancellation, the frame stages send only progress reports short of assembly. */
  lemma FrameStagesCancelledIsQuiet(cfg: LegacyConfig, env: Env, d: Dirs, frames: seq<string>, w: World)
    requires Ready(d, w.fs)
    requires FrameStages(cfg, env, d, frames, w) == Halt(FrameStages(cfg, env, d, frames, w).w, Cancelled)
    ensures QuietFrom(FrameStages(cfg, env, d, frames, w).w.events, |w.events|)
  {
    var s1 := PoseStage(env, d, frames, w);
    PoseStageIsQuiet(env, d, frames, w);
    if s1.Next? {
      var s2 := StyliseStage(cfg, env, d, frames, s1.w);
      StyliseStageIsQuiet(cfg, env, d, frames, s1.w);
      QuietChain(w.events, s1.w.events, s2.w.events);
      assert s2.Halt?;
    }
  }

  /** The try block ends where preparation or extraction halts, and otherwise where the frame stages end. */
  lemma BodyCases(cfg: LegacyConfig, env: Env, w: World)
    ensures var p := Prepare(cfg, env, w);
            var b := Body(cfg, env, w);
            (p.Halt? ==> b == p) &&
            (p.Next? ==>
               var d := DirsFor(cfg);
               var x := Extract(env, cfg, d, p.w);
               (x.step.Halt? ==> b == x.step) &&
               (x.step.Next? ==> b == FrameStages(cfg, env, d, x.frames, x.step.w)))
  {
  }

  /** Only the frame stages can stop a run early without a failure, or let it complete. */
  lemma ReachedFrameStages(cfg: LegacyConfig, env: Env, w: World)
    requires !Body(cfg, env, w).Halt? || !Body(cfg, env, w).outcome.Failed?
    ensures var p := Prepare(cfg, env, w);
            p.Next? &&
            var x := Extract(env, cfg, DirsFor(cfg), p.w);
            x.step.Next? && Body(cfg, env, w) == FrameStages(cfg, env, DirsFor(cfg), x.frames, x.step.w)
  {
  }

  /**
   * A cancelled run returns from inside the try block: after the progress
   * reports so far it sends neither `finished_signal` nor `error_signal`.
   */
  lemma CancelledRunSignalsNothing(cfg: LegacyConfig, env: Env, w: World)
    requires Execution(cfg, env, w).outcome == Cancelled
    ensures var es := Execution(cfg, env, w).w.events;
            w.events <= es && QuietFrom(es, |w.events|)
  {
    BodyCancelledIsQuiet(cfg, env, w);
  }

  lemma BodyCancelledIsQuiet(cfg: LegacyConfig, env: Env, w: World)
    requires Body(cfg, env, w).Halt? && Body(cfg, env, w).outcome == Cancelled
    ensures w.events <= Body(cfg, env, w).w.events && QuietFrom(Body(cfg, env, w).w.events, |w.events|)
  {
    ReachedFrameStages(cfg, env, w);
    var p := Prepare(cfg, env, w);
    var d := DirsFor(cfg);
    var x := Extract(env, cfg, d, p.w);
    ExtractIsQuiet(cfg, env, d, p.w);
    CancelledAfterExtraction(cfg, env, d, x.frames, x.step.w, w.events);
  }

  lemma ExtractIsQuiet(cfg: LegacyConfig, env: Env, d: Dirs, w: World)
    requires Ready(d, w.fs)
    ensures QuietFrom(Extract(env, cfg, d, w).step.w.events, |w.events|)
  {
  }

  lemma CancelledAfterExtraction(cfg: LegacyConfig, env: Env, d: Dirs, frames: seq<string>, w: World, es: seq<Event>)
    requires Ready(d, w.fs)
    requires es <= w.events && QuietFrom(w.events, |es|)
    requires FrameStages(cfg, env, d, frames, w) == Halt(FrameStages(cfg, env, d, frames, w).w, Cancelled)
    ensures es <= FrameStages(cfg, env, d, frames, w).w.events
    ensures QuietFrom(FrameStages(cfg, env, d, frames, w).w.events, |es|)
  {
    FrameStagesCancelledIsQuiet(cfg, env, d, frames, w);
    QuietChain(es, w.events, FrameStages(cfg, env, d, frames, w).w.events);
  }

  // ---------------------------------------------------------------------------
  // Progress
  // ---------------------------------------------------------------------------

  lemma {:induction false} GenLoopRises(cfg: LegacyConfig, env: Env, d: Dirs, frames: seq<string>, i: nat, w: World)
    requires i <= |frames| && d.out in w.fs
    requires Rising(0, w.events) && LastPercent(0, w.events) <= 94
    requires i < |frames| ==> LastPercent(0, w.events) <= GenProgress(i, |frames|)
    ensures var r := GenLoop(cfg, env, d, frames, i, w);
            Rising(0, r.w.events) && LastPercent(0, r.w.events) <= 94
    decreases |frames| - i
  {
    if i < |frames| {
      var s := GenFrameStep(cfg, env, d, frames[i], i, |frames|, w);
      if s.Next? {
        RisingAppend(0, w.events, Progress(GenProgress(i, |frames|), GenFrame(i + 1, |frames|)));
        if i + 1 < |frames| { BandsRise(i, i + 1, |frames|); }
        GenLoopRises(cfg, env, d, frames, i + 1, s.w);
      }
    }
  }

  lemma PoseStageRises(env: Env, d: Dirs, frames: seq<string>, w: World)
    requires Ready(d, w.fs)
    requires Rising(0, w.events) && LastPercent(0, w.events) <= 15
    ensures var es := PoseStage(env, d, frames, w).w.events;
            Rising(0, es) && LastPercent(0, es) <= 39
  {
    RisingAppend(0, w.events, Progress(15, PoseLoading));
    if env.detectorLoads {
      RisingAppend2(w.events, Progress(15, PoseLoading), Progress(20, PoseStarting));
      var w1 := Emit(Emit(w, Progress(15, PoseLoading)), Progress(20, PoseStarting));
      assert w1.events == w.events + [Progress(15, PoseLoading)] + [Progress(20, PoseStarting)];
      PoseLoopRises(env, d.raw, d.pose, frames, 0, w1);
    }
  }

  lemma StyliseStageRises(cfg: LegacyConfig, env: Env, d: Dirs, frames: seq<string>, w: World)
    requires Ready(d, w.fs)
    requires Rising(0, w.events) && LastPercent(0, w.events) <= 40
    ensures var es := StyliseStage(cfg, env, d, frames, w).w.events;
            Rising(0, es) && LastPercent(0, es) <= 94
  {
    RisingAppend(0, w.events, Progress(40, ModelLoading));
    if env.pipelineLoads {
      RisingAppend2(w.events, Progress(40, ModelLoading), Progress(50, Generating));
      var w1 := Emit(Emit(w, Progress(40, ModelLoading)), Progress(50, Generating));
      assert w1.events == w.events + [Progress(40, ModelLoading)] + [Progress(50, Generating)];
      GenLoopRises(cfg, env, d, frames, 0, w1);
    }
  }

  lemma AssembleStageRises(env: Env, d: Dirs, w: World)
    requires Ready(d, w.fs)
    requires Rising(0, w.events) && LastPercent(0, w.events) <= 95
    ensures var es := AssembleStage(env, d, w).w.events;
            Rising(0, es) && LastPercent(0, es) <= 100
  {
    RisingAppend(0, w.events, Progress(95, Assembling));
    RisingAppend2(w.events, Progress(95, Assembling), Progress(100, Done));
    RisingAppend(0, w.events + [Progress(95, Assembling)] + [Progress(100, Done)], Finished);
  }

  lemma FrameStagesRise(cfg: LegacyConfig, env: Env, d: Dirs, frames: seq<string>, w: World)
    requires Ready(d, w.fs)
    requires Rising(0, w.events) && LastPercent(0, w.events) <= 15
    ensures var es := FrameStages(cfg, env, d, frames, w).w.events;
            Rising(0, es) && LastPercent(0, es) <= 100
  {
    var s1 := PoseStage(env, d, frames, w);
    PoseStageRises(env, d, frames, w);
    if s1.Next? {
      var s2 := StyliseStage(cfg, env, d, frames, s1.w);
      StyliseStageRises(cfg, env, d, frames, s1.w);
      if s2.Next? {
        AssembleStageRises(env, d, s2.w);
      }
    }
  }

  /**
   * Progress runs 5, 15, 20, the pose band [20, 39], 40, 50, the generation
   * band [50, 94], 95, 100: it never decreases (see `RisingIsSorted`) and
   * every per-frame value is below the next stage's marker.
   */
  lemma ProgressRises(cfg: LegacyConfig, env: Env, w: World)
    requires w.events == []
    ensures var es := Execution(cfg, env, w).w.events;
            Rising(0, es) && LastPercent(0, es) <= 100
  {
    var s := Body(cfg, env, w);
    BodyRises(cfg, env, w);
    var o := OutcomeOf(s);
    if o.Failed? {
      RisingAppend(0, s.w.events, Error(o.reason));
    }
  }

  lemma BodyRises(cfg: LegacyConfig, env: Env, w: World)
    requires w.events == []
    ensures var es := Body(cfg, env, w).w.events;
            Rising(0, es) && LastPercent(0, es) <= 100
  {
    BodyCases(cfg, env, w);
    var p := Prepare(cfg, env, w);
    if p.Next? {
      var d := DirsFor(cfg);
      var x := Extract(env, cfg, d, p.w);
      RisingAppend(0, [], Progress(5, Extracting(Fps)));
      if x.step.Next? {
        FrameStagesRise(cfg, env, d, x.frames, x.step.w);
      }
    }
  }

  lemma FrameStagesCompletedEnd(cfg: LegacyConfig, env: Env, d: Dirs, frames: seq<string>, w: World)
    requires Ready(d, w.fs)
    requires FrameStages(cfg, env, d, frames, w).Next?
    ensures var es := FrameStages(cfg, env, d, frames, w).w.events;
            |es| >= 2 && es[|es| - 2..] == [Progress(100, Done), Finished]
  {
    var s1 := PoseStage(env, d, frames, w);
    var s2 := StyliseStage(cfg, env, d, frames, s1.w);
    var s3 := AssembleStage(env, d, s2.w);
    assert s3.w.events == s2.w.events + [Progress(95, Assembling), Progress(100, Done), Finished];
  }

  /** A completed run ends with the 100 of completion and `finished_signal`. */
  lemma CompletedRunEnds(cfg: LegacyConfig, env: Env, w: World)
    requires Execution(cfg, env, w).outcome == Completed
    ensures var es := Execution(cfg, env, w).w.events;
            |es| >= 2 && es[|es| - 2..] == [Progress(100, Done), Finished]
  {
    assert Body(cfg, env, w).Next?;
    BodyCompletedEnds(cfg, env, w);
  }

  /** A try block that runs to the end ends with the 100 of completion and `finished_signal`. */
  lemma BodyCompletedEnds(cfg: LegacyConfig, env: Env, w: World)
    requires Body(cfg, env, w).Next?
    ensures var es := Body(cfg, env, w).w.events;
            |es| >= 2 && es[|es| - 2..] == [Progress(100, Done), Finished]
  {
    ReachedFrameStages(cfg, env, w);
    var p := Prepare(cfg, env, w);
    var d := DirsFor(cfg);
    var x := Extract(env, cfg, d, p.w);
    FrameStagesCompletedEnd(cfg, env, d, x.frames, x.step.w);
  }

  // ---------------------------------------------------------------------------
  // What a completed run leaves behind, and stale frames
  // ---------------------------------------------------------------------------

  /** The frames are every `.jpg` in frames_raw after ffmpeg ran: its new files and whatever was there. */
  lemma ExtractedFrames(cfg: LegacyConfig, env: Env, d: Dirs, w: World)
    requires Ready(d, w.fs)
    ensures var x := Extract(env, cfg, d, w);
            var e := env.extract(cfg.inputVideoPath, Fps, Width);
            x.step.Next? ==>
              e.Some? &&
              forall f :: (f in e.value || f in w.fs[d.raw]) && Text.EndsWith(f, ".jpg") ==>
                exists j :: 0 <= j < |x.frames| && x.frames[j] == f
  {
    var x := Extract(env, cfg, d, w);
    var e := env.extract(cfg.inputVideoPath, Fps, Width);
    if x.step.Next? {
      forall f | (f in e.value || f in w.fs[d.raw]) && Text.EndsWith(f, ".jpg")
        ensures exists j :: 0 <= j < |x.frames| && x.frames[j] == f
      {
        assert f in x.step.w.fs[d.raw];
        assert f in x.frames;
      }
    }
  }

  /** Frame stages that run to the end leave an output per frame in frames_out, and the video. */
  lemma FrameStagesDeliver(cfg: LegacyConfig, env: Env, d: Dirs, frames: seq<string>, w: World)
    requires Ready(d, w.fs) && d.out != d.pose && d.out != d.base
    requires FrameStages(cfg, env, d, frames, w).Next?
    ensures var fs := FrameStages(cfg, env, d, frames, w).w.fs;
            Lookup(fs, d.base, VideoName).Some? &&
            forall j :: 0 <= j < |frames| ==> Lookup(fs, d.out, frames[j]).Some?
  {
    var s1 := PoseStage(env, d, frames, w);
    var w2 := Emit(Emit(s1.w, Progress(40, ModelLoading)), Progress(50, Generating));
    GenLoopOutputs(cfg, env, d, frames, 0, w2);
  }

  /**
   * On completion, frames_out holds an output for every `.jpg` name ffmpeg
   * produced and for every `.jpg` already in frames_raw, and
   * `final_output.mp4` is in the output directory.
   */
  lemma CompletedRunDelivers(cfg: LegacyConfig, env: Env, w: World)
    requires Execution(cfg, env, w).outcome == Completed
    ensures env.extract(cfg.inputVideoPath, Fps, Width).Some?
    ensures var d := DirsFor(cfg);
            var fs := Execution(cfg, env, w).w.fs;
            var files := env.extract(cfg.inputVideoPath, Fps, Width).value;
            Lookup(fs, d.base, VideoName).Some? &&
            forall f :: (f in files || (d.raw in w.fs && f in w.fs[d.raw])) && Text.EndsWith(f, ".jpg") ==>
              Lookup(fs, d.out, f).Some?
  {
    ReachedFrameStages(cfg, env, w);
    DirsAreDistinct(cfg);
    PreparedRaw(cfg, env, w);
    var p := Prepare(cfg, env, w);
    var d := DirsFor(cfg);
    var x := Extract(env, cfg, d, p.w);
    ExtractedFrames(cfg, env, d, p.w);
    FrameStagesDeliver(cfg, env, d, x.frames, x.step.w);
  }

  /**
   * As written, the legacy worker never clears frames_raw: a `.jpg` an earlier
   * run left there, and that ffmpeg does not overwrite this time, is taken as a
   * frame of this video, its skeleton extracted and its output generated. The
   * current worker removes its transient directory first
   * (`WorkerProperties.ProvisionedWorkspaceIsFresh`).
   */
  lemma StaleFramesAreReused(cfg: LegacyConfig, env: Env, w: World, f: string)
    requires cfg.inputVideoPath != "" && env.videoExists
    requires env.extract(cfg.inputVideoPath, Fps, Width).Some?
    requires var raw := DirsFor(cfg).raw;
             raw in w.fs && f in w.fs[raw] && Text.EndsWith(f, ".jpg")
    requires f !in env.extract(cfg.inputVideoPath, Fps, Width).value
    ensures var p := Prepare(cfg, env, w);
            var d := DirsFor(cfg);
            var x := Extract(env, cfg, d, p.w);
            p.Next? && x.step.Next? && f in x.frames &&
            Lookup(x.step.w.fs, d.raw, f) == Lookup(w.fs, d.raw, f)
    ensures Execution(cfg, env, w).outcome == Completed ==>
              Lookup(Execution(cfg, env, w).w.fs, DirsFor(cfg).out, f).Some?
  {
    PreparedRaw(cfg, env, w);
    var p := Prepare(cfg, env, w);
    var d := DirsFor(cfg);
    var x := Extract(env, cfg, d, p.w);
    assert f in x.step.w.fs[d.raw];
    if Execution(cfg, env, w).outcome == Completed {
      CompletedRunDelivers(cfg, env, w);
    }
  }
}
