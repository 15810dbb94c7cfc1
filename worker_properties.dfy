/**
 * What a run of the current worker (core/worker.py) guarantees, proved about
 * the functions of module Worker that `AIWorker.Run` is proved to follow.
 */
module WorkerProperties {
  import opened Wrappers
  import opened Os
  import opened Config
  import opened Pipeline
  import opened Worker
  import Text

  /** Reading the raw and pose directories is all that `Stylised` does with the filesystem. */
  lemma StylisedReadsOnlyInputs(cfg: GenerationConfig, env: Env, lay: Layout, fs: FileSystem, fs': FileSystem, n: string)
    requires lay.raw in fs <==> lay.raw in fs'
    requires lay.raw in fs ==> fs[lay.raw] == fs'[lay.raw]
    requires lay.pose in fs <==> lay.pose in fs'
    requires lay.pose in fs ==> fs[lay.pose] == fs'[lay.pose]
    ensures Stylised(cfg, env, lay, fs, n) == Stylised(cfg, env, lay, fs', n)
  {
  }

  /** The generation loop changes no directory but frames_out. */
  lemma {:induction false} GenLoopKeepsOtherDirs(cfg: GenerationConfig, env: Env, lay: Layout, frames: seq<string>, i: nat, w: World)
    requires i <= |frames| && lay.out in w.fs
    ensures var r := GenLoop(cfg, env, lay, frames, i, w);
            forall d :: d in w.fs && d != lay.out ==> r.w.fs[d] == w.fs[d]
    decreases |frames| - i
  {
    if i < |frames| {
      var s := GenFrameStep(cfg, env, lay, frames[i], i, |frames|, w);
      if s.Next? {
        GenLoopKeepsOtherDirs(cfg, env, lay, frames, i + 1, s.w);
      }
    }
  }

  /** One frame's step changes nothing `Stylised` reads. */
  lemma GenFrameStepKeepsInputs(cfg: GenerationConfig, env: Env, lay: Layout, f: string, i: nat, n: nat, w: World)
    requires i < n && lay.out in w.fs && lay.out != lay.raw && lay.out != lay.pose
    ensures var s := GenFrameStep(cfg, env, lay, f, i, n, w);
            forall m :: Stylised(cfg, env, lay, s.w.fs, m) == Stylised(cfg, env, lay, w.fs, m)
  {
    var s := GenFrameStep(cfg, env, lay, f, i, n, w);
    forall m ensures Stylised(cfg, env, lay, s.w.fs, m) == Stylised(cfg, env, lay, w.fs, m) {
      StylisedReadsOnlyInputs(cfg, env, lay, s.w.fs, w.fs, m);
    }
  }

  /** The generation loop writes into frames_out only under the remaining frame names. */
  lemma {:induction false} GenLoopWritesOnlyFrames(cfg: GenerationConfig, env: Env, lay: Layout, frames: seq<string>, i: nat, w: World)
    requires i <= |frames| && lay.out in w.fs
    ensures var r := GenLoop(cfg, env, lay, frames, i, w);
            forall n :: n !in frames[i..] ==> Lookup(r.w.fs, lay.out, n) == Lookup(w.fs, lay.out, n)
    decreases |frames| - i
  {
    if i < |frames| {
      var s := GenFrameStep(cfg, env, lay, frames[i], i, |frames|, w);
      if s.Next? {
        GenLoopWritesOnlyFrames(cfg, env, lay, frames, i + 1, s.w);
        assert frames[i..] == [frames[i]] + frames[i + 1..];
      }
    }
  }

  /**
   * Each file the generation loop leaves in frames_out under one of the
   * remaining frame names is the stylisation of that frame alone (or was there
   * before); when the loop runs to the end, every remaining frame has its
   * output.
   */
  lemma {:induction false} GenLoopOutputs(cfg: GenerationConfig, env: Env, lay: Layout, frames: seq<string>, i: nat, w: World)
    requires i <= |frames| && lay.out in w.fs
    requires lay.out != lay.raw && lay.out != lay.pose
    ensures var r := GenLoop(cfg, env, lay, frames, i, w);
            (forall j :: i <= j < |frames| ==>
               Lookup(r.w.fs, lay.out, frames[j]) == Lookup(w.fs, lay.out, frames[j]) ||
               Lookup(r.w.fs, lay.out, frames[j]) == Stylised(cfg, env, lay, w.fs, frames[j])) &&
            (r.Next? ==> forall j :: i <= j < |frames| ==>
               Stylised(cfg, env, lay, w.fs, frames[j]).Some? &&
               Lookup(r.w.fs, lay.out, frames[j]) == Stylised(cfg, env, lay, w.fs, frames[j]))
    decreases |frames| - i
  {
    if i < |frames| {
      var s := GenFrameStep(cfg, env, lay, frames[i], i, |frames|, w);
      if s.Next? {
        GenLoopOutputs(cfg, env, lay, frames, i + 1, s.w);
        GenLoopWritesOnlyFrames(cfg, env, lay, frames, i + 1, s.w);
        GenFrameStepKeepsInputs(cfg, env, lay, frames[i], i, |frames|, w);
      }
    }
  }

  /**
   * A stop request seen at the poll before frame `k` of the generation loop
   * ends the loop there: it halts, as cancelled unless an earlier frame failed (one that
   * halted before the poll of frame `k`),
   * and no output of frame `k` or later is written.
   */
  lemma {:induction false} GenLoopStopsAt(cfg: GenerationConfig, env: Env, lay: Layout, frames: seq<string>, i: nat, w: World, k: nat)
    requires i <= k < |frames| && lay.out in w.fs && Text.StrictlySorted(frames)
    requires env.StopRequested(w.polls + (k - i))
    ensures var r := GenLoop(cfg, env, lay, frames, i, w);
            r.Halt? && (r.outcome == Cancelled || r.w.polls <= w.polls + (k - i)) &&
            r.w.polls <= w.polls + (k - i) + 1 &&
            forall j :: k <= j < |frames| ==> Lookup(r.w.fs, lay.out, frames[j]) == Lookup(w.fs, lay.out, frames[j])
    decreases k - i
  {
    var s := GenFrameStep(cfg, env, lay, frames[i], i, |frames|, w);
    if s.Next? {
      assert i < k;
      GenLoopStopsAt(cfg, env, lay, frames, i + 1, s.w, k);
      Text.LaterNamesDiffer(frames, i, k);
    }
  }

  /** The pose-loop counterpart of `GenLoopStopsAt`, for the skeletons in frames_pose. */
  lemma {:induction false} PoseLoopStopsAt(env: Env, lay: Layout, frames: seq<string>, i: nat, w: World, k: nat)
    requires i <= k < |frames| && lay.pose in w.fs && Text.StrictlySorted(frames)
    requires env.StopRequested(w.polls + (k - i))
    ensures var r := PoseLoop(env, lay.raw, lay.pose, frames, i, w);
            r.Halt? && (r.outcome == Cancelled || r.w.polls <= w.polls + (k - i)) &&
            r.w.polls <= w.polls + (k - i) + 1 &&
            forall j :: k <= j < |frames| ==> Lookup(r.w.fs, lay.pose, frames[j]) == Lookup(w.fs, lay.pose, frames[j])
    decreases k - i
  {
    var s := PoseFrameStep(env, lay.raw, lay.pose, frames[i], i, |frames|, w);
    if s.Next? {
      assert i < k;
      PoseLoopStopsAt(env, lay, frames, i + 1, s.w, k);
      Text.LaterNamesDiffer(frames, i, k);
    }
  }

  /**
   * A generation loop that halts at its `m`-th poll (a stop seen there, see
   * `GenLoopStopsAt`, or that frame failing) went past the `m - 1` frames
   * before it: their outputs stay in place, each the stylisation of its frame.
   */
  lemma {:induction false} GenLoopKeepsDone(cfg: GenerationConfig, env: Env, lay: Layout, frames: seq<string>, i: nat, w: World)
    requires i <= |frames| && lay.out in w.fs && Text.StrictlySorted(frames)
    requires lay.out != lay.raw && lay.out != lay.pose
    ensures var r := GenLoop(cfg, env, lay, frames, i, w);
            r.Halt? ==> forall j :: i <= j < |frames| && j - i + 1 < r.w.polls - w.polls ==>
              Stylised(cfg, env, lay, w.fs, frames[j]).Some? &&
              Lookup(r.w.fs, lay.out, frames[j]) == Stylised(cfg, env, lay, w.fs, frames[j])
    decreases |frames| - i
  {
    if i < |frames| {
      var s := GenFrameStep(cfg, env, lay, frames[i], i, |frames|, w);
      if s.Next? {
        var r := GenLoop(cfg, env, lay, frames, i + 1, s.w);
        GenLoopKeepsDone(cfg, env, lay, frames, i + 1, s.w);
        GenLoopWritesOnlyFrames(cfg, env, lay, frames, i + 1, s.w);
        Text.LaterNamesDiffer(frames, i, i + 1);
        GenFrameStepKeepsInputs(cfg, env, lay, frames[i], i, |frames|, w);
        assert Lookup(r.w.fs, lay.out, frames[i]) == Lookup(s.w.fs, lay.out, frames[i]);
      }
    }
  }

  lemma {:induction false} GenLoopHonoursStop(cfg: GenerationConfig, env: Env, lay: Layout, frames: seq<string>, i: nat, w: World, k: nat)
    requires i <= |frames| && lay.out in w.fs
    requires env.StopRequested(k) && w.polls <= k
    ensures HonoursStop(GenLoop(cfg, env, lay, frames, i, w), k)
    decreases |frames| - i
  {
    if i < |frames| {
      var s := GenFrameStep(cfg, env, lay, frames[i], i, |frames|, w);
      if s.Next? {
        GenLoopHonoursStop(cfg, env, lay, frames, i + 1, s.w, k);
      }
    }
  }

  lemma PoseStageHonoursStop(cfg: GenerationConfig, env: Env, lay: Layout, frames: seq<string>, w: World, k: nat)
    requires Provisioned(lay, w.fs)
    requires env.StopRequested(k) && w.polls <= k
    ensures HonoursStop(PoseStage(cfg, env, lay, frames, w), k)
  {
    if cfg.enablePose && env.detectorLoads {
      PoseLoopHonoursStop(env, lay.raw, lay.pose, frames, 0, Emit(w, Progress(15, PoseLoading)), k);
    }
  }

  lemma StyliseStageHonoursStop(cfg: GenerationConfig, env: Env, lay: Layout, frames: seq<string>, w: World, k: nat)
    requires Provisioned(lay, w.fs)
    requires env.StopRequested(k) && w.polls <= k
    ensures HonoursStop(StyliseStage(cfg, env, lay, frames, w), k)
  {
    if env.pipelineLoads {
      GenLoopHonoursStop(cfg, env, lay, frames, 0, Emit(Emit(w, Progress(40, ModelLoading)), Progress(50, Generating)), k);
    }
  }

  lemma FrameStagesHonourStop(cfg: GenerationConfig, env: Env, lay: Layout, frames: seq<string>, w: World, k: nat)
    requires Provisioned(lay, w.fs)
    requires env.StopRequested(k) && w.polls <= k
    ensures HonoursStop(FrameStages(cfg, env, lay, frames, w), k)
  {
    PoseStageHonoursStop(cfg, env, lay, frames, w, k);
    var s3 := PoseStage(cfg, env, lay, frames, w);
    if s3.Next? {
      StyliseStageHonoursStop(cfg, env, lay, frames, s3.w, k);
    }
  }

  lemma BodyHonoursStop(cfg: GenerationConfig, env: Env, w: World, k: nat)
    requires env.StopRequested(k) && w.polls <= k
    ensures HonoursStop(Body(cfg, env, w).step, k)
  {
    BodyCases(cfg, env, w);
    var p := Prepare(cfg, env, w);
    if p.step.Next? {
      var lay := p.layout.value;
      var x := Extract(cfg, env, lay, p.step.w);
      if x.step.Next? {
        FrameStagesHonourStop(cfg, env, lay, x.frames, x.step.w, k);
      }
    }
  }

  /** The except and finally blocks keep the try block's outcome and make no poll. */
  lemma ConcludeKeepsOutcome(rmtreeOk: bool, a: Attempt)
    ensures Conclude(rmtreeOk, a).outcome == OutcomeOf(a.step)
    ensures Conclude(rmtreeOk, a).w.polls == a.step.w.polls
  {
  }

  /**
   * `stop()` takes effect at the next poll: when it is requested before poll
   * `k`, the run makes no poll after poll `k`, and a run that made poll `k`
   * ends cancelled, so it sends neither `finished_signal` nor `error_signal`.
   * Only a run that failed or finished before reaching poll `k` ends
   * otherwise.
   */
  lemma StopIsHonoured(cfg: GenerationConfig, env: Env, rmtreeOk: bool, w: World, k: nat)
    requires env.StopRequested(k) && w.polls <= k
    ensures var e := Execution(cfg, env, rmtreeOk, w);
            e.w.polls <= k + 1 && (e.w.polls <= k || e.outcome == Cancelled)
    ensures var e := Execution(cfg, env, rmtreeOk, w);
            e.outcome == Cancelled ==> w.events <= e.w.events && QuietFrom(e.w.events, |w.events|)
  {
    var a := Body(cfg, env, w);
    BodyHonoursStop(cfg, env, w, k);
    ConcludeKeepsOutcome(rmtreeOk, a);
    if Conclude(rmtreeOk, a).outcome == Cancelled {
      CancelledRunSignalsNothing(cfg, env, rmtreeOk, w);
    }
  }

  /** A generation stage that halts at the poll of frame `k` keeps the outputs of the frames before `k`. */
  lemma StyliseStageKeepsDone(cfg: GenerationConfig, env: Env, lay: Layout, frames: seq<string>, w: World, k: nat)
    requires Provisioned(lay, w.fs) && lay.out != lay.raw && lay.out != lay.pose
    requires k < |frames| && Text.StrictlySorted(frames)
    ensures var r := StyliseStage(cfg, env, lay, frames, w);
            r.Halt? && r.w.polls == w.polls + k + 1 ==>
              forall j :: 0 <= j < k ==>
                Stylised(cfg, env, lay, w.fs, frames[j]).Some? &&
                Lookup(r.w.fs, lay.out, frames[j]) == Stylised(cfg, env, lay, w.fs, frames[j])
  {
    if env.pipelineLoads {
      GenLoopKeepsDone(cfg, env, lay, frames, 0, Emit(Emit(w, Progress(40, ModelLoading)), Progress(50, Generating)));
    }
  }

  /**
   * A try block whose generation stage halts at the poll of frame `k` (a stop
   * seen there, or that frame failing) ends with the outputs of the frames
   * before `k` in frames_out.
   */
  lemma BodyKeepsDone(cfg: GenerationConfig, env: Env, w: World, k: nat)
    requires cfg.tempDirName.Some? && cfg.tempDirName != Some("frames_out")
    requires var p := Prepare(cfg, env, w);
             p.step.Next? &&
             (var lay := p.layout.value;
              var x := Extract(cfg, env, lay, p.step.w);
              x.step.Next? && k < |x.frames| &&
              (var s3 := PoseStage(cfg, env, lay, x.frames, x.step.w);
               s3.Next? &&
               (var s4 := StyliseStage(cfg, env, lay, x.frames, s3.w);
                s4.Halt? && s4.w.polls == s3.w.polls + k + 1)))
    ensures var p := Prepare(cfg, env, w);
            var lay := p.layout.value;
            var x := Extract(cfg, env, lay, p.step.w);
            var s3 := PoseStage(cfg, env, lay, x.frames, x.step.w);
            var b := Body(cfg, env, w);
            b.layout == Some(lay) && lay.out in b.step.w.fs && !(lay.temp <= lay.out) &&
            forall j :: 0 <= j < k ==>
              Stylised(cfg, env, lay, s3.w.fs, x.frames[j]).Some? &&
              Lookup(b.step.w.fs, lay.out, x.frames[j]) == Stylised(cfg, env, lay, s3.w.fs, x.frames[j])
  {
    var p := Prepare(cfg, env, w);
    var lay := p.layout.value;
    var x := Extract(cfg, env, lay, p.step.w);
    var s3 := PoseStage(cfg, env, lay, x.frames, x.step.w);
    PersistentOutsideTransient(cfg, cfg.tempDirName.value);
    StyliseStageKeepsDone(cfg, env, lay, x.frames, s3.w, k);
    BodyCases(cfg, env, w);
  }

  /**
   * A run whose generation stage halts at the poll of frame `k` (a stop seen
   * there, see `GenLoopStopsAt`, or that frame failing) still holds, when
   * `run` returns, the output of every frame before `k`: the finally block
   * removes only `temp_dir`, which frames_out lies outside unless
   * `temp_dir_name` is "frames_out".
   */
  lemma StopKeepsWrittenOutputs(cfg: GenerationConfig, env: Env, rmtreeOk: bool, w: World, k: nat)
    requires cfg.tempDirName.Some? && cfg.tempDirName != Some("frames_out")
    requires var p := Prepare(cfg, env, w);
             p.step.Next? &&
             (var lay := p.layout.value;
              var x := Extract(cfg, env, lay, p.step.w);
              x.step.Next? && k < |x.frames| &&
              (var s3 := PoseStage(cfg, env, lay, x.frames, x.step.w);
               s3.Next? &&
               (var s4 := StyliseStage(cfg, env, lay, x.frames, s3.w);
                s4.Halt? && s4.w.polls == s3.w.polls + k + 1)))
    ensures var p := Prepare(cfg, env, w);
            var lay := p.layout.value;
            var x := Extract(cfg, env, lay, p.step.w);
            var s3 := PoseStage(cfg, env, lay, x.frames, x.step.w);
            var e := Execution(cfg, env, rmtreeOk, w);
            forall j :: 0 <= j < k ==>
              Stylised(cfg, env, lay, s3.w.fs, x.frames[j]).Some? &&
              Lookup(e.w.fs, lay.out, x.frames[j]) == Stylised(cfg, env, lay, s3.w.fs, x.frames[j])
  {
    var a := Body(cfg, env, w);
    BodyKeepsDone(cfg, env, w, k);
    ConcludeCleansUp(rmtreeOk, a);
  }

  /** The generation loop's progress values climb through the band [50, 94]. */
  lemma {:induction false} GenLoopRises(cfg: GenerationConfig, env: Env, lay: Layout, frames: seq<string>, i: nat, w: World)
    requires i <= |frames| && lay.out in w.fs
    requires Rising(0, w.events) && LastPercent(0, w.events) <= 94
    requires i < |frames| ==> LastPercent(0, w.events) <= GenProgress(i, |frames|)
    ensures var r := GenLoop(cfg, env, lay, frames, i, w);
            Rising(0, r.w.events) && LastPercent(0, r.w.events) <= 94
    decreases |frames| - i
  {
    if i < |frames| {
      var s := GenFrameStep(cfg, env, lay, frames[i], i, |frames|, w);
      if s.Next? {
        RisingAppend(0, w.events, Progress(GenProgress(i, |frames|), GenFrame(i + 1, |frames|)));
        if i + 1 < |frames| { BandsRise(i, i + 1, |frames|); }
        GenLoopRises(cfg, env, lay, frames, i + 1, s.w);
      }
    }
  }

  lemma {:induction false} GenLoopIsQuiet(cfg: GenerationConfig, env: Env, lay: Layout, frames: seq<string>, i: nat, w: World)
    requires i <= |frames| && lay.out in w.fs
    ensures QuietFrom(GenLoop(cfg, env, lay, frames, i, w).w.events, |w.events|)
    decreases |frames| - i
  {
    if i < |frames| {
      var s := GenFrameStep(cfg, env, lay, frames[i], i, |frames|, w);
      if s.Next? {
        GenLoopIsQuiet(cfg, env, lay, frames, i + 1, s.w);
      }
    }
  }

  /**
   * A missing or empty input path (or failed deferred imports) ends the run
   * before any directory is created or any progress is sent: `temp_dir` is
   * still unset, so the cleanup does nothing and only `error_signal` fires.
   */
  lemma InvalidInputChangesNothing(cfg: GenerationConfig, env: Env, rmtreeOk: bool, w: World)
    requires !env.importsOk || cfg.inputVideoPath == "" || !env.videoExists
    ensures var e := Execution(cfg, env, rmtreeOk, w);
            e.outcome == Failed(if env.importsOk then InvalidInput else ImportFailed) &&
            e.w == w.(events := w.events + [Error(e.outcome.reason)])
  {
  }

  /**
   * As written, the configuration record has no `temp_dir_name`: the run
   * creates the output directory and then fails, every time, with only an
   * error signal.
   */
  lemma MissingTempDirNameFails(cfg: GenerationConfig, env: Env, rmtreeOk: bool, w: World)
    requires env.importsOk && cfg.inputVideoPath != "" && env.videoExists
    requires cfg.tempDirName.None?
    ensures var e := Execution(cfg, env, rmtreeOk, w);
            e.outcome == Failed(MissingTempDirName) &&
            e.w == w.(fs := WithDirs(w.fs, [cfg.outputDir]), events := w.events + [Error(MissingTempDirName)])
  {
  }

  /** Whatever input the default record is given, no run made from it gets past provisioning. */
  lemma DefaultConfigNeverRuns(input: string, env: Env, rmtreeOk: bool, w: World)
    ensures var e := Execution(Default().(inputVideoPath := input), env, rmtreeOk, w);
            e.outcome.Failed? && e.outcome.reason in {ImportFailed, InvalidInput, MissingTempDirName} &&
            e.w.events == w.events + [Error(e.outcome.reason)]
  {
    var cfg := Default().(inputVideoPath := input);
    if env.importsOk && input != "" && env.videoExists {
      MissingTempDirNameFails(cfg, env, rmtreeOk, w);
    } else {
      InvalidInputChangesNothing(cfg, env, rmtreeOk, w);
    }
  }

  /**
   * With a transient directory name supplied, a valid input provisions the
   * whole workspace (unless a stale transient directory cannot be removed).
   */
  lemma NamedWorkspaceIsProvisioned(cfg: GenerationConfig, name: string, env: Env, w: World)
    requires env.importsOk && cfg.inputVideoPath != "" && env.videoExists
    requires cfg.tempDirName == Some(name)
    requires env.staleRemovalOk || LayoutFor(cfg, name).temp !in w.fs
    ensures var p := Prepare(cfg, env, w);
            p.step.Next? && p.layout == Some(LayoutFor(cfg, name)) && Provisioned(LayoutFor(cfg, name), p.step.w.fs)
  {
  }

  /** Creating the workspace directories adds empty raw and pose directories and changes nothing that existed. */
  lemma CreateDirsAddsEmpty(cfg: GenerationConfig, name: string, fs: FileSystem)
    requires LayoutFor(cfg, name).raw !in fs && LayoutFor(cfg, name).pose !in fs
    ensures var lay := LayoutFor(cfg, name);
            var r := CreateDirs(lay, fs);
            r[lay.raw] == map[] && r[lay.pose] == map[] &&
            forall q :: q in fs ==> q in r && r[q] == fs[q]
  {
    var lay := LayoutFor(cfg, name);
    var fs1 := WithDirs(fs, lay.temp);
    assert lay.raw !in fs1 && lay.pose !in fs1;
    var fs2 := WithDirs(fs1, lay.raw);
    assert !(lay.pose <= lay.raw) by {
      assert "frames_pose"[7] != "frames_raw"[7];
      assert lay.pose[|lay.temp|] == "frames_pose" && lay.raw[|lay.temp|] == "frames_raw";
    }
    assert fs2[lay.raw] == map[] && lay.pose !in fs2;
    var fs3 := WithDirs(fs2, lay.pose);
    assert fs3[lay.raw] == map[] && fs3[lay.pose] == map[];
  }

  /** Provisioning keeps the filesystem a directory tree. */
  lemma PrepareKeepsRooted(cfg: GenerationConfig, env: Env, w: World)
    requires Rooted(w.fs)
    ensures Rooted(Prepare(cfg, env, w).step.w.fs)
  {
    var fs0 := WithDirs(w.fs, [cfg.outputDir]);
    WithDirsKeepsRooted(w.fs, [cfg.outputDir]);
    if env.importsOk && cfg.inputVideoPath != "" && env.videoExists && cfg.tempDirName.Some? {
      var lay := LayoutFor(cfg, cfg.tempDirName.value);
      var fs1 := if lay.temp in fs0 then WithoutTree(fs0, lay.temp) else fs0;
      if lay.temp in fs0 {
        WithoutTreeKeepsRooted(fs0, lay.temp);
      }
      var fs2 := WithDirs(fs1, lay.temp);
      var fs3 := WithDirs(fs2, lay.raw);
      var fs4 := WithDirs(fs3, lay.pose);
      WithDirsKeepsRooted(fs1, lay.temp);
      WithDirsKeepsRooted(fs2, lay.raw);
      WithDirsKeepsRooted(fs3, lay.pose);
      WithDirsKeepsRooted(fs4, lay.out);
    }
  }

  /**
   * After provisioning, the transient raw and pose directories exist and are
   * empty, because a stale transient directory is removed first; everything
   * outside the transient directory, frames_out included, is as it was.
   */
  lemma ProvisionedWorkspaceIsFresh(cfg: GenerationConfig, env: Env, w: World)
    requires Rooted(w.fs)
    requires Prepare(cfg, env, w).step.Next?
    ensures var p := Prepare(cfg, env, w);
            var lay := p.layout.value;
            var fs := p.step.w.fs;
            fs[lay.raw] == map[] && fs[lay.pose] == map[] && Rooted(fs) &&
            forall q :: q in w.fs && !(lay.temp <= q) ==> q in fs && fs[q] == w.fs[q]
  {
    var p := Prepare(cfg, env, w);
    var name := cfg.tempDirName.value;
    var lay := LayoutFor(cfg, name);
    PrepareKeepsRooted(cfg, env, w);
    var fs0 := WithDirs(w.fs, [cfg.outputDir]);
    var fs1 := if lay.temp in fs0 then WithoutTree(fs0, lay.temp) else fs0;
    CreateDirsAddsEmpty(cfg, name, fs1);
  }

  lemma PrepareIsQuiet(cfg: GenerationConfig, env: Env, w: World)
    ensures var p := Prepare(cfg, env, w);
            QuietFrom(p.step.w.events, |w.events|) && (p.step.Halt? ==> p.step.outcome.Failed?)
  {
  }

  lemma ExtractIsQuiet(cfg: GenerationConfig, env: Env, lay: Layout, w: World)
    requires Provisioned(lay, w.fs)
    ensures var x := Extract(cfg, env, lay, w);
            QuietFrom(x.step.w.events, |w.events|) && (x.step.Halt? ==> x.step.outcome.Failed?)
  {
  }

  lemma PoseStageIsQuiet(cfg: GenerationConfig, env: Env, lay: Layout, frames: seq<string>, w: World)
    requires Provisioned(lay, w.fs)
    ensures QuietFrom(PoseStage(cfg, env, lay, frames, w).w.events, |w.events|)
  {
    if cfg.enablePose && env.detectorLoads {
      var w1 := Emit(w, Progress(15, PoseLoading));
      PoseLoopIsQuiet(env, lay.raw, lay.pose, frames, 0, w1);
      QuietChain(w.events, w1.events, PoseStage(cfg, env, lay, frames, w).w.events);
    }
  }

  lemma StyliseStageIsQuiet(cfg: GenerationConfig, env: Env, lay: Layout, frames: seq<string>, w: World)
    requires Provisioned(lay, w.fs)
    ensures QuietFrom(StyliseStage(cfg, env, lay, frames, w).w.events, |w.events|)
  {
    if env.pipelineLoads {
      var w1 := Emit(Emit(w, Progress(40, ModelLoading)), Progress(50, Generating));
      GenLoopIsQuiet(cfg, env, lay, frames, 0, w1);
      QuietChain(w.events, w1.events, StyliseStage(cfg, env, lay, frames, w).w.events);
    }
  }

  /**
   * A stop requested before pose frame `k` ends the run inside the pose
   * stage: frame `k` and later get no skeleton, the generation pipeline is
   * never loaded, and frames_out is untouched; after the 15 of the detector
   * load the only signals are per-frame pose reports.
   */
  lemma PoseStopSkipsLaterStages(cfg: GenerationConfig, env: Env, lay: Layout, frames: seq<string>, w: World, k: nat)
    requires Provisioned(lay, w.fs) && lay.out != lay.pose
    requires cfg.enablePose && env.detectorLoads
    requires k < |frames| && Text.StrictlySorted(frames) && env.StopRequested(w.polls + k)
    ensures var r := FrameStages(cfg, env, lay, frames, w);
            r.Halt? && r.w.polls <= w.polls + k + 1 &&
            r.w.fs[lay.out] == w.fs[lay.out] &&
            (forall j :: k <= j < |frames| ==> Lookup(r.w.fs, lay.pose, frames[j]) == Lookup(w.fs, lay.pose, frames[j])) &&
            |r.w.events| > |w.events| && r.w.events[|w.events|] == Progress(15, PoseLoading) &&
            PoseReportsFrom(r.w.events, |w.events| + 1)
  {
    var w1 := Emit(w, Progress(15, PoseLoading));
    PoseLoopStopsAt(env, lay, frames, 0, w1, k);
    PoseLoopReportsOnlyPoses(env, lay.raw, lay.pose, frames, 0, w1);
    PoseLoopKeepsOtherDirs(env, lay.raw, lay.pose, frames, 0, w1);
  }

  /** A stop requested before generated frame `k` halts the generation stage and leaves frames `k` on alone. */
  lemma StyliseStageStopsAt(cfg: GenerationConfig, env: Env, lay: Layout, frames: seq<string>, w: World, k: nat)
    requires Provisioned(lay, w.fs) && env.pipelineLoads
    requires k < |frames| && Text.StrictlySorted(frames) && env.StopRequested(w.polls + k)
    ensures var r := StyliseStage(cfg, env, lay, frames, w);
            r.Halt? && r.w.polls <= w.polls + k + 1 &&
            (forall d :: d in w.fs && d != lay.out ==> r.w.fs[d] == w.fs[d]) &&
            (forall j :: k <= j < |frames| ==> Lookup(r.w.fs, lay.out, frames[j]) == Lookup(w.fs, lay.out, frames[j]))
  {
    var w2 := Emit(Emit(w, Progress(40, ModelLoading)), Progress(50, Generating));
    GenLoopStopsAt(cfg, env, lay, frames, 0, w2, k);
    GenLoopKeepsOtherDirs(cfg, env, lay, frames, 0, w2);
  }

  /**
   * A stop requested before generated frame `k` ends the run inside the
   * generation stage: frame `k` and later get no output, nothing is
   * assembled (the base directory, which holds the video, is untouched) and
   * no signal but quiet progress follows.
   */
  lemma GenStopSkipsAssembly(cfg: GenerationConfig, env: Env, lay: Layout, frames: seq<string>, w: World, k: nat)
    requires Provisioned(lay, w.fs) && lay.base != lay.out && lay.base != lay.pose
    requires var s3 := PoseStage(cfg, env, lay, frames, w);
             s3.Next? && env.pipelineLoads &&
             k < |frames| && Text.StrictlySorted(frames) && env.StopRequested(s3.w.polls + k)
    ensures var s3 := PoseStage(cfg, env, lay, frames, w);
            var r := FrameStages(cfg, env, lay, frames, w);
            r.Halt? && r.w.polls <= s3.w.polls + k + 1 &&
            r.w.fs[lay.base] == w.fs[lay.base] &&
            (forall j :: k <= j < |frames| ==> Lookup(r.w.fs, lay.out, frames[j]) == Lookup(s3.w.fs, lay.out, frames[j])) &&
            QuietFrom(r.w.events, |w.events|)
  {
    var s3 := PoseStage(cfg, env, lay, frames, w);
    PoseStageKeepsOtherDirs(cfg, env, lay, frames, w);
    PoseStageIsQuiet(cfg, env, lay, frames, w);
    StyliseStageIsQuiet(cfg, env, lay, frames, s3.w);
    StyliseStageStopsAt(cfg, env, lay, frames, s3.w, k);
    QuietChain(w.events, s3.w.events, StyliseStage(cfg, env, lay, frames, s3.w).w.events);
  }

  /** The try block ends where preparation or extraction halts, and otherwise where the frame stages end. */
  lemma BodyCases(cfg: GenerationConfig, env: Env, w: World)
    ensures var p := Prepare(cfg, env, w);
            var b := Body(cfg, env, w);
            (p.step.Halt? ==> b.step == p.step) &&
            (p.step.Next? ==>
               var lay := p.layout.value;
               var x := Extract(cfg, env, lay, p.step.w);
               (x.step.Halt? ==> b.step == x.step) &&
               (x.step.Next? ==> b.step == FrameStages(cfg, env, lay, x.frames, x.step.w)))
  {
  }

  /** The stages after extraction, when they end cancelled, emitted only quiet signals. */
  lemma FrameStagesCancelledIsQuiet(cfg: GenerationConfig, env: Env, lay: Layout, frames: seq<string>, w: World)
    requires Provisioned(lay, w.fs)
    requires FrameStages(cfg, env, lay, frames, w).Halt? && FrameStages(cfg, env, lay, frames, w).outcome == Cancelled
    ensures QuietFrom(FrameStages(cfg, env, lay, frames, w).w.events, |w.events|)
  {
    var s3 := PoseStage(cfg, env, lay, frames, w);
    PoseStageIsQuiet(cfg, env, lay, frames, w);
    if s3.Next? {
      var s4 := StyliseStage(cfg, env, lay, frames, s3.w);
      StyliseStageIsQuiet(cfg, env, lay, frames, s3.w);
      QuietChain(w.events, s3.w.events, s4.w.events);
      assert s4.Halt?;
    }
  }

  /** The try block, when it ends cancelled, emitted only quiet signals. */
  lemma BodyCancelledIsQuiet(cfg: GenerationConfig, env: Env, w: World)
    requires Body(cfg, env, w).step.Halt? && Body(cfg, env, w).step.outcome == Cancelled
    ensures QuietFrom(Body(cfg, env, w).step.w.events, |w.events|)
  {
    BodyCases(cfg, env, w);
    var p := Prepare(cfg, env, w);
    PrepareIsQuiet(cfg, env, w);
    if p.step.Next? {
      var lay := p.layout.value;
      var x := Extract(cfg, env, lay, p.step.w);
      ExtractIsQuiet(cfg, env, lay, p.step.w);
      if x.step.Next? {
        FrameStagesCancelledIsQuiet(cfg, env, lay, x.frames, x.step.w);
        QuietChain(w.events, x.step.w.events, FrameStages(cfg, env, lay, x.frames, x.step.w).w.events);
      }
      QuietChain(w.events, p.step.w.events, x.step.w.events);
    }
  }

  /**
   * A cancelled run reports neither `finished_signal` nor `error_signal` and
   * never reaches assembly: everything it emits is progress of the stages
   * before the cancelling poll, and the cleanup report.
   */
  lemma CancelledRunSignalsNothing(cfg: GenerationConfig, env: Env, rmtreeOk: bool, w: World)
    requires Execution(cfg, env, rmtreeOk, w).outcome == Cancelled
    ensures var es := Execution(cfg, env, rmtreeOk, w).w.events;
            w.events <= es && QuietFrom(es, |w.events|)
  {
    var a := Body(cfg, env, w);
    BodyCancelledIsQuiet(cfg, env, w);
    ConcludeCancelledIsQuiet(rmtreeOk, a, w.events);
  }

  lemma ConcludeCancelledIsQuiet(rmtreeOk: bool, a: Attempt, es: seq<Event>)
    requires a.step.Halt? && a.step.outcome == Cancelled
    requires es <= a.step.w.events && QuietFrom(a.step.w.events, |es|)
    ensures var e := Conclude(rmtreeOk, a);
            e.outcome == Cancelled && es <= e.w.events && QuietFrom(e.w.events, |es|)
  {
  }

  /** The base directory and frames_out lie outside the transient directory unless it is named frames_out. */
  lemma PersistentOutsideTransient(cfg: GenerationConfig, name: string)
    requires name != "frames_out"
    ensures var lay := LayoutFor(cfg, name);
            !(lay.temp <= lay.base) && !(lay.temp <= lay.out) &&
            lay.out != lay.raw && lay.out != lay.pose && lay.out != lay.base && lay.base != lay.pose
  {
    var lay := LayoutFor(cfg, name);
    assert lay.temp[1] == name && lay.out[1] == "frames_out";
  }

  /** The finally block removes the transient tree (when rmtree succeeds) and nothing else. */
  lemma ConcludeCleansUp(rmtreeOk: bool, a: Attempt)
    requires a.layout.Some? ==> a.layout.value.temp in a.step.w.fs
    ensures var e := Conclude(rmtreeOk, a);
            e.outcome == OutcomeOf(a.step) &&
            (a.layout.Some? && rmtreeOk ==> forall q :: q in e.w.fs ==> !(a.layout.value.temp <= q)) &&
            (forall q :: q in a.step.w.fs && (a.layout.None? || !(a.layout.value.temp <= q)) ==>
               q in e.w.fs && e.w.fs[q] == a.step.w.fs[q]) &&
            (a.layout.None? ==> e.w.fs == a.step.w.fs)
  {
  }

  /**
   * Once `temp_dir` is assigned, on every way out of the try block (success,
   * a cancelling `return`, any failure) the transient directory is gone when
   * `run` returns, provided `rmtree` succeeds.
   */
  lemma CleanupRemovesTransientTree(cfg: GenerationConfig, env: Env, w: World)
    ensures var a := Body(cfg, env, w);
            var e := Execution(cfg, env, true, w);
            a.layout.Some? ==> forall q :: q in e.w.fs ==> !(a.layout.value.temp <= q)
  {
    ConcludeCleansUp(true, Body(cfg, env, w));
  }

  /**
   * Cleanup never touches anything outside the transient directory. That
   * includes frames_out and the video whenever `temp_dir_name` is not
   * "frames_out" (`PersistentOutsideTransient`).
   */
  lemma CleanupTouchesOnlyTransientTree(cfg: GenerationConfig, env: Env, rmtreeOk: bool, w: World)
    ensures var a := Body(cfg, env, w);
            var e := Execution(cfg, env, rmtreeOk, w);
            e.outcome == OutcomeOf(a.step) &&
            forall q :: q in a.step.w.fs && (a.layout.None? || !(a.layout.value.temp <= q)) ==>
              q in e.w.fs && e.w.fs[q] == a.step.w.fs[q]
  {
    ConcludeCleansUp(rmtreeOk, Body(cfg, env, w));
  }

  /**
   * A failing `rmtree` in the finally block is swallowed: the outcome, the
   * signals and the polls are the same whether it succeeds or not.
   */
  lemma CleanupFailureIsSwallowed(cfg: GenerationConfig, env: Env, w: World)
    ensures var ok := Execution(cfg, env, true, w);
            var failed := Execution(cfg, env, false, w);
            ok.outcome == failed.outcome && ok.w.events == failed.w.events && ok.w.polls == failed.w.polls
  {
  }

  lemma PrepareRises(cfg: GenerationConfig, env: Env, w: World)
    requires Rising(0, w.events) && LastPercent(0, w.events) <= 1
    ensures var es := Prepare(cfg, env, w).step.w.events;
            Rising(0, es) && LastPercent(0, es) <= 1
  {
    RisingAppend(0, w.events, Progress(1, CleaningStale));
  }

  lemma ExtractRises(cfg: GenerationConfig, env: Env, lay: Layout, w: World)
    requires Provisioned(lay, w.fs)
    requires Rising(0, w.events) && LastPercent(0, w.events) <= 5
    ensures var es := Extract(cfg, env, lay, w).step.w.events;
            Rising(0, es) && LastPercent(0, es) <= 5
  {
    RisingAppend(0, w.events, Progress(5, Extracting(cfg.targetFps)));
  }

  lemma PoseStageRises(cfg: GenerationConfig, env: Env, lay: Layout, frames: seq<string>, w: World)
    requires Provisioned(lay, w.fs)
    requires Rising(0, w.events) && LastPercent(0, w.events) <= 15
    ensures var es := PoseStage(cfg, env, lay, frames, w).w.events;
            Rising(0, es) && LastPercent(0, es) <= 39
  {
    if cfg.enablePose {
      var w1 := Emit(w, Progress(15, PoseLoading));
      RisingAppend(0, w.events, Progress(15, PoseLoading));
      if env.detectorLoads {
        PoseLoopRises(env, lay.raw, lay.pose, frames, 0, w1);
      }
    } else {
      RisingAppend(0, w.events, Progress(20, PoseSkipped));
    }
  }

  lemma StyliseStageRises(cfg: GenerationConfig, env: Env, lay: Layout, frames: seq<string>, w: World)
    requires Provisioned(lay, w.fs)
    requires Rising(0, w.events) && LastPercent(0, w.events) <= 40
    ensures var es := StyliseStage(cfg, env, lay, frames, w).w.events;
            Rising(0, es) && LastPercent(0, es) <= 94
  {
    RisingAppend2(w.events, Progress(40, ModelLoading), Progress(50, Generating));
    RisingAppend(0, w.events, Progress(40, ModelLoading));
    if env.pipelineLoads {
      var w1 := Emit(Emit(w, Progress(40, ModelLoading)), Progress(50, Generating));
      assert w1.events == w.events + [Progress(40, ModelLoading)] + [Progress(50, Generating)];
      GenLoopRises(cfg, env, lay, frames, 0, w1);
    }
  }

  lemma AssembleStageRises(cfg: GenerationConfig, env: Env, lay: Layout, w: World)
    requires Provisioned(lay, w.fs)
    requires Rising(0, w.events) && LastPercent(0, w.events) <= 95
    ensures var r := AssembleStage(cfg, env, lay, w);
            Rising(0, r.w.events) && LastPercent(0, r.w.events) <= 100 &&
            (r.Next? ==> r.w.events == w.events + [Progress(95, Assembling), Progress(100, Done), Finished])
  {
    RisingAppend(0, w.events, Progress(95, Assembling));
    RisingAppend2(w.events, Progress(95, Assembling), Progress(100, Done));
    RisingAppend(0, w.events + [Progress(95, Assembling)] + [Progress(100, Done)], Finished);
  }

  /** Through the try block, progress never goes back and never passes 100. */
  lemma BodyRises(cfg: GenerationConfig, env: Env, w: World)
    requires Rising(0, w.events) && LastPercent(0, w.events) <= 1
    ensures var es := Body(cfg, env, w).step.w.events;
            Rising(0, es) && LastPercent(0, es) <= 100
  {
    var p := Prepare(cfg, env, w);
    PrepareRises(cfg, env, w);
    if p.step.Next? {
      var lay := p.layout.value;
      var x := Extract(cfg, env, lay, p.step.w);
      ExtractRises(cfg, env, lay, p.step.w);
      if x.step.Next? {
        var s3 := PoseStage(cfg, env, lay, x.frames, x.step.w);
        PoseStageRises(cfg, env, lay, x.frames, x.step.w);
        if s3.Next? {
          var s4 := StyliseStage(cfg, env, lay, x.frames, s3.w);
          StyliseStageRises(cfg, env, lay, x.frames, s3.w);
          if s4.Next? {
            AssembleStageRises(cfg, env, lay, s4.w);
          }
        }
      }
    }
  }

  /** A try block that runs to the end sends the 100 of completion and then `finished_signal`. */
  lemma BodyCompletedEnds(cfg: GenerationConfig, env: Env, w: World)
    requires Body(cfg, env, w).step.Next?
    ensures var es := Body(cfg, env, w).step.w.events;
            |es| >= 2 && es[|es| - 2] == Progress(100, Done) && es[|es| - 1] == Finished
    ensures Body(cfg, env, w).layout.Some?
  {
    BodyStages(cfg, env, w);
    var p := Prepare(cfg, env, w);
    var lay := p.layout.value;
    var x := Extract(cfg, env, lay, p.step.w);
    var s3 := PoseStage(cfg, env, lay, x.frames, x.step.w);
    var s4 := StyliseStage(cfg, env, lay, x.frames, s3.w);
    AssembleStageEnds(cfg, env, lay, s4.w);
  }

  lemma AssembleStageEnds(cfg: GenerationConfig, env: Env, lay: Layout, w: World)
    requires Provisioned(lay, w.fs)
    ensures var r := AssembleStage(cfg, env, lay, w);
            r.Next? ==> r.w.events == w.events + [Progress(95, Assembling), Progress(100, Done), Finished]
  {
  }

  /** The except and finally blocks add an error signal on failure and the cleanup report once `temp_dir` is set. */
  lemma ConcludeEvents(rmtreeOk: bool, a: Attempt)
    requires a.layout.Some? ==> a.layout.value.temp in a.step.w.fs
    ensures var es := Conclude(rmtreeOk, a).w.events;
            var failure := if OutcomeOf(a.step).Failed? then [Error(OutcomeOf(a.step).reason)] else [];
            var cleanup := if a.layout.Some? then [Progress(100, CleaningTemp)] else [];
            es == a.step.w.events + failure + cleanup
  {
  }

  lemma ConcludeRises(rmtreeOk: bool, a: Attempt)
    requires a.layout.Some? ==> a.layout.value.temp in a.step.w.fs
    requires Rising(0, a.step.w.events) && LastPercent(0, a.step.w.events) <= 100
    ensures var es := Conclude(rmtreeOk, a).w.events;
            Rising(0, es) && LastPercent(0, es) <= 100 &&
            (a.layout.Some? ==> LastPercent(0, es) == 100 && es[|es| - 1] == Progress(100, CleaningTemp))
  {
    ConcludeEvents(rmtreeOk, a);
    var es0 := a.step.w.events;
    var failure := if OutcomeOf(a.step).Failed? then [Error(OutcomeOf(a.step).reason)] else [];
    var cleanup := if a.layout.Some? then [Progress(100, CleaningTemp)] else [];
    if failure != [] {
      RisingAppend(0, es0, failure[0]);
      assert es0 + failure == es0 + [failure[0]];
    } else {
      assert es0 + failure == es0;
    }
    if cleanup != [] {
      RisingAppend(0, es0 + failure, cleanup[0]);
      assert es0 + failure + cleanup == (es0 + failure) + [cleanup[0]];
    }
  }

  /**
   * The progress values a run sends never decrease (see `RisingIsSorted`)
   * and stay within [0, 100]. Once `temp_dir` is assigned the last one is the
   * 100 of the cleanup report, and a completed run ends with the 100 of
   * completion, `finished_signal`, and that cleanup report.
   */
  lemma ProgressRises(cfg: GenerationConfig, env: Env, rmtreeOk: bool, w: World)
    requires w.events == []
    ensures var es := Execution(cfg, env, rmtreeOk, w).w.events;
            Rising(0, es) && LastPercent(0, es) <= 100 &&
            (Body(cfg, env, w).layout.Some? ==> LastPercent(0, es) == 100 && es[|es| - 1] == Progress(100, CleaningTemp))
  {
    var a := Body(cfg, env, w);
    BodyRises(cfg, env, w);
    ConcludeRises(rmtreeOk, a);
  }

  /**
   * A completed run ends with the 100 of completion and `finished_signal`,
   * and the finally block then adds only the cleanup report.
   */
  lemma CompletedRunEnds(cfg: GenerationConfig, env: Env, rmtreeOk: bool, w: World)
    requires Execution(cfg, env, rmtreeOk, w).outcome == Completed
    ensures var es0 := Body(cfg, env, w).step.w.events;
            |es0| >= 2 && es0[|es0| - 2] == Progress(100, Done) && es0[|es0| - 1] == Finished &&
            Execution(cfg, env, rmtreeOk, w).w.events == es0 + [Progress(100, CleaningTemp)]
  {
    var a := Body(cfg, env, w);
    CompletedConclusion(rmtreeOk, a);
    BodyCompletedEnds(cfg, env, w);
    ConcludeCompletedEvents(rmtreeOk, a);
  }

  /** Only a try block that ran to the end concludes as completed. */
  lemma CompletedConclusion(rmtreeOk: bool, a: Attempt)
    requires Conclude(rmtreeOk, a).outcome == Completed
    ensures a.step.Next?
  {
  }

  lemma ConcludeCompletedEvents(rmtreeOk: bool, a: Attempt)
    requires a.step.Next? && a.layout.Some? && a.layout.value.temp in a.step.w.fs
    ensures Conclude(rmtreeOk, a).w.events == a.step.w.events + [Progress(100, CleaningTemp)]
  {
  }

  /** In image-to-image mode the pose stage is a single (20, …) report: no poll, no file, no detector. */
  lemma ImageModeSkipsPose(cfg: GenerationConfig, env: Env, lay: Layout, frames: seq<string>, w: World)
    requires Provisioned(lay, w.fs) && !cfg.enablePose
    ensures var r := PoseStage(cfg, env, lay, frames, w);
            r.Next? && r.w.fs == w.fs && r.w.polls == w.polls && r.w.running == w.running &&
            r.w.events == w.events + [Progress(20, PoseSkipped)]
  {
  }

  /**
   * The output of one frame, written out: the pose image of the same name and
   * no strength in pose mode, the raw image with `denoising_strength`
   * otherwise, always with a generator freshly seeded from `config.seed`.
   */
  lemma FrameOutputByMode(cfg: GenerationConfig, env: Env, lay: Layout, fs: FileSystem, f: string)
    ensures var raw := Lookup(fs, lay.raw, f);
            var pose := Lookup(fs, lay.pose, f);
            Stylised(cfg, env, lay, fs, f) ==
              if raw.None? then None
              else if cfg.enablePose then
                (if pose.None? then None
                 else env.gen(GenRequest(cfg.prompt, cfg.negativePrompt, pose.value, cfg.steps, cfg.cfgScale, None),
                              Seeded(cfg.seed)))
              else env.gen(GenRequest(cfg.prompt, cfg.negativePrompt, raw.value, cfg.steps, cfg.cfgScale,
                                      Some(cfg.denoisingStrength)),
                           Seeded(cfg.seed))
  {
  }

  /**
   * Because the generator is reseeded for every frame, two frames with the
   * same conditioning image get the same output, whatever came before them.
   */
  lemma SameConditioningSameOutput(cfg: GenerationConfig, env: Env, lay: Layout, fs: FileSystem, fs': FileSystem, f: string, g: string)
    requires Conditioning(cfg, lay, fs, f) == Conditioning(cfg, lay, fs', g)
    ensures Stylised(cfg, env, lay, fs, f) == Stylised(cfg, env, lay, fs', g)
  {
  }

  lemma PoseStageKeepsOtherDirs(cfg: GenerationConfig, env: Env, lay: Layout, frames: seq<string>, w: World)
    requires Provisioned(lay, w.fs)
    ensures var r := PoseStage(cfg, env, lay, frames, w);
            forall d :: d in w.fs && d != lay.pose ==> r.w.fs[d] == w.fs[d]
  {
    if cfg.enablePose && env.detectorLoads {
      PoseLoopKeepsOtherDirs(env, lay.raw, lay.pose, frames, 0, Emit(w, Progress(15, PoseLoading)));
    }
  }

  /** A stylisation stage that runs to the end leaves every frame's output in frames_out. */
  lemma StyliseStageDelivers(cfg: GenerationConfig, env: Env, lay: Layout, frames: seq<string>, w: World)
    requires Provisioned(lay, w.fs) && lay.out != lay.raw && lay.out != lay.pose
    ensures var r := StyliseStage(cfg, env, lay, frames, w);
            r.Next? ==> forall j :: 0 <= j < |frames| ==>
              Stylised(cfg, env, lay, w.fs, frames[j]).Some? &&
              Lookup(r.w.fs, lay.out, frames[j]) == Stylised(cfg, env, lay, w.fs, frames[j])
  {
    if env.pipelineLoads {
      GenLoopOutputs(cfg, env, lay, frames, 0, Emit(Emit(w, Progress(40, ModelLoading)), Progress(50, Generating)));
    }
  }

  /** In pose mode a pose stage that runs to the end leaves every frame's skeleton in frames_pose. */
  lemma PoseStageDelivers(cfg: GenerationConfig, env: Env, lay: Layout, frames: seq<string>, w: World)
    requires Provisioned(lay, w.fs) && cfg.enablePose && lay.raw != lay.pose
    ensures var r := PoseStage(cfg, env, lay, frames, w);
            r.Next? ==> forall j :: 0 <= j < |frames| ==>
              Skeleton(env, lay.raw, w.fs, frames[j]).Some? &&
              Lookup(r.w.fs, lay.pose, frames[j]) == Skeleton(env, lay.raw, w.fs, frames[j])
  {
    if env.detectorLoads {
      PoseLoopOutputs(env, lay.raw, lay.pose, frames, 0, Emit(w, Progress(15, PoseLoading)));
    }
  }

  /**
   * In pose mode every frame is generated from the detector's skeleton of the
   * raw frame of the same name: when the pose and generation stages run to
   * the end, each output is the pipeline applied to that skeleton, with a
   * generator freshly seeded from the config.
   */
  lemma PoseModeOutputsFromSkeletons(cfg: GenerationConfig, env: Env, lay: Layout, frames: seq<string>, w: World)
    requires Provisioned(lay, w.fs) && cfg.enablePose
    requires lay.raw != lay.pose && lay.out != lay.raw && lay.out != lay.pose
    ensures var s3 := PoseStage(cfg, env, lay, frames, w);
            s3.Next? ==>
              var s4 := StyliseStage(cfg, env, lay, frames, s3.w);
              s4.Next? ==> forall j :: 0 <= j < |frames| ==>
                Skeleton(env, lay.raw, w.fs, frames[j]).Some? &&
                Lookup(s4.w.fs, lay.out, frames[j]) ==
                  env.gen(Request(cfg, Skeleton(env, lay.raw, w.fs, frames[j]).value), Seeded(cfg.seed))
  {
    var s3 := PoseStage(cfg, env, lay, frames, w);
    if s3.Next? {
      PoseStageDelivers(cfg, env, lay, frames, w);
      PoseStageKeepsOtherDirs(cfg, env, lay, frames, w);
      StyliseStageDelivers(cfg, env, lay, frames, s3.w);
      forall j | 0 <= j < |frames|
        ensures Skeleton(env, lay.raw, w.fs, frames[j]).Some?
        ensures StyliseStage(cfg, env, lay, frames, s3.w).Next? ==>
                  Lookup(StyliseStage(cfg, env, lay, frames, s3.w).w.fs, lay.out, frames[j]) ==
                  env.gen(Request(cfg, Skeleton(env, lay.raw, w.fs, frames[j]).value), Seeded(cfg.seed))
      {
        FrameOutputByMode(cfg, env, lay, s3.w.fs, frames[j]);
        assert Lookup(s3.w.fs, lay.raw, frames[j]) == Lookup(w.fs, lay.raw, frames[j]);
      }
    }
  }

  /** A successful assembly writes the video into the base directory and leaves frames_out alone. */
  lemma AssembleStageDelivers(cfg: GenerationConfig, env: Env, lay: Layout, w: World)
    requires Provisioned(lay, w.fs) && lay.out != lay.base
    ensures var r := AssembleStage(cfg, env, lay, w);
            r.Next? ==> env.assemble(w.fs[lay.out], cfg.targetFps).Some? &&
                        Lookup(r.w.fs, lay.base, VideoName) == env.assemble(w.fs[lay.out], cfg.targetFps) &&
                        r.w.fs[lay.out] == w.fs[lay.out]
  {
  }

  /** A try block that runs to the end went through every stage, the last of them assembly. */
  lemma BodyStages(cfg: GenerationConfig, env: Env, w: World)
    requires Body(cfg, env, w).step.Next?
    ensures var p := Prepare(cfg, env, w);
            p.step.Next? && p.layout.Some? &&
            var lay := p.layout.value;
            var x := Extract(cfg, env, lay, p.step.w);
            x.step.Next? &&
            var s3 := PoseStage(cfg, env, lay, x.frames, x.step.w);
            s3.Next? &&
            var s4 := StyliseStage(cfg, env, lay, x.frames, s3.w);
            s4.Next? && Body(cfg, env, w).step == AssembleStage(cfg, env, lay, s4.w)
  {
  }

  /** What the stages after extraction leave behind when all of them run to the end. */
  lemma LaterStagesDeliver(cfg: GenerationConfig, env: Env, lay: Layout, frames: seq<string>, w: World)
    requires Provisioned(lay, w.fs)
    requires lay.out != lay.raw && lay.out != lay.pose && lay.out != lay.base
    ensures var s3 := PoseStage(cfg, env, lay, frames, w);
            s3.Next? ==>
              var s4 := StyliseStage(cfg, env, lay, frames, s3.w);
              s4.Next? ==>
                var s5 := AssembleStage(cfg, env, lay, s4.w);
                s5.Next? ==>
                  Lookup(s5.w.fs, lay.base, VideoName).Some? &&
                  forall j :: 0 <= j < |frames| ==> Lookup(s5.w.fs, lay.out, frames[j]).Some?
  {
    var s3 := PoseStage(cfg, env, lay, frames, w);
    if s3.Next? {
      var s4 := StyliseStage(cfg, env, lay, frames, s3.w);
      StyliseStageDelivers(cfg, env, lay, frames, s3.w);
      if s4.Next? {
        AssembleStageDelivers(cfg, env, lay, s4.w);
      }
    }
  }

  /** A try block that runs to the end has an output for every extracted `.jpg` frame, and the video. */
  lemma BodyDelivers(cfg: GenerationConfig, env: Env, w: World)
    requires Body(cfg, env, w).step.Next?
    requires cfg.tempDirName != Some("frames_out")
    ensures cfg.tempDirName.Some? && env.extract(cfg.inputVideoPath, cfg.targetFps, cfg.targetWidth).Some?
    ensures var lay := LayoutFor(cfg, cfg.tempDirName.value);
            var fs := Body(cfg, env, w).step.w.fs;
            var files := env.extract(cfg.inputVideoPath, cfg.targetFps, cfg.targetWidth).value;
            Lookup(fs, lay.base, VideoName).Some? &&
            forall f :: f in files && Text.EndsWith(f, ".jpg") ==> Lookup(fs, lay.out, f).Some?
  {
    BodyStages(cfg, env, w);
    var p := Prepare(cfg, env, w);
    var name := cfg.tempDirName.value;
    var lay := LayoutFor(cfg, name);
    PersistentOutsideTransient(cfg, name);
    var x := Extract(cfg, env, lay, p.step.w);
    var files := env.extract(cfg.inputVideoPath, cfg.targetFps, cfg.targetWidth).value;
    LaterStagesDeliver(cfg, env, lay, x.frames, x.step.w);
    ExtractedJpgsAreFrames(cfg, env, lay, p.step.w);
  }

  /** Every `.jpg` name the extraction produced is one of the frames the later stages go through. */
  lemma ExtractedJpgsAreFrames(cfg: GenerationConfig, env: Env, lay: Layout, w: World)
    requires Provisioned(lay, w.fs)
    ensures var x := Extract(cfg, env, lay, w);
            var e := env.extract(cfg.inputVideoPath, cfg.targetFps, cfg.targetWidth);
            x.step.Next? ==>
              e.Some? &&
              forall f :: f in e.value && Text.EndsWith(f, ".jpg") ==> exists j :: 0 <= j < |x.frames| && x.frames[j] == f
  {
    var x := Extract(cfg, env, lay, w);
    var e := env.extract(cfg.inputVideoPath, cfg.targetFps, cfg.targetWidth);
    if x.step.Next? {
      forall f | f in e.value && Text.EndsWith(f, ".jpg")
        ensures exists j :: 0 <= j < |x.frames| && x.frames[j] == f
      {
        assert f in x.step.w.fs[lay.raw];
        assert f in x.frames;
      }
    }
  }

  /**
   * On completion, frames_out holds an output for every `.jpg` name the
   * extraction produced and `final_output.mp4` is in the output directory; if
   * `rmtree` succeeds, the transient directory is gone.
   */
  lemma CompletedRunDelivers(cfg: GenerationConfig, env: Env, rmtreeOk: bool, w: World)
    requires Execution(cfg, env, rmtreeOk, w).outcome == Completed
    requires cfg.tempDirName != Some("frames_out")
    ensures cfg.tempDirName.Some? && env.extract(cfg.inputVideoPath, cfg.targetFps, cfg.targetWidth).Some?
    ensures var lay := LayoutFor(cfg, cfg.tempDirName.value);
            var fs := Execution(cfg, env, rmtreeOk, w).w.fs;
            var files := env.extract(cfg.inputVideoPath, cfg.targetFps, cfg.targetWidth).value;
            Lookup(fs, lay.base, VideoName).Some? &&
            (forall f :: f in files && Text.EndsWith(f, ".jpg") ==> Lookup(fs, lay.out, f).Some?) &&
            (rmtreeOk ==> forall q :: q in fs ==> !(lay.temp <= q))
  {
    var a := Body(cfg, env, w);
    assert a.step.Next?;
    BodyDelivers(cfg, env, w);
    BodyCompletedEnds(cfg, env, w);
    PersistentOutsideTransient(cfg, cfg.tempDirName.value);
    ConcludeCleansUp(rmtreeOk, a);
  }

  /** With an empty raw directory and no `.jpg` among ffmpeg's files, the extraction reports no frames. */
  lemma ExtractNoFrames(cfg: GenerationConfig, env: Env, lay: Layout, w: World)
    requires Provisioned(lay, w.fs) && w.fs[lay.raw] == map[]
    requires var e := env.extract(cfg.inputVideoPath, cfg.targetFps, cfg.targetWidth);
             e.Some? && forall f :: f in e.value ==> !Text.EndsWith(f, ".jpg")
    ensures var x := Extract(cfg, env, lay, w);
            x.step.Next? && x.frames == []
  {
  }

  /**
   * With no frames, no frame loop polls the stop flag and the run cannot stop
   * for lack of frames: the detector and the pipeline are still loaded and
   * the assembler is still called.
   */
  lemma FrameStagesWithoutFrames(cfg: GenerationConfig, env: Env, lay: Layout, w: World)
    requires Provisioned(lay, w.fs)
    ensures var r := FrameStages(cfg, env, lay, [], w);
            r.w.polls == w.polls &&
            (r.Halt? ==> r.outcome in {Failed(DetectorLoadFailed), Failed(ModelLoadFailed), Failed(AssembleFailed)}) &&
            ((!cfg.enablePose || env.detectorLoads) ==> Progress(40, ModelLoading) in r.w.events)
  {
    var s3 := PoseStage(cfg, env, lay, [], w);
    if s3.Next? {
      var s4 := StyliseStage(cfg, env, lay, [], s3.w);
      var w1 := Emit(s3.w, Progress(40, ModelLoading));
      assert Progress(40, ModelLoading) in w1.events;
      if s4.Next? {
        var s5 := AssembleStage(cfg, env, lay, s4.w);
        assert w1.events <= s4.w.events <= s5.w.events;
      }
    }
  }

  /**
   * The current worker has no empty-extraction check: a video whose
   * extraction yields no `.jpg` goes on to load the models, without a single
   * poll of the stop flag, and ends either completed or at a model or
   * assembly failure.
   */
  lemma ZeroFramesStillLoadModels(cfg: GenerationConfig, env: Env, w: World)
    requires Rooted(w.fs)
    requires Prepare(cfg, env, w).step.Next?
    requires var e := env.extract(cfg.inputVideoPath, cfg.targetFps, cfg.targetWidth);
             e.Some? && forall f :: f in e.value ==> !Text.EndsWith(f, ".jpg")
    ensures var r := Body(cfg, env, w).step;
            r.w.polls == w.polls &&
            (r.Halt? ==> r.outcome in {Failed(DetectorLoadFailed), Failed(ModelLoadFailed), Failed(AssembleFailed)}) &&
            ((!cfg.enablePose || env.detectorLoads) ==> Progress(40, ModelLoading) in r.w.events)
  {
    var p := Prepare(cfg, env, w);
    var lay := p.layout.value;
    ProvisionedWorkspaceIsFresh(cfg, env, w);
    ExtractNoFrames(cfg, env, lay, p.step.w);
    var x := Extract(cfg, env, lay, p.step.w);
    FrameStagesWithoutFrames(cfg, env, lay, x.step.w);
  }

  lemma {:induction false} GenLoopIgnoresStrength(cfg: GenerationConfig, s: real, env: Env, lay: Layout, frames: seq<string>, i: nat, w: World)
    requires cfg.enablePose
    requires i <= |frames| && lay.out in w.fs
    ensures GenLoop(cfg.(denoisingStrength := s), env, lay, frames, i, w) == GenLoop(cfg, env, lay, frames, i, w)
    decreases |frames| - i
  {
    if i < |frames| {
      var cfg' := cfg.(denoisingStrength := s);
      var f := frames[i];
      assert Stylised(cfg', env, lay, w.fs, f) == Stylised(cfg, env, lay, w.fs, f);
      assert GenFrameStep(cfg', env, lay, f, i, |frames|, w) == GenFrameStep(cfg, env, lay, f, i, |frames|, w);
      var st := GenFrameStep(cfg, env, lay, f, i, |frames|, w);
      if st.Next? {
        GenLoopIgnoresStrength(cfg, s, env, lay, frames, i + 1, st.w);
      }
    }
  }

  lemma FrameStagesIgnoreStrength(cfg: GenerationConfig, s: real, env: Env, lay: Layout, frames: seq<string>, w: World)
    requires cfg.enablePose
    requires Provisioned(lay, w.fs)
    ensures FrameStages(cfg.(denoisingStrength := s), env, lay, frames, w) == FrameStages(cfg, env, lay, frames, w)
  {
    var s3 := PoseStage(cfg, env, lay, frames, w);
    if s3.Next? && env.pipelineLoads {
      GenLoopIgnoresStrength(cfg, s, env, lay, frames, 0, Emit(Emit(s3.w, Progress(40, ModelLoading)), Progress(50, Generating)));
    }
  }

  /** In pose mode `denoising_strength` is never passed to the pipeline, so it has no effect on the run. */
  lemma StrengthIgnoredInPoseMode(cfg: GenerationConfig, s: real, env: Env, rmtreeOk: bool, w: World)
    requires cfg.enablePose
    ensures Execution(cfg.(denoisingStrength := s), env, rmtreeOk, w) == Execution(cfg, env, rmtreeOk, w)
  {
    var cfg' := cfg.(denoisingStrength := s);
    var p := Prepare(cfg, env, w);
    if cfg.tempDirName.Some? {
      assert LayoutFor(cfg', cfg.tempDirName.value) == LayoutFor(cfg, cfg.tempDirName.value);
    }
    assert Prepare(cfg', env, w) == p;
    if p.step.Next? {
      var lay := p.layout.value;
      var x := Extract(cfg, env, lay, p.step.w);
      assert Extract(cfg', env, lay, p.step.w) == x;
      if x.step.Next? {
        FrameStagesIgnoreStrength(cfg, s, env, lay, x.frames, x.step.w);
      }
    }
    assert Body(cfg', env, w) == Body(cfg, env, w);
  }

  /**
   * In the current worker the frames are exactly the `.jpg` names ffmpeg
   * produced in this run: nothing left over from an earlier run is reused.
   */
  lemma FramesComeFromExtraction(cfg: GenerationConfig, env: Env, w: World)
    requires Rooted(w.fs)
    requires Prepare(cfg, env, w).step.Next?
    ensures var p := Prepare(cfg, env, w);
            var x := Extract(cfg, env, p.layout.value, p.step.w);
            var e := env.extract(cfg.inputVideoPath, cfg.targetFps, cfg.targetWidth);
            x.step.Next? ==>
              e.Some? && forall f :: f in x.frames <==> f in e.value && Text.EndsWith(f, ".jpg")
  {
    ProvisionedWorkspaceIsFresh(cfg, env, w);
  }
}
