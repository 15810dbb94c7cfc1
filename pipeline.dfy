/**
 * What the two workers share: the signals they emit, the outcome of a run,
 * the external tools and models they call (as oracles), the state a run
 * threads through its stages, the pose-extraction loop (identical in both
 * workers) and the progress arithmetic.
 */
module Pipeline {
  import opened Wrappers
  import opened Os
  import Text

  /** The status text sent with a progress value; the tag stands for the message. */
  datatype Status =
    | CleaningStale                       // old transient directory being removed
    | Extracting(fps: int)                // ffmpeg splitting the video into frames
    | PoseLoading                         // OpenPose detector being loaded
    | PoseStarting                        // (legacy worker) pose extraction starting
    | PoseFrame(done: nat, total: nat)    // skeleton of frame `done` of `total` extracted
    | PoseSkipped                         // image-to-image mode: no pose stage
    | ModelLoading                        // generation pipeline being loaded
    | Generating                          // stylisation loop starting
    | GenFrame(done: nat, total: nat)     // frame `done` of `total` stylised
    | Assembling                          // ffmpeg building the final video
    | Done                                // everything finished
    | CleaningTemp                        // transient directory being removed at the end

  /** Why a run failed: the exception that reached the `except` block. */
  datatype Failure =
    | ImportFailed            // a deferred import of torch / PIL / controlnet_aux raised
    | InvalidInput            // empty input path, or no file there
    | MissingTempDirName      // the configuration has no `temp_dir_name` attribute
    | StaleRemovalFailed      // removing the old transient directory raised
    | ExtractFailed           // ffmpeg exited non-zero while splitting the video
    | EmptyExtraction         // (legacy worker) ffmpeg produced no frame
    | DetectorLoadFailed      // the OpenPose detector could not be loaded
    | PoseFailed(frame: string)
    | ModelLoadFailed         // the generation pipeline could not be loaded
    | MissingImage(frame: string)
    | InferenceFailed(frame: string)
    | AssembleFailed          // ffmpeg exited non-zero while building the video

  /** One emission on the worker's signals, in the order the observer receives them. */
  datatype Event =
    | Progress(percent: int, status: Status)    // progress_signal
    | Finished                                  // finished_signal
    | Error(reason: Failure)                    // error_signal

  datatype Outcome = Completed | Cancelled | Failed(reason: Failure)

  /** The arguments of one call of the generation pipeline; `strength` only in image-to-image mode. */
  datatype GenRequest = GenRequest(
    prompt: string,
    negativePrompt: string,
    image: Blob,
    steps: int,
    guidanceScale: real,
    strength: Option<real>)

  /** A random generator freshly seeded with `manual_seed(seed)` and not yet used. */
  datatype Generator = Seeded(seed: int)

  /**
   * Everything outside the worker that decides how a run goes. A `None`
   * result, or `false`, is an exception raised by that call.
   */
  datatype Env = Env(
    importsOk: bool,                                  // the deferred imports in the try block
    videoExists: bool,                                // os.path.exists(input_video_path)
    staleRemovalOk: bool,                             // shutil.rmtree of a left-over transient directory
    extract: (string, int, int) -> Option<Files>,     // ffmpeg (input, fps, width): the frames it writes
    detectorLoads: bool,                              // OpenposeDetector.from_pretrained
    pose: Blob -> Option<Blob>,                       // detector(img), saved as the pose image
    pipelineLoads: bool,                              // loading the Stable Diffusion pipeline
    gen: (GenRequest, Generator) -> Option<Blob>,     // pipe(...).images[0]
    assemble: (Files, int) -> Option<Blob>,           // ffmpeg (frames_out contents, fps): the video
    stops: seq<bool>)                                 // stops[k]: stop() was called before poll k
  {
    predicate StopRequested(k: nat)
    {
      k < |stops| && stops[k]
    }
  }

  /** The state a run threads through: filesystem, signals so far, the `running` flag, polls so far. */
  datatype World = World(fs: FileSystem, events: seq<Event>, running: bool, polls: nat)

  /** How a stage can end the try block early: never by completing. */
  type Interruption = o: Outcome | !o.Completed? witness Cancelled

  /** A stage either hands its world to the next stage or ends the try block. */
  datatype Step = Next(w: World) | Halt(w: World, outcome: Interruption)

  /** The name of the assembled video inside the output directory. */
  const VideoName := "final_output.mp4"

  /** The frame names an extraction found, and how it ended. */
  datatype Extraction = Extraction(frames: seq<string>, step: Step)

  function OutcomeOf(s: Step): Outcome
  {
    if s.Next? then Completed else s.outcome
  }

  /** How one whole `run()` ended, and the world it left. */
  datatype Ending = Ending(outcome: Outcome, w: World)

  /** A stage's result, as a method reports it: `halt` is None exactly when the next stage runs. */
  predicate Matches(s: Step, halt: Option<Outcome>, w: World)
  {
    s.w == w && (halt.None? <==> s.Next?) && (s.Halt? ==> halt == Some(s.outcome))
  }

  function Emit(w: World, e: Event): (r: World)
    ensures r.events == w.events + [e] && r.fs == w.fs && r.running == w.running && r.polls == w.polls
  {
    w.(events := w.events + [e])
  }

  /**
   * `if not self.running`: a stop() issued since the previous poll has cleared
   * the flag, and nothing ever sets it again.
   */
  function Poll(env: Env, w: World): (r: World)
    ensures r.running <==> w.running && !env.StopRequested(w.polls)
    ensures r.fs == w.fs && r.events == w.events && r.polls == w.polls + 1
  {
    w.(running := w.running && !env.StopRequested(w.polls), polls := w.polls + 1)
  }

  /** `20 + int((idx / total) * 20)`, taken as exact integer floor. */
  function PoseProgress(idx: nat, total: nat): (p: int)
    requires idx < total
    ensures 20 <= p <= 39
  {
    var q := idx * 20 / total;
    assert q < 20 by { assert idx * 20 < total * 20; }
    20 + q
  }

  /** `50 + int((idx / total) * 45)`, taken as exact integer floor. */
  function GenProgress(idx: nat, total: nat): (p: int)
    requires idx < total
    ensures 50 <= p <= 94
  {
    var q := idx * 45 / total;
    assert q < 45 by { assert idx * 45 < total * 45; }
    50 + q
  }

  lemma DivMonotone(a: nat, b: nat, n: nat)
    requires a <= b && n > 0
    ensures a / n <= b / n
  {
    assert (a / n) * n <= a;
    assert b < (b / n + 1) * n;
    MulCancel(a / n, b / n + 1, n);
  }

  lemma MulCancel(x: int, y: int, n: nat)
    requires n > 0 && x * n < y * n
    ensures x < y
  {
  }

  /** Within a band, a later frame never reports less progress than an earlier one. */
  lemma BandsRise(i: nat, j: nat, total: nat)
    requires i <= j < total
    ensures PoseProgress(i, total) <= PoseProgress(j, total)
    ensures GenProgress(i, total) <= GenProgress(j, total)
  {
    DivMonotone(i * 20, j * 20, total);
    DivMonotone(i * 45, j * 45, total);
  }

  /** `sorted([f for f in os.listdir(d) if f.endswith(".jpg")])`. */
  function JpgFrames(files: Files): (r: seq<string>)
    ensures Text.StrictlySorted(r)
    ensures forall f :: f in r <==> f in files && Text.EndsWith(f, ".jpg")
  {
    Text.SortedSet(set f | f in files && Text.EndsWith(f, ".jpg"))
  }

  /** The detector's skeleton of raw frame `f`, when that frame exists and the detector succeeds. */
  function Skeleton(env: Env, raw: Path, fs: FileSystem, f: string): (r: Option<Blob>)
    ensures r.Some? ==> Lookup(fs, raw, f).Some?
  {
    match Lookup(fs, raw, f)
    case None => None
    case Some(img) => env.pose(img)
  }

  /**
   * One pass of the pose loop (frame `f`, number `i` of `n`): poll the flag,
   * open the raw frame, run the detector, save the skeleton under the same
   * name, report progress. Only that one file of the pose directory changes,
   * and it becomes the `Skeleton` of the raw frame.
   */
  function PoseFrameStep(env: Env, raw: Path, pose: Path, f: string, i: nat, n: nat, w: World): (r: Step)
    requires i < n && pose in w.fs
    ensures r.w.polls == w.polls + 1 && r.w.fs.Keys == w.fs.Keys
    ensures forall d :: d in w.fs && d != pose ==> r.w.fs[d] == w.fs[d]
    ensures forall m :: m != f ==> Lookup(r.w.fs, pose, m) == Lookup(w.fs, pose, m)
    ensures !Poll(env, w).running ==> r == Halt(Poll(env, w), Cancelled)
    ensures r.Next? ==> r.w.running && r.w.events == w.events + [Progress(PoseProgress(i, n), PoseFrame(i + 1, n))]
    ensures r.Next? ==> Skeleton(env, raw, w.fs, f).Some? && Lookup(r.w.fs, pose, f) == Skeleton(env, raw, w.fs, f)
    ensures r.Halt? ==> r.w.events == w.events
  {
    var w1 := Poll(env, w);
    if !w1.running then Halt(w1, Cancelled)
    else match Lookup(w1.fs, raw, f)
      case None => Halt(w1, Failed(MissingImage(f)))
      case Some(img) =>
        match env.pose(img)
        case None => Halt(w1, Failed(PoseFailed(f)))
        case Some(skeleton) =>
          Next(Emit(w1.(fs := WithFile(w1.fs, pose, f, skeleton)), Progress(PoseProgress(i, n), PoseFrame(i + 1, n))))
  }

  /** The pose loop, from frame `i` on. */
  function PoseLoop(env: Env, raw: Path, pose: Path, frames: seq<string>, i: nat, w: World): (r: Step)
    requires i <= |frames| && pose in w.fs
    ensures r.w.fs.Keys == w.fs.Keys
    ensures w.events <= r.w.events
    ensures w.polls <= r.w.polls
    decreases |frames| - i
  {
    if i == |frames| then Next(w)
    else match PoseFrameStep(env, raw, pose, frames[i], i, |frames|, w)
      case Next(w1) => PoseLoop(env, raw, pose, frames, i + 1, w1)
      case Halt(w1, outcome) => Halt(w1, outcome)
  }

  /** The pose loop writes only skeletons of the remaining frame names. */
  lemma {:induction false} PoseLoopWritesOnlyFrames(env: Env, raw: Path, pose: Path, frames: seq<string>, i: nat, w: World)
    requires i <= |frames| && pose in w.fs
    ensures var r := PoseLoop(env, raw, pose, frames, i, w);
            forall n :: n !in frames[i..] ==> Lookup(r.w.fs, pose, n) == Lookup(w.fs, pose, n)
    decreases |frames| - i
  {
    if i < |frames| {
      var s := PoseFrameStep(env, raw, pose, frames[i], i, |frames|, w);
      if s.Next? {
        PoseLoopWritesOnlyFrames(env, raw, pose, frames, i + 1, s.w);
        assert frames[i..] == [frames[i]] + frames[i + 1..];
      }
    }
  }

  /**
   * Each file the pose loop leaves in the pose directory under one of the
   * remaining frame names is the detector's skeleton of the raw frame of that
   * name (or was there before); when the loop runs to the end, every remaining
   * frame has its skeleton.
   */
  lemma {:induction false} PoseLoopOutputs(env: Env, raw: Path, pose: Path, frames: seq<string>, i: nat, w: World)
    requires i <= |frames| && pose in w.fs && raw != pose
    ensures var r := PoseLoop(env, raw, pose, frames, i, w);
            (forall j :: i <= j < |frames| ==>
               Lookup(r.w.fs, pose, frames[j]) == Lookup(w.fs, pose, frames[j]) ||
               Lookup(r.w.fs, pose, frames[j]) == Skeleton(env, raw, w.fs, frames[j])) &&
            (r.Next? ==> forall j :: i <= j < |frames| ==>
               Skeleton(env, raw, w.fs, frames[j]).Some? &&
               Lookup(r.w.fs, pose, frames[j]) == Skeleton(env, raw, w.fs, frames[j]))
    decreases |frames| - i
  {
    if i < |frames| {
      var s := PoseFrameStep(env, raw, pose, frames[i], i, |frames|, w);
      if s.Next? {
        PoseLoopOutputs(env, raw, pose, frames, i + 1, s.w);
        PoseLoopWritesOnlyFrames(env, raw, pose, frames, i + 1, s.w);
        assert forall g :: Skeleton(env, raw, s.w.fs, g) == Skeleton(env, raw, w.fs, g);
      }
    }
  }

  /**
   * A step that respects a stop requested before poll `k`: it made at most
   * poll `k`, and if it made poll `k` it halted as cancelled.
   */
  predicate HonoursStop(s: Step, k: nat)
  {
    s.w.polls <= k + 1 && (s.w.polls <= k || (s.Halt? && s.outcome == Cancelled))
  }

  lemma {:induction false} PoseLoopHonoursStop(env: Env, raw: Path, pose: Path, frames: seq<string>, i: nat, w: World, k: nat)
    requires i <= |frames| && pose in w.fs
    requires env.StopRequested(k) && w.polls <= k
    ensures HonoursStop(PoseLoop(env, raw, pose, frames, i, w), k)
    decreases |frames| - i
  {
    if i < |frames| {
      var s := PoseFrameStep(env, raw, pose, frames[i], i, |frames|, w);
      if s.Next? {
        PoseLoopHonoursStop(env, raw, pose, frames, i + 1, s.w, k);
      }
    }
  }

  /**
   * A pose loop that halts at its `m`-th poll (a stop seen there, or that
   * frame failing) went past the `m - 1` frames before it: their skeletons
   * stay in place.
   */
  lemma {:induction false} PoseLoopKeepsDone(env: Env, raw: Path, pose: Path, frames: seq<string>, i: nat, w: World)
    requires i <= |frames| && pose in w.fs && raw != pose && Text.StrictlySorted(frames)
    ensures var r := PoseLoop(env, raw, pose, frames, i, w);
            r.Halt? ==> forall j :: i <= j < |frames| && j - i + 1 < r.w.polls - w.polls ==>
              Skeleton(env, raw, w.fs, frames[j]).Some? && Lookup(r.w.fs, pose, frames[j]) == Skeleton(env, raw, w.fs, frames[j])
    decreases |frames| - i
  {
    if i < |frames| {
      var s := PoseFrameStep(env, raw, pose, frames[i], i, |frames|, w);
      if s.Next? {
        var r := PoseLoop(env, raw, pose, frames, i + 1, s.w);
        PoseLoopKeepsDone(env, raw, pose, frames, i + 1, s.w);
        PoseLoopWritesOnlyFrames(env, raw, pose, frames, i + 1, s.w);
        Text.LaterNamesDiffer(frames, i, i + 1);
        assert forall g :: Skeleton(env, raw, s.w.fs, g) == Skeleton(env, raw, w.fs, g);
        assert Lookup(r.w.fs, pose, frames[i]) == Lookup(s.w.fs, pose, frames[i]);
      }
    }
  }

  /** The last progress value among `es`, or `lo` when there is none. */
  function LastPercent(lo: int, es: seq<Event>): int
    decreases |es|
  {
    if es == [] then lo
    else if es[|es| - 1].Progress? then es[|es| - 1].percent
    else LastPercent(lo, es[..|es| - 1])
  }

  /** No progress value in `es` is below the one before it (nor below `lo`). */
  predicate Rising(lo: int, es: seq<Event>)
    decreases |es|
  {
    es == [] ||
    (Rising(lo, es[..|es| - 1]) &&
     (es[|es| - 1].Progress? ==> LastPercent(lo, es[..|es| - 1]) <= es[|es| - 1].percent))
  }

  lemma RisingAppend(lo: int, es: seq<Event>, e: Event)
    requires Rising(lo, es)
    requires e.Progress? ==> LastPercent(lo, es) <= e.percent
    ensures Rising(lo, es + [e])
    ensures LastPercent(lo, es + [e]) == if e.Progress? then e.percent else LastPercent(lo, es)
  {
    assert (es + [e])[..|es|] == es;
  }

  lemma RisingAppend2(es: seq<Event>, e1: Event, e2: Event)
    requires Rising(0, es) && e1.Progress? && e2.Progress?
    requires LastPercent(0, es) <= e1.percent <= e2.percent
    ensures Rising(0, es + [e1] + [e2]) && LastPercent(0, es + [e1] + [e2]) == e2.percent
  {
    RisingAppend(0, es, e1);
    RisingAppend(0, es + [e1], e2);
  }

  /** What `Rising` means: progress values, in the order sent, never decrease and stay within [lo, last]. */
  lemma {:induction false} RisingIsSorted(lo: int, es: seq<Event>)
    requires Rising(lo, es)
    ensures forall i, j :: 0 <= i < j < |es| && es[i].Progress? && es[j].Progress? ==>
              es[i].percent <= es[j].percent
    ensures forall i :: 0 <= i < |es| && es[i].Progress? ==> lo <= es[i].percent <= LastPercent(lo, es)
    decreases |es|
  {
    if es != [] {
      var init := es[..|es| - 1];
      RisingIsSorted(lo, init);
      assert forall i :: 0 <= i < |init| ==> es[i] == init[i];
      LastAtLeastLo(lo, init);
    }
  }

  lemma {:induction false} LastAtLeastLo(lo: int, es: seq<Event>)
    requires Rising(lo, es)
    ensures lo <= LastPercent(lo, es)
    decreases |es|
  {
    if es != [] { LastAtLeastLo(lo, es[..|es| - 1]); }
  }

  /** The pose loop's progress values climb through the band [20, 39]. */
  lemma {:induction false} PoseLoopRises(env: Env, raw: Path, pose: Path, frames: seq<string>, i: nat, w: World)
    requires i <= |frames| && pose in w.fs
    requires Rising(0, w.events) && LastPercent(0, w.events) <= 39
    requires i < |frames| ==> LastPercent(0, w.events) <= PoseProgress(i, |frames|)
    ensures var r := PoseLoop(env, raw, pose, frames, i, w);
            Rising(0, r.w.events) && LastPercent(0, r.w.events) <= 39
    decreases |frames| - i
  {
    if i < |frames| {
      var s := PoseFrameStep(env, raw, pose, frames[i], i, |frames|, w);
      if s.Next? {
        RisingAppend(0, w.events, Progress(PoseProgress(i, |frames|), PoseFrame(i + 1, |frames|)));
        if i + 1 < |frames| { BandsRise(i, i + 1, |frames|); }
        PoseLoopRises(env, raw, pose, frames, i + 1, s.w);
      }
    }
  }

  lemma {:induction false} PoseLoopKeepsOtherDirs(env: Env, raw: Path, pose: Path, frames: seq<string>, i: nat, w: World)
    requires i <= |frames| && pose in w.fs
    ensures var r := PoseLoop(env, raw, pose, frames, i, w);
            forall d :: d in w.fs && d != pose ==> r.w.fs[d] == w.fs[d]
    decreases |frames| - i
  {
    if i < |frames| {
      var s := PoseFrameStep(env, raw, pose, frames[i], i, |frames|, w);
      if s.Next? {
        PoseLoopKeepsOtherDirs(env, raw, pose, frames, i + 1, s.w);
      }
    }
  }

  /** A signal that neither finishes, fails, nor belongs to assembly. */
  predicate Quiet(e: Event)
  {
    e.Progress? && e.status != Assembling && e.status != Done
  }

  /** Every signal of `es` from position `n` on is quiet. */
  predicate QuietFrom(es: seq<Event>, n: nat)
  {
    forall j :: n <= j < |es| ==> Quiet(es[j])
  }

  lemma {:induction false} PoseLoopIsQuiet(env: Env, raw: Path, pose: Path, frames: seq<string>, i: nat, w: World)
    requires i <= |frames| && pose in w.fs
    ensures QuietFrom(PoseLoop(env, raw, pose, frames, i, w).w.events, |w.events|)
    decreases |frames| - i
  {
    if i < |frames| {
      var s := PoseFrameStep(env, raw, pose, frames[i], i, |frames|, w);
      if s.Next? {
        PoseLoopIsQuiet(env, raw, pose, frames, i + 1, s.w);
      }
    }
  }

  /** Every signal of `es` from position `n` on is a per-frame report of the pose loop. */
  predicate PoseReportsFrom(es: seq<Event>, n: nat)
  {
    forall j :: n <= j < |es| ==> es[j].Progress? && es[j].status.PoseFrame?
  }

  lemma {:induction false} PoseLoopReportsOnlyPoses(env: Env, raw: Path, pose: Path, frames: seq<string>, i: nat, w: World)
    requires i <= |frames| && pose in w.fs
    ensures PoseReportsFrom(PoseLoop(env, raw, pose, frames, i, w).w.events, |w.events|)
    decreases |frames| - i
  {
    if i < |frames| {
      var s := PoseFrameStep(env, raw, pose, frames[i], i, |frames|, w);
      if s.Next? {
        PoseLoopReportsOnlyPoses(env, raw, pose, frames, i + 1, s.w);
      }
    }
  }

  /** Quiet signals appended to quiet signals are quiet. */
  lemma QuietChain(a: seq<Event>, b: seq<Event>, c: seq<Event>)
    requires a <= b <= c && QuietFrom(b, |a|) && QuietFrom(c, |b|)
    ensures QuietFrom(c, |a|)
  {
  }
}
