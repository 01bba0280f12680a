/**
 * The earlier job consumer: it extracts frames next to the uploaded file,
 * scores them one after another, keeps the first frame whose score is
 * strictly greater than the best so far, and copies it under the public
 * outputs directory. Nothing catches a failure and nothing is cleaned up.
 */
module LegacyWorker {
  import opened Wrappers
  import opened JsString
  import opened NodePath
  import opened Ranking
  import opened Store
  import Worker

  // ---------------- selection ----------------

  /** The index of the first frame whose scoring throws, if any. */
  function FirstUnscored(frames: seq<string>, scoreOf: string -> Option<real>): (r: Option<nat>)
    ensures r.None? <==> forall i :: 0 <= i < |frames| ==> scoreOf(frames[i]).Some?
    ensures r.Some? ==> && r.value < |frames| && scoreOf(frames[r.value]).None?
                        && forall j :: 0 <= j < r.value ==> scoreOf(frames[j]).Some?
  {
    if |frames| == 0 then None
    else if scoreOf(frames[0]).None? then Some(0)
    else
      match FirstUnscored(frames[1..], scoreOf)
      case None => None
      case Some(i) => Some(i + 1)
  }

  /** The loop's final state: `best` (undefined for no frames) and `bestScore`. */
  datatype Selection = Selection(best: Option<string>, bestScore: Score)

  /**
   * The scoring loop. `best` starts as `frames[0]` and `bestScore` as
   * `-Infinity`; a frame replaces them only when its score is strictly
   * greater. A scoring exception ends the loop: `Err(i)` names the frame.
   */
  method SelectBest(frames: seq<string>, scoreOf: string -> Option<real>) returns (r: Result<Selection, nat>)
    ensures r.Err? <==> FirstUnscored(frames, scoreOf).Some?
    ensures r.Err? ==> r.error == FirstUnscored(frames, scoreOf).value
    ensures r.Ok? && |frames| == 0 ==> r.value == Selection(None, NegInf)
    ensures r.Ok? && |frames| > 0 ==>
      var scored := Worker.ScoreFrames(frames, scoreOf);
      var k := FirstMaxIndex(scored);
      r.value == Selection(Some(frames[k]), scored[k].score)
  {
    ghost var scored := Worker.ScoreFrames(frames, scoreOf);
    Worker.ScoreFramesShape(frames, scoreOf);
    var best: Option<string> := if |frames| > 0 then Some(frames[0]) else None;
    var bestScore := NegInf;
    ghost var k := 0;
    var i := 0;
    while i < |frames|
      invariant 0 <= i <= |frames|
      invariant forall j :: 0 <= j < i ==> scoreOf(frames[j]).Some?
      invariant i == 0 ==> bestScore == NegInf && best == (if |frames| > 0 then Some(frames[0]) else None)
      invariant i > 0 ==> && 0 <= k < i && best == Some(frames[k]) && bestScore == scored[k].score
                          && (forall j :: 0 <= j < i ==> AtMost(scored[j].score, scored[k].score))
                          && (forall j :: 0 <= j < k ==> Below(scored[j].score, scored[k].score))
    {
      var s := scoreOf(frames[i]);
      if s.None? {
        return Err(i);
      }
      if Below(bestScore, Finite(s.value)) {
        bestScore := Finite(s.value);
        best := Some(frames[i]);
        k := i;
      }
      i := i + 1;
    }
    if |frames| > 0 {
      assert IsFirstMax(scored, k);
      FirstMaxIsIndex(scored, k);
    }
    r := Ok(Selection(best, bestScore));
  }

  /**
   * When every frame scores, the kept frame's score is a maximum, it equals
   * the frame's own score, and every earlier frame scored strictly less.
   */
  lemma SelectionIsMaximum(frames: seq<string>, scoreOf: string -> Option<real>)
    requires |frames| > 0 && FirstUnscored(frames, scoreOf).None?
    ensures var k := FirstMaxIndex(Worker.ScoreFrames(frames, scoreOf));
      && k < |frames|
      && Worker.ScoreFrames(frames, scoreOf)[k].score == Finite(scoreOf(frames[k]).value)
      && (forall j :: 0 <= j < |frames| ==> scoreOf(frames[j]).value <= scoreOf(frames[k]).value)
      && (forall j :: 0 <= j < k ==> scoreOf(frames[j]).value < scoreOf(frames[k]).value)
  {
    var scored := Worker.ScoreFrames(frames, scoreOf);
    Worker.ScoreFramesShape(frames, scoreOf);
    var k := FirstMaxIndex(scored);
    forall j | 0 <= j < |frames|
      ensures scoreOf(frames[j]).value <= scoreOf(frames[k]).value
    {
      assert AtMost(scored[j].score, scored[k].score);
    }
    forall j | 0 <= j < k
      ensures scoreOf(frames[j]).value < scoreOf(frames[k]).value
    {
      assert Below(scored[j].score, scored[k].score);
    }
  }

  /**
   * When every frame scores, the legacy loop and the current worker's stable
   * descending sort pick the same frame.
   */
  lemma SameChoiceAsWorker(frames: seq<string>, scoreOf: string -> Option<real>)
    requires |frames| > 0 && FirstUnscored(frames, scoreOf).None?
    ensures var scored := Worker.ScoreFrames(frames, scoreOf);
      SortDesc(scored)[0].path == frames[FirstMaxIndex(scored)]
  {
    var scored := Worker.ScoreFrames(frames, scoreOf);
    SortDescHeadIsFirstMax(scored);
    Worker.ScoreFramesShape(frames, scoreOf);
  }

  // ---------------- paths ----------------

  /** `join(dirname(filePath), basename(filePath) + "-frames")`. */
  function FramesDirOf(filePath: string): string {
    JoinPath(Dirname(filePath), Basename(filePath) + "-frames")
  }

  /**
   * For a normal path the frames directory sits beside the file: the path
   * without a trailing `/`, followed by `-frames`.
   */
  lemma FramesDirBesideFile(filePath: string)
    requires Normal(filePath)
    ensures FramesDirOf(filePath) == StripTrailing(filePath) + "-frames"
    ensures |filePath| == 0 || filePath[|filePath| - 1] != '/' ==> FramesDirOf(filePath) == filePath + "-frames"
  {
    JoinDirnameBasename(filePath, "-frames");
  }

  /** `join(cwd, "public", "outputs")`. */
  function OutputDir(cwd: string): string {
    JoinPath(JoinPath(cwd, "public"), "outputs")
  }

  /** `join(outDir, "<job id>.jpg")`. */
  function OutputFile(cwd: string, jobId: string): string {
    JoinPath(OutputDir(cwd), jobId + ".jpg")
  }

  /** The URL the result is served under. */
  function PublicUrl(jobId: string): string {
    "/outputs/" + jobId + ".jpg"
  }

  /** The output file is the public URL under `<cwd>/public`, which is what serves it. */
  lemma OutputFileServesUrl(cwd: string, jobId: string)
    ensures OutputFile(cwd, jobId) == JoinPrefix(cwd) + "public" + PublicUrl(jobId)
  {
    var pre := JoinPrefix(cwd);
    var pub := JoinPath(cwd, "public");
    assert pub == pre + "public";
    assert pub[|pub| - 1] == 'c';
    PlainDirPrefix(pub);
    var out := OutputDir(cwd);
    assert out == pre + "public/outputs";
    assert out[|out| - 1] == 's';
    PlainDirPrefix(out);
  }

  // ---------------- one job ----------------

  datatype LegacyJob = LegacyJob(id: string, filePath: string)

  /**
   * What the job's collaborators do: the working directory, whether ffmpeg
   * succeeds, the frames directory's listing, each frame's score (`None`
   * when scoring throws) and whether the copy succeeds.
   */
  datatype LegacyEnv = LegacyEnv(cwd: string, ffmpegOk: bool, listing: seq<string>,
                                 scoreOf: string -> Option<real>, copyOk: bool)

  /** Why the job rejects; `NoFrameToCopy` is the copy of an undefined `best`. */
  datatype LegacyError = ExtractionFailed | ScoringFailed(frame: string) | NoFrameToCopy | CopyFailed

  function LegacyFrames(job: LegacyJob, env: LegacyEnv): seq<string> {
    Worker.JpgFrames(FramesDirOf(job.filePath), env.listing)
  }

  /** The job's result: the public URL, or the error it rejects with, in the order the steps run. */
  function LegacyOutcome(job: LegacyJob, env: LegacyEnv): Result<string, LegacyError> {
    var frames := LegacyFrames(job, env);
    if !env.ffmpegOk then Err(ExtractionFailed)
    else if FirstUnscored(frames, env.scoreOf).Some? then Err(ScoringFailed(frames[FirstUnscored(frames, env.scoreOf).value]))
    else if |frames| == 0 then Err(NoFrameToCopy)
    else if !env.copyOk then Err(CopyFailed)
    else Ok(PublicUrl(job.id))
  }

  /** The frame the job copies when it gets that far. */
  function Chosen(job: LegacyJob, env: LegacyEnv): string
    requires |LegacyFrames(job, env)| > 0
  {
    LegacyFrames(job, env)[FirstMaxIndex(Worker.ScoreFrames(LegacyFrames(job, env), env.scoreOf))]
  }

  /** The paths the job leaves behind: nothing it creates is removed. */
  function LegacyCreated(job: LegacyJob, env: LegacyEnv): set<string> {
    {FramesDirOf(job.filePath)}
    + (if env.ffmpegOk && FirstUnscored(LegacyFrames(job, env), env.scoreOf).None? then {OutputDir(env.cwd)} else {})
    + (if LegacyOutcome(job, env).Ok? then {OutputFile(env.cwd, job.id)} else {})
  }

  /**
   * After the loop: make the outputs directory, copy `best` to
   * `<job id>.jpg` in it and answer with the public URL. Copying an
   * undefined `best` rejects, as does a failed copy.
   */
  method CopyBest(fs: FileSystem, cwd: string, jobId: string, best: Option<string>, copyOk: bool)
    returns (r: Result<string, LegacyError>)
    modifies fs
    ensures r == if best.None? then Err(NoFrameToCopy) else if !copyOk then Err(CopyFailed) else Ok(PublicUrl(jobId))
    ensures fs.paths == old(fs.paths) + {OutputDir(cwd)} + (if r.Ok? then {OutputFile(cwd, jobId)} else {})
    ensures fs.origin == if r.Ok? then (old(fs.origin) - {OutputDir(cwd)})[OutputFile(cwd, jobId) := best.value]
                         else old(fs.origin) - {OutputDir(cwd)}
  {
    fs.Create(OutputDir(cwd));
    if best.None? {
      return Err(NoFrameToCopy);
    }
    if !copyOk {
      return Err(CopyFailed);
    }
    fs.Copy(best.value, OutputFile(cwd, jobId));
    r := Ok(PublicUrl(jobId));
  }

  lemma RemoveTwice(m: map<string, string>, a: string, b: string)
    ensures (m - {a}) - {b} == m - {a, b}
  {
    assert (m - {a}) - {b} == m - {a, b} by {
      assert forall k :: k in (m - {a}) - {b} <==> k in m - {a, b};
    }
  }

  /** The paths the job leaves behind, by how far it gets. */
  lemma CreatedByStage(job: LegacyJob, env: LegacyEnv)
    ensures var framesDir := FramesDirOf(job.filePath);
      && (!env.ffmpegOk || FirstUnscored(LegacyFrames(job, env), env.scoreOf).Some? ==> LegacyCreated(job, env) == {framesDir})
      && (env.ffmpegOk && FirstUnscored(LegacyFrames(job, env), env.scoreOf).None? && LegacyOutcome(job, env).Err? ==>
            LegacyCreated(job, env) == {framesDir, OutputDir(env.cwd)})
      && (LegacyOutcome(job, env).Ok? ==>
            LegacyCreated(job, env) == {framesDir, OutputDir(env.cwd), OutputFile(env.cwd, job.id)})
  {
  }

  /**
   * The steps before the copy: make the frames directory, run ffmpeg, list
   * the frames and score them. An error here is the job's own error.
   */
  method ExtractAndSelect(fs: FileSystem, job: LegacyJob, env: LegacyEnv) returns (r: Result<Option<string>, LegacyError>)
    modifies fs
    ensures r.Err? <==> !env.ffmpegOk || FirstUnscored(LegacyFrames(job, env), env.scoreOf).Some?
    ensures r.Err? ==> LegacyOutcome(job, env) == Err(r.error)
    ensures r.Ok? ==> r.value == if |LegacyFrames(job, env)| == 0 then None else Some(Chosen(job, env))
    ensures fs.paths == old(fs.paths) + {FramesDirOf(job.filePath)}
    ensures fs.origin == old(fs.origin) - {FramesDirOf(job.filePath)}
  {
    fs.Create(FramesDirOf(job.filePath));
    if !env.ffmpegOk {
      return Err(ExtractionFailed);
    }
    var frames := Worker.JpgFrames(FramesDirOf(job.filePath), env.listing);
    var selection := SelectBest(frames, env.scoreOf);
    if selection.Err? {
      return Err(ScoringFailed(frames[selection.error]));
    }
    r := Ok(selection.value.best);
  }

  /** The job handler. */
  method HandleJob(fs: FileSystem, job: LegacyJob, env: LegacyEnv) returns (r: Result<string, LegacyError>)
    modifies fs
    ensures r == LegacyOutcome(job, env)
    ensures fs.paths == old(fs.paths) + LegacyCreated(job, env)
    ensures r.Ok? ==> fs.origin == (old(fs.origin) - {FramesDirOf(job.filePath), OutputDir(env.cwd)})
                                   [OutputFile(env.cwd, job.id) := Chosen(job, env)]
    ensures r.Err? ==> fs.origin == old(fs.origin) - LegacyCreated(job, env)
  {
    CreatedByStage(job, env);
    var best := ExtractAndSelect(fs, job, env);
    if best.Err? {
      return Err(best.error);
    }
    r := CopyBest(fs, env.cwd, job.id, best.value, env.copyOk);
    RemoveTwice(old(fs.origin), FramesDirOf(job.filePath), OutputDir(env.cwd));
  }
}
