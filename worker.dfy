/**
 * The video-processing job consumer: one job attempt, from download to
 * cleanup. The collaborators it awaits (download, ffmpeg, directory listing,
 * frame scoring, the AI services, the upload and the frame insert) are fields
 * of an `Environment`; the store, the local disk and the object storage are
 * the classes of module Store, so the order and effect of each write shows
 * in the method's postconditions.
 */
module Worker {
  import opened Wrappers
  import opened JsString
  import opened NodePath
  import opened Ranking
  import opened Records
  import opened Store
  import opened AiHelper

  // ---------------- job-scoped temp paths ----------------

  /** `<tmp>/job-<id>.mp4`, where the source video is downloaded. */
  function TempVideoPath(tmpDir: string, jobId: string): string {
    JoinPath(tmpDir, "job-" + jobId + ".mp4")
  }

  /** `<tmp>/frames-<id>`, where the frames are extracted. */
  function FramesDir(tmpDir: string, jobId: string): string {
    JoinPath(tmpDir, "frames-" + jobId)
  }

  /** The paths a job attempt creates on disk. */
  function JobPaths(tmpDir: string, jobId: string): set<string> {
    {TempVideoPath(tmpDir, jobId), FramesDir(tmpDir, jobId)}
  }

  /**
   * Temp paths are keyed by the job id: two jobs never share one, and a
   * job's video file is never its own or another job's frames directory.
   */
  lemma {:induction false} TempPathsKeyedByJob(tmpDir: string, a: string, b: string)
    ensures TempVideoPath(tmpDir, a) != FramesDir(tmpDir, b)
    ensures TempVideoPath(tmpDir, a) == TempVideoPath(tmpDir, b) <==> a == b
    ensures FramesDir(tmpDir, a) == FramesDir(tmpDir, b) <==> a == b
  {
    var p := JoinPrefix(tmpDir);
    assert TempVideoPath(tmpDir, a)[|p|] == 'j';
    assert FramesDir(tmpDir, b)[|p|] == 'f';
    if TempVideoPath(tmpDir, a) == TempVideoPath(tmpDir, b) {
      JoinInjective(tmpDir, "job-" + a + ".mp4", "job-" + b + ".mp4");
      var x, y := "job-" + a + ".mp4", "job-" + b + ".mp4";
      assert a == x[4..|x| - 4] && b == y[4..|y| - 4];
    }
    if FramesDir(tmpDir, a) == FramesDir(tmpDir, b) {
      JoinInjective(tmpDir, "frames-" + a, "frames-" + b);
      assert a == ("frames-" + a)[7..] && b == ("frames-" + b)[7..];
    }
  }

  // ---------------- frame extraction ----------------

  /**
   * The frames `extractFrames` resolves with: the directory entries ending in
   * `.jpg`, in listing order, each joined with the output directory.
   */
  function JpgFrames(outDir: string, listing: seq<string>): (frames: seq<string>)
    ensures |frames| <= |listing|
  {
    if |listing| == 0 then []
    else
      var rest := JpgFrames(outDir, listing[1..]);
      if EndsWith(listing[0], ".jpg") then [JoinPath(outDir, listing[0])] + rest else rest
  }

  /**
   * Every extracted frame is a `.jpg` entry of the listing under the output
   * directory, every `.jpg` entry gives a frame, and there are none exactly
   * when no entry ends in `.jpg`.
   */
  lemma JpgFramesShape(outDir: string, listing: seq<string>)
    ensures var frames := JpgFrames(outDir, listing);
      forall i :: 0 <= i < |frames| ==>
        exists name :: name in listing && EndsWith(name, ".jpg") && frames[i] == JoinPath(outDir, name)
    ensures forall name :: name in listing && EndsWith(name, ".jpg") ==> JoinPath(outDir, name) in JpgFrames(outDir, listing)
    ensures |JpgFrames(outDir, listing)| == 0 <==> forall name :: name in listing ==> !EndsWith(name, ".jpg")
  {
    JpgFramesFromListing(outDir, listing);
    JpgFramesComplete(outDir, listing);
    JpgFramesNone(outDir, listing);
  }

  /**
   * The filter keeps listing order: the frames of one listing followed by
   * another are the first's frames, then the second's; a single entry gives
   * its joined path when it ends in `.jpg`, and nothing otherwise.
   */
  lemma {:induction false} JpgFramesInOrder(outDir: string, a: seq<string>, b: seq<string>)
    ensures JpgFrames(outDir, a + b) == JpgFrames(outDir, a) + JpgFrames(outDir, b)
    ensures |a| == 1 ==> JpgFrames(outDir, a) == (if EndsWith(a[0], ".jpg") then [JoinPath(outDir, a[0])] else [])
    decreases |a|
  {
    if |a| == 0 {
      assert a + b == b;
    } else {
      assert (a + b)[0] == a[0];
      assert (a + b)[1..] == a[1..] + b;
      JpgFramesInOrder(outDir, a[1..], b);
      if |a| == 1 {
        assert JpgFrames(outDir, a[1..]) == [];
      }
    }
  }

  lemma {:induction false} JpgFramesComplete(outDir: string, listing: seq<string>)
    ensures forall name :: name in listing && EndsWith(name, ".jpg") ==> JoinPath(outDir, name) in JpgFrames(outDir, listing)
  {
    if |listing| > 0 {
      JpgFramesComplete(outDir, listing[1..]);
      forall name | name in listing && EndsWith(name, ".jpg")
        ensures JoinPath(outDir, name) in JpgFrames(outDir, listing)
      {
        if name != listing[0] {
          assert name in listing[1..];
        }
      }
    }
  }

  /** `path` is a `.jpg` entry of `listing` joined with `outDir`. */
  predicate JpgEntryOf(outDir: string, listing: seq<string>, path: string) {
    exists name :: name in listing && EndsWith(name, ".jpg") && path == JoinPath(outDir, name)
  }

  lemma {:induction false} JpgFramesFromListing(outDir: string, listing: seq<string>)
    ensures forall i :: 0 <= i < |JpgFrames(outDir, listing)| ==> JpgEntryOf(outDir, listing, JpgFrames(outDir, listing)[i])
  {
    if |listing| > 0 {
      JpgFramesFromListing(outDir, listing[1..]);
      var rest := JpgFrames(outDir, listing[1..]);
      var frames := JpgFrames(outDir, listing);
      forall i | 0 <= i < |frames|
        ensures JpgEntryOf(outDir, listing, frames[i])
      {
        if EndsWith(listing[0], ".jpg") && i == 0 {
          assert listing[0] in listing;
        } else {
          var j := if EndsWith(listing[0], ".jpg") then i - 1 else i;
          assert frames[i] == rest[j];
          assert JpgEntryOf(outDir, listing[1..], rest[j]);
          var name :| name in listing[1..] && EndsWith(name, ".jpg") && rest[j] == JoinPath(outDir, name);
          assert name in listing;
        }
      }
    }
  }

  lemma {:induction false} JpgFramesNone(outDir: string, listing: seq<string>)
    ensures |JpgFrames(outDir, listing)| == 0 <==> forall name :: name in listing ==> !EndsWith(name, ".jpg")
  {
    if |listing| > 0 {
      JpgFramesNone(outDir, listing[1..]);
      assert listing == [listing[0]] + listing[1..];
    }
  }

  // ---------------- enrichment ----------------

  /**
   * A final extension: a `.` at `i` followed by a non-empty tail without `/`
   * or `.` up to the end, which is what `/\.[^/.]+$/` matches.
   */
  predicate ExtensionAt(url: string, i: int) {
    && 0 <= i && i + 1 < |url| && url[i] == '.'
    && forall j :: i < j < |url| ==> url[j] != '/' && url[j] != '.'
  }

  /** `videoUrl.replace(/\.[^/.]+$/, ".mp3")`. */
  function AudioUrl(url: string): (r: string)
    ensures forall i :: ExtensionAt(url, i) ==> r == url[..i] + ".mp3"
    ensures (forall i :: !ExtensionAt(url, i)) ==> r == url
  {
    match LastIndexOf(url, '.')
    case None => url
    case Some(i) =>
      if i + 1 < |url| && forall j :: i < j < |url| ==> url[j] != '/' then
        assert ExtensionAt(url, i);
        assert forall k :: k != i ==> !ExtensionAt(url, k) by {
          forall k | k != i ensures !ExtensionAt(url, k) {
            ExtensionUnique(url, i, k);
          }
        }
        url[..i] + ".mp3"
      else
        assert forall k :: !ExtensionAt(url, k) by {
          forall k ensures !ExtensionAt(url, k) {
            if 0 <= k < i {
              assert url[i] == '.';
            } else if i < k < |url| {
              assert url[k] != '.';
            }
          }
        }
        url
  }

  /** A URL has at most one final extension. */
  lemma ExtensionUnique(url: string, i: int, k: int)
    requires ExtensionAt(url, i) && k != i
    ensures !ExtensionAt(url, k)
  {
    if k < i {
      assert url[i] == '.';
    } else if k < |url| {
      assert url[k] != '.';
    }
  }

  /** The rewrite at a known final extension. */
  lemma AudioUrlAt(url: string, i: int)
    requires ExtensionAt(url, i)
    ensures AudioUrl(url) == url[..i] + ".mp3"
  {
  }

  /** The rewritten URL ends in the `.mp3` extension, at the same place. */
  lemma RewrittenHasExtension(url: string, i: int)
    requires ExtensionAt(url, i)
    ensures ExtensionAt(url[..i] + ".mp3", i)
  {
    var r := url[..i] + ".mp3";
    assert r[i..] == ".mp3";
    assert forall j :: i < j < |r| ==> r[j] == r[i..][j - i];
  }

  /** Rewriting an audio URL again changes nothing: `.mp3` is itself a final extension. */
  lemma {:induction false} AudioUrlIdempotent(url: string)
    ensures AudioUrl(AudioUrl(url)) == AudioUrl(url)
  {
    if i :| ExtensionAt(url, i) {
      var r := url[..i] + ".mp3";
      AudioUrlAt(url, i);
      RewrittenHasExtension(url, i);
      AudioUrlAt(r, i);
      assert r[..i] == url[..i];
    }
  }

  /**
   * The transcript the worker keeps: a string answer as it is, else the
   * answer's `text`, else `''` (also for a `null` answer).
   */
  function NormaliseTranscript(response: Option<TranscriptionResponse>): (t: string)
    ensures response.None? || response.value == ObjectBody(None) ==> t == ""
    ensures response.Some? && response.value.TextBody? ==> t == response.value.text
    ensures response.Some? && response.value.ObjectBody? && response.value.textField.Some? ==> t == response.value.textField.value
    ensures t != "" ==> response == Some(TextBody(t)) || response == Some(ObjectBody(Some(t)))
  {
    match response
    case Some(TextBody(s)) => s
    case Some(ObjectBody(Some(t))) => t
    case _ => ""
  }

  datatype AiMetadata = AiMetadata(transcript: string, socialData: Option<SocialData>)

  /**
   * The enrichment task: transcribe the audio rendition, give up with `null`
   * on an empty transcript, otherwise generate the social copy. Every failure
   * inside it is already `null`, so it never rejects.
   */
  function Enrich(videoUrl: string, transcribe: string -> TranscribeOutcome,
                  complete: string -> Completion, parse: string -> Option<SocialData>): (r: Option<AiMetadata>)
    ensures r.Some? ==> r.value.transcript != ""
  {
    var transcript := NormaliseTranscript(GetTranscript(AudioUrl(videoUrl), transcribe));
    if transcript == "" then None
    else Some(AiMetadata(transcript, GenerateSocialInfo(transcript, complete, parse)))
  }

  /**
   * Enrichment is `null` exactly when the normalised transcript is empty
   * (in particular when transcription failed); otherwise it carries that
   * transcript and the generated copy, itself `null` on any failure.
   */
  lemma EnrichShape(videoUrl: string, transcribe: string -> TranscribeOutcome,
                    complete: string -> Completion, parse: string -> Option<SocialData>)
    ensures var t := NormaliseTranscript(GetTranscript(AudioUrl(videoUrl), transcribe));
      var r := Enrich(videoUrl, transcribe, complete, parse);
      && (r.None? <==> t == "")
      && (transcribe(AudioUrl(videoUrl)).TranscribeThrew? ==> r.None?)
      && (r.Some? ==> r.value.transcript == t && r.value.socialData == GenerateSocialInfo(t, complete, parse))
  {
  }

  // ---------------- scoring and selection ----------------

  /** Each frame with its score, `-Infinity` where `scoreImage` threw; order and paths are kept. */
  function ScoreFrames(frames: seq<string>, scoreOf: string -> Option<real>): (scored: seq<ScoredFrame>)
    ensures |scored| == |frames|
  {
    if |frames| == 0 then []
    else
      var s := if scoreOf(frames[0]).Some? then Finite(scoreOf(frames[0]).value) else NegInf;
      [ScoredFrame(frames[0], s)] + ScoreFrames(frames[1..], scoreOf)
  }

  /**
   * A frame whose scoring throws gets `-Infinity` and the batch goes on: the
   * scored list has the frames' length, paths and order.
   */
  lemma {:induction false} ScoreFramesShape(frames: seq<string>, scoreOf: string -> Option<real>)
    ensures var scored := ScoreFrames(frames, scoreOf);
      forall i :: 0 <= i < |frames| ==>
        && scored[i].path == frames[i]
        && scored[i].score == if scoreOf(frames[i]).Some? then Finite(scoreOf(frames[i]).value) else NegInf
  {
    if |frames| > 0 {
      ScoreFramesShape(frames[1..], scoreOf);
    }
  }

  // ---------------- one job attempt ----------------

  /** How the download ends: completed, rejected before any byte is written, or broken mid-stream. */
  datatype Download = Downloaded | RequestFailed | StreamFailed

  datatype JobData = JobData(jobId: string, videoId: string, videoUrl: string, userId: string, originalName: string)

  /** The answers of the collaborators for one attempt. */
  datatype Environment = Environment(
    tmpDir: string,
    download: Download,
    ffmpegOk: bool,
    listing: seq<string>,
    scoreOf: string -> Option<real>,
    transcribe: string -> TranscribeOutcome,
    complete: string -> Completion,
    parse: string -> Option<SocialData>,
    upload: string -> Option<UploadResult>,
    frameCreateOk: bool,
    removalFails: set<string>)

  datatype JobError = DownloadError | ExtractionError | NoFramesExtracted | UploadError | RowMissing | FrameCreateError

  /** The attempt resolves (`Done`) or rejects with an error, which makes the queue retry. */
  datatype Outcome = Done | Threw(error: JobError)

  const ThumbnailFolder: string := "pixelate/thumbnails"

  /** The update that marks the video `failed` and touches nothing else. */
  const FailurePatch: VideoPatch := VideoPatch(Failed, Untouched, Untouched)

  /** The success update: `completed`, the transcript or `null`, the social copy only when present. */
  function CompletionPatch(ai: Option<AiMetadata>): VideoPatch {
    VideoPatch(
      Completed,
      Assign(if ai.Some? && ai.value.transcript != "" then Some(ai.value.transcript) else None),
      if ai.Some? && ai.value.socialData.Some? then Assign(ai.value.socialData.value) else Untouched)
  }

  function Frames(job: JobData, env: Environment): seq<string> {
    JpgFrames(FramesDir(env.tmpDir, job.jobId), env.listing)
  }

  function Scored(job: JobData, env: Environment): seq<ScoredFrame> {
    ScoreFrames(Frames(job, env), env.scoreOf)
  }

  /** The attempt gets as far as choosing a frame. */
  predicate HasFrames(job: JobData, env: Environment) {
    env.download.Downloaded? && env.ffmpegOk && |Frames(job, env)| > 0
  }

  /** `scoredFrames.sort(...)[0]`. */
  function Best(job: JobData, env: Environment): ScoredFrame
    requires HasFrames(job, env)
  {
    SortDesc(Scored(job, env))[0]
  }

  /** The attempt gets as far as a stored thumbnail. */
  predicate Uploads(job: JobData, env: Environment) {
    HasFrames(job, env) && env.upload(Best(job, env).path).Some?
  }

  function Enrichment(job: JobData, env: Environment): Option<AiMetadata> {
    Enrich(job.videoUrl, env.transcribe, env.complete, env.parse)
  }

  function FrameRow(job: JobData, env: Environment): ProcessedFrameRow
    requires Uploads(job, env)
  {
    var up := env.upload(Best(job, env).path).value;
    ProcessedFrameRow(job.userId, job.videoId, up.secureUrl, up.publicId, Best(job, env).score)
  }

  /** The error the try block rejects with, when the Video row exists. */
  function StageError(job: JobData, env: Environment): JobError {
    if !env.download.Downloaded? then DownloadError
    else if !env.ffmpegOk then ExtractionError
    else if |Frames(job, env)| == 0 then NoFramesExtracted
    else if !Uploads(job, env) then UploadError
    else FrameCreateError
  }

  /** The Video row after the attempt, from the row before it. */
  function FinalRow(row: VideoRow, job: JobData, env: Environment): VideoRow {
    if !Uploads(job, env) then ApplyPatch(row, FailurePatch)
    else if env.frameCreateOk then ApplyPatch(row, CompletionPatch(Enrichment(job, env)))
    else ApplyPatch(ApplyPatch(row, CompletionPatch(Enrichment(job, env))), FailurePatch)
  }

  /** The paths the attempt creates: the video file once bytes arrive, the frames directory once extraction starts. */
  function CreatedPaths(job: JobData, env: Environment): set<string> {
    match env.download
    case Downloaded => JobPaths(env.tmpDir, job.jobId)
    case StreamFailed => {TempVideoPath(env.tmpDir, job.jobId)}
    case RequestFailed => {}
  }

  /**
   * The try block up to the frame selection: download, then extraction beside
   * enrichment, then scoring. `Some(error)` is the rejection; otherwise the
   * best frame and the enrichment result go on to be published.
   */
  method Prepare(fs: FileSystem, job: JobData, env: Environment)
    returns (failure: Option<JobError>, best: ScoredFrame, aiMetadata: Option<AiMetadata>)
    modifies fs
    ensures failure.None? <==> HasFrames(job, env)
    ensures failure.Some? ==> failure.value == StageError(job, env)
    ensures failure.None? ==> best == Best(job, env) && aiMetadata == Enrichment(job, env)
    ensures fs.paths == old(fs.paths) + CreatedPaths(job, env)
  {
    var tempVideoPath := TempVideoPath(env.tmpDir, job.jobId);
    var framesDir := FramesDir(env.tmpDir, job.jobId);
    best, aiMetadata := ScoredFrame("", NegInf), None;
    if !env.download.Downloaded? {
      if env.download.StreamFailed? {
        fs.Create(tempVideoPath);
      }
      return Some(DownloadError), best, aiMetadata;
    }
    fs.Create(tempVideoPath);
    // extraction and enrichment run side by side; only extraction can reject
    fs.Create(framesDir);
    aiMetadata := Enrich(job.videoUrl, env.transcribe, env.complete, env.parse);
    if !env.ffmpegOk {
      return Some(ExtractionError), best, aiMetadata;
    }
    var frames := JpgFrames(framesDir, env.listing);
    if |frames| == 0 {
      return Some(NoFramesExtracted), best, aiMetadata;
    }
    var scoredFrames := ScoreFrames(frames, env.scoreOf);
    best := SortDesc(scoredFrames)[0];
    failure := None;
  }

  /**
   * The rest of the try block: upload the best frame, mark the video
   * `completed`, then insert its ProcessedFrame row.
   */
  method Publish(db: Database, storage: ObjectStorage, job: JobData, env: Environment,
                 best: ScoredFrame, aiMetadata: Option<AiMetadata>)
    returns (failure: Option<JobError>)
    requires HasFrames(job, env) && best == Best(job, env) && aiMetadata == Enrichment(job, env)
    modifies db, storage
    ensures failure.None? <==> Uploads(job, env) && job.videoId in old(db.videos) && env.frameCreateOk
    ensures failure.Some? && job.videoId in old(db.videos) ==> failure.value == StageError(job, env)
    ensures storage.assets ==
      if Uploads(job, env)
      then old(storage.assets) + [Asset(best.path, ThumbnailFolder, env.upload(best.path).value.secureUrl,
                                        env.upload(best.path).value.publicId)]
      else old(storage.assets)
    ensures db.processedFrames ==
      if failure.None? then old(db.processedFrames) + [FrameRow(job, env)] else old(db.processedFrames)
    ensures db.videos ==
      if Uploads(job, env) && job.videoId in old(db.videos)
      then old(db.videos)[job.videoId := ApplyPatch(old(db.videos)[job.videoId], CompletionPatch(aiMetadata))]
      else old(db.videos)
    ensures db.nextId == old(db.nextId)
  {
    var uploadResult := storage.Upload(best.path, ThumbnailFolder, env.upload(best.path));
    if uploadResult.None? {
      return Some(UploadError);
    }
    var updated := db.UpdateVideo(job.videoId, CompletionPatch(aiMetadata));
    if !updated {
      return Some(RowMissing);
    }
    var row := ProcessedFrameRow(job.userId, job.videoId, uploadResult.value.secureUrl,
                                 uploadResult.value.publicId, best.score);
    var created := db.CreateProcessedFrame(row, env.frameCreateOk);
    failure := if created then None else Some(FrameCreateError);
  }

  /**
   * The catch block: on a rejection, mark the video `failed` and rethrow; an
   * update that itself rejects (no such row) is what propagates instead.
   */
  method Settle(db: Database, videoId: string, failure: Option<JobError>) returns (outcome: Outcome)
    modifies db
    ensures outcome == if failure.None? then Done
                       else if videoId in old(db.videos) then Threw(failure.value) else Threw(RowMissing)
    ensures db.videos == if failure.Some? && videoId in old(db.videos)
                         then old(db.videos)[videoId := ApplyPatch(old(db.videos)[videoId], FailurePatch)]
                         else old(db.videos)
    ensures db.processedFrames == old(db.processedFrames) && db.nextId == old(db.nextId)
  {
    if failure.Some? {
      var marked := db.UpdateVideo(videoId, FailurePatch);
      outcome := if marked then Threw(failure.value) else Threw(RowMissing);
    } else {
      outcome := Done;
    }
  }

  /** The whole try block: prepare, then publish when a frame was chosen. */
  method Attempt(db: Database, fs: FileSystem, storage: ObjectStorage, job: JobData, env: Environment)
    returns (failure: Option<JobError>)
    modifies db, fs, storage
    ensures failure.None? <==> Uploads(job, env) && job.videoId in old(db.videos) && env.frameCreateOk
    ensures failure.Some? && job.videoId in old(db.videos) ==> failure.value == StageError(job, env)
    ensures storage.assets ==
      if Uploads(job, env)
      then old(storage.assets) + [Asset(Best(job, env).path, ThumbnailFolder,
                                        env.upload(Best(job, env).path).value.secureUrl,
                                        env.upload(Best(job, env).path).value.publicId)]
      else old(storage.assets)
    ensures db.processedFrames ==
      if failure.None? then old(db.processedFrames) + [FrameRow(job, env)] else old(db.processedFrames)
    ensures db.videos ==
      if Uploads(job, env) && job.videoId in old(db.videos)
      then old(db.videos)[job.videoId := ApplyPatch(old(db.videos)[job.videoId], CompletionPatch(Enrichment(job, env)))]
      else old(db.videos)
    ensures db.nextId == old(db.nextId)
    ensures fs.paths == old(fs.paths) + CreatedPaths(job, env)
  {
    var best, aiMetadata;
    failure, best, aiMetadata := Prepare(fs, job, env);
    if failure.None? {
      failure := Publish(db, storage, job, env, best, aiMetadata);
    }
  }

  /** The worker's job handler for one attempt: try, catch, finally. */
  method ProcessJob(db: Database, fs: FileSystem, storage: ObjectStorage, job: JobData, env: Environment)
    returns (outcome: Outcome)
    modifies db, fs, storage
    ensures outcome == if job.videoId !in old(db.videos) then Threw(RowMissing)
                       else if Uploads(job, env) && env.frameCreateOk then Done
                       else Threw(StageError(job, env))
    ensures storage.assets ==
      if Uploads(job, env)
      then old(storage.assets) + [Asset(Best(job, env).path, ThumbnailFolder,
                                        env.upload(Best(job, env).path).value.secureUrl,
                                        env.upload(Best(job, env).path).value.publicId)]
      else old(storage.assets)
    ensures db.processedFrames ==
      if outcome.Done? then old(db.processedFrames) + [FrameRow(job, env)] else old(db.processedFrames)
    ensures db.videos ==
      if job.videoId in old(db.videos)
      then old(db.videos)[job.videoId := FinalRow(old(db.videos)[job.videoId], job, env)]
      else old(db.videos)
    ensures db.nextId == old(db.nextId)
    ensures fs.paths == (old(fs.paths) + CreatedPaths(job, env)) - (JobPaths(env.tmpDir, job.jobId) - env.removalFails)
  {
    // try
    var failure := Attempt(db, fs, storage, job, env);
    // catch
    outcome := Settle(db, job.videoId, failure);
    // finally: remove both temp paths, swallowing removal errors
    fs.RemoveQuietly(JobPaths(env.tmpDir, job.jobId), env.removalFails);
  }

  // ---------------- properties of an attempt ----------------

  /**
   * The uploaded frame is the earliest-extracted one with the maximal score;
   * when no frame could be scored that is the first frame, as nothing guards
   * against an all `-Infinity` batch.
   */
  lemma BestIsEarliestMax(job: JobData, env: Environment)
    requires HasFrames(job, env)
    ensures Best(job, env) == Scored(job, env)[FirstMaxIndex(Scored(job, env))]
    ensures (forall i :: 0 <= i < |Frames(job, env)| ==> env.scoreOf(Frames(job, env)[i]).None?) ==>
      Best(job, env) == ScoredFrame(Frames(job, env)[0], NegInf)
  {
    var xs := Scored(job, env);
    SortDescHeadIsFirstMax(xs);
    ScoreFramesShape(Frames(job, env), env.scoreOf);
    if forall i :: 0 <= i < |Frames(job, env)| ==> env.scoreOf(Frames(job, env)[i]).None? {
      assert IsFirstMax(xs, 0);
      forall j | 0 < j < |xs| ensures !IsFirstMax(xs, j) {
        FirstMaxUnique(xs, 0, j);
      }
    }
  }

  /**
   * Enrichment never decides the outcome: with the same frames, upload and
   * insert, an attempt whose AI services all fail ends exactly as one whose
   * services succeed, and the row's transcript is `null` and its social copy
   * untouched.
   */
  lemma EnrichmentNeverFailsJob(row: VideoRow, job: JobData, env: Environment)
    requires Uploads(job, env) && env.frameCreateOk
    requires env.transcribe(AudioUrl(job.videoUrl)).TranscribeThrew?
    ensures StageError(job, env) == FrameCreateError
    ensures FinalRow(row, job, env) == row.(status := Completed, transcript := None)
  {
  }

  /** A failed `processedFrame.create` leaves the completion's transcript and copy but status `failed`. */
  lemma FrameInsertFailureMarksFailed(row: VideoRow, job: JobData, env: Environment)
    requires Uploads(job, env) && !env.frameCreateOk
    ensures var r := FinalRow(row, job, env);
      && r.status == Failed
      && r.transcript == ApplyPatch(row, CompletionPatch(Enrichment(job, env))).transcript
      && r.socialData == ApplyPatch(row, CompletionPatch(Enrichment(job, env))).socialData
  {
  }

  /** Every attempt that does not upload marks the row `failed` and changes nothing else in it. */
  lemma EarlyFailureOnlyMarksFailed(row: VideoRow, job: JobData, env: Environment)
    requires !Uploads(job, env)
    ensures FinalRow(row, job, env) == row.(status := Failed)
  {
  }
}
