/**
 * The external state the core changes: the relational store (Video and
 * ProcessedFrame tables), the job queue, a local file system and the object
 * storage. Each is a class whose methods are the keyed operations the core
 * calls; the outcome of a call that can fail for reasons outside the model
 * (a lost connection, a full disk) is a parameter.
 */
module Store {
  import opened Wrappers
  import opened JsString
  import opened Records

  class Database {
    var videos: map<string, VideoRow>
    var processedFrames: seq<ProcessedFrameRow>
    var nextId: nat

    /** Every id handed out so far is the decimal rendering of a number below `nextId`. */
    ghost predicate Valid()
      reads this
    {
      forall id :: id in videos ==> AllDigits(id) && DigitsValue(id) < nextId
    }

    constructor ()
      ensures Valid()
      ensures videos == map[] && processedFrames == [] && nextId == 0
    {
      videos, processedFrames, nextId := map[], [], 0;
    }

    /** `video.create`: a new row under an id no other row has. */
    method CreateVideo(row: VideoRow, succeeds: bool) returns (id: Option<string>)
      requires Valid()
      modifies this
      ensures Valid()
      ensures id.Some? <==> succeeds
      ensures id.Some? ==> id.value !in old(videos) && videos == old(videos)[id.value := row]
      ensures id.None? ==> videos == old(videos)
      ensures processedFrames == old(processedFrames)
    {
      if !succeeds {
        return None;
      }
      var newId := NatToString(nextId);
      DigitsValueOfNatToString(nextId);
      videos := videos[newId := row];
      nextId := nextId + 1;
      id := Some(newId);
    }

    /** `video.update({where: {id}})`: rejects when no row has that id. */
    method UpdateVideo(id: string, patch: VideoPatch) returns (ok: bool)
      modifies this
      ensures ok <==> id in old(videos)
      ensures videos == if ok then old(videos)[id := ApplyPatch(old(videos)[id], patch)] else old(videos)
      ensures processedFrames == old(processedFrames) && nextId == old(nextId)
      ensures old(Valid()) ==> Valid()
    {
      ok := id in videos;
      if ok {
        videos := videos[id := ApplyPatch(videos[id], patch)];
      }
    }

    /** `processedFrame.create`: appends one row unless the insert fails. */
    method CreateProcessedFrame(row: ProcessedFrameRow, succeeds: bool) returns (ok: bool)
      modifies this
      ensures ok == succeeds
      ensures processedFrames == if ok then old(processedFrames) + [row] else old(processedFrames)
      ensures videos == old(videos) && nextId == old(nextId)
    {
      ok := succeeds;
      if ok {
        processedFrames := processedFrames + [row];
      }
    }
  }

  datatype Backoff = Backoff(kind: string, delay: nat)

  /** Per-job options; `QueueDefaults` leaves them to the queue's configuration. */
  datatype JobOptions = QueueDefaults | JobOptions(attempts: nat, backoff: Backoff)

  /** The two job payloads in use on the `video-processing` queue. */
  datatype Payload =
    | FileJob(filePath: string, userId: string, fileName: string)
    | VideoJob(videoId: string, videoUrl: string, userId: string, originalName: Option<string>)

  datatype QueuedJob = QueuedJob(name: string, payload: Payload, options: JobOptions)

  /** The `video-processing` queue: jobs in the order they were added. */
  class JobQueue {
    var jobs: seq<QueuedJob>

    constructor ()
      ensures jobs == []
    {
      jobs := [];
    }

    /** `queue.add`: the job's id is its position counted from 1. */
    method Add(job: QueuedJob, succeeds: bool) returns (id: Option<nat>)
      modifies this
      ensures id.Some? <==> succeeds
      ensures id.Some? ==> id.value == |old(jobs)| + 1
      ensures jobs == if succeeds then old(jobs) + [job] else old(jobs)
    {
      if succeeds {
        jobs := jobs + [job];
        id := Some(|jobs|);
      } else {
        id := None;
      }
    }
  }

  /**
   * A machine's local disk: the paths present (files and directories) and,
   * for each file that was made by copying, the file it was copied from.
   */
  class FileSystem {
    var paths: set<string>
    var origin: map<string, string>

    constructor (initial: set<string>)
      ensures paths == initial && origin == map[]
    {
      paths := initial;
      origin := map[];
    }

    /** A file written or a directory made (recursively, so never an error if present). */
    method Create(path: string)
      modifies this
      ensures paths == old(paths) + {path}
      ensures origin == old(origin) - {path}
    {
      paths := paths + {path};
      origin := origin - {path};
    }

    /** `copyFile(src, dst)` that succeeds: `dst` now holds `src`'s bytes. */
    method Copy(src: string, dst: string)
      modifies this
      ensures paths == old(paths) + {dst}
      ensures origin == old(origin)[dst := src]
    {
      paths := paths + {dst};
      origin := origin[dst := src];
    }

    /**
     * Removes each of `targets`, except those whose removal errors (`failing`);
     * an error is swallowed and removing a missing path is a no-op.
     */
    method RemoveQuietly(targets: set<string>, failing: set<string>)
      modifies this
      ensures paths == old(paths) - (targets - failing)
      ensures origin == old(origin) - (targets - failing)
    {
      paths := paths - (targets - failing);
      origin := origin - (targets - failing);
    }
  }

  datatype UploadResult = UploadResult(secureUrl: string, publicId: string)

  datatype Asset = Asset(localPath: string, folder: string, url: string, publicId: string)

  /** The object storage: assets in upload order. */
  class ObjectStorage {
    var assets: seq<Asset>

    constructor ()
      ensures assets == []
    {
      assets := [];
    }

    /** `uploader.upload(path, {folder})`; `outcome` is the service's answer, `None` an error. */
    method Upload(path: string, folder: string, outcome: Option<UploadResult>) returns (r: Option<UploadResult>)
      modifies this
      ensures r == outcome
      ensures assets == if outcome.Some? then old(assets) + [Asset(path, folder, outcome.value.secureUrl, outcome.value.publicId)]
                        else old(assets)
    {
      r := outcome;
      if outcome.Some? {
        assets := assets + [Asset(path, folder, outcome.value.secureUrl, outcome.value.publicId)];
      }
    }
  }
}
