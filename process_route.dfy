/**
 * `POST /api/videos/process`: records an uploaded video as `processing` and
 * then queues the job that processes it.
 */
module ProcessRoute {
  import opened Wrappers
  import opened Records
  import opened Store

  /** The JSON body's fields the route reads; a missing field is `None`. */
  datatype ProcessBody = ProcessBody(
    publicId: Option<string>,
    originalUrl: Option<string>,
    originalName: Option<string>,
    duration: Option<real>)

  datatype Reply = Started(videoId: string) | Failure(status: nat, message: string)

  /** A present, non-empty string: what `!field` rejects otherwise. */
  predicate Truthy(field: Option<string>) {
    field.Some? && field.value != ""
  }

  /** The row the route creates for the caller. */
  function NewRow(userId: string, body: ProcessBody): VideoRow
    requires Truthy(body.publicId) && Truthy(body.originalUrl)
  {
    VideoRow(userId, body.publicId.value, body.originalUrl.value, body.originalName, body.duration,
             Processing, None, None)
  }

  /** The job that asks the worker to process the created row. */
  function ProcessingJob(videoId: string, userId: string, body: ProcessBody): QueuedJob
    requires Truthy(body.originalUrl)
  {
    QueuedJob("process-video", VideoJob(videoId, body.originalUrl.value, userId, body.originalName), QueueDefaults)
  }

  /**
   * `POST`. `userId` is the session's user (absent or empty when signed
   * out); `createOk` and `enqueueOk` say whether the insert and the enqueue
   * succeed.
   */
  method Post(db: Database, queue: JobQueue, userId: Option<string>, body: ProcessBody,
              createOk: bool, enqueueOk: bool) returns (reply: Reply)
    requires db.Valid()
    modifies db, queue
    ensures db.Valid()
    ensures db.processedFrames == old(db.processedFrames)
    ensures !Truthy(userId) ==>
      reply == Failure(401, "Unauthorized") && db.videos == old(db.videos) && queue.jobs == old(queue.jobs)
    ensures Truthy(userId) && !(Truthy(body.publicId) && Truthy(body.originalUrl)) ==>
      reply == Failure(400, "Missing video data") && db.videos == old(db.videos) && queue.jobs == old(queue.jobs)
    ensures Truthy(userId) && Truthy(body.publicId) && Truthy(body.originalUrl) && !createOk ==>
      reply == Failure(500, "Internal Error") && db.videos == old(db.videos) && queue.jobs == old(queue.jobs)
    ensures Truthy(userId) && Truthy(body.publicId) && Truthy(body.originalUrl) && createOk ==>
      exists id ::
        && id !in old(db.videos)
        && db.videos == old(db.videos)[id := NewRow(userId.value, body)]
        && queue.jobs == (if enqueueOk then old(queue.jobs) + [ProcessingJob(id, userId.value, body)] else old(queue.jobs))
        && reply == (if enqueueOk then Started(id) else Failure(500, "Internal Error"))
  {
    if !Truthy(userId) {
      return Failure(401, "Unauthorized");
    }
    if !Truthy(body.publicId) || !Truthy(body.originalUrl) {
      return Failure(400, "Missing video data");
    }
    var created := db.CreateVideo(NewRow(userId.value, body), createOk);
    if created.None? {
      return Failure(500, "Internal Error");
    }
    var id := created.value;
    var jobId := queue.Add(ProcessingJob(id, userId.value, body), enqueueOk);
    if jobId.None? {
      return Failure(500, "Internal Error");
    }
    reply := Started(id);
  }
}
