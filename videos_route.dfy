/**
 * `POST /api/videos`: records an uploaded video as `processing` without
 * queueing any work, and answers with the created row.
 */
module VideosRoute {
  import opened Wrappers
  import opened Records
  import opened Store

  /** The JSON body's fields the route reads; a missing field is `None`. */
  datatype VideosBody = VideosBody(
    originalUrl: Option<string>,
    publicId: Option<string>,
    duration: Option<real>,
    originalName: Option<string>)

  datatype Reply = Created(id: string, row: VideoRow) | Failure(status: nat, message: string)

  const DefaultName: string := "Untitled Video"

  /** The three required fields are present; a duration of 0 counts as missing. */
  predicate Complete(body: VideosBody) {
    && body.originalUrl.Some? && body.originalUrl.value != ""
    && body.publicId.Some? && body.publicId.value != ""
    && body.duration.Some? && body.duration.value != 0.0
  }

  /** The row the route creates for the caller. */
  function NewRow(userId: string, body: VideosBody): (row: VideoRow)
    requires Complete(body)
  {
    var name := if body.originalName.Some? && body.originalName.value != "" then body.originalName.value else DefaultName;
    VideoRow(userId, body.publicId.value, body.originalUrl.value, Some(name), Some(body.duration.value),
             Processing, None, None)
  }

  /**
   * The created row: the caller's, with the request's URL, public id and
   * duration, the name or its default (never empty), status `processing`,
   * and no transcript or social copy yet.
   */
  lemma NewRowShape(userId: string, body: VideosBody)
    requires Complete(body)
    ensures var row := NewRow(userId, body);
      && row.userId == userId && row.status == Processing
      && row.originalUrl == body.originalUrl.value && row.publicId == body.publicId.value
      && row.duration == body.duration && row.duration != Some(0.0)
      && row.originalName.Some? && row.originalName.value != ""
      && (body.originalName.Some? && body.originalName.value != "" ==> row.originalName == body.originalName)
      && (body.originalName.None? || body.originalName == Some("") ==> row.originalName == Some(DefaultName))
      && row.transcript.None? && row.socialData.None?
  {
  }

  /**
   * `POST`. `userId` is the session's user (absent or empty when signed
   * out); `createOk` says whether the insert succeeds.
   */
  method Post(db: Database, userId: Option<string>, body: VideosBody, createOk: bool) returns (reply: Reply)
    requires db.Valid()
    modifies db
    ensures db.Valid()
    ensures db.processedFrames == old(db.processedFrames)
    ensures userId.None? || userId.value == "" ==>
      reply == Failure(401, "Unauthorized") && db.videos == old(db.videos)
    ensures userId.Some? && userId.value != "" && !Complete(body) ==>
      reply == Failure(400, "Missing required fields") && db.videos == old(db.videos)
    ensures userId.Some? && userId.value != "" && Complete(body) && !createOk ==>
      reply == Failure(500, "Internal Server Error") && db.videos == old(db.videos)
    ensures userId.Some? && userId.value != "" && Complete(body) && createOk ==>
      && reply.Created? && reply.row == NewRow(userId.value, body)
      && reply.id !in old(db.videos)
      && db.videos == old(db.videos)[reply.id := NewRow(userId.value, body)]
  {
    if userId.None? || userId.value == "" {
      return Failure(401, "Unauthorized");
    }
    if !Complete(body) {
      return Failure(400, "Missing required fields");
    }
    var row := NewRow(userId.value, body);
    var created := db.CreateVideo(row, createOk);
    if created.None? {
      return Failure(500, "Internal Server Error");
    }
    reply := Created(created.value, row);
  }
}
