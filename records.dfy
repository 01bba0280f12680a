/** The rows the relational store holds for the core, and the AI-generated social copy. */
module Records {
  import opened Wrappers
  import opened Ranking

  /** The life cycle of a Video row: `processing` until a job attempt ends. */
  datatype Status = Processing | Completed | Failed

  /** The string stored in the `status` column. */
  function StatusName(s: Status): string {
    match s
    case Processing => "processing"
    case Completed => "completed"
    case Failed => "failed"
  }

  /**
   * Social copy parsed from the text-generation service's JSON answer. Each
   * field may be missing from the answer.
   */
  datatype SocialData = SocialData(
    title: Option<string>,
    description: Option<string>,
    twitter: Option<seq<string>>,
    linkedin: Option<string>,
    instagram: Option<string>,
    youtube: Option<string>)

  datatype VideoRow = VideoRow(
    userId: string,
    publicId: string,
    originalUrl: string,
    originalName: Option<string>,
    duration: Option<real>,
    status: Status,
    transcript: Option<string>,
    socialData: Option<SocialData>)

  /** The one persisted record of a job's winning frame. */
  datatype ProcessedFrameRow = ProcessedFrameRow(
    userId: string,
    videoId: string,
    imageUrl: string,
    publicId: string,
    score: Score)

  /** One field of an update: left as it is (`undefined`) or assigned. */
  datatype Write<T> = Untouched | Assign(value: T)

  /** The `data` of a `video.update` call made by the worker. */
  datatype VideoPatch = VideoPatch(
    status: Status,
    transcript: Write<Option<string>>,
    socialData: Write<SocialData>)

  /** The row after the update: assigned fields replaced, the rest kept. */
  function ApplyPatch(row: VideoRow, patch: VideoPatch): (r: VideoRow)
    ensures r.status == patch.status
    ensures r.transcript == if patch.transcript.Assign? then patch.transcript.value else row.transcript
    ensures r.socialData == if patch.socialData.Assign? then Some(patch.socialData.value) else row.socialData
    ensures r.userId == row.userId && r.publicId == row.publicId && r.originalUrl == row.originalUrl
    ensures r.originalName == row.originalName && r.duration == row.duration
  {
    row.(
      status := patch.status,
      transcript := if patch.transcript.Assign? then patch.transcript.value else row.transcript,
      socialData := if patch.socialData.Assign? then Some(patch.socialData.value) else row.socialData)
  }
}
