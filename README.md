# pixelate-saas: the video-processing core, modelled in Dafny

This project models the processing pipeline of pixelate-saas, a web
application that takes an uploaded video and does two things:

- it extracts a few still frames, scores each one for sharpness and
  exposure, uploads the best as the video's thumbnail, and records it;
- alongside that, it transcribes the audio and asks a text-generation
  service for social-media copy.

The model covers these parts:

- **Worker job handler** (`Worker`), from `worker/frameProcessor.ts`. It is
  one job attempt, written as imperative methods over the classes of
  `Store`. The stages are: download; frame extraction beside AI enrichment;
  scoring; stable descending sort; upload; the Video update and the
  ProcessedFrame insert; the `failed` marking in the catch block; and the
  cleanup in the finally block. Each collaborator's answer is a field of an
  `Environment` value: the download result, ffmpeg's result, the directory
  listing, each frame's score, the AI services, the upload, the insert and
  which removals fail. The order and effect of every write shows in the
  postconditions.
- **Frame scoring** (`FrameScoring`), from `lib/frameScoring.ts`. It covers:
  - the two stride-4 loops over RGBA byte arrays (`array<Byte>`);
  - mean and variance as folds over `real`;
  - the +500 exposure bonus.
- **Legacy worker** (`LegacyWorker`), from `app/worker/frameProcessor.ts`.
  It covers the argmax loop with strict `>`, the frames and output path
  derivations, and the copy to `public/outputs`.
- **AI helpers** (`AiHelper`), from `lib/ai-helper.ts`. These are
  `getTranscript` and `generateSocialInfo`: the 20000-character excerpt and
  null on every failure.
- **Presentation helpers**:
  - the detail card's thumbnail, name, alt text, duration badge and status
    label (`VideoDetailCard`);
  - `formatDuration` of the list card (`VideoCard`);
  - the AI layer's content and copy-button rule (`AiAgentLayer`).
- **API handlers**:
  - `POST /api/jobs` (`JobsRoute`): the auth and file gates, the
    white-space sanitisation of file names, the saved file and the queued
    job;
  - `POST /api/videos/process` (`ProcessRoute`): validation, then create,
    then enqueue;
  - `POST /api/videos` (`VideosRoute`): validation, defaults, create.

Shared modules hold the rest:

- `Wrappers`: Option and Result.
- `JsString`: the JavaScript string built-ins used. These are `indexOf`,
  `lastIndexOf`, `replace` with a string pattern (first occurrence only),
  `endsWith`, `join`, `toString` of a non-negative integer and `padStart`.
- `NodePath`: `path.join`, `dirname` and `basename`.
- `Ranking`: scores as `NegInf | Finite(real)`, the earliest maximum, and the
  stable descending sort.
- `Records`: the Video and ProcessedFrame rows, the social copy, and the
  worker's update patches.
- `Store`: the relational store, the job queue, the local disk and the
  object storage, as classes.

Two behaviours of the code are worth stating outright, and the model keeps
both:

- A job whose frames all score `-Infinity` does not fail: nothing checks
  for it, and the first extracted frame is uploaded
  (`Worker.BestIsEarliestMax`).
- A job fails with "No frames extracted" not only when ffmpeg fails but
  also when the output directory holds no `.jpg` entry
  (`NoFramesExtracted`).

## Model

| member | source | states |
|---|---|---|
| JsString.IndexOf | components/video-detail/VideoCard.tsx:26-27 | `indexOf` finds the first occurrence of the pattern, and none exists before it; `None` means no occurrence anywhere |
| JsString.LastIndexOf | app/worker/frameProcessor.ts:39 | `lastIndexOf` finds an occurrence of the character with none after it; `None` means the character is absent |
| JsString.ReplaceFirst | components/video-detail/VideoCard.tsx:26-27 | `replace` with a string pattern leaves a string without the pattern unchanged |
| JsString.ReplaceFirstAt | components/video-detail/VideoCard.tsx:26-27 | at the first occurrence `i`, the result is the prefix up to `i`, then the replacement, then the rest after the pattern; later occurrences are kept |
| JsString.JoinLength | components/video-detail/AiAgentLayer.tsx:15 | `join` of n ≥ 1 strings holds the strings plus exactly n − 1 separators |
| JsString.NatToString | components/VideoCard.tsx:52 | `toString` of a non-negative integer is a non-empty string of decimal digits |
| JsString.DigitsValueOfNatToString | components/VideoCard.tsx:52 | reading the decimal rendering back gives the number |
| JsString.PadStart | components/VideoCard.tsx:52 | `padStart` gives the longer of the string and the width, with the string at the end and only fill characters before it |
| JsString.DigitsValueLeadingZeros | components/VideoCard.tsx:52 | padding with `0` keeps a digit string all digits and keeps its value |
| NodePath.JoinPath | worker/frameProcessor.ts:77-78 | `path.join(dir, name)` is the directory prefix (none for `.` or an empty directory, one `/` added unless already there) followed by the name |
| NodePath.JoinInjective | worker/frameProcessor.ts:77-78 | two names joined under the same directory give the same path only if the names are equal |
| NodePath.PlainDirPrefix | app/worker/frameProcessor.ts:54 | a directory of two or more characters not ending in `/` is followed by exactly one `/` |
| NodePath.StripTrailing | app/worker/frameProcessor.ts:39 | `dirname` and `basename` read the path without its trailing `/`s: a prefix of it that ends in no `/` unless it is the root; a path without a trailing `/` is kept whole |
| NodePath.NormalPrefix | app/worker/frameProcessor.ts:39 | a prefix of a path without `//` or a leading `./` has neither |
| NodePath.JoinStripped | app/worker/frameProcessor.ts:39 | for a normal path without trailing `/`, joining its dirname with its basename plus a suffix gives the path plus the suffix |
| NodePath.JoinDirnameBasename | app/worker/frameProcessor.ts:39 | for a normal path, joining its dirname with its basename plus a suffix gives the path without its trailing `/`s plus the suffix (`a/b/` gives `a/b-frames`), and the path itself plus the suffix when it has no trailing `/` |
| Ranking.FirstMaxIndex | worker/frameProcessor.ts:128-129 | the returned index holds a maximal score, and every earlier index holds a strictly smaller one |
| Ranking.FirstMaxUnique | worker/frameProcessor.ts:128-129 | at most one index is the earliest maximum |
| Ranking.FirstMaxIsIndex | worker/frameProcessor.ts:128-129 | any index that is the earliest maximum is the one `FirstMaxIndex` computes |
| Ranking.InsertDesc | worker/frameProcessor.ts:128 | one insertion step of the sort adds exactly one element |
| Ranking.InsertDescPermutes | worker/frameProcessor.ts:128 | an insertion adds exactly the inserted frame to the multiset |
| Ranking.SortDesc | worker/frameProcessor.ts:128 | the sort keeps the length |
| Ranking.InsertDescKeepsOrder | worker/frameProcessor.ts:128 | inserting into a descending list keeps it descending |
| Ranking.SortDescSortsAndPermutes | worker/frameProcessor.ts:128 | `sort((a, b) => b.score - a.score)` returns a descending permutation of its input |
| Ranking.SortDescHeadIsFirstMax | worker/frameProcessor.ts:128-129 | element 0 of the stable descending sort is the earliest frame with the maximal score, whatever the scores |
| Records.ApplyPatch | worker/frameProcessor.ts:141-148 | a `video.update` sets the status, replaces only the fields it assigns, and leaves user, public id, URL, name and duration alone |
| Store.Database.CreateVideo | app/api/videos/process/route.ts:19-32 | `video.create` either fails and changes nothing, or inserts the row under an id no row had, keeping ids valid |
| Store.Database.UpdateVideo | worker/frameProcessor.ts:141-148 | `video.update` succeeds iff the row exists, and then applies the patch to that row alone |
| Store.Database.CreateProcessedFrame | worker/frameProcessor.ts:151-159 | `processedFrame.create` appends exactly the given row on success, and nothing otherwise |
| Store.JobQueue.Add | app/api/jobs/route.ts:49-56 | `queue.add` appends the job and answers its id on success; a failed add leaves the queue as it was |
| Store.FileSystem.Create | worker/frameProcessor.ts:37 | writing a file or making a directory adds that path and nothing else |
| Store.FileSystem.Copy | app/worker/frameProcessor.ts:57 | `copyFile` adds the destination and records which file it copies |
| Store.FileSystem.RemoveQuietly | worker/frameProcessor.ts:174-179 | removal drops every target except those whose removal errors; the errors are swallowed |
| Store.ObjectStorage.Upload | worker/frameProcessor.ts:131-136 | the upload stores exactly one asset (path, folder, URL, public id) when the service answers, and none when it errors |
| AiHelper.GetTranscript | lib/ai-helper.ts:6-26 | `getTranscript` is `null` exactly when the exchange throws, and otherwise is the service's answer |
| AiHelper.Excerpt | lib/ai-helper.ts:44 | `substring(0, 20000)` is the prefix of length min(length, 20000) |
| AiHelper.Prompt | lib/ai-helper.ts:32-45 | computes the prompt text; stated by `PromptEmbedsExcerpt` |
| AiHelper.ParsedContent | lib/ai-helper.ts:47-59 | computes the parsed first choice, `null` on every failure; stated by `GenerateSocialInfo` |
| AiHelper.PromptEmbedsExcerpt | lib/ai-helper.ts:32-45 | the prompt is the fixed head, then exactly the first min(length, 20000) transcript characters, then the tail; a transcript of at most 20000 characters is embedded whole |
| AiHelper.Framed | lib/ai-helper.ts:32-45 | the text between the prompt's head and tail is the embedded text |
| AiHelper.GenerateSocialInfo | lib/ai-helper.ts:29-59 | the result is non-null exactly when the call answers with a first choice whose content is non-empty and parses; it is then the parsed copy; every failure gives `null` |
| Worker.TempPathsKeyedByJob | worker/frameProcessor.ts:76-78 | temp paths are keyed by job id: two jobs share neither the video file nor the frames directory, and a video file is never a frames directory |
| Worker.JpgFrames | worker/frameProcessor.ts:42-45 | the extraction result has at most as many entries as the listing; which entries and in what order is stated by `JpgFramesShape` and `JpgFramesInOrder` |
| Worker.JpgFramesShape | worker/frameProcessor.ts:42-45 | every frame is a `.jpg` entry of the listing joined with the output directory, every `.jpg` entry gives a frame, and there are none iff no entry ends in `.jpg` |
| Worker.JpgFramesInOrder | worker/frameProcessor.ts:42-45 | the filter keeps listing order: the frames of two listings one after the other are the first's frames then the second's, and a single entry gives its joined path iff it ends in `.jpg` |
| Worker.JpgFramesComplete | worker/frameProcessor.ts:42-45 | every `.jpg` entry of the listing, joined with the output directory, is among the frames |
| Worker.JpgFramesFromListing | worker/frameProcessor.ts:42-45 | every extracted frame is some `.jpg` entry of the listing joined with the output directory |
| Worker.JpgFramesNone | worker/frameProcessor.ts:42-45 | extraction yields no frames iff no listing entry ends in `.jpg` |
| Worker.AudioUrl | worker/frameProcessor.ts:95 | at a final extension (a `.` followed by a non-empty tail with no `/` or `.`), the rewrite is the URL up to it plus `.mp3`; without one, the URL is unchanged |
| Worker.ExtensionUnique | worker/frameProcessor.ts:95 | a URL has at most one final extension |
| Worker.AudioUrlAt | worker/frameProcessor.ts:95 | at a known final extension, the rewrite splices in `.mp3` there |
| Worker.RewrittenHasExtension | worker/frameProcessor.ts:95 | the rewritten URL has `.mp3` as its final extension, at the same place |
| Worker.AudioUrlIdempotent | worker/frameProcessor.ts:95 | rewriting an audio URL again changes nothing |
| Worker.NormaliseTranscript | worker/frameProcessor.ts:98-100 | a string answer is kept as it is; otherwise the answer's `text` when present; no answer, or an object without `text`, gives `''`; so a non-empty transcript is the string answer or the answer's `text` |
| Worker.Enrich | worker/frameProcessor.ts:92-110 | enrichment that yields metadata carries a non-empty transcript |
| Worker.EnrichShape | worker/frameProcessor.ts:92-110 | enrichment is `null` iff the normalised transcript is empty, so always when transcription throws; otherwise it holds that transcript and the generated copy |
| Worker.ScoreFrames | worker/frameProcessor.ts:116-125 | scoring keeps the number of frames |
| Worker.ScoreFramesShape | worker/frameProcessor.ts:116-125 | each frame keeps its path and position; a frame whose scoring throws gets `-Infinity` and the batch goes on |
| Worker.CompletionPatch | worker/frameProcessor.ts:141-148 | computes the success update: `completed`, the transcript or `null`, the social copy only when present; its effect on the row is stated by `EnrichmentNeverFailsJob` and `FrameInsertFailureMarksFailed` |
| Worker.StageError | worker/frameProcessor.ts:80-159 | computes the error of the first failing stage; stated by `Prepare`, `Attempt` and `ProcessJob` |
| Worker.FinalRow | worker/frameProcessor.ts:141-169 | computes the Video row after one attempt; stated by `ProcessJob` and the three lemmas after it |
| Worker.Prepare | worker/frameProcessor.ts:80-129 | the try block up to selection fails iff download, ffmpeg or a non-empty `.jpg` listing is missing, with that stage's error; otherwise it yields the sorted head and the enrichment; it creates the video file once bytes arrive and the frames directory once extraction starts |
| Worker.Publish | worker/frameProcessor.ts:131-159 | after selection: upload, then mark `completed`, then insert one ProcessedFrame, each only if the previous step succeeded, with nothing else written |
| Worker.Settle | worker/frameProcessor.ts:164-171 | the catch block marks the row `failed` and rethrows; if the row is missing, that update's own error propagates |
| Worker.Attempt | worker/frameProcessor.ts:80-159 | the whole try block fails iff the upload, the row or the insert is missing, with the stage's error; it states the assets, rows and paths it leaves |
| Worker.ProcessJob | worker/frameProcessor.ts:63-181 | one attempt resolves iff everything up to the insert succeeds. It uploads at most the best frame, inserts at most one row, and leaves the Video row as `FinalRow`. Both temp paths are removed on every outcome, except those whose removal fails |
| Worker.BestIsEarliestMax | worker/frameProcessor.ts:128-129 | the uploaded frame is the earliest one with the maximal score; when no frame scores, it is the first frame, with `-Infinity` |
| Worker.EnrichmentNeverFailsJob | worker/frameProcessor.ts:141-148 | with a working upload and insert, a throwing transcription still completes the job, with a `null` transcript and the social copy untouched |
| Worker.FrameInsertFailureMarksFailed | worker/frameProcessor.ts:151-169 | a failed frame insert leaves the completion's transcript and copy but ends with status `failed` |
| Worker.EarlyFailureOnlyMarksFailed | worker/frameProcessor.ts:164-169 | an attempt that never uploads only sets the row's status to `failed` |
| FrameScoring.Luminance | lib/frameScoring.ts:24 | luminance lies in [0, 255], and equals the channel value for a grey pixel |
| FrameScoring.Lums | lib/frameScoring.ts:19-26 | one luminance value per RGBA quad |
| FrameScoring.LumsPerQuad | lib/frameScoring.ts:19-26 | pixel k's luminance is read from bytes 4k, 4k+1 and 4k+2 |
| FrameScoring.AlphaIgnored | lib/frameScoring.ts:19-26 | changing any pixel's alpha byte changes no luminance value |
| FrameScoring.LumsExtend | lib/frameScoring.ts:19-26 | each loop step appends the next quad's luminance |
| FrameScoring.SumAppend | lib/frameScoring.ts:30 | the `reduce` sum over one more value adds that value |
| FrameScoring.LuminanceValues | lib/frameScoring.ts:18-26 | the first loop pushes exactly the luminance values of the Laplacian buffer, in pixel order |
| FrameScoring.SumLuminance | lib/frameScoring.ts:36-45 | the second loop's `sum` is the sum of the luminances and `count` the pixel count |
| FrameScoring.AverageBrightness | lib/frameScoring.ts:36-46 | `avg` is the mean luminance of the unfiltered buffer, and 0 when it is empty |
| FrameScoring.ScoreSpec | lib/frameScoring.ts:15-49 | computes the score from the two buffers; stated by `ScoreRule` and proved for the loops by `ScoreImage` |
| FrameScoring.ScoreImage | lib/frameScoring.ts:15-49 | the method returns `ScoreSpec`: 0 for an empty Laplacian buffer, else the variance plus the bonus when well exposed |
| FrameScoring.SumSqDevNonNegative | lib/frameScoring.ts:31 | a sum of squared deviations is never negative |
| FrameScoring.VarianceNonNegative | lib/frameScoring.ts:30-31 | the variance term is never negative |
| FrameScoring.SumConstant | lib/frameScoring.ts:30 | n equal values sum to n times the value |
| FrameScoring.SumSqDevConstant | lib/frameScoring.ts:31 | equal values have no deviation from their value |
| FrameScoring.ConstantVariance | lib/frameScoring.ts:30-31 | equal values have that value as their mean and variance 0 |
| FrameScoring.ConstantLaplacianNoSharpness | lib/frameScoring.ts:30-32 | a constant-luminance Laplacian buffer scores only the exposure bonus, if any |
| FrameScoring.SumBounds | lib/frameScoring.ts:30 | values within [lo, hi] sum to within [n·lo, n·hi] |
| FrameScoring.LumsInRange | lib/frameScoring.ts:24 | every luminance value lies in [0, 255] |
| FrameScoring.MeanBounds | lib/frameScoring.ts:46 | the mean of values within [lo, hi] is within [lo, hi] |
| FrameScoring.BrightnessInRange | lib/frameScoring.ts:38-46 | the average brightness lies in [0, 255] |
| FrameScoring.ScoreRule | lib/frameScoring.ts:28-47 | empty Laplacian gives 0. Otherwise the score is the non-negative variance, or the variance plus exactly 500, with +500 iff the average brightness is strictly between 80 and 220. An empty unfiltered buffer never earns the bonus |
| LegacyWorker.FirstUnscored | app/worker/frameProcessor.ts:45-46 | `None` iff every frame scores; otherwise it is the first frame whose scoring throws |
| LegacyWorker.SelectBest | app/worker/frameProcessor.ts:42-51 | the loop rejects at the first frame whose scoring throws. No frames keep `best` undefined, at `-Infinity`. Otherwise `best` is the earliest frame with the maximal score, and `bestScore` is its score |
| LegacyWorker.SelectionIsMaximum | app/worker/frameProcessor.ts:42-51 | the kept score is at least every frame's score, and strictly above every earlier frame's |
| LegacyWorker.SameChoiceAsWorker | app/worker/frameProcessor.ts:42-51 | the strict-`>` loop picks the same frame as the current worker's stable descending sort |
| LegacyWorker.FramesDirOf | app/worker/frameProcessor.ts:39 | computes `join(dirname(p), basename(p) + '-frames')`; stated by `FramesDirBesideFile` |
| LegacyWorker.FramesDirBesideFile | app/worker/frameProcessor.ts:39 | for a normal path, the frames directory is the path without its trailing `/` followed by `-frames`, so the path itself followed by `-frames` when it has no trailing `/` |
| LegacyWorker.LegacyOutcome | app/worker/frameProcessor.ts:35-64 | computes the job's answer from its first failing step, in the order the steps run; stated by `HandleJob` and `ExtractAndSelect` |
| LegacyWorker.OutputFileServesUrl | app/worker/frameProcessor.ts:54-61 | the output file is `<cwd>/public` followed by the returned URL `/outputs/<id>.jpg` |
| LegacyWorker.CopyBest | app/worker/frameProcessor.ts:54-63 | it makes the outputs directory. An undefined `best` or a failed copy rejects. Otherwise it copies `best` to `<id>.jpg` and answers the public URL |
| LegacyWorker.RemoveTwice | app/worker/frameProcessor.ts:39-57 | removing two created paths one after the other removes both |
| LegacyWorker.CreatedByStage | app/worker/frameProcessor.ts:39-57 | the paths left behind by how far the job gets: the frames directory, then the outputs directory, then the output file |
| LegacyWorker.ExtractAndSelect | app/worker/frameProcessor.ts:39-51 | the steps before the copy reject iff ffmpeg fails or a scoring throws, with the job's own error; otherwise they yield the chosen frame, or none for no frames |
| LegacyWorker.HandleJob | app/worker/frameProcessor.ts:35-64 | the job answers `LegacyOutcome`: the URL, or its first failing step. It leaves exactly `LegacyCreated` on disk, and on success the output file is a copy of the chosen frame |
| VideoDetailCard.OrElse | components/video-detail/VideoCard.tsx:36 | `a \|\| fallback`: the value when truthy, else the fallback |
| VideoDetailCard.ReplaceFirstLength | components/video-detail/VideoCard.tsx:26-27 | one replacement changes the length by the patterns' difference exactly when the pattern occurs |
| VideoDetailCard.RawThumbnailUrl | components/video-detail/VideoCard.tsx:20 | computes `frames?.[0]?.imageUrl \|\| originalUrl`; what it yields in each case is stated by `ThumbnailRule` |
| VideoDetailCard.ThumbnailUrl | components/video-detail/VideoCard.tsx:20-28 | computes the image `src`: the placeholder for a falsy source, else the rewritten source; stated by `ThumbnailRule` |
| VideoDetailCard.StatusLabel | components/video-detail/VideoCard.tsx:53-57 | computes the status line's label; stated by `StatusLabelIffKnown` |
| VideoDetailCard.ThumbnailRule | components/video-detail/VideoCard.tsx:20-28 | the source is the first frame's image when truthy, else the video URL, whatever that URL is. Both falsy gives exactly `/placeholder.png`. The URL grows by the transformations iff it holds `/upload/`; a URL with neither pattern is unchanged. The result is never empty |
| VideoDetailCard.DisplayName | components/video-detail/VideoCard.tsx:50 | the heading is the name when truthy, else `Untitled Video`; it is never empty |
| VideoDetailCard.AltText | components/video-detail/VideoCard.tsx:36 | the alt text is the name when truthy, else `Video thumbnail`; it is never empty |
| VideoDetailCard.Round | components/video-detail/VideoCard.tsx:43 | `Math.round` is within half a unit of its argument, with halves rounded up |
| VideoDetailCard.DurationBadge | components/video-detail/VideoCard.tsx:43 | the badge is 0 without a duration, otherwise the duration rounded; a non-negative duration gives a non-negative badge |
| VideoDetailCard.StatusLabelIffKnown | components/video-detail/VideoCard.tsx:54-56 | a label shows exactly for the three stored status names, and the three labels differ |
| VideoCard.FormatDuration | components/VideoCard.tsx:49-53 | computes `m:ss` for whole seconds; stated by `FormatDurationShape` and `ParseFormatDuration` |
| VideoCard.FormatSecondsAsWritten | components/VideoCard.tsx:49-53 | computes the display as written for any non-negative duration; stated by `AsWrittenAgreesOnWholeSeconds` and `FractionalMinuteShowsSixty` |
| VideoCard.FormatSeconds | components/VideoCard.tsx:49-53 | computes the corrected display, rounding first; stated by `FormatSecondsInRange` |
| VideoCard.SecondsField | components/VideoCard.tsx:51-52 | a seconds value below 60 pads to exactly two digits that read back as it |
| VideoCard.FormatDurationShape | components/VideoCard.tsx:49-53 | for whole seconds there is exactly one `:`, minute digits before it and exactly two digits after it; the minutes are seconds / 60 and the seconds field is below 60, and minutes·60 + field is the input |
| VideoCard.ParseFormatDuration | components/VideoCard.tsx:49-53 | formatting whole seconds and reading the text back gives the seconds |
| VideoCard.AsWrittenAgreesOnWholeSeconds | components/VideoCard.tsx:49-53 | the code as written agrees with the whole-second model on whole seconds |
| VideoCard.FractionalMinuteShowsSixty | components/VideoCard.tsx:50-52 | as written, 59.6 seconds displays `0:60` |
| VideoCard.FormatSecondsInRange | components/VideoCard.tsx:49-53 | rounding first keeps the seconds field below 60, and the text reads back as the rounded duration |
| AiAgentLayer.GetContent | components/video-detail/AiAgentLayer.tsx:11-21 | the content shown is never empty, and a null social copy shows the fallback |
| AiAgentLayer.JoinEmpty | components/video-detail/AiAgentLayer.tsx:15 | a join with a non-empty separator is `""` iff there are no strings or one empty string |
| AiAgentLayer.TwitterContent | components/video-detail/AiAgentLayer.tsx:15 | a missing array, or a join that is `""`, shows the fallback. Otherwise the join is shown: the tweets with n − 1 separators |
| AiAgentLayer.ContentRule | components/video-detail/AiAgentLayer.tsx:11-21 | the content is never empty. A null social copy shows the fallback on every tab. The other tabs show their field when truthy, else the fallback |
| AiAgentLayer.CopyDisabledIffFallback | components/video-detail/AiAgentLayer.tsx:89 | copying is disabled iff the fallback is shown; two or more tweets always enable it |
| JobsRoute.RunLength | app/api/jobs/route.ts:42 | the run counted is all white space and is maximal |
| JobsRoute.PerCharSkipsRun | app/api/jobs/route.ts:42 | after white space, the rest of a white-space run produces nothing |
| JobsRoute.SanitiseIsPerChar | app/api/jobs/route.ts:42 | `replace(/\s+/g, '_')` turns each maximal run into one `_`: it equals the character-by-character rule |
| JobsRoute.VisibleSkipsRun | app/api/jobs/route.ts:42 | a white-space run contributes no visible characters |
| JobsRoute.Sanitise | app/api/jobs/route.ts:42 | the sanitised name holds no white space and is no longer than the name |
| JobsRoute.NonSpaceSkipsRun | app/api/jobs/route.ts:42 | a white-space run contributes no non-space characters |
| JobsRoute.SanitiseShape | app/api/jobs/route.ts:42 | the sanitised name has no white space; every non-space character of the name, `_` included, occurs in it in the same order; and apart from `_`s the two hold the same characters in the same order |
| JobsRoute.SanitiseSpaceFree | app/api/jobs/route.ts:42 | a name without white space is unchanged |
| JobsRoute.SanitiseIdempotent | app/api/jobs/route.ts:42 | sanitising twice equals sanitising once |
| JobsRoute.UniqueName | app/api/jobs/route.ts:42 | computes `${Date.now()}-${sanitised name}`; its shape is stated by `UniqueNameShape` |
| JobsRoute.UploadPath | app/api/jobs/route.ts:41-43 | computes the saved file's path under the temp directory; its effect is stated by `Post` |
| JobsRoute.UniqueNameShape | app/api/jobs/route.ts:42 | the saved name is the timestamp's digits, then `-`, then the sanitised name, with no white space |
| JobsRoute.Post | app/api/jobs/route.ts:21-64 | signed out gives 401 and no file gives 400, both writing nothing. A failed write gives 500 with nothing written or enqueued. A failed enqueue gives 500 with the file left. Otherwise the job is enqueued with the path, user, raw name, 3 attempts and exponential backoff of 1000 |
| ProcessRoute.Post | app/api/videos/process/route.ts:6-47 | 401 and 400 leave the store and queue untouched, and a failed create gives 500 with nothing enqueued. Otherwise a `processing` row is created under a fresh id, and only then the job for that id and URL is enqueued. A failed enqueue gives 500 and leaves the row |
| VideosRoute.NewRowShape | app/api/videos/route.ts:25-34 | the created row is the caller's, with the request's URL, public id and non-zero duration, the name or `Untitled Video`, status `processing`, and no AI fields |
| VideosRoute.Post | app/api/videos/route.ts:6-44 | signed out gives 401, a missing field or a zero duration gives 400, and a failed create gives 500, none changing the store. Otherwise the new row is inserted under a fresh id and returned as is |

## Left out

- Concurrency is not modelled: `Promise.all`, the worker's `concurrency: 2`,
  and the queue's retry and backoff. One attempt is modelled sequentially.
  Extraction and enrichment only meet after both settle, and frame scores
  are combined only after all of them settle.
- IEEE floating point is not modelled. Scores, luminance and durations are
  exact `real`s, and `-Infinity` is the `NegInf` case of a score. NaN from
  `-Infinity - -Infinity` in the sort comparator is treated as "equal", which
  is how JavaScript's stable sort treats it.
- Image decoding and the Laplacian convolution are the imaging library's and
  are not modelled. The convolved and unfiltered RGBA buffers are inputs to
  `FrameScoring.ScoreImage`. A scoring failure is an input (`None`).
- FrameScoring.LuminanceValues, FrameScoring.SumLuminance and
  FrameScoring.AverageBrightness require a buffer length that is a multiple
  of 4, which bitmaps have. A trailing partial quad, which would give NaN
  luminance, is not modelled.
- ffmpeg, the HTTP download, the directory listing, file contents, the
  upload service and the AI services are inputs of an environment value. The
  listing order is whatever the environment gives. Only the paths present on
  disk and the copy origins are modelled, not file bytes or individual frame
  files.
- `JSON.parse` is an input function from text to social copy. Values of the
  wrong type in the parsed object are not modelled.
- The `youtube` field that the AI layer shows is not among the fields the
  prompt asks for. It is modelled as an optional field like the others.
- Prisma ids are modelled as decimal counters. The real id format, and a
  row's `createdAt`, are not modelled.
- `Store.Database.UpdateVideo` models the one way such an update fails here,
  a missing row. Connection failures are not modelled.
- NodePath.JoinPath covers directories that are empty, `.`, end in `/`, or
  none of these, with names that have no separators at their ends. It does
  not collapse `..`, `./` or repeated `/`. NodePath.JoinDirnameBasename
  and LegacyWorker.FramesDirBesideFile are stated for paths without `//`
  and without a leading `./`, which `path.join` would normalise.
- Store.FileSystem.Create records only the path it creates. A recursive
  `mkdirSync` also creates missing ancestors such as `<cwd>/public`, which
  the model does not add. LegacyWorker.HandleJob's "exactly these paths"
  therefore counts only the paths the job names.
- JsString.ReplaceFirst does not model `$` substitution patterns, which none
  of the replacements used here contain.
- Strings are sequences of `char`, not UTF-16 code units. `substring(0,
  20000)` can split a surrogate pair in JavaScript, and the model cannot show
  this.
- VideoCard.FormatDuration takes whole seconds. Fractional input is covered
  only by `FormatSecondsAsWritten` and the finding below.
- VideosRoute.Post takes the duration already parsed. `parseFloat` of a
  string duration (NaN, a trailing unit) is not modelled.
- Thrown exceptions from authentication, `formData()`, `json()` and
  `arrayBuffer()` are not modelled. These would all give 500.
- Logging and console output are not modelled.
- The React state, the clipboard and the timers of the components are UI and
  are not modelled.
- The legacy worker's ffmpeg filename pattern is not modelled. Its frames are
  whatever `.jpg` entries the listing shows.
- `extractFrames`, which both workers have, is modelled once (`Worker.JpgFrames`).
- Worker.JpgFrames: its own contract bounds only the length. Which entries
  it keeps, and in what order, is stated by Worker.JpgFramesShape and
  Worker.JpgFramesInOrder.
- LegacyWorker.SelectBest is specified without a requirement that there be
  frames. An empty listing reaches `copyFile(undefined, …)`, which rejects,
  and the model keeps that as the `NoFrameToCopy` error.

## Findings

| source | as written | input that shows it | evidently intended | confidence | as-written member | corrected member |
|---|---|---|---|---|---|---|
| components/VideoCard.tsx:49-53 | minutes are `floor(s / 60)` and the seconds field is `round(s % 60)`, rounded after splitting | 59.6 seconds displays `0:60` | round the duration first, then split it, so 59.6 displays `1:00` and the field stays below 60 | not executed | VideoCard.FractionalMinuteShowsSixty | VideoCard.FormatSecondsInRange |
