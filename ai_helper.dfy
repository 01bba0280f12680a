/**
 * The two calls to the AI services. The services themselves are parameters:
 * `transcribe` is the whole fetch-and-transcribe exchange for one audio URL,
 * `complete` the chat completion for one prompt and `parse` the JSON parse of
 * the answer. Both helpers turn every failure into `null` (`None`) and never
 * raise.
 */
module AiHelper {
  import opened Wrappers
  import opened Records

  /** What the transcription endpoint answers: a bare string or an object with `text`. */
  datatype TranscriptionResponse = TextBody(text: string) | ObjectBody(textField: Option<string>)

  /** The transcription exchange either throws (fetch, blob or service error) or answers. */
  datatype TranscribeOutcome = TranscribeThrew | Transcribed(response: TranscriptionResponse)

  /** `getTranscript(audioUrl)`: the service's answer, or `null` on any exception. */
  function GetTranscript(audioUrl: string, transcribe: string -> TranscribeOutcome): (r: Option<TranscriptionResponse>)
    ensures r.None? <==> transcribe(audioUrl).TranscribeThrew?
    ensures r.Some? ==> transcribe(audioUrl) == Transcribed(r.value)
  {
    match transcribe(audioUrl)
    case TranscribeThrew => None
    case Transcribed(response) => Some(response)
  }

  /** The most transcript characters the prompt carries. */
  const TranscriptLimit: nat := 20000

  /** The fixed text before the transcript in the prompt. */
  const PromptHead: string := "\n  Analyze this video transcript and generate social media assets.\n  Return strictly valid JSON with no markdown. Structure:\n  {\n    \"title\": \"YouTube Title (Catchy, <60 chars)\",\n    \"description\": \"YouTube Description (SEO optimized, 2 sentences)\",\n    \"twitter\": [\"Tweet 1\", \"Tweet 2 (Thread)\"],\n    \"linkedin\": \"Professional post text\",\n    \"instagram\": \"Casual caption with hashtags\"\n  }\n\n  TRANSCRIPT:\n  "

  /** The fixed text after the transcript in the prompt. */
  const PromptTail: string := "\n  "

  /** `transcript.substring(0, 20000)`. */
  function Excerpt(transcript: string): (r: string)
    ensures |r| == if |transcript| <= TranscriptLimit then |transcript| else TranscriptLimit
    ensures r == transcript[..|r|]
  {
    if |transcript| <= TranscriptLimit then transcript else transcript[..TranscriptLimit]
  }

  /** The prompt sent to the text-generation service. */
  function Prompt(transcript: string): string {
    PromptHead + Excerpt(transcript) + PromptTail
  }

  /**
   * The prompt embeds exactly the first min(|transcript|, 20000) characters,
   * and a transcript of at most 20000 characters whole.
   */
  lemma PromptEmbedsExcerpt(transcript: string)
    ensures var p := Prompt(transcript);
      && |p| == |PromptHead| + |Excerpt(transcript)| + |PromptTail|
      && p[..|PromptHead|] == PromptHead
      && p[|PromptHead|..|p| - |PromptTail|] == transcript[..|Excerpt(transcript)|]
      && p[|p| - |PromptTail|..] == PromptTail
    ensures |transcript| <= TranscriptLimit ==> Prompt(transcript) == PromptHead + transcript + PromptTail
  {
    var e := Excerpt(transcript);
    Framed(PromptHead, e, PromptTail);
  }

  /** A text framed by a head and a tail is read back from between them. */
  lemma Framed(head: string, body: string, tail: string)
    ensures var p := head + body + tail;
      && |p| == |head| + |body| + |tail|
      && p[..|head|] == head
      && p[|head|..|p| - |tail|] == body
      && p[|p| - |tail|..] == tail
  {
    var p := head + body + tail;
    assert p[|head|..|p| - |tail|] == body;
  }

  /** What the chat endpoint answers: it throws, or returns choices whose message content may be null. */
  datatype Completion = ChatThrew | ChatAnswer(choices: seq<Option<string>>)

  /** `content ? JSON.parse(content) : null` for the first choice, with exceptions caught. */
  function ParsedContent(answer: Completion, parse: string -> Option<SocialData>): Option<SocialData> {
    match answer
    case ChatThrew => None
    case ChatAnswer(choices) =>
      // an empty `choices` makes `choices[0].message` throw, which is caught
      if |choices| == 0 then None
      else match choices[0]
        case None => None
        case Some(content) => if content == "" then None else parse(content)
  }

  /**
   * `generateSocialInfo(transcript)`: the parsed social copy, or `null` when
   * the call throws, no choice comes back, the content is empty or null, or
   * the content does not parse.
   */
  function GenerateSocialInfo(transcript: string, complete: string -> Completion,
                              parse: string -> Option<SocialData>): (r: Option<SocialData>)
    ensures var answer := complete(Prompt(transcript));
      r.Some? <==> (answer.ChatAnswer? && |answer.choices| > 0 && answer.choices[0].Some?
                    && answer.choices[0].value != "" && parse(answer.choices[0].value).Some?)
    ensures var answer := complete(Prompt(transcript));
      r.Some? ==> r == parse(answer.choices[0].value)
  {
    ParsedContent(complete(Prompt(transcript)), parse)
  }
}
