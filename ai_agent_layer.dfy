/**
 * The content panel of the AI agent layer: the generated copy for the
 * selected platform tab, and the rule that disables the copy button.
 */
module AiAgentLayer {
  import opened Wrappers
  import opened JsString
  import opened Records

  datatype Tab = Twitter | LinkedIn | Instagram | YouTube

  const Fallback: string := "No content generated."
  const TweetSeparator: string := "\n\n---\n\n"

  /** `field || "No content generated."`. */
  function FieldOrFallback(field: Option<string>): string {
    if field.Some? && field.value != "" then field.value else Fallback
  }

  /**
   * `getContent()`: the tab's field of the social copy (a missing copy counts
   * as an empty object); the tweets are joined with a separator line.
   */
  function GetContent(tab: Tab, socialData: Option<SocialData>): (r: string)
    ensures r != ""
    ensures socialData.None? ==> r == Fallback
  {
    if socialData.None? then Fallback
    else
      var data := socialData.value;
      match tab
      case Twitter => if data.twitter.Some? then FieldOrFallback(Some(Join(data.twitter.value, TweetSeparator))) else Fallback
      case LinkedIn => FieldOrFallback(data.linkedin)
      case Instagram => FieldOrFallback(data.instagram)
      case YouTube => FieldOrFallback(data.youtube)
  }

  /** The button's `disabled`: no content, or the fallback text. */
  predicate CopyDisabled(content: string) {
    content == "" || content == Fallback
  }

  /** Joining with a non-empty separator gives `""` only for no strings or a single empty one. */
  lemma JoinEmpty(xs: seq<string>, sep: string)
    requires sep != ""
    ensures Join(xs, sep) == "" <==> |xs| == 0 || (|xs| == 1 && xs[0] == "")
  {
    if |xs| >= 2 {
      JoinLength(xs, sep);
    }
  }

  /**
   * The twitter tab: with n tweets whose join is not empty the text is the
   * tweets with n - 1 separators between them; without tweets, or when all
   * there is is a single empty tweet, it is the fallback.
   */
  lemma TwitterContent(data: SocialData)
    ensures data.twitter.None? ==> GetContent(Twitter, Some(data)) == Fallback
    ensures data.twitter.Some? ==>
      var tweets := data.twitter.value;
      && (Join(tweets, TweetSeparator) == "" <==> |tweets| == 0 || (|tweets| == 1 && tweets[0] == ""))
      && (Join(tweets, TweetSeparator) == "" ==> GetContent(Twitter, Some(data)) == Fallback)
      && (Join(tweets, TweetSeparator) != "" ==>
            GetContent(Twitter, Some(data)) == Join(tweets, TweetSeparator) &&
            |GetContent(Twitter, Some(data))| == TotalLength(tweets) + (|tweets| - 1) * |TweetSeparator|)
  {
    if data.twitter.Some? {
      var tweets := data.twitter.value;
      JoinEmpty(tweets, TweetSeparator);
      if |tweets| >= 1 {
        JoinLength(tweets, TweetSeparator);
      }
    }
  }

  /**
   * The text shown is never empty; a missing social copy shows the fallback
   * on every tab; the other tabs show their field verbatim when it is set.
   */
  lemma ContentRule(tab: Tab, socialData: Option<SocialData>)
    ensures GetContent(tab, socialData) != ""
    ensures socialData.None? ==> GetContent(tab, socialData) == Fallback
    ensures socialData.Some? && tab.LinkedIn? ==> GetContent(tab, socialData) == FieldOrFallback(socialData.value.linkedin)
    ensures socialData.Some? && tab.Instagram? ==> GetContent(tab, socialData) == FieldOrFallback(socialData.value.instagram)
    ensures socialData.Some? && tab.YouTube? ==> GetContent(tab, socialData) == FieldOrFallback(socialData.value.youtube)
  {
  }

  /**
   * The copy button is disabled exactly when the fallback text is shown,
   * because the content is never empty. Two or more tweets always enable it:
   * their join holds a line break, which the fallback text does not.
   */
  lemma CopyDisabledIffFallback(tab: Tab, socialData: Option<SocialData>)
    ensures CopyDisabled(GetContent(tab, socialData)) <==> GetContent(tab, socialData) == Fallback
    ensures socialData.Some? && tab.Twitter? && socialData.value.twitter.Some? && |socialData.value.twitter.value| >= 2 ==>
      !CopyDisabled(GetContent(tab, socialData))
  {
    ContentRule(tab, socialData);
    if socialData.Some? && tab.Twitter? && socialData.value.twitter.Some? && |socialData.value.twitter.value| >= 2 {
      var tweets := socialData.value.twitter.value;
      var joined := Join(tweets, TweetSeparator);
      assert joined == tweets[0] + TweetSeparator + Join(tweets[1..], TweetSeparator);
      assert joined[|tweets[0]|] == '\n';
      assert forall k :: 0 <= k < |Fallback| ==> Fallback[k] != '\n';
    }
  }
}
