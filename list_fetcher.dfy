/** `TranscriptListFetcher`: the decisions taken on the two responses YouTube sends while a
    catalog is fetched. The watch page is a string and the player response a record of
    optional fields; the requests themselves are not part of the model, so the page and
    the response are parameters. */
module ListFetcher {
  import opened Wrappers
  import opened KotlinStrings
  import opened Exceptions
  import opened VideoIds
  import opened Catalogs
  import opened CatalogBuilder

  /** `WATCH_URL` and `INNERTUBE_API_URL`, with their placeholders. */
  const WatchUrlTemplate := WatchUrlBase + "{video_id}"
  const PlayerUrlTemplate := PlayerUrlBase + "{api_key}"
  const YouTubeOrigin := "https://www.youtube.com/"
  const WatchUrlBase := YouTubeOrigin + "watch?v="
  const PlayerUrlBase := YouTubeOrigin + "youtubei/v1/player?key="

  /** The templates have no brace before their placeholder. */
  lemma OriginBraceless()
    ensures '{' !in YouTubeOrigin
  {
  }

  lemma WatchUrlBaseBraceless()
    ensures '{' !in WatchUrlBase
  {
    OriginBraceless();
  }

  lemma PlayerUrlBaseBraceless()
    ensures '{' !in PlayerUrlBase
  {
    OriginBraceless();
    assert '{' !in "youtubei/v1/player?key=";
  }

  /** The URL of the watch page, built by `replace` on the template. */
  function WatchUrl(videoId: string): (r: string)
    ensures r == WatchUrlBase + videoId
  {
    WatchUrlBaseBraceless();
    FillTemplate(WatchUrlBase, "{video_id}", videoId);
    ReplaceAll(WatchUrlTemplate, "{video_id}", videoId)
  }

  /** The URL of the player request, built by `replace` on the template. */
  function PlayerUrl(apiKey: string): (r: string)
    ensures r == PlayerUrlBase + apiKey
  {
    PlayerUrlBaseBraceless();
    FillTemplate(PlayerUrlBase, "{api_key}", apiKey);
    ReplaceAll(PlayerUrlTemplate, "{api_key}", apiKey)
  }

  /** A template that ends in its placeholder, with the placeholder's first character
      nowhere before it, becomes the text before the placeholder followed by the value. */
  lemma FillTemplate(before: string, placeholder: string, value: string)
    requires placeholder != [] && placeholder[0] !in before
    ensures ReplaceAll(before + placeholder, placeholder, value) == before + value
  {
    ReplaceAllAfterPrefix(before, placeholder, placeholder, value);
    ReplaceAllWhole(placeholder, value);
  }

  /** The page the fetcher requests for an ID is one the extractor maps back to that ID. */
  lemma WatchUrlRoundTrip(videoId: string)
    requires IsValidVideoId(videoId)
    ensures ExtractVideoId(WatchUrl(videoId)) == Success(videoId)
  {
    WatchUrlBaseSpelledOut();
    WatchUrlYieldsId(videoId);
  }

  lemma WatchUrlBaseSpelledOut()
    ensures WatchUrlBase == "https://www.youtube.com/watch?v="
  {
  }

  // ---------------------------------------------------------------------------------
  // The API key on the watch page

  /** `\s` of a Java regular expression: space, tab, line feed, vertical tab, form feed and
      carriage return. */
  predicate IsRegexSpace(c: char) {
    c == ' ' || c == '\t' || c == '\n' || c == '\U{0B}' || c == '\U{0C}' || c == '\r'
  }

  /** The number of `\s` characters `s` starts with. */
  function SpaceRun(s: string): (n: nat)
    ensures n <= |s|
    ensures forall i :: 0 <= i < n ==> IsRegexSpace(s[i])
    ensures n == |s| || !IsRegexSpace(s[n])
  {
    if s == [] || !IsRegexSpace(s[0]) then 0
    else
      var n := SpaceRun(s[1..]);
      assert forall i :: 1 <= i < 1 + n ==> s[i] == s[1..][i - 1];
      1 + n
  }

  /** The number of `[a-zA-Z0-9_-]` characters `s` starts with. */
  function KeyRun(s: string): (n: nat)
    ensures n <= |s|
    ensures forall i :: 0 <= i < n ==> IsIdChar(s[i])
    ensures n == |s| || !IsIdChar(s[n])
  {
    if s == [] || !IsIdChar(s[0]) then 0
    else
      var n := KeyRun(s[1..]);
      assert forall i :: 1 <= i < 1 + n ==> s[i] == s[1..][i - 1];
      1 + n
  }

  const ApiKeyMarker := "\"INNERTUBE_API_KEY\":"

  /** `"([a-zA-Z0-9_-]+)"` matches at the start of `u`. As a quote is not a key character,
      the greedy `+` never gives anything back: the match is a quote, all the key
      characters after it (at least one) and a closing quote. */
  predicate QuotedKeyFront(u: string) {
    |u| > 0 && u[0] == '"'
    && var n := KeyRun(u[1..]);
       n > 0 && n + 1 < |u| && u[n + 1] == '"'
  }

  /** The key between the quotes. */
  function QuotedKey(u: string): (key: string)
    requires QuotedKeyFront(u)
    ensures key != [] && forall k :: 0 <= k < |key| ==> IsIdChar(key[k])
    ensures "\"" + key + "\"" <= u
  {
    var n := KeyRun(u[1..]);
    var key := u[1..n + 1];
    assert u[..n + 2] == "\"" + key + "\"" by {
      forall i | 0 <= i < n + 2 ensures u[..n + 2][i] == ("\"" + key + "\"")[i] {
        if 0 < i < n + 1 {
          assert key[i - 1] == u[i];
        }
      }
    }
    key
  }

  /** What follows the marker and the spaces after it. */
  function AfterSpaces(t: string, m: string): (u: string)
    requires |m| <= |t|
    ensures |u| <= |t| - |m|
    ensures u == [] || !IsRegexSpace(u[0])
  {
    t[|m|..][SpaceRun(t[|m|..])..]
  }

  /** The pattern `m\s*"([a-zA-Z0-9_-]+)"` matches at the start of `t`. The greedy `\s*` is
      followed by a quote, which is not a space, so it never gives anything back. */
  predicate KeyAtFront(t: string, m: string) {
    |m| <= |t| && m <= t && QuotedKeyFront(AfterSpaces(t, m))
  }

  /** The captured key of a match at the start of `t`. */
  function FrontKey(t: string, m: string): (key: string)
    requires KeyAtFront(t, m)
    ensures key != [] && forall k :: 0 <= k < |key| ==> IsIdChar(key[k])
    ensures Contains(t, "\"" + key + "\"")
  {
    var key := QuotedKey(AfterSpaces(t, m));
    var n := SpaceRun(t[|m|..]);
    assert t[|m|..][n..] == t[|m| + n..];
    assert "\"" + key + "\"" <= t[|m| + n..];
    key
  }

  /** The pattern of `extractInnertubeApiKey` matches at position `i` of `s`. */
  predicate KeyAt(s: string, i: nat) {
    i <= |s| && KeyAtFront(s[i..], ApiKeyMarker)
  }

  /** The leftmost position from `i` on where the pattern matches, or `|s| + 1`. */
  function FirstKeyFrom(s: string, i: nat): (j: nat)
    requires i <= |s| + 1
    ensures i <= j <= |s| + 1
    ensures j <= |s| ==> KeyAt(s, j)
    ensures forall k :: i <= k < j ==> !KeyAt(s, k)
    decreases |s| + 1 - i
  {
    if i > |s| || KeyAt(s, i) then i else FirstKeyFrom(s, i + 1)
  }

  const RecaptchaMarker := "class=\"g-recaptcha\""

  /** `extractInnertubeApiKey(html, videoId)`: the key when the pattern matches; otherwise
      a CAPTCHA page means the address is blocked, and anything else is unreadable. */
  function ExtractInnertubeApiKey(html: string, videoId: string): (r: Result<string, TranscriptException>)
    ensures r.Success? <==> exists i :: 0 <= i <= |html| && KeyAt(html, i)
    ensures r.Success? ==> r.value != [] && forall k :: 0 <= k < |r.value| ==> IsIdChar(r.value[k])
    ensures r.Success? ==> Contains(html, "\"" + r.value + "\"")
    ensures r.Failure? ==> r.error.videoId == videoId && r.error.availableLanguages == []
    ensures r.Failure? ==>
      (r.error.message == "IP blocked by YouTube" <==> Contains(html, RecaptchaMarker))
    ensures r.Failure? && !Contains(html, RecaptchaMarker) ==>
      r.error.message == "Could not extract API key from video page"
  {
    var i := FirstKeyFrom(html, 0);
    if i <= |html| then
      var key := FrontKey(html[i..], ApiKeyMarker);
      ContainsInSuffix(html, i, "\"" + key + "\"");
      Success(key)
    else if Contains(html, RecaptchaMarker) then
      Failure(TranscriptException("IP blocked by YouTube", videoId))
    else
      assert "Could not extract API key from video page"[0] != "IP blocked by YouTube"[0];
      Failure(TranscriptException("Could not extract API key from video page", videoId))
  }

  /** A page on which the first quote opens the key marker, followed by spaces and a quoted
      key, yields that key, whatever follows and whether or not it shows a CAPTCHA. */
  lemma ApiKeyFound(page: string, spaces: string, key: string, rest: string, videoId: string)
    requires '"' !in page
    requires forall k :: 0 <= k < |spaces| ==> IsRegexSpace(spaces[k])
    requires key != [] && forall k :: 0 <= k < |key| ==> IsIdChar(key[k])
    ensures ExtractInnertubeApiKey(page + (ApiKeyMarker + (spaces + ("\"" + key + "\"" + rest))), videoId) == Success(key)
  {
    var t := ApiKeyMarker + (spaces + ("\"" + key + "\"" + rest));
    NoKeyInQuotelessPrefix(page, t);
    KeyAfterMarker(ApiKeyMarker, spaces, key, rest);
    assert (page + t)[|page|..] == t;
    ExtractFirstKey(page + t, |page|, videoId);
  }

  /** The key of the leftmost match is the result. */
  lemma ExtractFirstKey(html: string, i: nat, videoId: string)
    requires KeyAt(html, i) && forall k :: 0 <= k < i ==> !KeyAt(html, k)
    ensures ExtractInnertubeApiKey(html, videoId) == Success(FrontKey(html[i..], ApiKeyMarker))
  {
    assert FirstKeyFrom(html, 0) == i;
  }

  /** No match starts in a prefix without quotes. */
  lemma NoKeyInQuotelessPrefix(page: string, t: string)
    requires '"' !in page
    ensures forall k :: 0 <= k < |page| ==> !KeyAt(page + t, k)
  {
    forall k | 0 <= k < |page| ensures !KeyAt(page + t, k) {
      assert (page + t)[k..][0] == page[k];
    }
  }

  /** A marker followed by spaces and a quoted key matches, and the key is captured. */
  lemma KeyAfterMarker(m: string, spaces: string, key: string, rest: string)
    requires forall k :: 0 <= k < |spaces| ==> IsRegexSpace(spaces[k])
    requires key != [] && forall k :: 0 <= k < |key| ==> IsIdChar(key[k])
    ensures KeyAtFront(m + (spaces + ("\"" + key + "\"" + rest)), m)
    ensures FrontKey(m + (spaces + ("\"" + key + "\"" + rest)), m) == key
  {
    var u := "\"" + key + "\"" + rest;
    var t := m + (spaces + u);
    assert t[..|m|] == m;
    assert t[|m|..] == spaces + u;
    SpaceRunOf(spaces, u);
    assert (spaces + u)[|spaces|..] == u;
    assert AfterSpaces(t, m) == u;
    QuotedKeyOf(key, rest);
  }

  /** A quoted key is matched and captured. */
  lemma QuotedKeyOf(key: string, rest: string)
    requires key != [] && forall k :: 0 <= k < |key| ==> IsIdChar(key[k])
    ensures QuotedKeyFront("\"" + key + "\"" + rest)
    ensures QuotedKey("\"" + key + "\"" + rest) == key
  {
    var u := "\"" + key + "\"" + rest;
    assert u[1..] == key + ("\"" + rest);
    KeyRunOf(key, "\"" + rest);
    assert u[|key| + 1] == '"';
    assert u[1..|key| + 1] == key;
  }

  /** The spaces in front of a text that does not start with one are counted exactly. */
  lemma {:induction false} SpaceRunOf(spaces: string, rest: string)
    requires forall k :: 0 <= k < |spaces| ==> IsRegexSpace(spaces[k])
    requires rest == [] || !IsRegexSpace(rest[0])
    ensures SpaceRun(spaces + rest) == |spaces|
  {
    if spaces != [] {
      assert (spaces + rest)[1..] == spaces[1..] + rest;
      SpaceRunOf(spaces[1..], rest);
    } else {
      assert spaces + rest == rest;
    }
  }

  /** The key characters in front of a text that does not start with one are counted
      exactly. */
  lemma {:induction false} KeyRunOf(key: string, rest: string)
    requires forall k :: 0 <= k < |key| ==> IsIdChar(key[k])
    requires rest == [] || !IsIdChar(rest[0])
    ensures KeyRun(key + rest) == |key|
  {
    if key != [] {
      assert (key + rest)[1..] == key[1..] + rest;
      KeyRunOf(key[1..], rest);
    } else {
      assert key + rest == rest;
    }
  }

  /** Without the marker there is no key. */
  lemma NoMarkerNoKey(html: string, videoId: string)
    requires !Contains(html, ApiKeyMarker)
    ensures ExtractInnertubeApiKey(html, videoId).Failure?
  {
    forall i | 0 <= i <= |html| ensures !KeyAt(html, i) {
      assert !(ApiKeyMarker <= html[i..]);
      assert !KeyAtFront(html[i..], ApiKeyMarker);
    }
  }

  // ---------------------------------------------------------------------------------
  // The player response

  /** `playabilityStatus`: `optString("status")` is `""` when the field is absent, and
      `optString("reason", "Unknown error")` falls back to that text. */
  datatype PlayabilityStatus = PlayabilityStatus(status: Option<string>, reason: Option<string>)

  /** `captions`, holding the optional `playerCaptionsTracklistRenderer`. */
  datatype CaptionsObject = CaptionsObject(renderer: Option<CaptionsJson>)

  /** The InnerTube player response. */
  datatype PlayerResponse = PlayerResponse(playabilityStatus: Option<PlayabilityStatus>, captions: Option<CaptionsObject>)

  /** The status check fails: a status is present that is neither empty nor `OK`. */
  predicate Unplayable(data: PlayerResponse) {
    data.playabilityStatus.Some?
    && data.playabilityStatus.value.status.GetOr("") != ""
    && data.playabilityStatus.value.status.GetOr("") != "OK"
  }

  /** The renderer, when it is there and has a `captionTracks` field. */
  predicate HasCaptionTracks(data: PlayerResponse) {
    data.captions.Some? && data.captions.value.renderer.Some?
    && data.captions.value.renderer.value.captionTracks.Some?
  }

  /** `extractCaptionsJson(innertubeData, videoId)`. */
  function ExtractCaptionsJson(data: PlayerResponse, videoId: string): (r: Result<CaptionsJson, TranscriptException>)
    ensures r.Success? <==> !Unplayable(data) && HasCaptionTracks(data)
    ensures r.Success? ==> Some(r.value) == data.captions.value.renderer && r.value.captionTracks.Some?
    ensures Unplayable(data) ==> r == Failure(TranscriptException(
      "Video not playable: " + data.playabilityStatus.value.reason.GetOr("Unknown error"), videoId))
    ensures !Unplayable(data) && !HasCaptionTracks(data) ==>
      r == Failure(TranscriptException("Transcripts are disabled for this video", videoId))
  {
    if data.playabilityStatus.Some?
       && var status := data.playabilityStatus.value.status.GetOr("");
          status != "OK" && status != ""
    then
      Failure(TranscriptException("Video not playable: " + data.playabilityStatus.value.reason.GetOr("Unknown error"), videoId))
    else if data.captions.None? || data.captions.value.renderer.None?
            || data.captions.value.renderer.value.captionTracks.None? then
      Failure(TranscriptException("Transcripts are disabled for this video", videoId))
    else
      Success(data.captions.value.renderer.value)
  }

  /** The two failures of the player response are told apart by their messages. */
  lemma CaptionsFailuresDiffer(data: PlayerResponse, videoId: string)
    requires ExtractCaptionsJson(data, videoId).Failure?
    ensures Unplayable(data) <==> ExtractCaptionsJson(data, videoId).error.message != "Transcripts are disabled for this video"
  {
    if Unplayable(data) {
      var m := ExtractCaptionsJson(data, videoId).error.message;
      assert m[0] == 'V';
    }
  }

  /** `fetch(videoId)` with the page and the player response as inputs: the key comes
      first, then the response checks, then the catalog. */
  function FetchTranscriptList(videoId: string, html: string, data: PlayerResponse): (r: Result<TranscriptList, TranscriptException>)
    ensures r.Success? <==> ExtractInnertubeApiKey(html, videoId).Success? && ExtractCaptionsJson(data, videoId).Success?
    ensures ExtractInnertubeApiKey(html, videoId).Failure? ==> r.Failure? && r.error == ExtractInnertubeApiKey(html, videoId).error
    ensures ExtractInnertubeApiKey(html, videoId).Success? && ExtractCaptionsJson(data, videoId).Failure? ==>
      r == Failure(ExtractCaptionsJson(data, videoId).error)
    ensures r.Success? ==> r.value == CatalogOf(videoId, ExtractCaptionsJson(data, videoId).value)
  {
    match ExtractInnertubeApiKey(html, videoId)
    case Failure(e) => Failure(e)
    case Success(_) =>
      match ExtractCaptionsJson(data, videoId)
      case Failure(e) => Failure(e)
      case Success(captions) => Success(CatalogOf(videoId, captions))
  }

  /** A response that passes both checks yields a catalog whose stored tracks all follow
      the building rules. */
  lemma FetchedCatalogWellStored(videoId: string, html: string, data: PlayerResponse)
    requires FetchTranscriptList(videoId, html, data).Success?
    ensures Valid(FetchTranscriptList(videoId, html, data).value)
    ensures FetchTranscriptList(videoId, html, data).value.videoId == videoId
    ensures PartitionWellStored(videoId, TranslationLanguagesOf(ExtractCaptionsJson(data, videoId).value),
              Partition(FetchTranscriptList(videoId, html, data).value.manual,
                        FetchTranscriptList(videoId, html, data).value.generated))
  {
    CatalogWellStored(videoId, ExtractCaptionsJson(data, videoId).value);
  }
}
