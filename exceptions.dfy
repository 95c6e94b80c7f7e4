/** `TranscriptException` and the message construction of its subclasses. The library
    throws the base class everywhere (with distinct messages); the subclasses only fix a
    message shape. An exception is modelled as the value of its three fields. */
module Exceptions {
  import opened KotlinStrings

  /** `TranscriptException(message, videoId = "", availableLanguages = emptyList())`. */
  datatype TranscriptException =
    TranscriptException(message: string, videoId: string := "", availableLanguages: seq<string> := [])

  /** The first part of `toString()`: names the video when the exception carries one. */
  function Header(e: TranscriptException): string {
    if e.videoId != [] then "TranscriptException for video " + e.videoId + ": " + e.message
    else "TranscriptException: " + e.message
  }

  /** `TranscriptException.toString()`. */
  function ToString(e: TranscriptException): (r: string)
    ensures Header(e) <= r
    ensures r == Header(e) <==> e.availableLanguages == []
    ensures e.availableLanguages != [] ==>
      r == Header(e) + " (Available languages: " + JoinToString(e.availableLanguages, ", ") + ")"
  {
    if e.availableLanguages != [] then
      Header(e) + " (Available languages: " + JoinToString(e.availableLanguages, ", ") + ")"
    else
      Header(e)
  }

  /** The text names a video exactly when the exception carries a non-empty video ID. */
  lemma ToStringNamesVideo(e: TranscriptException)
    ensures "TranscriptException for video " <= ToString(e) <==> e.videoId != []
  {
    var r := ToString(e);
    if e.videoId == [] {
      assert r[19] == ':';
      assert "TranscriptException for video "[19] == ' ';
    } else {
      assert "TranscriptException for video " <= Header(e);
    }
  }

  /** Without a video ID and languages only the message follows the class name. */
  lemma ToStringBareExample()
    ensures ToString(TranscriptException("Failed")) == "TranscriptException: Failed"
  {
  }

  /** An exception with a video ID and two languages names the video and lists both
      languages, joined by ", ". */
  lemma ToStringTwoLanguages(message: string, videoId: string, a: string, b: string)
    requires videoId != []
    ensures ToString(TranscriptException(message, videoId, [a, b]))
         == "TranscriptException for video " + videoId + ": " + message + " (Available languages: " + a + ", " + b + ")"
  {
    var e := TranscriptException(message, videoId, [a, b]);
    assert [a, b][1..] == [b];
    assert JoinToString([b], ", ") == b;
    var joined := JoinToString([a, b], ", ");
    assert joined == a + ", " + b;
    assert Header(e) == "TranscriptException for video " + videoId + ": " + message;
    assert ToString(e) == Header(e) + " (Available languages: " + joined + ")";
  }

  /** `NoTranscriptFoundException(videoId, requestedLanguages, availableLanguages)`. */
  function NoTranscriptFoundException(videoId: string, requested: seq<string>, available: seq<string>): TranscriptException {
    TranscriptException("No transcript found for languages: " + JoinToString(requested, ", "), videoId, available)
  }

  /** Each further requested language adds ", " and its code at the end of the message;
      the video ID and the available list are carried unchanged. */
  lemma NoTranscriptFoundListsRequested(videoId: string, requested: seq<string>, code: string, available: seq<string>)
    requires requested != []
    ensures NoTranscriptFoundException(videoId, requested + [code], available).message
         == NoTranscriptFoundException(videoId, requested, available).message + ", " + code
    ensures NoTranscriptFoundException(videoId, [code], available).message == "No transcript found for languages: " + code
    ensures NoTranscriptFoundException(videoId, requested, available).videoId == videoId
    ensures NoTranscriptFoundException(videoId, requested, available).availableLanguages == available
  {
    JoinToStringSnoc(requested, code, ", ");
  }

  /** `VideoUnplayableException(videoId, reason, message = "Video is not playable")`. */
  function VideoUnplayableException(videoId: string, reason: string, message: string := "Video is not playable"): TranscriptException {
    TranscriptException(message + ": " + reason, videoId)
  }

  /** `TranslationLanguageNotAvailableException(videoId, languageCode, message = ...)`. */
  function TranslationLanguageNotAvailableException(
    videoId: string, languageCode: string, message: string := "Translation language not available"): TranscriptException
  {
    TranscriptException(message + ": " + languageCode, videoId)
  }

  /** Both subclasses put ": " between their message and their detail, carry the video ID
      and no language list, and differ in their default wording. */
  lemma SubclassMessages(videoId: string, detail: string)
    ensures VideoUnplayableException(videoId, detail).message == "Video is not playable: " + detail
    ensures TranslationLanguageNotAvailableException(videoId, detail).message == "Translation language not available: " + detail
    ensures VideoUnplayableException(videoId, detail).videoId == videoId
    ensures VideoUnplayableException(videoId, detail).availableLanguages == []
    ensures TranslationLanguageNotAvailableException(videoId, detail).availableLanguages == []
    ensures VideoUnplayableException(videoId, detail) != TranslationLanguageNotAvailableException(videoId, detail)
  {
    assert VideoUnplayableException(videoId, detail).message[1] == 'i';
    assert TranslationLanguageNotAvailableException(videoId, detail).message[1] == 'r';
  }
}
