/** `Transcript` and `TranslationLanguage`: one caption track of a video, its translation
    into another language and the guard `fetch` applies before any request. A `Transcript`
    never changes after construction, so it is a value; the HTTP client it carries is not
    part of the model. */
module Transcripts {
  import opened Wrappers
  import opened KotlinStrings
  import opened Exceptions

  /** A language a track can be machine-translated into. */
  datatype TranslationLanguage = TranslationLanguage(language: string, languageCode: string)

  datatype Transcript = Transcript(
    videoId: string,
    url: string,
    language: string,
    languageCode: string,
    isGenerated: bool,
    isTranslatable: bool,
    translationLanguages: seq<TranslationLanguage>)

  /** `translationLanguages.find { it.languageCode == code }`: the first entry for the code. */
  function FindTranslationLanguage(langs: seq<TranslationLanguage>, code: string): (r: Option<TranslationLanguage>)
    ensures r.None? <==> forall i :: 0 <= i < |langs| ==> langs[i].languageCode != code
    ensures r.Some? ==>
      exists i :: 0 <= i < |langs| && langs[i] == r.value && r.value.languageCode == code
        && forall j :: 0 <= j < i ==> langs[j].languageCode != code
  {
    if langs == [] then None
    else if langs[0].languageCode == code then Some(langs[0])
    else
      var r := FindTranslationLanguage(langs[1..], code);
      assert forall i :: 1 <= i < |langs| ==> langs[i] == langs[1..][i - 1];
      r
  }

  /** `translate(languageCode)`. */
  function Translate(t: Transcript, code: string): (r: Result<Transcript, TranscriptException>)
    ensures !t.isTranslatable ==> r == Failure(TranscriptException("Transcript is not translatable", t.videoId))
    ensures r.Success? <==> t.isTranslatable && exists l :: l in t.translationLanguages && l.languageCode == code
    ensures t.isTranslatable && r.Failure? ==>
      r.error == TranscriptException("Translation language not available: " + code, t.videoId)
    ensures r.Success? ==>
      && r.value.url == t.url + "&tlang=" + code
      && r.value.videoId == t.videoId
      && r.value.languageCode == code
      && TranslationLanguage(r.value.language, code) in t.translationLanguages
      && r.value.isGenerated && !r.value.isTranslatable && r.value.translationLanguages == []
  {
    if !t.isTranslatable then
      Failure(TranscriptException("Transcript is not translatable", t.videoId))
    else
      match FindTranslationLanguage(t.translationLanguages, code)
      case None =>
        Failure(TranscriptException("Translation language not available: " + code, t.videoId))
      case Some(target) =>
        Success(Transcript(t.videoId, t.url + "&tlang=" + code, target.language, code, true, false, []))
  }

  /** A translation cannot be translated again, whatever the target. */
  lemma TranslationIsTerminal(t: Transcript, code: string, next: string)
    requires Translate(t, code).Success?
    ensures Translate(Translate(t, code).value, next)
         == Failure(TranscriptException("Transcript is not translatable", t.videoId))
  {
  }

  /** Among several targets with the same code the first one names the translation. */
  lemma TranslateTakesFirstTarget(t: Transcript, code: string, i: nat)
    requires t.isTranslatable && i < |t.translationLanguages| && t.translationLanguages[i].languageCode == code
    requires forall j :: 0 <= j < i ==> t.translationLanguages[j].languageCode != code
    ensures Translate(t, code).Success?
    ensures Translate(t, code).value.language == t.translationLanguages[i].language
  {
    var r := FindTranslationLanguage(t.translationLanguages, code);
    var k :| 0 <= k < |t.translationLanguages| && t.translationLanguages[k] == r.value
             && r.value.languageCode == code
             && forall j :: 0 <= j < k ==> t.translationLanguages[j].languageCode != code;
    assert k == i;
  }

  /** The text that marks a signed URL `fetch` refuses. */
  const SignedUrlMarker := "&exp=xpe"

  /** The check at the start of `fetch`: a URL containing `&exp=xpe` fails before any
      request is made. */
  function FetchGuard(t: Transcript): (r: Option<TranscriptException>)
    ensures r.Some? <==> exists i :: 0 <= i <= |t.url| && SignedUrlMarker <= t.url[i..]
    ensures r.Some? ==> r.value == TranscriptException("Transcript requires authentication token", t.videoId, [])
  {
    if Contains(t.url, SignedUrlMarker) then
      Some(TranscriptException("Transcript requires authentication token", t.videoId))
    else
      None
  }

  /** Translating only appends to the URL, so a refused track stays refused. */
  lemma TranslationKeepsGuard(t: Transcript, code: string)
    requires Translate(t, code).Success? && FetchGuard(t).Some?
    ensures FetchGuard(Translate(t, code).value).Some?
  {
    ContainsAppend(t.url, "&tlang=" + code, SignedUrlMarker);
    assert t.url + "&tlang=" + code == t.url + ("&tlang=" + code);
  }
}
