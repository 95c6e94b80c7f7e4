/** `YouTubeTranscriptApi`: the entry points. The catalog a call works on is the outcome of
    `listTranscripts`, which the fetcher computes from the two responses; here it is a
    parameter, as is the outcome of the request for the chosen track's timed text. */
module TranscriptApi {
  import opened Wrappers
  import opened KotlinStrings
  import opened LinkedMaps
  import opened Exceptions
  import opened Segments
  import opened Transcripts
  import opened Catalogs
  import opened TranscriptParser

  /** The default of `languages` in `getTranscript`. */
  const DefaultLanguages: seq<string> := ["en"]

  /** `if (allTranscripts.isNotEmpty()) allTranscripts.first()`: the first track, or
      nothing for an empty list (where the source re-throws). */
  function FirstOf(xs: seq<Transcript>): (r: Option<Transcript>)
    ensures r.None? <==> xs == []
    ensures r.Some? ==> r.value == xs[0]
  {
    if xs == [] then None else Some(xs[0])
  }

  /** The track `getTranscript` chooses. The requested languages are tried first; when that
      fails, the first of the sorted available languages; when no language is available,
      the first of all tracks. Any failure after the first one re-raises the first error. */
  function SelectTranscript(tl: TranscriptList, languages: seq<string>): (r: Result<Transcript, TranscriptException>)
    ensures FindTranscript(tl, languages).Success? ==> r == FindTranscript(tl, languages)
    ensures r.Failure? <==> !IsNotEmpty(tl)
    ensures r.Failure? ==> r.error == FindTranscript(tl, languages).error
    ensures r.Success? ==> r.value in AllTranscripts(tl)
  {
    match FindTranscript(tl, languages)
    case Success(t) =>
      FindTranscriptInCatalog(tl, languages);
      Success(t)
    case Failure(e) =>
      var available := AvailableLanguages(tl);
      var fallback :=
        if available != [] then
          FindTranscript(tl, [available[0]])
        else
          match FirstOf(AllTranscripts(tl))
          case Some(t) => Success(t)
          case None => Failure(e);
      FallbackFinds(tl);
      if fallback.Success? then
        FindTranscriptInCatalog(tl, [available[0]]);
        fallback
      else
        Failure(e)
  }

  /** When some language is available, looking up the first one succeeds; when none is,
      the catalog has no track at all. */
  lemma FallbackFinds(tl: TranscriptList)
    ensures AvailableLanguages(tl) != [] ==> FindTranscript(tl, [AvailableLanguages(tl)[0]]).Success?
    ensures AvailableLanguages(tl) == [] <==> AllTranscripts(tl) == []
    ensures AvailableLanguages(tl) != [] <==> IsNotEmpty(tl)
  {
    IsNotEmptyIffLanguages(tl);
    AllTranscriptsSize(tl);
    if AvailableLanguages(tl) != [] {
      FindTranscriptFirstHit(tl, [AvailableLanguages(tl)[0]], 0);
    }
  }

  /** When none of the requested languages is there, the track chosen is the one stored
      under the smallest available code, manual before generated. */
  lemma FallbackTakesSmallestLanguage(tl: TranscriptList, languages: seq<string>)
    requires FindTranscript(tl, languages).Failure? && IsNotEmpty(tl)
    ensures Preferred(tl, AvailableLanguages(tl)[0]).Some?
    ensures SelectTranscript(tl, languages) == Success(Preferred(tl, AvailableLanguages(tl)[0]).value)
    ensures forall c :: c in AvailableLanguages(tl) ==> c == AvailableLanguages(tl)[0] || Less(AvailableLanguages(tl)[0], c)
  {
    IsNotEmptyIffLanguages(tl);
    var available := AvailableLanguages(tl);
    FindTranscriptFirstHit(tl, [available[0]], 0);
    forall c | c in available ensures c == available[0] || Less(available[0], c) {
      SortedHeadIsLeast(available, c);
    }
  }

  /** With the default `languages`, an English track is taken whenever there is one (the
      manual one first); otherwise the fallback applies. */
  lemma DefaultPrefersEnglish(tl: TranscriptList)
    requires "en" in AvailableLanguages(tl)
    ensures Preferred(tl, "en").Some?
    ensures SelectTranscript(tl, DefaultLanguages) == Success(Preferred(tl, "en").value)
  {
    FindTranscriptFirstHit(tl, DefaultLanguages, 0);
  }

  /** The third tier never decides anything: with no available language there is no track
      either, so only the original error can come out of it. */
  lemma LastTierHasNothing(tl: TranscriptList)
    requires AvailableLanguages(tl) == []
    ensures FirstOf(AllTranscripts(tl)) == None
  {
    FallbackFinds(tl);
  }

  /** `getTranscript(videoId, languages, preserveFormatting)`: the catalog, the choice of
      track, the refusal of signed URLs, then the parse of the timed text. `response` is
      the outcome of the request for the chosen track's URL, as pull-parser events. */
  function GetTranscript(listing: Result<TranscriptList, TranscriptException>, languages: seq<string>,
                         preserveFormatting: bool, response: Result<seq<XmlEvent>, TranscriptException>)
    : (r: Result<seq<TranscriptSegment>, TranscriptException>)
    ensures listing.Failure? ==> r == Failure(listing.error)
    ensures listing.Success? && !IsNotEmpty(listing.value) ==>
      r == Failure(FindTranscript(listing.value, languages).error)
    ensures r.Success? <==>
      && listing.Success? && IsNotEmpty(listing.value)
      && FetchGuard(SelectTranscript(listing.value, languages).value).None?
      && response.Success?
    ensures r.Success? ==>
      r.value == RunFrom(Idle, response.value, Finisher(preserveFormatting)).segments
    ensures listing.Success? && IsNotEmpty(listing.value)
            && FetchGuard(SelectTranscript(listing.value, languages).value).Some? ==>
      r == Failure(TranscriptException("Transcript requires authentication token",
                     SelectTranscript(listing.value, languages).value.videoId))
    ensures listing.Success? && IsNotEmpty(listing.value)
            && FetchGuard(SelectTranscript(listing.value, languages).value).None? && response.Failure? ==>
      r == Failure(response.error)
  {
    match listing
    case Failure(e) => Failure(e)
    case Success(tl) =>
      match SelectTranscript(tl, languages)
      case Failure(e) => Failure(e)
      case Success(t) =>
        match FetchGuard(t)
        case Some(e) => Failure(e)
        case None =>
          match response
          case Failure(e) => Failure(e)
          case Success(events) => Success(RunFrom(Idle, events, Finisher(preserveFormatting)).segments)
  }

  /** `hasTranscripts(videoId)`: `isNotEmpty()` of the catalog, `false` when listing fails. */
  function HasTranscripts(listing: Result<TranscriptList, TranscriptException>): (r: bool)
    ensures r <==> listing.Success? && AvailableLanguages(listing.value) != []
  {
    if listing.Success? then IsNotEmptyIffLanguages(listing.value); IsNotEmpty(listing.value) else false
  }

  /** A catalog with transcripts always yields one, whatever languages are asked for. */
  lemma HasTranscriptsSelects(listing: Result<TranscriptList, TranscriptException>, languages: seq<string>)
    requires HasTranscripts(listing)
    ensures SelectTranscript(listing.value, languages).Success?
  {
    IsNotEmptyIffLanguages(listing.value);
  }

  /** `getAvailableLanguages(videoId)`: the sorted, duplicate-free codes of both maps. */
  function GetAvailableLanguages(listing: Result<TranscriptList, TranscriptException>): (r: Result<seq<string>, TranscriptException>)
    ensures listing.Failure? ==> r == Failure(listing.error)
    ensures r.Success? ==> StrictlySorted(r.value)
    ensures r.Success? ==> forall c :: c in r.value <==> c in Keys(listing.value.manual) || c in Keys(listing.value.generated)
  {
    match listing
    case Failure(e) => Failure(e)
    case Success(tl) => Success(AvailableLanguages(tl))
  }
}
