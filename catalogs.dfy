/** `TranscriptList`: the catalog of a video's caption tracks, kept in two insertion-ordered
    maps keyed by language code (manually created and generated), and the lookups over it.
    The catalog is never changed after it is built, so it is a value. */
module Catalogs {
  import opened Wrappers
  import opened KotlinStrings
  import opened LinkedMaps
  import opened Exceptions
  import opened Transcripts

  datatype TranscriptList = TranscriptList(
    videoId: string,
    manual: LinkedMap<Transcript>,
    generated: LinkedMap<Transcript>,
    translationLanguages: seq<TranslationLanguage>)

  /** Both maps are Kotlin maps: no key twice. */
  predicate Valid(tl: TranscriptList) {
    DistinctKeys(tl.manual) && DistinctKeys(tl.generated)
  }

  /** `getAllTranscripts()`: the manual tracks, then the generated ones, in map order. */
  function AllTranscripts(tl: TranscriptList): seq<Transcript> {
    Values(tl.manual) + Values(tl.generated)
  }

  /** `size()`. */
  function Size(tl: TranscriptList): nat {
    |tl.manual| + |tl.generated|
  }

  /** `isNotEmpty()`. */
  predicate IsNotEmpty(tl: TranscriptList) {
    tl.manual != [] || tl.generated != []
  }

  /** The listing holds every track once and has `size()` elements; it starts with the
      manual tracks. */
  lemma AllTranscriptsSize(tl: TranscriptList)
    ensures |AllTranscripts(tl)| == Size(tl)
    ensures forall t :: t in AllTranscripts(tl) <==> t in Values(tl.manual) || t in Values(tl.generated)
    ensures AllTranscripts(tl)[..|tl.manual|] == Values(tl.manual)
  {
  }

  /** The first of `maps` (in order) that has an entry under `code`. */
  function GetFirst(maps: seq<LinkedMap<Transcript>>, code: string): (r: Option<Transcript>)
    ensures r.None? <==> forall k :: 0 <= k < |maps| ==> code !in Keys(maps[k])
  {
    if maps == [] then None
    else if code in Keys(maps[0]) then Get(maps[0], code)
    else
      var r := GetFirst(maps[1..], code);
      assert forall k :: 1 <= k < |maps| ==> maps[k] == maps[1..][k - 1];
      r
  }

  /** The loop shared by the three `find` methods walks the codes in order and stops at
      the first one that `maps` (looked at in order) has: the index of that code, or
      `|codes|` when there is none. */
  function FirstHit(maps: seq<LinkedMap<Transcript>>, codes: seq<string>): (i: nat)
    ensures i <= |codes|
    ensures forall j :: 0 <= j < i ==> GetFirst(maps, codes[j]).None?
    ensures i < |codes| ==> GetFirst(maps, codes[i]).Some?
  {
    if codes == [] || GetFirst(maps, codes[0]).Some? then 0
    else
      var tail := codes[1..];
      var i := FirstHit(maps, tail);
      assert forall j :: 0 <= j < i ==> tail[j] == codes[j + 1];
      assert i < |tail| ==> tail[i] == codes[i + 1];
      1 + i
  }

  /** The track the loop returns, or `None` when it runs to the end. */
  function Search(maps: seq<LinkedMap<Transcript>>, codes: seq<string>): (r: Option<Transcript>)
    ensures r.None? <==> forall i :: 0 <= i < |codes| ==> GetFirst(maps, codes[i]).None?
  {
    var i := FirstHit(maps, codes);
    if i < |codes| then GetFirst(maps, codes[i]) else None
  }

  /** `getAvailableLanguages()`: the codes of both maps, without duplicates, sorted. */
  function AvailableLanguages(tl: TranscriptList): (r: seq<string>)
    ensures StrictlySorted(r)
    ensures forall c :: c in r <==> c in Keys(tl.manual) || c in Keys(tl.generated)
  {
    SortedDistinct(Keys(tl.manual) + Keys(tl.generated))
  }

  /** `getManuallyCreatedLanguages()`: the manual codes, sorted. */
  function ManuallyCreatedLanguages(tl: TranscriptList): (r: seq<string>)
    ensures StrictlySorted(r)
    ensures forall c :: c in r <==> c in Keys(tl.manual)
  {
    SortedDistinct(Keys(tl.manual))
  }

  /** `getGeneratedLanguages()`: the generated codes, sorted. */
  function GeneratedLanguages(tl: TranscriptList): (r: seq<string>)
    ensures StrictlySorted(r)
    ensures forall c :: c in r <==> c in Keys(tl.generated)
  {
    SortedDistinct(Keys(tl.generated))
  }

  /** `findTranscript(languageCodes)`: manual before generated for each code, first code
      first. The failure message prints the requested list as Kotlin's `List.toString`. */
  function FindTranscript(tl: TranscriptList, codes: seq<string>): Result<Transcript, TranscriptException> {
    match Search([tl.manual, tl.generated], codes)
    case Some(t) => Success(t)
    case None => Failure(TranscriptException(
      "No transcript found for languages: " + ListToString(codes), tl.videoId, AvailableLanguages(tl)))
  }

  /** `findManuallyCreatedTranscript(languageCodes)`. */
  function FindManuallyCreatedTranscript(tl: TranscriptList, codes: seq<string>): Result<Transcript, TranscriptException> {
    match Search([tl.manual], codes)
    case Some(t) => Success(t)
    case None => Failure(TranscriptException(
      "No manually created transcript found for languages: " + ListToString(codes), tl.videoId, AvailableLanguages(tl)))
  }

  /** `findGeneratedTranscript(languageCodes)`. */
  function FindGeneratedTranscript(tl: TranscriptList, codes: seq<string>): Result<Transcript, TranscriptException> {
    match Search([tl.generated], codes)
    case Some(t) => Success(t)
    case None => Failure(TranscriptException(
      "No generated transcript found for languages: " + ListToString(codes), tl.videoId, AvailableLanguages(tl)))
  }

  /** The track stored under `code`, the manual one when both maps have it. */
  function Preferred(tl: TranscriptList, code: string): Option<Transcript> {
    if code in Keys(tl.manual) then Get(tl.manual, code) else Get(tl.generated, code)
  }

  /** `findTranscript` returns, for the first requested code that either map has, that
      code's manual track if there is one and its generated track otherwise. */
  lemma FindTranscriptFirstHit(tl: TranscriptList, codes: seq<string>, i: nat)
    requires i < |codes| && codes[i] in AvailableLanguages(tl)
    requires forall j :: 0 <= j < i ==> codes[j] !in AvailableLanguages(tl)
    ensures Preferred(tl, codes[i]).Some?
    ensures FindTranscript(tl, codes) == Success(Preferred(tl, codes[i]).value)
  {
    var maps := [tl.manual, tl.generated];
    forall c ensures GetFirst(maps, c) == Preferred(tl, c) {
      GetFirstOfTwo(tl, c);
    }
    var k := FirstHit(maps, codes);
    assert GetFirst(maps, codes[i]).Some?;
    assert k == i;
  }

  /** Looking a code up in the two maps of `findTranscript` finds the preferred track. */
  lemma GetFirstOfTwo(tl: TranscriptList, c: string)
    ensures GetFirst([tl.manual, tl.generated], c) == Preferred(tl, c)
  {
    assert [tl.manual, tl.generated][1..] == [tl.generated];
    assert [tl.generated][1..] == [];
  }

  /** A lookup in one map is `map[code]`. */
  lemma GetFirstOfOne(m: LinkedMap<Transcript>, c: string)
    ensures GetFirst([m], c) == Get(m, c)
  {
    assert [m][1..] == [];
  }

  /** `findTranscript` fails exactly when no requested code is available, and then the
      error carries the available languages and lists the request. */
  lemma FindTranscriptFails(tl: TranscriptList, codes: seq<string>)
    ensures FindTranscript(tl, codes).Failure? <==> forall c :: c in codes ==> c !in AvailableLanguages(tl)
    ensures FindTranscript(tl, codes).Failure? ==>
      FindTranscript(tl, codes).error
        == TranscriptException("No transcript found for languages: " + ListToString(codes), tl.videoId, AvailableLanguages(tl))
  {
    forall c ensures GetFirst([tl.manual, tl.generated], c).None? <==> c !in AvailableLanguages(tl) {
      GetFirstOfTwo(tl, c);
    }
  }

  /** The manual and generated lookups only return tracks of their own map; each fails
      exactly when its own map has none of the codes, with its own wording, the video ID
      and the languages of both maps. */
  lemma FindOwnMapOnly(tl: TranscriptList, codes: seq<string>)
    ensures FindManuallyCreatedTranscript(tl, codes).Success? ==> FindManuallyCreatedTranscript(tl, codes).value in Values(tl.manual)
    ensures FindManuallyCreatedTranscript(tl, codes).Failure? <==> forall c :: c in codes ==> c !in Keys(tl.manual)
    ensures FindManuallyCreatedTranscript(tl, codes).Failure? ==>
      FindManuallyCreatedTranscript(tl, codes).error
        == TranscriptException("No manually created transcript found for languages: " + ListToString(codes),
                               tl.videoId, AvailableLanguages(tl))
    ensures FindGeneratedTranscript(tl, codes).Success? ==> FindGeneratedTranscript(tl, codes).value in Values(tl.generated)
    ensures FindGeneratedTranscript(tl, codes).Failure? <==> forall c :: c in codes ==> c !in Keys(tl.generated)
    ensures FindGeneratedTranscript(tl, codes).Failure? ==>
      FindGeneratedTranscript(tl, codes).error
        == TranscriptException("No generated transcript found for languages: " + ListToString(codes),
                               tl.videoId, AvailableLanguages(tl))
  {
    SearchOneMap(tl.manual, codes);
    SearchOneMap(tl.generated, codes);
  }

  /** `findManuallyCreatedTranscript` returns the manual track of the first requested code
      the manual map has. */
  lemma FindManuallyCreatedFirstHit(tl: TranscriptList, codes: seq<string>, i: nat)
    requires i < |codes| && codes[i] in Keys(tl.manual)
    requires forall j :: 0 <= j < i ==> codes[j] !in Keys(tl.manual)
    ensures Get(tl.manual, codes[i]).Some?
    ensures FindManuallyCreatedTranscript(tl, codes) == Success(Get(tl.manual, codes[i]).value)
  {
    SearchOneMapFirstHit(tl.manual, codes, i);
  }

  /** `findGeneratedTranscript` returns the generated track of the first requested code
      the generated map has. */
  lemma FindGeneratedFirstHit(tl: TranscriptList, codes: seq<string>, i: nat)
    requires i < |codes| && codes[i] in Keys(tl.generated)
    requires forall j :: 0 <= j < i ==> codes[j] !in Keys(tl.generated)
    ensures Get(tl.generated, codes[i]).Some?
    ensures FindGeneratedTranscript(tl, codes) == Success(Get(tl.generated, codes[i]).value)
  {
    SearchOneMapFirstHit(tl.generated, codes, i);
  }

  /** The loop over a single map stops at the first code the map has. */
  lemma SearchOneMapFirstHit(m: LinkedMap<Transcript>, codes: seq<string>, i: nat)
    requires i < |codes| && codes[i] in Keys(m)
    requires forall j :: 0 <= j < i ==> codes[j] !in Keys(m)
    ensures Get(m, codes[i]).Some?
    ensures Search([m], codes) == Get(m, codes[i])
  {
    forall c ensures GetFirst([m], c) == Get(m, c) {
      GetFirstOfOne(m, c);
    }
    var k := FirstHit([m], codes);
    assert GetFirst([m], codes[i]).Some?;
    assert k == i;
  }

  /** The loop over a single map returns one of its values, and fails exactly when the
      map has none of the codes. */
  lemma SearchOneMap(m: LinkedMap<Transcript>, codes: seq<string>)
    ensures Search([m], codes).Some? ==> Search([m], codes).value in Values(m)
    ensures Search([m], codes).None? <==> forall c :: c in codes ==> c !in Keys(m)
  {
    forall c ensures GetFirst([m], c) == Get(m, c) {
      GetFirstOfOne(m, c);
    }
    var i := FirstHit([m], codes);
    if i < |codes| {
      ValueStored(m, codes[i]);
    }
    assert (forall c :: c in codes ==> c !in Keys(m))
       <==> (forall j :: 0 <= j < |codes| ==> GetFirst([m], codes[j]).None?);
  }

  /** A value found in a map is one of its values. */
  lemma ValueStored(m: LinkedMap<Transcript>, c: string)
    requires Get(m, c).Some?
    ensures Get(m, c).value in Values(m)
  {
    var i :| 0 <= i < |m| && m[i] == Entry(c, Get(m, c).value);
    assert Values(m)[i] == m[i].value;
  }

  /** Whatever `findTranscript` returns is one of `getAllTranscripts()`. */
  lemma FindTranscriptInCatalog(tl: TranscriptList, codes: seq<string>)
    ensures FindTranscript(tl, codes).Success? ==> FindTranscript(tl, codes).value in AllTranscripts(tl)
  {
    var i := FirstHit([tl.manual, tl.generated], codes);
    if i < |codes| {
      var c := codes[i];
      GetFirstOfTwo(tl, c);
      if c in Keys(tl.manual) {
        ValueStored(tl.manual, c);
      } else {
        ValueStored(tl.generated, c);
      }
    }
  }

  /** With distinct keys (every Kotlin map), the sorted code lists have one entry per
      track. */
  lemma LanguageListLengths(tl: TranscriptList)
    requires Valid(tl)
    ensures |ManuallyCreatedLanguages(tl)| == |tl.manual|
    ensures |GeneratedLanguages(tl)| == |tl.generated|
  {
    SortedDistinctLength(Keys(tl.manual));
    SortedDistinctLength(Keys(tl.generated));
  }

  /** `isNotEmpty()` holds exactly when some language is available. */
  lemma IsNotEmptyIffLanguages(tl: TranscriptList)
    ensures IsNotEmpty(tl) <==> AvailableLanguages(tl) != []
  {
  }
}
