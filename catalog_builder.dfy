/** `buildTranscriptList` and `parseTranslationLanguages`: the caption-track records of the
    player response become a catalog. The JSON objects are modelled as records whose
    fields are optional; `optString(key, "")` and `optBoolean(key, false)` become
    `GetOr`. Each method keeps the source's loop, filling the lists and maps in place,
    and is proved against a specification function over the records read so far. */
module CatalogBuilder {
  import opened Wrappers
  import opened KotlinStrings
  import opened LinkedMaps
  import opened Transcripts
  import opened Catalogs

  /** One element of `translationLanguages`: its `languageCode` and the `text` of the first
      run of its `languageName`. */
  datatype TranslationLanguageJson = TranslationLanguageJson(languageCode: Option<string>, languageName: Option<string>)

  /** One element of `captionTracks`. `name` is the `text` of the first run of its name. */
  datatype CaptionTrackJson = CaptionTrackJson(
    languageCode: Option<string>,
    name: Option<string>,
    baseUrl: Option<string>,
    kind: Option<string>,
    isTranslatable: Option<bool>)

  /** The `playerCaptionsTracklistRenderer` object: both arrays may be absent. */
  datatype CaptionsJson = CaptionsJson(
    captionTracks: Option<seq<CaptionTrackJson>>,
    translationLanguages: Option<seq<TranslationLanguageJson>>)

  // ---------------------------------------------------------------------------------
  // parseTranslationLanguages

  /** The translation language an entry yields: only one with a non-empty code and a
      non-empty name yields one. */
  function LanguageOf(j: TranslationLanguageJson): Option<TranslationLanguage> {
    var code := j.languageCode.GetOr("");
    var name := j.languageName.GetOr("");
    if code != [] && name != [] then Some(TranslationLanguage(name, code)) else None
  }

  /** The list the loop has built after reading `entries`. */
  function KeptLanguages(entries: seq<TranslationLanguageJson>): seq<TranslationLanguage> {
    if entries == [] then []
    else
      var rest := KeptLanguages(entries[..|entries| - 1]);
      match LanguageOf(entries[|entries| - 1])
      case Some(l) => rest + [l]
      case None => rest
  }

  /** What `parseTranslationLanguages` returns; an absent array gives the empty list. */
  function TranslationLanguagesOf(json: CaptionsJson): seq<TranslationLanguage> {
    match json.translationLanguages
    case None => []
    case Some(entries) => KeptLanguages(entries)
  }

  /** `parseTranslationLanguages(captionsJson)`. */
  method ParseTranslationLanguages(json: CaptionsJson) returns (languages: seq<TranslationLanguage>)
    ensures languages == TranslationLanguagesOf(json)
  {
    languages := [];
    if json.translationLanguages.Some? {
      var entries := json.translationLanguages.value;
      var i := 0;
      while i < |entries|
        invariant 0 <= i <= |entries|
        invariant languages == KeptLanguages(entries[..i])
      {
        assert entries[..i + 1][..i] == entries[..i];
        var code := entries[i].languageCode.GetOr("");
        var name := entries[i].languageName.GetOr("");
        if code != [] && name != [] {
          languages := languages + [TranslationLanguage(name, code)];
        }
        i := i + 1;
      }
      assert entries[..|entries|] == entries;
    }
  }

  /** The list is the filter of the entries in array order: reading more entries appends
      what they yield. */
  lemma {:induction false} KeptLanguagesAppend(a: seq<TranslationLanguageJson>, b: seq<TranslationLanguageJson>)
    ensures KeptLanguages(a + b) == KeptLanguages(a) + KeptLanguages(b)
    decreases |b|
  {
    if b == [] {
      assert a + b == a;
    } else {
      var b' := b[..|b| - 1];
      assert (a + b)[..|a + b| - 1] == a + b';
      assert (a + b)[|a + b| - 1] == b[|b| - 1];
      KeptLanguagesAppend(a, b');
    }
  }

  /** Every kept language has a non-empty code and name, and it is kept exactly when some
      entry carries that code and that name. */
  lemma {:induction false} KeptLanguagesFilter(entries: seq<TranslationLanguageJson>, l: TranslationLanguage)
    ensures l in KeptLanguages(entries) <==>
      l.languageCode != [] && l.language != []
      && exists i :: 0 <= i < |entries| && entries[i].languageCode.GetOr("") == l.languageCode
                                        && entries[i].languageName.GetOr("") == l.language
  {
    if entries != [] {
      var init := entries[..|entries| - 1];
      KeptLanguagesFilter(init, l);
      assert forall i :: 0 <= i < |init| ==> init[i] == entries[i];
    }
  }

  // ---------------------------------------------------------------------------------
  // buildTranscriptList

  /** The text removed from every base URL. */
  const Srv3Format := "&fmt=srv3"

  /** The transcript a caption record yields for `videoId`, or `None` when its language code
      is empty or its URL is empty once `&fmt=srv3` is removed. */
  function TrackOf(videoId: string, c: CaptionTrackJson, languages: seq<TranslationLanguage>): Option<Transcript> {
    var code := c.languageCode.GetOr("");
    var url := ReplaceAll(c.baseUrl.GetOr(""), Srv3Format, "");
    var translatable := c.isTranslatable.GetOr(false);
    if code != [] && url != [] then
      Some(Transcript(videoId, url, c.name.GetOr(""), code, c.kind.GetOr("") == "asr", translatable,
                      if translatable then languages else []))
    else None
  }

  /** A record yields a track exactly when its code and stripped URL are non-empty; the
      track is generated exactly when the record's `kind` is `"asr"`, and carries the
      record's code, its name (`""` when missing) and the requested video ID. */
  lemma TrackKind(videoId: string, c: CaptionTrackJson, languages: seq<TranslationLanguage>)
    ensures TrackOf(videoId, c, languages).Some? <==>
      c.languageCode.GetOr("") != [] && ReplaceAll(c.baseUrl.GetOr(""), Srv3Format, "") != []
    ensures TrackOf(videoId, c, languages).Some? ==>
      && TrackOf(videoId, c, languages).value.isGenerated == (c.kind.GetOr("") == "asr")
      && TrackOf(videoId, c, languages).value.languageCode == c.languageCode.GetOr("")
      && TrackOf(videoId, c, languages).value.language == c.name.GetOr("")
      && TrackOf(videoId, c, languages).value.videoId == videoId
  {
  }

  /** The two maps being filled. */
  datatype Partition = Partition(manual: LinkedMap<Transcript>, generated: LinkedMap<Transcript>)

  /** One iteration: the record's track, if any, goes into the map of its kind under its
      language code. */
  function AddTrack(p: Partition, t: Option<Transcript>): Partition {
    match t
    case None => p
    case Some(tr) =>
      if tr.isGenerated then Partition(p.manual, Put(p.generated, tr.languageCode, tr))
      else Partition(Put(p.manual, tr.languageCode, tr), p.generated)
  }

  /** The maps after reading `tracks`, starting from two empty maps. */
  function Fill(videoId: string, tracks: seq<CaptionTrackJson>, languages: seq<TranslationLanguage>): Partition {
    if tracks == [] then Partition([], [])
    else AddTrack(Fill(videoId, tracks[..|tracks| - 1], languages), TrackOf(videoId, tracks[|tracks| - 1], languages))
  }

  /** The catalog `buildTranscriptList` returns. */
  function CatalogOf(videoId: string, json: CaptionsJson): TranscriptList {
    var languages := TranslationLanguagesOf(json);
    var p := match json.captionTracks
             case None => Partition([], [])
             case Some(tracks) => Fill(videoId, tracks, languages);
    TranscriptList(videoId, p.manual, p.generated, languages)
  }

  /** `buildTranscriptList(httpClient, videoId, captionsJson)`. */
  method BuildTranscriptList(videoId: string, json: CaptionsJson) returns (catalog: TranscriptList)
    ensures catalog == CatalogOf(videoId, json)
  {
    var languages := ParseTranslationLanguages(json);
    var manual: LinkedMap<Transcript> := [];
    var generated: LinkedMap<Transcript> := [];
    if json.captionTracks.Some? {
      var tracks := json.captionTracks.value;
      var i := 0;
      while i < |tracks|
        invariant 0 <= i <= |tracks|
        invariant Partition(manual, generated) == Fill(videoId, tracks[..i], languages)
      {
        assert tracks[..i + 1][..i] == tracks[..i];
        var c := tracks[i];
        var code := c.languageCode.GetOr("");
        var name := c.name.GetOr("");
        var url := ReplaceAll(c.baseUrl.GetOr(""), Srv3Format, "");
        var isGenerated := c.kind.GetOr("") == "asr";
        var isTranslatable := c.isTranslatable.GetOr(false);
        if code != [] && url != [] {
          var t := Transcript(videoId, url, name, code, isGenerated, isTranslatable,
                              if isTranslatable then languages else []);
          if isGenerated {
            generated := Put(generated, code, t);
          } else {
            manual := Put(manual, code, t);
          }
        }
        i := i + 1;
      }
      assert tracks[..|tracks|] == tracks;
    }
    catalog := TranscriptList(videoId, manual, generated, languages);
  }

  /** What every stored track satisfies, given the map it is in and its key. */
  predicate WellStored(videoId: string, languages: seq<TranslationLanguage>, key: string, t: Transcript, generated: bool) {
    && t.languageCode == key && key != []
    && t.videoId == videoId
    && t.url != []
    && t.isGenerated == generated
    && t.translationLanguages == (if t.isTranslatable then languages else [])
  }

  predicate PartitionWellStored(videoId: string, languages: seq<TranslationLanguage>, p: Partition) {
    && DistinctKeys(p.manual) && DistinctKeys(p.generated)
    && (forall i :: 0 <= i < |p.manual| ==> WellStored(videoId, languages, p.manual[i].key, p.manual[i].value, false))
    && (forall i :: 0 <= i < |p.generated| ==> WellStored(videoId, languages, p.generated[i].key, p.generated[i].value, true))
  }

  /** `put` keeps every entry well stored when the new one is. */
  lemma PutWellStored(videoId: string, languages: seq<TranslationLanguage>, m: LinkedMap<Transcript>, t: Transcript, generated: bool)
    requires DistinctKeys(m) && WellStored(videoId, languages, t.languageCode, t, generated)
    requires forall i :: 0 <= i < |m| ==> WellStored(videoId, languages, m[i].key, m[i].value, generated)
    ensures DistinctKeys(Put(m, t.languageCode, t))
    ensures forall i :: 0 <= i < |Put(m, t.languageCode, t)| ==>
      WellStored(videoId, languages, Put(m, t.languageCode, t)[i].key, Put(m, t.languageCode, t)[i].value, generated)
  {
    PutDistinct(m, t.languageCode, t);
    PutEntries(m, t.languageCode, t);
  }

  /** Every entry after `put` is the new one or an entry that was there. */
  lemma {:induction false} PutEntries(m: LinkedMap<Transcript>, k: string, v: Transcript)
    ensures forall e :: e in Put(m, k, v) ==> e == Entry(k, v) || e in m
  {
    if m != [] && m[0].key != k {
      PutEntries(m[1..], k, v);
    }
  }

  /** Reading records keeps both maps Kotlin maps and every track well stored: its key is
      its language code, it sits in the map of its kind, and only a translatable track
      carries the translation list. */
  lemma {:induction false} FillWellStored(videoId: string, tracks: seq<CaptionTrackJson>, languages: seq<TranslationLanguage>)
    ensures PartitionWellStored(videoId, languages, Fill(videoId, tracks, languages))
  {
    if tracks != [] {
      var p := Fill(videoId, tracks[..|tracks| - 1], languages);
      FillWellStored(videoId, tracks[..|tracks| - 1], languages);
      match TrackOf(videoId, tracks[|tracks| - 1], languages)
      case None =>
      case Some(t) =>
        if t.isGenerated {
          PutWellStored(videoId, languages, p.generated, t, true);
        } else {
          PutWellStored(videoId, languages, p.manual, t, false);
        }
    }
  }

  /** The built catalog is made of Kotlin maps, and every track in it is well stored. */
  lemma CatalogWellStored(videoId: string, json: CaptionsJson)
    ensures Valid(CatalogOf(videoId, json))
    ensures PartitionWellStored(videoId, TranslationLanguagesOf(json),
              Partition(CatalogOf(videoId, json).manual, CatalogOf(videoId, json).generated))
  {
    if json.captionTracks.Some? {
      FillWellStored(videoId, json.captionTracks.value, TranslationLanguagesOf(json));
    }
  }

  /** The track of the last record that yields one with language code `code` and of the
      given kind. */
  function LastTrack(videoId: string, tracks: seq<CaptionTrackJson>, languages: seq<TranslationLanguage>,
                     code: string, generated: bool): Option<Transcript>
  {
    if tracks == [] then None
    else
      var t := TrackOf(videoId, tracks[|tracks| - 1], languages);
      if t.Some? && t.value.languageCode == code && t.value.isGenerated == generated then t
      else LastTrack(videoId, tracks[..|tracks| - 1], languages, code, generated)
  }

  /** Last one wins: the map of each kind holds, under each code, the track of the last
      record of that kind with that code, and nothing when there is no such record. */
  lemma {:induction false} FillLastWins(videoId: string, tracks: seq<CaptionTrackJson>, languages: seq<TranslationLanguage>, code: string)
    ensures Get(Fill(videoId, tracks, languages).manual, code) == LastTrack(videoId, tracks, languages, code, false)
    ensures Get(Fill(videoId, tracks, languages).generated, code) == LastTrack(videoId, tracks, languages, code, true)
  {
    if tracks != [] {
      var p := Fill(videoId, tracks[..|tracks| - 1], languages);
      FillLastWins(videoId, tracks[..|tracks| - 1], languages, code);
      match TrackOf(videoId, tracks[|tracks| - 1], languages)
      case None =>
      case Some(t) =>
        PutValues(p.manual, t.languageCode, t);
        PutValues(p.generated, t.languageCode, t);
    }
  }

  /** Without a `captionTracks` array both maps are empty; the video ID and the
      translation list are passed through. */
  lemma NoCaptionTracks(videoId: string, json: CaptionsJson)
    requires json.captionTracks.None?
    ensures CatalogOf(videoId, json) == TranscriptList(videoId, [], [], TranslationLanguagesOf(json))
    ensures !IsNotEmpty(CatalogOf(videoId, json))
  {
  }

  /** A record without a language code, or whose URL is empty once `&fmt=srv3` is removed,
      adds no track. */
  lemma SkippedRecord(videoId: string, tracks: seq<CaptionTrackJson>, c: CaptionTrackJson, languages: seq<TranslationLanguage>)
    requires c.languageCode.GetOr("") == [] || ReplaceAll(c.baseUrl.GetOr(""), Srv3Format, "") == []
    ensures Fill(videoId, tracks + [c], languages) == Fill(videoId, tracks, languages)
  {
    assert (tracks + [c])[..|tracks|] == tracks;
  }

  /** A stored URL is the base URL after one `replace` pass; one without `&fmt=srv3` is
      kept as it is. */
  lemma StoredUrl(videoId: string, c: CaptionTrackJson, languages: seq<TranslationLanguage>)
    requires TrackOf(videoId, c, languages).Some?
    ensures TrackOf(videoId, c, languages).value.url == ReplaceAll(c.baseUrl.GetOr(""), Srv3Format, "")
    ensures !Contains(c.baseUrl.GetOr(""), Srv3Format) ==> TrackOf(videoId, c, languages).value.url == c.baseUrl.GetOr("")
  {
    if !Contains(c.baseUrl.GetOr(""), Srv3Format) {
      ReplaceAllAbsent(c.baseUrl.GetOr(""), Srv3Format, "");
    }
  }

  /** The removal of `&fmt=srv3` is a single pass: a URL ending in `&fmt=&fmt=srv3srv3`
      still asks for that format after it. */
  lemma Srv3RemovalIsSinglePass(a: string)
    requires '&' !in a
    ensures ReplaceAll(a + ("&fmt=" + (Srv3Format + "srv3")), Srv3Format, "") == a + Srv3Format
    ensures Contains(ReplaceAll(a + ("&fmt=" + (Srv3Format + "srv3")), Srv3Format, ""), Srv3Format)
  {
    ReplaceAllAfterPrefix(a, "&fmt=" + (Srv3Format + "srv3"), Srv3Format, "");
    NestedSrv3();
    assert (a + Srv3Format)[|a|..] == Srv3Format;
  }

  /** The pass over `&fmt=&fmt=srv3srv3` removes the inner occurrence only. */
  lemma NestedSrv3()
    ensures ReplaceAll("&fmt=" + (Srv3Format + "srv3"), Srv3Format, "") == Srv3Format
  {
    assert ("&fmt=" + (Srv3Format + "srv3"))[5] == '&';
    ReplaceAllMissAt("&fmt=", Srv3Format + "srv3", Srv3Format, "", 5);
    ReplaceAllAtMatch("srv3", Srv3Format, "");
    FirstCharAbsent("srv3", Srv3Format);
    ReplaceAllAbsent("srv3", Srv3Format, "");
    assert "&fmt=" + "srv3" == Srv3Format;
  }
}
