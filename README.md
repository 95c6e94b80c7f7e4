# youtube-transcript-kotlin, modelled in Dafny

This project models the logic core of the Kotlin library `youtube-transcript-kotlin`. That
core resolves a YouTube video's caption tracks and turns one of them into timed text
segments. It works in these steps:

- It normalises a URL or bare ID to an 11-character video ID (`VideoIdExtractor`).
- It classifies the watch page and the InnerTube player response: API key, CAPTCHA, or an
  unparsable page; playability; captions present or disabled (`TranscriptListFetcher`).
- It builds the catalog of manual and generated tracks from the caption records
  (`buildTranscriptList`, `parseTranslationLanguages`).
- It answers the catalog queries (`TranscriptList`).
- It derives translations and refuses signed URLs (`Transcript`).
- It chooses a track with the three-tier language fallback of `getTranscript`
  (`YouTubeTranscriptApi`).
- It runs the timed-text event loop and the entity-decoding chain (`TranscriptParser`).
- It formats exceptions (`TranscriptException`) and computes the segment intervals
  (`TranscriptSegment`).

The model has one module per source file, plus three helper modules:

- `Wrappers`: `Option` and `Result`.
- `KotlinStrings`: the Kotlin string operations the code relies on, such as `trim`,
  `isBlank`, single-pass `replace`, `contains`, `joinToString`, `List.toString` and
  `distinct().sorted()`.
- `LinkedMaps`: the insertion-ordered `mutableMapOf`.

Values that the code never mutates are datatypes. The three loops that fill collections in
place are methods with `while` loops, proved against a specification function:

- the event loop of `parse` (`TranscriptParser.Parse`);
- the filling loop of `buildTranscriptList` (`CatalogBuilder.BuildTranscriptList`);
- the filling loop of `parseTranslationLanguages` (`CatalogBuilder.ParseTranslationLanguages`).

The abstractions are:

- The network is not modelled. The watch page is a `string` parameter, the player
  response a `PlayerResponse` value, and the outcome of the timed-text request a `Result`
  of XML events.
- The JSON library becomes records with optional fields.
- The XML pull parser becomes a sequence of `StartTag(name, start?, dur?)`, `Text(s)` and
  `EndTag(name)` events. The parsed `start` and `dur` attributes arrive as `Option<real>`.
- Times are exact reals.

Where the code and its documentation or tests disagree, the model follows the code:

- **`invalid-url` is accepted.** It consists of exactly 11 characters from
  `[A-Za-z0-9_-]`, so the anchored last pattern accepts it as a bare ID
  (`VideoIds.InvalidUrlIsAccepted`). The test at
  `YouTubeTranscriptApiTest.kt:31-33` expects a failure.
- **Java's `$` accepts a trailing line terminator.** It matches before a final line
  terminator, and `trim` does not remove U+0085. So an ID followed by U+0085 is accepted
  (`VideoIds.NextLineAfterId`).
- **The `&fmt=srv3` strip is single-pass.** Kotlin's `replace` removes occurrences in one
  pass. A base URL such as `&fmt=&fmt=srv3srv3` therefore still contains `&fmt=srv3`
  afterwards (`CatalogBuilder.Srv3RemovalIsSinglePass`). Stored URLs are exactly one
  removal pass over the base URL.
- **Decoding is not idempotent.** `&amp;` is replaced first and the result is not
  rescanned by that call. So `&amp;lt;` decodes to `<`, while `&amp;amp;` decodes only to
  `&amp;` (`TranscriptParser.DecodeAmpersandFirst`,
  `TranscriptParser.DecodeDoubleAmpersand`).
- **Two different "no transcript" messages.** The error `findTranscript` throws prints
  the requested codes with Kotlin's `List.toString`, as `[en, es]`. The unused
  `NoTranscriptFoundException` joins them without brackets.
- **The fallback's third tier is dead.** When no language is available, both maps are
  empty, so `getAllTranscripts()` is empty too (`TranscriptApi.LastTierHasNothing`).
- **The `"10:10"` expectation is wrong.** The test at `YouTubeTranscriptApiTest.kt:52`
  expects `"10:10"` for a start of 10.5 s. `getFormattedTimestamp` would produce `"0:10"`.
  That function is not modelled; see "Left out".

## Model

| member | source | states |
|---|---|---|
| VideoIds.IsValidVideoId | src/main/kotlin/com/youtubetranscript/core/VideoIdExtractor.kt:67-69 | a predicate: 11 characters of `[a-zA-Z0-9_-]`; `Capture`, `FirstCapture` and `ExtractVideoId` promise it of every ID they return |
| VideoIds.FirstMatchFrom | src/main/kotlin/com/youtubetranscript/core/VideoIdExtractor.kt:49 | the leftmost position where the marker is followed by 11 ID characters; no earlier position matches |
| VideoIds.Capture | src/main/kotlin/com/youtubetranscript/core/VideoIdExtractor.kt:49-53 | a captured group is a valid video ID and occurs in the input |
| VideoIds.FirstCapture | src/main/kotlin/com/youtubetranscript/core/VideoIdExtractor.kt:48-56 | a result is a valid ID contained in the input; no result exactly when no pattern captures |
| VideoIds.ExtractVideoId | src/main/kotlin/com/youtubetranscript/core/VideoIdExtractor.kt:41-59 | the "URL cannot be empty" error occurs exactly for blank input. Otherwise the call succeeds exactly when some pattern captures on the trimmed input, and returns the first capture, a valid ID occurring in it. When nothing captures, the error is "Could not extract video ID from: " and the untrimmed input |
| VideoIds.FirstCaptureIsFirst | src/main/kotlin/com/youtubetranscript/core/VideoIdExtractor.kt:48-56 | patterns are tried in list order: the first pattern that captures decides the result |
| VideoIds.CaptureBareId | src/main/kotlin/com/youtubetranscript/core/VideoIdExtractor.kt:31 | a bare valid ID is captured as itself: no unanchored pattern fits in 11 characters |
| VideoIds.ExtractBareId | src/main/kotlin/com/youtubetranscript/core/VideoIdExtractor.kt:46 | a valid ID padded with any whitespace on either side yields that ID |
| VideoIds.ExtractCaptured | src/main/kotlin/com/youtubetranscript/core/VideoIdExtractor.kt:46-53 | an unpadded input whose first capturing pattern yields an ID returns that ID |
| VideoIds.ExtractPaddedUrl | src/main/kotlin/com/youtubetranscript/core/VideoIdExtractor.kt:41-58 | a URL with blank padding yields the first capture of the unpadded URL; when nothing captures, the error names the padded input |
| VideoIds.ExtractUnpaddedId | src/main/kotlin/com/youtubetranscript/core/VideoIdExtractor.kt:41-59 | a valid ID without padding yields itself |
| VideoIds.BareIdExample | src/test/kotlin/com/youtubetranscript/YouTubeTranscriptApiTest.kt:16 | `dQw4w9WgXcQ` yields `dQw4w9WgXcQ` |
| VideoIds.InvalidUrlIsAccepted | src/test/kotlin/com/youtubetranscript/YouTubeTranscriptApiTest.kt:31-33 | `invalid-url` is accepted as a bare ID, contrary to the test's expectation |
| VideoIds.NextLineAfterId | src/main/kotlin/com/youtubetranscript/core/VideoIdExtractor.kt:31 | an ID followed by U+0085 is accepted because of Java's `$` |
| VideoIds.EmptyUrlFails | src/test/kotlin/com/youtubetranscript/YouTubeTranscriptApiTest.kt:27-29 | the empty string fails with "URL cannot be empty" |
| VideoIds.WatchCapture | src/main/kotlin/com/youtubetranscript/core/VideoIdExtractor.kt:14 | the watch pattern captures the ID of `https://www.youtube.com/watch?v=<id>` |
| VideoIds.WatchUrlYieldsId | src/test/kotlin/com/youtubetranscript/YouTubeTranscriptApiTest.kt:17 | a watch URL yields its ID, for every valid ID |
| VideoIds.ShortUrlCapture | src/main/kotlin/com/youtubetranscript/core/VideoIdExtractor.kt:14-19 | the `youtu.be` URL of a valid ID captures that ID |
| VideoIds.ShortUrlYieldsId | src/test/kotlin/com/youtubetranscript/YouTubeTranscriptApiTest.kt:18 | a `youtu.be` URL yields its ID, for every valid ID |
| VideoIds.EmbedUrlCapture | src/main/kotlin/com/youtubetranscript/core/VideoIdExtractor.kt:14-15 | the watch pattern misses an embed URL; the embed pattern captures its ID |
| VideoIds.EmbedUrlYieldsId | src/test/kotlin/com/youtubetranscript/YouTubeTranscriptApiTest.kt:19 | an embed URL yields its ID, for every valid ID |
| VideoIds.MobileUrlCapture | src/main/kotlin/com/youtubetranscript/core/VideoIdExtractor.kt:14-22 | the first pattern already captures the ID of an `m.youtube.com` watch URL, because it is unanchored |
| VideoIds.MobileUrlYieldsId | src/test/kotlin/com/youtubetranscript/YouTubeTranscriptApiTest.kt:20 | an `m.` watch URL yields its ID, for every valid ID |
| VideoIds.VUrlCapture | src/main/kotlin/com/youtubetranscript/core/VideoIdExtractor.kt:14-16 | the watch and embed patterns miss a `/v/` URL; the third pattern captures its ID |
| VideoIds.VUrlYieldsId | src/main/kotlin/com/youtubetranscript/core/VideoIdExtractor.kt:16 | a `youtube.com/v/` URL yields its ID, for every valid ID |
| VideoIds.LiveUrlCapture | src/main/kotlin/com/youtubetranscript/core/VideoIdExtractor.kt:14-25 | the five patterns before the live pattern miss a live URL; the live pattern captures its ID |
| VideoIds.LiveUrlYieldsId | src/main/kotlin/com/youtubetranscript/core/VideoIdExtractor.kt:25 | a `youtube.com/live/` URL yields its ID, for every valid ID |
| VideoIds.ShortsUrlMisses | src/main/kotlin/com/youtubetranscript/core/VideoIdExtractor.kt:14-25 | none of the first six patterns matches a shorts URL |
| VideoIds.ShortsUrlCapture | src/main/kotlin/com/youtubetranscript/core/VideoIdExtractor.kt:28 | the shorts pattern captures the ID of a shorts URL |
| VideoIds.ShortsUrlYieldsId | src/test/kotlin/com/youtubetranscript/YouTubeTranscriptApiTest.kt:21 | a shorts URL yields its ID, for every valid ID |
| VideoIds.ShortTokenMisses | src/main/kotlin/com/youtubetranscript/core/VideoIdExtractor.kt:14-28 | no unanchored pattern captures from a watch URL whose token is shorter than 11 characters |
| VideoIds.ExtractUncaptured | src/main/kotlin/com/youtubetranscript/core/VideoIdExtractor.kt:58 | an unpadded input that no pattern captures fails with "Could not extract video ID from: " and the input |
| VideoIds.ShortTokenFails | src/test/kotlin/com/youtubetranscript/YouTubeTranscriptApiTest.kt:35-37 | a watch URL with a token of 1 to 10 characters fails with that message |
| KotlinStrings.Trim | src/main/kotlin/com/youtubetranscript/core/VideoIdExtractor.kt:46 | the result is the input minus blank prefix and suffix; it neither starts nor ends with whitespace; it is empty exactly for blank input |
| KotlinStrings.TrimPadded | src/main/kotlin/com/youtubetranscript/core/VideoIdExtractor.kt:46 | trimming returns exactly the unpadded text from any blank padding |
| KotlinStrings.ReplaceAllAbsent | src/main/kotlin/com/youtubetranscript/core/TranscriptListExtensions.kt:28 | `replace` leaves a string without the pattern unchanged |
| KotlinStrings.LessIrreflexive | src/main/kotlin/com/youtubetranscript/models/TranscriptList.kt:94 | the string order of `sorted()` is irreflexive |
| KotlinStrings.LessTransitive | src/main/kotlin/com/youtubetranscript/models/TranscriptList.kt:94 | the string order is transitive |
| KotlinStrings.LessAsymmetric | src/main/kotlin/com/youtubetranscript/models/TranscriptList.kt:94 | the string order is asymmetric |
| KotlinStrings.LessTotal | src/main/kotlin/com/youtubetranscript/models/TranscriptList.kt:94 | any two distinct strings are ordered one way or the other |
| KotlinStrings.Contains | src/main/kotlin/com/youtubetranscript/models/Transcript.kt:41 | `contains` holds exactly when the pattern starts at some position of the text |
| KotlinStrings.ReplaceAll | src/main/kotlin/com/youtubetranscript/core/TranscriptListExtensions.kt:28 | a function: Kotlin's single-pass `replace`; `ReplaceAllAbsent`, `CatalogBuilder.Srv3RemovalIsSinglePass` and the decoding lemmas state its behaviour |
| KotlinStrings.JoinToString | src/main/kotlin/com/youtubetranscript/TranscriptException.kt:22 | a function: `joinToString(sep)`; `JoinToStringSnoc` and `Exceptions.ToStringTwoLanguages` state its behaviour |
| KotlinStrings.ListToString | src/main/kotlin/com/youtubetranscript/models/TranscriptList.kt:46 | a function: `List.toString()`, the joined elements in brackets; `Catalogs.FindTranscriptFails` states the message that uses it |
| KotlinStrings.SortedDistinct | src/main/kotlin/com/youtubetranscript/models/TranscriptList.kt:94 | `distinct().sorted()` is strictly increasing and has the same elements as its input |
| KotlinStrings.StrictlySortedUnique | src/main/kotlin/com/youtubetranscript/models/TranscriptList.kt:94 | two strictly sorted lists with the same elements are equal, so the listing is determined by the key sets |
| KotlinStrings.SortedDistinctLength | src/main/kotlin/com/youtubetranscript/models/TranscriptList.kt:100-109 | sorting a duplicate-free list keeps its length |
| KotlinStrings.JoinToStringSnoc | src/main/kotlin/com/youtubetranscript/TranscriptException.kt:22 | joining one more element appends the separator and that element |
| LinkedMaps.Get | src/main/kotlin/com/youtubetranscript/models/TranscriptList.kt:40 | `map[key]` is null exactly when the key is absent, and otherwise a value stored under that key |
| LinkedMaps.Put | src/main/kotlin/com/youtubetranscript/core/TranscriptListExtensions.kt:44-48 | a function: `map[key] = value`; `PutSpec` and `PutDistinct` state its behaviour |
| LinkedMaps.PutSpec | src/main/kotlin/com/youtubetranscript/core/TranscriptListExtensions.kt:44-48 | `map[k] = v` stores `v` under `k` and keeps every other key's value; an old key keeps its place and a new key is appended |
| LinkedMaps.PutDistinct | src/main/kotlin/com/youtubetranscript/core/TranscriptListExtensions.kt:44-48 | `put` keeps the keys distinct |
| LinkedMaps.GetUnique | src/main/kotlin/com/youtubetranscript/models/TranscriptList.kt:40 | with distinct keys, `map[key]` returns the value stored with that key |
| CatalogBuilder.ParseTranslationLanguages | src/main/kotlin/com/youtubetranscript/core/TranscriptListExtensions.kt:64-89 | the loop builds exactly the kept languages of the array, or nothing when the array is missing |
| CatalogBuilder.KeptLanguagesAppend | src/main/kotlin/com/youtubetranscript/core/TranscriptListExtensions.kt:69-85 | the filter works entry by entry: the kept list of a concatenation is the concatenation of the kept lists, so array order is preserved |
| CatalogBuilder.KeptLanguagesFilter | src/main/kotlin/com/youtubetranscript/core/TranscriptListExtensions.kt:77-84 | a language is kept exactly when its code and its name are non-empty and some entry carries both |
| CatalogBuilder.TrackOf | src/main/kotlin/com/youtubetranscript/core/TranscriptListExtensions.kt:24-42 | a function: the track one record yields, if any; `TrackKind`, `SkippedRecord`, `StoredUrl` and `FillWellStored` state its behaviour |
| CatalogBuilder.TrackKind | src/main/kotlin/com/youtubetranscript/core/TranscriptListExtensions.kt:24-42 | a record yields a track exactly when its code and stripped URL are non-empty; the track is generated exactly when `kind` is `"asr"`, and carries the record's code, its name (`""` when missing) and the video ID |
| CatalogBuilder.Fill | src/main/kotlin/com/youtubetranscript/core/TranscriptListExtensions.kt:21-51 | a function: the maps after the records read so far; `FillLastWins` and `FillWellStored` state its contents |
| CatalogBuilder.CatalogOf | src/main/kotlin/com/youtubetranscript/core/TranscriptListExtensions.kt:12-59 | a function: the catalog `buildTranscriptList` returns; `BuildTranscriptList`, `CatalogWellStored` and `NoCaptionTracks` state it |
| CatalogBuilder.BuildTranscriptList | src/main/kotlin/com/youtubetranscript/core/TranscriptListExtensions.kt:12-59 | the loop over caption tracks builds exactly the catalog of the record-by-record specification |
| CatalogBuilder.PutWellStored | src/main/kotlin/com/youtubetranscript/core/TranscriptListExtensions.kt:44-48 | storing a well-formed track under its code keeps a map well-stored and duplicate-free |
| CatalogBuilder.FillWellStored | src/main/kotlin/com/youtubetranscript/core/TranscriptListExtensions.kt:21-51 | every entry of both maps is stored under its own non-empty language code, carries the video ID and a non-empty URL, sits in the map for its kind, and carries the translation list exactly when translatable |
| CatalogBuilder.CatalogWellStored | src/main/kotlin/com/youtubetranscript/core/TranscriptListExtensions.kt:12-59 | the built catalog has distinct keys in both maps and every stored track follows the rules above |
| CatalogBuilder.FillLastWins | src/main/kotlin/com/youtubetranscript/core/TranscriptListExtensions.kt:44-48 | the track stored under a code in each map is the one from the last record that kept that code and kind |
| CatalogBuilder.NoCaptionTracks | src/main/kotlin/com/youtubetranscript/core/TranscriptListExtensions.kt:21-58 | without a `captionTracks` array both maps are empty, and the video ID and translation list are passed through |
| CatalogBuilder.SkippedRecord | src/main/kotlin/com/youtubetranscript/core/TranscriptListExtensions.kt:25-32 | a record with an empty code, or with an empty URL after stripping, changes nothing |
| CatalogBuilder.StoredUrl | src/main/kotlin/com/youtubetranscript/core/TranscriptListExtensions.kt:28 | the stored URL is the base URL after one removal pass of `&fmt=srv3`; a base URL without it is stored unchanged |
| CatalogBuilder.Srv3RemovalIsSinglePass | src/main/kotlin/com/youtubetranscript/core/TranscriptListExtensions.kt:28 | a nested `&fmt=&fmt=srv3srv3` leaves `&fmt=srv3` behind |
| CatalogBuilder.NestedSrv3 | src/main/kotlin/com/youtubetranscript/core/TranscriptListExtensions.kt:28 | the removal pass maps `&fmt=&fmt=srv3srv3` to `&fmt=srv3` |
| Catalogs.AllTranscripts | src/main/kotlin/com/youtubetranscript/models/TranscriptList.kt:25-27 | a function: the manual values, then the generated ones; `AllTranscriptsSize` states its length and contents |
| Catalogs.Size | src/main/kotlin/com/youtubetranscript/models/TranscriptList.kt:121-123 | a function: the number of tracks; `AllTranscriptsSize` ties it to `getAllTranscripts()` |
| Catalogs.IsNotEmpty | src/main/kotlin/com/youtubetranscript/models/TranscriptList.kt:114-116 | a predicate: some map has a track; `IsNotEmptyIffLanguages` ties it to `getAvailableLanguages()` |
| Catalogs.FindTranscript | src/main/kotlin/com/youtubetranscript/models/TranscriptList.kt:37-50 | a function: the search over both maps; `FindTranscriptFirstHit`, `FindTranscriptFails` and `FindTranscriptInCatalog` state its result and its error |
| Catalogs.FindManuallyCreatedTranscript | src/main/kotlin/com/youtubetranscript/models/TranscriptList.kt:59-69 | a function: the search over the manual map; `FindManuallyCreatedFirstHit` and `FindOwnMapOnly` state its result and its error |
| Catalogs.FindGeneratedTranscript | src/main/kotlin/com/youtubetranscript/models/TranscriptList.kt:78-88 | a function: the search over the generated map; `FindGeneratedFirstHit` and `FindOwnMapOnly` state its result and its error |
| Catalogs.AllTranscriptsSize | src/main/kotlin/com/youtubetranscript/models/TranscriptList.kt:25-27 | `getAllTranscripts()` has `size()` elements; it holds the values of both maps and starts with the manual ones |
| Catalogs.GetFirst | src/main/kotlin/com/youtubetranscript/models/TranscriptList.kt:40-42 | there is no hit exactly when no map has the code |
| Catalogs.FirstHit | src/main/kotlin/com/youtubetranscript/models/TranscriptList.kt:38-43 | the loop stops at the first code that either map has; every earlier code misses |
| Catalogs.Search | src/main/kotlin/com/youtubetranscript/models/TranscriptList.kt:37-50 | the search finds nothing exactly when every requested code misses |
| Catalogs.GetFirstOfTwo | src/main/kotlin/com/youtubetranscript/models/TranscriptList.kt:40-42 | for one code, the manual track wins over the generated one |
| Catalogs.FindTranscriptFirstHit | src/main/kotlin/com/youtubetranscript/models/TranscriptList.kt:37-43 | `findTranscript` returns the preferred track of the first requested code that either map has |
| Catalogs.FindTranscriptFails | src/main/kotlin/com/youtubetranscript/models/TranscriptList.kt:45-49 | `findTranscript` fails exactly when no requested code is available; the error carries the video ID and `getAvailableLanguages()` |
| Catalogs.FindOwnMapOnly | src/main/kotlin/com/youtubetranscript/models/TranscriptList.kt:59-88 | the manual-only and generated-only finds return values of their own map, and fail exactly when no code is a key of that map. The error carries the find's own wording with the request as `List.toString`, the video ID and `getAvailableLanguages()` of both maps |
| Catalogs.FindManuallyCreatedFirstHit | src/main/kotlin/com/youtubetranscript/models/TranscriptList.kt:59-62 | `findManuallyCreatedTranscript` returns the manual track of the first requested code the manual map has |
| Catalogs.FindGeneratedFirstHit | src/main/kotlin/com/youtubetranscript/models/TranscriptList.kt:78-81 | `findGeneratedTranscript` returns the generated track of the first requested code the generated map has |
| Catalogs.SearchOneMap | src/main/kotlin/com/youtubetranscript/models/TranscriptList.kt:60-62 | a search in one map returns one of its values, and fails exactly when the map has none of the codes |
| Catalogs.SearchOneMapFirstHit | src/main/kotlin/com/youtubetranscript/models/TranscriptList.kt:60-62 | a search in one map stops at the first requested code that map has and returns that code's value |
| Catalogs.FindTranscriptInCatalog | src/main/kotlin/com/youtubetranscript/models/TranscriptList.kt:37-43 | a track `findTranscript` returns is one of `getAllTranscripts()` |
| Catalogs.AvailableLanguages | src/main/kotlin/com/youtubetranscript/models/TranscriptList.kt:93-95 | strictly sorted, hence duplicate-free; its elements are the keys of both maps |
| Catalogs.ManuallyCreatedLanguages | src/main/kotlin/com/youtubetranscript/models/TranscriptList.kt:100-102 | strictly sorted; its elements are the manual keys |
| Catalogs.GeneratedLanguages | src/main/kotlin/com/youtubetranscript/models/TranscriptList.kt:107-109 | strictly sorted; its elements are the generated keys |
| Catalogs.LanguageListLengths | src/main/kotlin/com/youtubetranscript/models/TranscriptList.kt:100-109 | with distinct keys, each language list has one entry per track of its map |
| Catalogs.IsNotEmptyIffLanguages | src/main/kotlin/com/youtubetranscript/models/TranscriptList.kt:114-116 | `isNotEmpty()` holds exactly when some language is available |
| Transcripts.FindTranslationLanguage | src/main/kotlin/com/youtubetranscript/models/Transcript.kt:72-73 | `find` returns the first target with the code, and nothing exactly when no target has it |
| Transcripts.Translate | src/main/kotlin/com/youtubetranscript/models/Transcript.kt:67-87 | a non-translatable track fails first; otherwise the call fails exactly when no target has the code, with the base exception "Translation language not available: " and the code. A success has URL `url + "&tlang=" + code`, the same video ID, the requested code and a matching target name; it is generated, not translatable and has no targets |
| Transcripts.TranslationIsTerminal | src/main/kotlin/com/youtubetranscript/models/Transcript.kt:67-87 | translating a translation always fails with "Transcript is not translatable" |
| Transcripts.TranslateTakesFirstTarget | src/main/kotlin/com/youtubetranscript/models/Transcript.kt:72-73 | of several targets with the same code, the first names the translation |
| Transcripts.FetchGuard | src/main/kotlin/com/youtubetranscript/models/Transcript.kt:41-43 | `fetch` refuses exactly when the URL contains `&exp=xpe`, with the authentication error for the track's video |
| Transcripts.TranslationKeepsGuard | src/main/kotlin/com/youtubetranscript/models/Transcript.kt:75 | translation only appends to the URL, so a refused track stays refused |
| ListFetcher.WatchUrl | src/main/kotlin/com/youtubetranscript/core/TranscriptListFetcher.kt:66 | filling the watch template gives `https://www.youtube.com/watch?v=` followed by the ID |
| ListFetcher.PlayerUrl | src/main/kotlin/com/youtubetranscript/core/TranscriptListFetcher.kt:102 | filling the player template gives the player endpoint followed by the key |
| ListFetcher.FillTemplate | src/main/kotlin/com/youtubetranscript/core/TranscriptListFetcher.kt:66 | a placeholder at the end of a template whose fixed part lacks the placeholder's first character is replaced by the value |
| ListFetcher.WatchUrlBaseSpelledOut | src/main/kotlin/com/youtubetranscript/core/TranscriptListFetcher.kt:30 | the fixed part of the watch template is `https://www.youtube.com/watch?v=` |
| ListFetcher.WatchUrlRoundTrip | src/main/kotlin/com/youtubetranscript/core/TranscriptListFetcher.kt:66 | extracting the video ID from the watch URL of a valid ID gives back that ID |
| ListFetcher.SpaceRun | src/main/kotlin/com/youtubetranscript/core/TranscriptListFetcher.kt:84 | greedy `\s*`: the longest prefix of regex whitespace |
| ListFetcher.KeyRun | src/main/kotlin/com/youtubetranscript/core/TranscriptListFetcher.kt:84 | greedy `[a-zA-Z0-9_-]+`: the longest prefix of key characters |
| ListFetcher.QuotedKey | src/main/kotlin/com/youtubetranscript/core/TranscriptListFetcher.kt:84 | the captured key is non-empty, made of key characters, and appears between quotes |
| ListFetcher.FrontKey | src/main/kotlin/com/youtubetranscript/core/TranscriptListFetcher.kt:84 | the key after the marker is non-empty, made of key characters, and quoted in the text |
| ListFetcher.FirstKeyFrom | src/main/kotlin/com/youtubetranscript/core/TranscriptListFetcher.kt:85 | `find` takes the leftmost position at which the whole pattern matches |
| ListFetcher.ExtractInnertubeApiKey | src/main/kotlin/com/youtubetranscript/core/TranscriptListFetcher.kt:83-96 | it succeeds exactly when the pattern matches somewhere, and the key is non-empty, made of key characters and quoted in the page. Otherwise the error is "IP blocked by YouTube" exactly when the page shows the CAPTCHA marker, else "Could not extract API key from video page", always for the given video |
| ListFetcher.ExtractFirstKey | src/main/kotlin/com/youtubetranscript/core/TranscriptListFetcher.kt:85-88 | the key returned is the one at the leftmost match |
| ListFetcher.KeyAfterMarker | src/main/kotlin/com/youtubetranscript/core/TranscriptListFetcher.kt:84 | the marker, any regex whitespace and a quoted key form a match whose capture is that key |
| ListFetcher.ApiKeyFound | src/main/kotlin/com/youtubetranscript/core/TranscriptListFetcher.kt:84-88 | a page whose first quote opens the marker, followed by spaces and a quoted key, yields that key, whatever follows, CAPTCHA or not |
| ListFetcher.NoMarkerNoKey | src/main/kotlin/com/youtubetranscript/core/TranscriptListFetcher.kt:84-95 | a page without `"INNERTUBE_API_KEY":` yields an error |
| ListFetcher.ExtractCaptionsJson | src/main/kotlin/com/youtubetranscript/core/TranscriptListFetcher.kt:133-153 | it succeeds exactly when the status check passes and the renderer has `captionTracks`, and then returns that renderer. A status that is neither empty nor `OK` fails with "Video not playable: " and the reason or "Unknown error"; otherwise a missing renderer or track list fails with "Transcripts are disabled for this video" |
| ListFetcher.CaptionsFailuresDiffer | src/main/kotlin/com/youtubetranscript/core/TranscriptListFetcher.kt:136-150 | the two failures of the response check are told apart by their messages |
| ListFetcher.FetchTranscriptList | src/main/kotlin/com/youtubetranscript/core/TranscriptListFetcher.kt:40-60 | listing succeeds exactly when the key is found and the response passes; a key error wins; when the key is found and the response fails its check, that check's error ("Video not playable: …" or "Transcripts are disabled for this video") comes out; a success is the catalog built from the renderer |
| ListFetcher.FetchedCatalogWellStored | src/main/kotlin/com/youtubetranscript/core/TranscriptListFetcher.kt:40-43 | a listed catalog has distinct keys, the requested video ID and only well-stored tracks |
| TranscriptParser.DecodeHtmlEntities | src/main/kotlin/com/youtubetranscript/core/TranscriptParser.kt:91-176 | a function: the chain of single-pass replacements in source order; `DecodeWithoutAmpersand`, `DecodeThreeReferences`, `DecodeAmpersandFirst` and `DecodeDoubleAmpersand` state its behaviour |
| TranscriptParser.Reference | src/main/kotlin/com/youtubetranscript/core/TranscriptParser.kt:93-175 | every reference replaced starts with `&` |
| TranscriptParser.DecodeFromUntouched | src/main/kotlin/com/youtubetranscript/core/TranscriptParser.kt:92-175 | the remaining calls of the chain leave a text without their references unchanged |
| TranscriptParser.DecodeWithoutAmpersand | src/main/kotlin/com/youtubetranscript/core/TranscriptParser.kt:92-175 | decoding is the identity on text without `&` |
| TranscriptParser.EntityNames | src/main/kotlin/com/youtubetranscript/core/TranscriptParser.kt:93-175 | every entity name is non-empty and does not start with a space; only the first, `amp`, starts with `am` |
| TranscriptParser.LooseAmpersands | src/main/kotlin/com/youtubetranscript/core/TranscriptParser.kt:93-175 | no reference occurs in a text in which every `&` is followed by a space |
| TranscriptParser.DecodeThreeReferences | src/main/kotlin/com/youtubetranscript/core/TranscriptParser.kt:93-95 | text with one `&amp;`, `&lt;` and `&gt;` among plain parts decodes to `&`, `<` and `>` |
| TranscriptParser.DecodeExample | src/main/kotlin/com/youtubetranscript/core/TranscriptParser.kt:93-95 | `A &amp; B &lt;tag&gt;` decodes to `A & B <tag>` |
| TranscriptParser.DecodeAmpersandFirst | src/main/kotlin/com/youtubetranscript/core/TranscriptParser.kt:93-94 | `&amp;lt;` decodes to `<`, because the `&amp;` call comes first |
| TranscriptParser.DecodeDoubleAmpersand | src/main/kotlin/com/youtubetranscript/core/TranscriptParser.kt:93 | `&amp;amp;` followed by plain text decodes to `&amp;` and that text: the chain is not idempotent |
| TranscriptParser.Step | src/main/kotlin/com/youtubetranscript/core/TranscriptParser.kt:35-76 | a function: one iteration of the `when`; `IdleIgnores`, `TagSteps` and `HandleEvent` state it |
| TranscriptParser.RunFrom | src/main/kotlin/com/youtubetranscript/core/TranscriptParser.kt:34-78 | a function: the loop over the events; `Parse`, `RunFromAppend`, `RunFromTexts` and `CaptionRun` state it |
| TranscriptParser.HandleEvent | src/main/kotlin/com/youtubetranscript/core/TranscriptParser.kt:35-76 | one pass of the `when` updates the three cursor variables and emits as one step of the state machine does |
| TranscriptParser.Parse | src/main/kotlin/com/youtubetranscript/core/TranscriptParser.kt:21-84 | the loop returns exactly the segments the state machine emits over the events from the idle state |
| TranscriptParser.RunFromSnoc | src/main/kotlin/com/youtubetranscript/core/TranscriptParser.kt:34-78 | one more event is one more step; the list is appended to |
| TranscriptParser.RunFromAppend | src/main/kotlin/com/youtubetranscript/core/TranscriptParser.kt:34-78 | running over two event runs is running over the first and then, from where it stopped, the second; segments concatenate |
| TranscriptParser.RunFromAppendOnly | src/main/kotlin/com/youtubetranscript/core/TranscriptParser.kt:61 | the segments after a prefix of the events are a prefix of the final segments |
| TranscriptParser.RunFromTexts | src/main/kotlin/com/youtubetranscript/core/TranscriptParser.kt:53-60 | every emitted segment has non-empty text |
| TranscriptParser.RunFromTrimmed | src/main/kotlin/com/youtubetranscript/core/TranscriptParser.kt:54-55 | with formatting preserved, every emitted text is non-empty and neither starts nor ends with whitespace |
| TranscriptParser.IdleIgnores | src/main/kotlin/com/youtubetranscript/core/TranscriptParser.kt:37-52 | outside a `text` element, character content and tags with other names change nothing |
| TranscriptParser.TagSteps | src/main/kotlin/com/youtubetranscript/core/TranscriptParser.kt:36-75 | tags with other names change no state; a closing `text` resets the cursor and emits at most one segment |
| TranscriptParser.TextEventsAccumulate | src/main/kotlin/com/youtubetranscript/core/TranscriptParser.kt:45-49 | character content accumulates when a start is known and is dropped otherwise; nothing is emitted |
| TranscriptParser.CaptionRun | src/main/kotlin/com/youtubetranscript/core/TranscriptParser.kt:36-75 | one `text` element emits nothing when its start is missing, its content is empty, or its finished text is empty. Otherwise it emits one segment with the parsed start, the duration (0 when missing) and the finished text; the cursor returns to idle |
| TranscriptParser.DocumentRun | src/main/kotlin/com/youtubetranscript/core/TranscriptParser.kt:34-78 | a document of elements emits their segments in document order |
| TranscriptParser.TimedTextParse | src/main/kotlin/com/youtubetranscript/core/TranscriptParser.kt:21-84 | parsing a timed-text document yields each caption's segment in order |
| TranscriptApi.FirstOf | src/main/kotlin/com/youtubetranscript/YouTubeTranscriptApi.kt:61-63 | the first element, or nothing exactly for an empty list |
| TranscriptApi.SelectTranscript | src/main/kotlin/com/youtubetranscript/YouTubeTranscriptApi.kt:49-71 | a successful `findTranscript(languages)` is taken as is. Selection fails exactly when the catalog is empty, and then with the tier-1 error. A chosen track is one of `getAllTranscripts()` |
| TranscriptApi.FallbackFinds | src/main/kotlin/com/youtubetranscript/YouTubeTranscriptApi.kt:55-63 | with any language available, looking up the first one succeeds; no language available means no track at all |
| TranscriptApi.FallbackTakesSmallestLanguage | src/main/kotlin/com/youtubetranscript/YouTubeTranscriptApi.kt:55-58 | when no requested language is there, the chosen track is the one under the smallest available code, manual before generated |
| TranscriptApi.DefaultPrefersEnglish | src/main/kotlin/com/youtubetranscript/YouTubeTranscriptApi.kt:44 | with the default `["en"]`, an available English track is chosen, manual first |
| TranscriptApi.LastTierHasNothing | src/main/kotlin/com/youtubetranscript/YouTubeTranscriptApi.kt:60-66 | the third tier never finds a track |
| TranscriptApi.GetTranscript | src/main/kotlin/com/youtubetranscript/YouTubeTranscriptApi.kt:42-74 | a listing error is passed on. The call succeeds exactly when the catalog is non-empty, the chosen track's URL passes the guard and the request succeeds; the segments are then those of the parse. An empty catalog fails with the error of the first tier's `findTranscript`. A signed URL fails with the authentication error. A failed request for an allowed URL passes its error on |
| TranscriptApi.HasTranscripts | src/main/kotlin/com/youtubetranscript/YouTubeTranscriptApi.kt:105-112 | true exactly when listing succeeds and some language is available |
| TranscriptApi.HasTranscriptsSelects | src/main/kotlin/com/youtubetranscript/YouTubeTranscriptApi.kt:105-112 | when `hasTranscripts` holds, selection succeeds for any requested languages |
| TranscriptApi.GetAvailableLanguages | src/main/kotlin/com/youtubetranscript/YouTubeTranscriptApi.kt:120-123 | a listing error is passed on; otherwise the codes of both maps, strictly sorted |
| Exceptions.ToString | src/main/kotlin/com/youtubetranscript/TranscriptException.kt:14-26 | the text is the header alone exactly when the list is empty; otherwise it is the header, ` (Available languages: `, the languages joined by `, `, and `)` |
| Exceptions.ToStringTwoLanguages | src/main/kotlin/com/youtubetranscript/TranscriptException.kt:14-26 | with a video ID and two languages, the text is `TranscriptException for video <id>: <message> (Available languages: <a>, <b>)` |
| Exceptions.ToStringNamesVideo | src/main/kotlin/com/youtubetranscript/TranscriptException.kt:15-19 | the text starts with "TranscriptException for video " exactly when the video ID is non-empty |
| Exceptions.ToStringBareExample | src/main/kotlin/com/youtubetranscript/TranscriptException.kt:8-26 | an exception built from the message `Failed` alone, with the default empty ID and list, prints as `TranscriptException: Failed` |
| Exceptions.NoTranscriptFoundException | src/main/kotlin/com/youtubetranscript/TranscriptException.kt:48-56 | a function: the message and fields of the subclass; `NoTranscriptFoundListsRequested` states them |
| Exceptions.VideoUnplayableException | src/main/kotlin/com/youtubetranscript/TranscriptException.kt:85-89 | a function: the message and fields of the subclass; `SubclassMessages` states them |
| Exceptions.TranslationLanguageNotAvailableException | src/main/kotlin/com/youtubetranscript/TranscriptException.kt:118-122 | a function: the message and fields of the subclass; `SubclassMessages` states them |
| Exceptions.NoTranscriptFoundListsRequested | src/main/kotlin/com/youtubetranscript/TranscriptException.kt:48-56 | the message lists the requested codes joined by `, `; the ID and the available list are carried |
| Exceptions.SubclassMessages | src/main/kotlin/com/youtubetranscript/TranscriptException.kt:85-122 | the unplayable and translation messages are the default wording, `: ` and the detail; they carry the ID and no languages, and differ from each other |
| Segments.TranscriptSegment.End | src/main/kotlin/com/youtubetranscript/models/TranscriptSegment.kt:23-24 | a function: `start + duration`; `EndIsStartPlusDuration` states it |
| Segments.TranscriptSegment.OverlapsWith | src/main/kotlin/com/youtubetranscript/models/TranscriptSegment.kt:36-38 | a predicate: each segment starts before the other ends; `OverlapSymmetric`, `OverlapIsStrict` and `OverlapMeansSharedInstant` state its meaning |
| Segments.EndIsStartPlusDuration | src/main/kotlin/com/youtubetranscript/models/TranscriptSegment.kt:23-24 | `end` lies `duration` after `start`; the test's 10.5 + 2.0 ends at 12.5 |
| Segments.OverlapSymmetric | src/main/kotlin/com/youtubetranscript/models/TranscriptSegment.kt:36-38 | overlapping is symmetric |
| Segments.OverlapIsStrict | src/main/kotlin/com/youtubetranscript/models/TranscriptSegment.kt:36-38 | segments that only touch do not overlap; a segment overlaps itself exactly when its duration is positive |
| Segments.OverlapMeansSharedInstant | src/main/kotlin/com/youtubetranscript/models/TranscriptSegment.kt:36-38 | for positive durations, overlapping means that the open on-screen intervals share an instant |
| Segments.OverlapExamples | src/test/kotlin/com/youtubetranscript/YouTubeTranscriptApiTest.kt:57-64 | (10,5) and (12,3) overlap both ways; (10,5) and (20,2) do not |

## Left out

- The network is not modelled: OkHttp, `fetchVideoHtml`, `fetchInnertubeData`, the request part of `Transcript.fetch` and the coroutine wrappers. Their outcomes are parameters. The "HTTP error", "Empty response" and "Failed to fetch …" failures are therefore represented only as an error `Result` passed in.
- XML tokenisation is not modelled, and neither is the catch-all that turns parser exceptions into "Failed to parse transcript XML". Parsing works on an abstract event sequence.
- JSON parsing is not modelled. That covers `optJSONArray` and `has` on values of the wrong type, `optString` on non-strings, and the exception `getJSONObject(0)` throws on an empty `runs` array. JSON is modelled as records with optional fields, and a missing name is taken as `""`.
- Number parsing (`toDoubleOrNull`) is not modelled. A start or duration arrives as an optional real.
- Exact `Double` rounding in `end` and `overlapsWith` is not modelled; times are exact reals.
- `speechDuration` is not modelled (a floating-point product).
- `getFormattedTimestamp` is not modelled (floating-point division and `String.format`).
- `TranscriptList.toString` and `Transcript.toString` (display text) are not modelled.
- The `USER_AGENT`, `INNERTUBE_CONTEXT` and request body are not modelled, because they are only sent to the server.
- `getSupportedPatterns` (a constant list of display strings) is not modelled.
- `KotlinStrings.Less`: this is a comparison by code points. Kotlin compares UTF-16 code units, and the two orders differ only between supplementary characters and U+E000–U+FFFF.
- `TranscriptParser.Entity`: `TranscriptParser.kt:106-109` shows straight quotes as the replacements of `&lsquo;`, `&rsquo;`, `&ldquo;` and `&rdquo;`. Its `"""` on lines 108-109 would open a raw string, so those characters evidently did not survive. The model takes them as the curly quotes U+2018, U+2019, U+201C and U+201D. No lemma depends on which characters they are.
- The literal URL examples of the test suite are stated for every valid ID rather than for `dQw4w9WgXcQ` alone: `VideoIds.WatchUrlYieldsId` and its siblings. The exception is `VideoIds.BareIdExample`.
