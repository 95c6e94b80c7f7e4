/** `VideoIdExtractor`: turns a YouTube URL, or a bare ID, into the 11-character video ID.
    The regular expressions are modelled by what they can match. All but the last are
    unanchored, and their optional `https://`, `www.` and `m.` prefixes never decide whether
    `find` succeeds nor what it captures: each pattern captures the 11 ID characters after
    the first occurrence of its fixed marker that is followed by 11 ID characters. The last
    pattern must match the whole input; Java's `$` also matches before a final line
    terminator, and after `trim()` the only one that can remain is U+0085. */
module VideoIds {
  import opened Wrappers
  import opened KotlinStrings

  /** The character class `[a-zA-Z0-9_-]`. */
  predicate IsIdChar(c: char) {
    ('a' <= c <= 'z') || ('A' <= c <= 'Z') || ('0' <= c <= '9') || c == '_' || c == '-'
  }

  /** `isValidVideoId(videoId)`. */
  predicate IsValidVideoId(s: string) {
    |s| == 11 && forall i :: 0 <= i < |s| ==> IsIdChar(s[i])
  }

  /** One entry of `patterns`. */
  datatype Pattern = Marker(marker: string) | WholeInput

  /** `patterns`, in order: watch, embed, v, youtu.be, mobile watch, live, shorts, bare ID.
      The mobile pattern has the same marker as the first one. */
  const Patterns: seq<Pattern> := [
    Marker("youtube.com/watch?v="),
    Marker("youtube.com/embed/"),
    Marker("youtube.com/v/"),
    Marker("youtu.be/"),
    Marker("youtube.com/watch?v="),
    Marker("youtube.com/live/"),
    Marker("youtube.com/shorts/"),
    WholeInput
  ]

  /** `m` occurs at `i` in `s` and 11 ID characters follow it. */
  predicate MatchAt(s: string, m: string, i: nat) {
    i + |m| + 11 <= |s| && m <= s[i..] && IsValidVideoId(s[i + |m|..i + |m| + 11])
  }

  /** The leftmost position from `i` on where the marker matches, or `|s| + 1`. */
  function FirstMatchFrom(s: string, m: string, i: nat): (j: nat)
    requires i <= |s| + 1
    ensures i <= j <= |s| + 1
    ensures j <= |s| ==> MatchAt(s, m, j)
    ensures forall k :: i <= k < j && k <= |s| ==> !MatchAt(s, m, k)
    decreases |s| + 1 - i
  {
    if i > |s| || MatchAt(s, m, i) then i else FirstMatchFrom(s, m, i + 1)
  }

  /** `pattern.find(s)?.groupValues[1]`. */
  function Capture(p: Pattern, s: string): (r: Option<string>)
    ensures r.Some? ==> IsValidVideoId(r.value) && Contains(s, r.value)
  {
    match p
    case Marker(m) =>
      var j := FirstMatchFrom(s, m, 0);
      if j <= |s| then
        var id := s[j + |m|..j + |m| + 11];
        assert id <= s[j + |m|..];
        Some(id)
      else None
    case WholeInput =>
      if IsValidVideoId(s) then
        assert s <= s[0..];
        Some(s)
      else if |s| == 12 && s[11] == '\U{85}' && IsValidVideoId(s[..11]) then
        assert s[..11] <= s[0..];
        Some(s[..11])
      else None
  }

  /** The loop of `extractVideoId`: the capture of the first pattern that matches and whose
      capture passes `isValidVideoId`. */
  function FirstCapture(ps: seq<Pattern>, s: string): (r: Option<string>)
    ensures r.Some? ==> IsValidVideoId(r.value) && Contains(s, r.value)
    ensures r.None? <==> forall k :: 0 <= k < |ps| ==> Capture(ps[k], s).None?
  {
    if ps == [] then None
    else if Capture(ps[0], s).Some? then Capture(ps[0], s)
    else
      var r := FirstCapture(ps[1..], s);
      assert forall k :: 1 <= k < |ps| ==> ps[k] == ps[1..][k - 1];
      r
  }

  /** `extractVideoId(url)`; the error is the message of the `IllegalArgumentException`. */
  function ExtractVideoId(url: string): (r: Result<string, string>)
    ensures r.Success? ==> IsValidVideoId(r.value)
    ensures r.Success? ==> Contains(Trim(url), r.value)
    ensures r == Failure("URL cannot be empty") <==> IsBlank(url)
    ensures !IsBlank(url) ==> (r.Success? <==> FirstCapture(Patterns, Trim(url)).Some?)
    ensures r.Success? ==> Some(r.value) == FirstCapture(Patterns, Trim(url))
    ensures !IsBlank(url) && FirstCapture(Patterns, Trim(url)).None? ==>
      r == Failure("Could not extract video ID from: " + url)
  {
    if IsBlank(url) then Failure("URL cannot be empty")
    else
      match FirstCapture(Patterns, Trim(url))
      case Some(id) => Success(id)
      case None =>
        assert ("Could not extract video ID from: " + url)[0] == 'C';
        Failure("Could not extract video ID from: " + url)
  }

  /** `FirstCapture` returns the capture of the first pattern that matches. */
  lemma {:induction false} FirstCaptureIsFirst(ps: seq<Pattern>, s: string, k: nat)
    requires k < |ps| && Capture(ps[k], s).Some?
    requires forall j :: 0 <= j < k ==> Capture(ps[j], s).None?
    ensures FirstCapture(ps, s) == Capture(ps[k], s)
  {
    if k > 0 {
      assert Capture(ps[0], s).None?;
      assert ps[1..][k - 1] == ps[k];
      FirstCaptureIsFirst(ps[1..], s, k - 1);
    }
  }

  /** A pattern that does not match hands the search on to the next one. */
  lemma SkipPattern(ps: seq<Pattern>, s: string, k: nat)
    requires k < |ps| && Capture(ps[k], s).None?
    ensures FirstCapture(ps[k..], s) == FirstCapture(ps[k + 1..], s)
  {
    assert ps[k..][1..] == ps[k + 1..];
  }

  /** A pattern that matches ends the search. */
  lemma TakePattern(ps: seq<Pattern>, s: string, k: nat)
    requires k < |ps| && Capture(ps[k], s).Some?
    ensures FirstCapture(ps[k..], s) == Capture(ps[k], s)
  {
  }

  /** The marker patterns need more than 11 characters, so on an input of 11 characters
      only the last pattern can match. */
  lemma {:induction false} ShortInputOnlyWhole(s: string, m: string, i: nat)
    requires |s| <= 12 && |m| > 1 && i <= |s| + 1
    ensures FirstMatchFrom(s, m, i) == |s| + 1
    decreases |s| + 1 - i
  {
    if i <= |s| {
      ShortInputOnlyWhole(s, m, i + 1);
    }
  }

  /** On a bare ID no marker pattern fits, and the last pattern captures the whole input. */
  lemma CaptureBareId(id: string)
    requires IsValidVideoId(id)
    ensures FirstCapture(Patterns, id) == Some(id)
  {
    forall k | 0 <= k < 7 ensures Capture(Patterns[k], id).None? {
      ShortInputOnlyWhole(id, Patterns[k].marker, 0);
    }
    FirstCaptureIsFirst(Patterns, id, 7);
  }

  /** A bare ID with whitespace around it yields that ID: it is trimmed, no marker pattern
      fits in 11 characters, and the last pattern matches. */
  lemma ExtractBareId(left: string, id: string, right: string)
    requires IsBlank(left) && IsBlank(right) && IsValidVideoId(id)
    ensures ExtractVideoId(left + id + right) == Success(id)
  {
    assert !IsWhitespace(id[0]) && !IsWhitespace(id[10]);
    TrimPadded(left, id, right);
    var url := left + id + right;
    assert !IsBlank(url) by {
      assert url[|left|] == id[0];
    }
    CaptureBareId(id);
  }

  /** A bare ID yields itself. */
  lemma ExtractUnpaddedId(id: string)
    requires IsValidVideoId(id)
    ensures ExtractVideoId(id) == Success(id)
  {
    ExtractBareId([], id, []);
    assert [] + id + [] == id;
  }

  /** The bare form of the documented ID. */
  lemma BareIdExample()
    ensures ExtractVideoId("dQw4w9WgXcQ") == Success("dQw4w9WgXcQ")
  {
    ExtractUnpaddedId("dQw4w9WgXcQ");
  }

  /** The text "invalid-url" is 11 characters of the ID alphabet, so it is accepted as a
      bare ID. */
  lemma InvalidUrlIsAccepted()
    ensures ExtractVideoId("invalid-url") == Success("invalid-url")
  {
    ExtractUnpaddedId("invalid-url");
  }

  /** Java's `$` also matches before a final U+0085, which `trim()` keeps, so an ID
      followed by that character yields the ID. */
  lemma NextLineAfterId(id: string)
    requires IsValidVideoId(id)
    ensures ExtractVideoId(id + "\U{85}") == Success(id)
  {
    var s := id + "\U{85}";
    assert !IsWhitespace('\U{85}');
    forall k | 0 <= k < 7 ensures Capture(Patterns[k], s).None? {
      ShortInputOnlyWhole(s, Patterns[k].marker, 0);
    }
    assert s[..11] == id;
    FirstCaptureIsFirst(Patterns, s, 7);
    ExtractCaptured(s, id);
  }

  /** An empty URL fails before any pattern is tried. */
  lemma EmptyUrlFails()
    ensures ExtractVideoId("") == Failure("URL cannot be empty")
  {
  }

  /** `c` occurs in `s` at position `k` and nowhere else. */
  predicate OnlyAt(s: string, c: char, k: nat) {
    k < |s| && s[k] == c && forall j :: 0 <= j < |s| && j != k ==> s[j] != c
  }

  /** A marker whose first character occurs in `pre` only at `k`, and which does not fit
      there (too close to the end, or differing at offset `d`), never matches in `pre`
      followed by at most 11 more characters. */
  lemma NoMarkerMatch(pre: string, tail: string, m: string, k: nat, d: nat)
    requires |tail| <= 11 && m != [] && OnlyAt(pre, m[0], k)
    requires k + |m| + 11 > |pre| + |tail| || (d < |m| && k + d < |pre| && pre[k + d] != m[d])
    ensures Capture(Marker(m), pre + tail).None?
  {
    var s := pre + tail;
    forall j | 0 <= j <= |s| ensures !MatchAt(s, m, j) {
      if j + |m| + 11 <= |s| {
        if j == k {
          assert s[j..][d] == pre[k + d];
        } else {
          assert s[j..][0] == pre[j];
        }
      }
    }
  }

  /** Every marker pattern starts with the letter `y`. */
  lemma MarkersStartWithY(p: nat)
    requires p < 7
    ensures Patterns[p].Marker? && |Patterns[p].marker| >= 9 && Patterns[p].marker[0] == 'y'
  {
  }

  /** `NoMarkerMatch` for the `p`-th pattern. */
  lemma PatternMiss(pre: string, tail: string, p: nat, k: nat, d: nat)
    requires p < 7 && |tail| <= 11 && OnlyAt(pre, 'y', k)
    requires k + |Patterns[p].marker| + 11 > |pre| + |tail|
          || (d < |Patterns[p].marker| && k + d < |pre| && pre[k + d] != Patterns[p].marker[d])
    ensures Capture(Patterns[p], pre + tail).None?
  {
    MarkersStartWithY(p);
    NoMarkerMatch(pre, tail, Patterns[p].marker, k, d);
  }

  /** A URL that ends in a marker followed by an ID, with the marker's first character
      nowhere before it, yields that ID through the marker's pattern. */
  lemma MarkerMatch(pre: string, m: string, id: string)
    requires IsValidVideoId(id) && 0 < |m| <= |pre| && pre[|pre| - |m|..] == m
    requires OnlyAt(pre, m[0], |pre| - |m|)
    ensures Capture(Marker(m), pre + id) == Some(id)
  {
    var s := pre + id;
    var k := |pre| - |m|;
    NoEarlierMatch(pre, m, id);
    MatchAtEnd(pre, m, id);
    FirstMatchIs(s, m, k);
  }

  /** A marker ending `pre` matches there when a valid ID follows. */
  lemma MatchAtEnd(pre: string, m: string, id: string)
    requires IsValidVideoId(id) && |m| <= |pre| && pre[|pre| - |m|..] == m
    ensures MatchAt(pre + id, m, |pre| - |m|)
    ensures (pre + id)[|pre|..|pre| + 11] == id
  {
    var s := pre + id;
    var k := |pre| - |m|;
    assert s[k..][..|m|] == m;
    assert s[k + |m|..k + |m| + 11] == id;
  }

  /** A match with none before it is the leftmost one. */
  lemma FirstMatchIs(s: string, m: string, k: nat)
    requires MatchAt(s, m, k) && forall j :: 0 <= j < k ==> !MatchAt(s, m, j)
    ensures FirstMatchFrom(s, m, 0) == k
  {
  }

  /** Before the only place its first character occurs, the marker cannot match. */
  lemma NoEarlierMatch(pre: string, m: string, id: string)
    requires 0 < |m| <= |pre| && OnlyAt(pre, m[0], |pre| - |m|)
    ensures forall j :: 0 <= j < |pre| - |m| ==> !MatchAt(pre + id, m, j)
  {
    forall j | 0 <= j < |pre| - |m| ensures !MatchAt(pre + id, m, j) {
      assert (pre + id)[j..][0] == pre[j];
    }
  }

  /** A URL without surrounding whitespace is not blank and is its own trim. */
  lemma Untrimmed(url: string)
    requires url != [] && !IsWhitespace(url[0]) && !IsWhitespace(url[|url| - 1])
    ensures !IsBlank(url) && Trim(url) == url
  {
    TrimPadded([], url, []);
    assert [] + url + [] == url;
  }

  /** A trimmed URL whose first capture is `id` yields `id`. */
  lemma ExtractCaptured(url: string, id: string)
    requires url != [] && !IsWhitespace(url[0]) && !IsWhitespace(url[|url| - 1])
    requires FirstCapture(Patterns, url) == Some(id)
    ensures ExtractVideoId(url) == Success(id)
  {
    Untrimmed(url);
  }

  /** A URL with whitespace around it is trimmed before any pattern is tried: it yields
      what its first capture yields, and an error naming the padded input otherwise. */
  lemma ExtractPaddedUrl(left: string, url: string, right: string)
    requires IsBlank(left) && IsBlank(right)
    requires url != [] && !IsWhitespace(url[0]) && !IsWhitespace(url[|url| - 1])
    ensures FirstCapture(Patterns, url).Some? ==>
      ExtractVideoId(left + url + right) == Success(FirstCapture(Patterns, url).value)
    ensures FirstCapture(Patterns, url).None? ==>
      ExtractVideoId(left + url + right) == Failure("Could not extract video ID from: " + (left + url + right))
  {
    TrimPadded(left, url, right);
    var padded := left + url + right;
    assert !IsBlank(padded) by {
      assert padded[|left|] == url[0];
    }
  }

  /** The first pattern captures the ID of a watch URL. */
  lemma WatchCapture(id: string)
    requires IsValidVideoId(id)
    ensures FirstCapture(Patterns, "https://www.youtube.com/watch?v=" + id) == Some(id)
  {
    var pre := "https://www.youtube.com/watch?v=";
    assert OnlyAt(pre, 'y', 12);
    MarkerMatch(pre, "youtube.com/watch?v=", id);
    TakePattern(Patterns, pre + id, 0);
  }

  /** A watch URL yields its ID through the first pattern. */
  lemma WatchUrlYieldsId(id: string)
    requires IsValidVideoId(id)
    ensures ExtractVideoId("https://www.youtube.com/watch?v=" + id) == Success(id)
  {
    WatchCapture(id);
    ExtractCaptured("https://www.youtube.com/watch?v=" + id, id);
  }

  /** The fourth pattern captures the ID of a short URL; the three before it do not fit. */
  lemma ShortUrlCapture(id: string)
    requires IsValidVideoId(id)
    ensures FirstCapture(Patterns, "https://youtu.be/" + id) == Some(id)
  {
    var pre := "https://youtu.be/";
    assert OnlyAt(pre, 'y', 8);
    NoMarkerMatch(pre, id, "youtube.com/watch?v=", 8, 5);
    NoMarkerMatch(pre, id, "youtube.com/embed/", 8, 5);
    NoMarkerMatch(pre, id, "youtube.com/v/", 8, 5);
    MarkerMatch(pre, "youtu.be/", id);
    SkipPattern(Patterns, pre + id, 0);
    SkipPattern(Patterns, pre + id, 1);
    SkipPattern(Patterns, pre + id, 2);
    TakePattern(Patterns, pre + id, 3);
  }

  /** A `youtu.be` URL yields its ID. */
  lemma ShortUrlYieldsId(id: string)
    requires IsValidVideoId(id)
    ensures ExtractVideoId("https://youtu.be/" + id) == Success(id)
  {
    ShortUrlCapture(id);
    ExtractCaptured("https://youtu.be/" + id, id);
  }

  /** The second pattern captures the ID of an embed URL. */
  lemma EmbedUrlCapture(id: string)
    requires IsValidVideoId(id)
    ensures FirstCapture(Patterns, "https://www.youtube.com/embed/" + id) == Some(id)
  {
    var pre := "https://www.youtube.com/embed/";
    assert OnlyAt(pre, 'y', 12);
    NoMarkerMatch(pre, id, "youtube.com/watch?v=", 12, 12);
    MarkerMatch(pre, "youtube.com/embed/", id);
    SkipPattern(Patterns, pre + id, 0);
    TakePattern(Patterns, pre + id, 1);
  }

  /** An embed URL yields its ID. */
  lemma EmbedUrlYieldsId(id: string)
    requires IsValidVideoId(id)
    ensures ExtractVideoId("https://www.youtube.com/embed/" + id) == Success(id)
  {
    EmbedUrlCapture(id);
    ExtractCaptured("https://www.youtube.com/embed/" + id, id);
  }

  /** The third pattern captures the ID of a `/v/` URL; the watch and embed markers
      differ from it right after `youtube.com/`. */
  lemma VUrlCapture(id: string)
    requires IsValidVideoId(id)
    ensures FirstCapture(Patterns, "https://www.youtube.com/v/" + id) == Some(id)
  {
    var pre := "https://www.youtube.com/v/";
    assert OnlyAt(pre, 'y', 12);
    NoMarkerMatch(pre, id, "youtube.com/watch?v=", 12, 12);
    NoMarkerMatch(pre, id, "youtube.com/embed/", 12, 12);
    MarkerMatch(pre, "youtube.com/v/", id);
    SkipPattern(Patterns, pre + id, 0);
    SkipPattern(Patterns, pre + id, 1);
    TakePattern(Patterns, pre + id, 2);
  }

  /** A `/v/` URL yields its ID. */
  lemma VUrlYieldsId(id: string)
    requires IsValidVideoId(id)
    ensures ExtractVideoId("https://www.youtube.com/v/" + id) == Success(id)
  {
    VUrlCapture(id);
    ExtractCaptured("https://www.youtube.com/v/" + id, id);
  }

  /** The sixth pattern captures the ID of a live URL; the five before it do not match. */
  lemma LiveUrlCapture(id: string)
    requires IsValidVideoId(id)
    ensures FirstCapture(Patterns, "https://www.youtube.com/live/" + id) == Some(id)
  {
    var pre := "https://www.youtube.com/live/";
    assert OnlyAt(pre, 'y', 12);
    forall p | 0 <= p < 5 ensures Capture(Patterns[p], pre + id).None? {
      PatternMiss(pre, id, p, 12, if p == 3 then 5 else 12);
    }
    MarkerMatch(pre, "youtube.com/live/", id);
    FirstCaptureIsFirst(Patterns, pre + id, 5);
  }

  /** A live URL yields its ID. */
  lemma LiveUrlYieldsId(id: string)
    requires IsValidVideoId(id)
    ensures ExtractVideoId("https://www.youtube.com/live/" + id) == Success(id)
  {
    LiveUrlCapture(id);
    ExtractCaptured("https://www.youtube.com/live/" + id, id);
  }

  /** The first pattern already captures the ID of a mobile watch URL, so the mobile
      pattern is never the one that matches. */
  lemma MobileUrlCapture(id: string)
    requires IsValidVideoId(id)
    ensures FirstCapture(Patterns, "https://m.youtube.com/watch?v=" + id) == Some(id)
    ensures Capture(Patterns[0], "https://m.youtube.com/watch?v=" + id) == Some(id)
  {
    var pre := "https://m.youtube.com/watch?v=";
    assert OnlyAt(pre, 'y', 10);
    MarkerMatch(pre, "youtube.com/watch?v=", id);
    TakePattern(Patterns, pre + id, 0);
  }

  /** A mobile watch URL yields its ID. */
  lemma MobileUrlYieldsId(id: string)
    requires IsValidVideoId(id)
    ensures ExtractVideoId("https://m.youtube.com/watch?v=" + id) == Success(id)
  {
    MobileUrlCapture(id);
    ExtractCaptured("https://m.youtube.com/watch?v=" + id, id);
  }

  /** On a shorts URL the six patterns before the shorts pattern do not match. */
  lemma ShortsUrlMisses(tail: string)
    requires |tail| <= 11
    ensures forall p :: 0 <= p < 6 ==> Capture(Patterns[p], "https://www.youtube.com/shorts/" + tail).None?
  {
    var pre := "https://www.youtube.com/shorts/";
    assert OnlyAt(pre, 'y', 12);
    forall p | 0 <= p < 6 ensures Capture(Patterns[p], pre + tail).None? {
      PatternMiss(pre, tail, p, 12, if p == 3 then 5 else 12);
    }
  }

  /** The seventh pattern captures the ID of a shorts URL. */
  lemma ShortsUrlCapture(id: string)
    requires IsValidVideoId(id)
    ensures FirstCapture(Patterns, "https://www.youtube.com/shorts/" + id) == Some(id)
  {
    var pre := "https://www.youtube.com/shorts/";
    assert OnlyAt(pre, 'y', 12);
    MarkerMatch(pre, "youtube.com/shorts/", id);
    ShortsUrlMisses(id);
    FirstCaptureIsFirst(Patterns, pre + id, 6);
  }

  /** A shorts URL yields its ID. */
  lemma ShortsUrlYieldsId(id: string)
    requires IsValidVideoId(id)
    ensures ExtractVideoId("https://www.youtube.com/shorts/" + id) == Success(id)
  {
    ShortsUrlCapture(id);
    ExtractCaptured("https://www.youtube.com/shorts/" + id, id);
  }

  /** No marker pattern matches a watch URL whose token is shorter than 11 characters. */
  lemma ShortTokenMisses(token: string)
    requires |token| < 11
    ensures forall p :: 0 <= p < 7 ==> Capture(Patterns[p], "https://www.youtube.com/watch?v=" + token).None?
  {
    var pre := "https://www.youtube.com/watch?v=";
    assert OnlyAt(pre, 'y', 12);
    forall p | 0 <= p < 7 ensures Capture(Patterns[p], pre + token).None? {
      PatternMiss(pre, token, p, 12, if p == 3 then 5 else 12);
    }
  }

  /** A trimmed URL on which no pattern matches is refused with the URL in the message. */
  lemma ExtractUncaptured(url: string)
    requires url != [] && !IsWhitespace(url[0]) && !IsWhitespace(url[|url| - 1])
    requires FirstCapture(Patterns, url).None?
    ensures ExtractVideoId(url) == Failure("Could not extract video ID from: " + url)
  {
    Untrimmed(url);
  }

  /** A watch URL with a token shorter than an ID is refused with the URL in the message. */
  lemma ShortTokenFails(token: string)
    requires 0 < |token| < 11 && !IsWhitespace(token[|token| - 1])
    ensures ExtractVideoId("https://www.youtube.com/watch?v=" + token)
         == Failure("Could not extract video ID from: " + ("https://www.youtube.com/watch?v=" + token))
  {
    var url := "https://www.youtube.com/watch?v=" + token;
    ShortTokenMisses(token);
    assert Capture(Patterns[7], url).None?;
    ExtractUncaptured(url);
  }
}
