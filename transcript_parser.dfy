/** `TranscriptParser`: turns a timed-text document into transcript segments.

    The XML tokenizer is not modelled: a document is the sequence of pull-parser events it
    produces (start tags of `text` elements with their already-converted `start` and `dur`
    attributes, character content, end tags). `parse` is the event loop over that sequence,
    with the three cursor variables of the source; `Step`/`RunFrom` specify it as a state
    machine, and `CaptionSegments` states what one well-formed caption element yields. */
module TranscriptParser {
  import opened Wrappers
  import opened KotlinStrings
  import opened Segments

  /** One pull-parser event. `start`/`dur` are `getAttributeValue(..)?.toDoubleOrNull()`:
      `None` when the attribute is missing or is not a number. */
  datatype XmlEvent =
    | StartTag(name: string, start: Option<real>, dur: Option<real>)
    | Text(text: string)
    | EndTag(name: string)

  /** The cursor of the loop: `currentStart`, `currentDuration`, `currentText`. */
  datatype ParserState = ParserState(currentStart: Option<real>, currentDuration: Option<real>, currentText: string)

  /** The cursor outside any `text` element (also the initial one). */
  const Idle: ParserState := ParserState(None, None, "")

  /** A cursor and the segments produced so far (or by one step). */
  datatype Progress = Progress(state: ParserState, segments: seq<TranscriptSegment>)

  /** One named character reference of `decodeHtmlEntities` and the character it stands for. */
  datatype NamedEntity = NamedEntity(name: string, replacement: char)

  /** The text the reference is written as: `&name;`. */
  function Reference(e: NamedEntity): (r: string)
    ensures r != [] && r[0] == '&'
  {
    "&" + e.name + ";"
  }

  /** The number of `replace` calls in `decodeHtmlEntities`. */
  const EntityCount: nat := 83

  /** The `k`-th `replace` of `decodeHtmlEntities`, in the source's order (`&amp;` first).
      The table is kept in four consecutive groups. The four quotation-mark entities stand
      for U+2018, U+2019, U+201C and U+201D. */
  function Entity(k: nat): NamedEntity
    requires k < EntityCount
  {
    if k < 7 then MarkupEntity(k)
    else if k < 35 then SymbolEntity(k - 7)
    else if k < 59 then LowerGreekEntity(k - 35)
    else UpperGreekEntity(k - 59)
  }

  /** Calls 0 to 6: the markup escapes and the space. */
  function MarkupEntity(k: nat): NamedEntity
    requires k < 7
  {
    match k
    case 0 => NamedEntity("amp", '&')
    case 1 => NamedEntity("lt", '<')
    case 2 => NamedEntity("gt", '>')
    case 3 => NamedEntity("quot", '"')
    case 4 => NamedEntity("#39", '\'')
    case 5 => NamedEntity("apos", '\'')
    case _ => NamedEntity("nbsp", ' ')
  }

  /** Calls 7 to 34: typographic and currency symbols. */
  function SymbolEntity(k: nat): NamedEntity
    requires k < 28
  {
    match k
    case 0 => NamedEntity("copy", '©')
    case 1 => NamedEntity("reg", '®')
    case 2 => NamedEntity("trade", '™')
    case 3 => NamedEntity("hellip", '…')
    case 4 => NamedEntity("mdash", '—')
    case 5 => NamedEntity("ndash", '–')
    case 6 => NamedEntity("lsquo", '\U{2018}')
    case 7 => NamedEntity("rsquo", '\U{2019}')
    case 8 => NamedEntity("ldquo", '\U{201C}')
    case 9 => NamedEntity("rdquo", '\U{201D}')
    case 10 => NamedEntity("bull", '•')
    case 11 => NamedEntity("middot", '·')
    case 12 => NamedEntity("sect", '§')
    case 13 => NamedEntity("para", '¶')
    case 14 => NamedEntity("euro", '€')
    case 15 => NamedEntity("pound", '£')
    case 16 => NamedEntity("yen", '¥')
    case 17 => NamedEntity("cent", '¢')
    case 18 => NamedEntity("deg", '°')
    case 19 => NamedEntity("plusmn", '±')
    case 20 => NamedEntity("times", '×')
    case 21 => NamedEntity("divide", '÷')
    case 22 => NamedEntity("frac14", '¼')
    case 23 => NamedEntity("frac12", '½')
    case 24 => NamedEntity("frac34", '¾')
    case 25 => NamedEntity("sup1", '¹')
    case 26 => NamedEntity("sup2", '²')
    case _ => NamedEntity("sup3", '³')
  }

  /** Calls 35 to 58: the lower-case Greek letters. */
  function LowerGreekEntity(k: nat): NamedEntity
    requires k < 24
  {
    match k
    case 0 => NamedEntity("alpha", 'α')
    case 1 => NamedEntity("beta", 'β')
    case 2 => NamedEntity("gamma", 'γ')
    case 3 => NamedEntity("delta", 'δ')
    case 4 => NamedEntity("epsilon", 'ε')
    case 5 => NamedEntity("zeta", 'ζ')
    case 6 => NamedEntity("eta", 'η')
    case 7 => NamedEntity("theta", 'θ')
    case 8 => NamedEntity("iota", 'ι')
    case 9 => NamedEntity("kappa", 'κ')
    case 10 => NamedEntity("lambda", 'λ')
    case 11 => NamedEntity("mu", 'μ')
    case 12 => NamedEntity("nu", 'ν')
    case 13 => NamedEntity("xi", 'ξ')
    case 14 => NamedEntity("omicron", 'ο')
    case 15 => NamedEntity("pi", 'π')
    case 16 => NamedEntity("rho", 'ρ')
    case 17 => NamedEntity("sigma", 'σ')
    case 18 => NamedEntity("tau", 'τ')
    case 19 => NamedEntity("upsilon", 'υ')
    case 20 => NamedEntity("phi", 'φ')
    case 21 => NamedEntity("chi", 'χ')
    case 22 => NamedEntity("psi", 'ψ')
    case _ => NamedEntity("omega", 'ω')
  }

  /** Calls 59 to 82: the upper-case Greek letters. */
  function UpperGreekEntity(k: nat): NamedEntity
    requires k < 24
  {
    match k
    case 0 => NamedEntity("Alpha", 'Α')
    case 1 => NamedEntity("Beta", 'Β')
    case 2 => NamedEntity("Gamma", 'Γ')
    case 3 => NamedEntity("Delta", 'Δ')
    case 4 => NamedEntity("Epsilon", 'Ε')
    case 5 => NamedEntity("Zeta", 'Ζ')
    case 6 => NamedEntity("Eta", 'Η')
    case 7 => NamedEntity("Theta", 'Θ')
    case 8 => NamedEntity("Iota", 'Ι')
    case 9 => NamedEntity("Kappa", 'Κ')
    case 10 => NamedEntity("Lambda", 'Λ')
    case 11 => NamedEntity("Mu", 'Μ')
    case 12 => NamedEntity("Nu", 'Ν')
    case 13 => NamedEntity("Xi", 'Ξ')
    case 14 => NamedEntity("Omicron", 'Ο')
    case 15 => NamedEntity("Pi", 'Π')
    case 16 => NamedEntity("Rho", 'Ρ')
    case 17 => NamedEntity("Sigma", 'Σ')
    case 18 => NamedEntity("Tau", 'Τ')
    case 19 => NamedEntity("Upsilon", 'Υ')
    case 20 => NamedEntity("Phi", 'Φ')
    case 21 => NamedEntity("Chi", 'Χ')
    case 22 => NamedEntity("Psi", 'Ψ')
    case _ => NamedEntity("Omega", 'Ω')
  }

  /** The `replace` calls from the `k`-th one to the last, applied one after the other. */
  function DecodeFrom(s: string, k: nat): string
    requires k <= EntityCount
    decreases EntityCount - k
  {
    if k == EntityCount then s
    else DecodeFrom(ReplaceAll(s, Reference(Entity(k)), [Entity(k).replacement]), k + 1)
  }

  /** `decodeHtmlEntities(text)`. */
  function DecodeHtmlEntities(s: string): string {
    DecodeFrom(s, 0)
  }

  /** The calls from the `k`-th on leave unchanged a text in which none of their references
      occurs. */
  lemma {:induction false} DecodeFromUntouched(s: string, k: nat)
    requires k <= EntityCount
    requires forall j :: k <= j < EntityCount ==> !Contains(s, Reference(Entity(j)))
    ensures DecodeFrom(s, k) == s
    decreases EntityCount - k
  {
    if k < EntityCount {
      ReplaceAllAbsent(s, Reference(Entity(k)), [Entity(k).replacement]);
      DecodeFromUntouched(s, k + 1);
    }
  }

  /** Decoding is the identity on text without `&`: every reference starts with `&`. */
  lemma DecodeWithoutAmpersand(s: string)
    requires '&' !in s
    ensures DecodeHtmlEntities(s) == s
  {
    DecodeWithoutAmpersandFrom(s, 0);
  }

  /** What the decoding lemmas need of an entity name: it is non-empty, it does not start
      with a space, and whether it starts with `am`. */
  predicate NameStartsWell(e: NamedEntity) {
    e.name != [] && e.name[0] != ' '
  }

  predicate NameStartsWithAm(e: NamedEntity) {
    |e.name| >= 2 && e.name[0] == 'a' && e.name[1] == 'm'
  }

  /** Every entity name starts with a letter or `#`, never with a space, and only the first
      one (`amp`) starts with `am`. */
  lemma EntityNames(j: nat)
    requires j < EntityCount
    ensures NameStartsWell(Entity(j))
    ensures NameStartsWithAm(Entity(j)) <==> j == 0
  {
    if j < 7 {
      MarkupNames(j);
    } else if j < 35 {
      SymbolNames(j - 7);
    } else if j < 59 {
      LowerGreekNames(j - 35);
    } else {
      UpperGreekNames(j - 59);
    }
  }

  lemma MarkupNames(k: nat)
    requires k < 7
    ensures NameStartsWell(MarkupEntity(k)) && (NameStartsWithAm(MarkupEntity(k)) <==> k == 0)
  {
  }

  lemma SymbolNames(k: nat)
    requires k < 28
    ensures NameStartsWell(SymbolEntity(k)) && !NameStartsWithAm(SymbolEntity(k))
  {
  }

  lemma LowerGreekNames(k: nat)
    requires k < 24
    ensures NameStartsWell(LowerGreekEntity(k)) && !NameStartsWithAm(LowerGreekEntity(k))
  {
  }

  lemma UpperGreekNames(k: nat)
    requires k < 24
    ensures NameStartsWell(UpperGreekEntity(k)) && !NameStartsWithAm(UpperGreekEntity(k))
  {
  }

  /** Every `&` of `s` is directly followed by a space. */
  predicate AmpersandsSpaced(s: string) {
    forall i :: 0 <= i < |s| ==> s[i] != '&' || (i + 1 < |s| && s[i + 1] == ' ')
  }

  /** A text whose every `&` is directly followed by a space contains no reference. */
  lemma LooseAmpersands(s: string, e: NamedEntity)
    requires NameStartsWell(e) && AmpersandsSpaced(s)
    ensures !Contains(s, Reference(e))
  {
    var r := Reference(e);
    assert r[1] == e.name[0] != ' ';
    forall i | 0 <= i <= |s| ensures !(r <= s[i..]) {
      if i == |s| {
        assert |s[i..]| < |r|;
      } else if s[i] != '&' {
        assert s[i..][0] != r[0];
      } else {
        assert s[i] != '&' || (i + 1 < |s| && s[i + 1] == ' ');
        assert s[i..][1] == s[i + 1] == ' ' != r[1];
      }
    }
  }

  /** No `&amp;` occurs in `&lt;` c `&gt;` d. */
  lemma AmpCallTail(c: string, d: string)
    requires '&' !in c && '&' !in d
    ensures ReplaceAll("&lt;" + (c + ("&gt;" + d)), "&amp;", "&") == "&lt;" + (c + ("&gt;" + d))
  {
    var amp := "&amp;";
    ReplaceAllMissFront("&lt;", c + ("&gt;" + d), amp, "&");
    ReplaceAllAfterPrefix(c, "&gt;" + d, amp, "&");
    ReplaceAllMissFront("&gt;", d, amp, "&");
    FirstCharAbsent(d, amp);
    ReplaceAllAbsent(d, amp, "&");
  }

  /** The `&amp;` call on text shaped like the documented example. */
  lemma AmpCall(a: string, b: string, c: string, d: string)
    requires '&' !in a && '&' !in b && '&' !in c && '&' !in d
    ensures ReplaceAll(a + ("&amp;" + (b + ("&lt;" + (c + ("&gt;" + d))))), "&amp;", "&")
         == a + ("&" + (b + ("&lt;" + (c + ("&gt;" + d)))))
  {
    var amp := "&amp;";
    ReplaceAllAfterPrefix(a, amp + (b + ("&lt;" + (c + ("&gt;" + d)))), amp, "&");
    ReplaceAllAtMatch(b + ("&lt;" + (c + ("&gt;" + d))), amp, "&");
    ReplaceAllAfterPrefix(b, "&lt;" + (c + ("&gt;" + d)), amp, "&");
    AmpCallTail(c, d);
  }

  /** No `&lt;` occurs in c `&gt;` d. */
  lemma LtCallTail(c: string, d: string)
    requires '&' !in c && '&' !in d
    ensures ReplaceAll(c + ("&gt;" + d), "&lt;", "<") == c + ("&gt;" + d)
  {
    var lt := "&lt;";
    ReplaceAllAfterPrefix(c, "&gt;" + d, lt, "<");
    ReplaceAllMissFront("&gt;", d, lt, "<");
    FirstCharAbsent(d, lt);
    ReplaceAllAbsent(d, lt, "<");
  }

  /** A reference is not found at an `&` followed by a space: the search resumes after
      the space-led text `b` that follows it. */
  lemma SpacedAmpersand(b: string, y: string, pat: string, rep: string)
    requires '&' !in b && b != [] && b[0] == ' '
    requires 1 < |pat| && pat[0] == '&' && pat[1] != ' '
    ensures ReplaceAll("&" + (b + y), pat, rep) == "&" + (b + ReplaceAll(y, pat, rep))
  {
    var x := "&" + b;
    assert x + y == "&" + (b + y);
    assert x[1] == b[0];
    forall k | 1 <= k < |x| ensures x[k] != pat[0] {
      assert x[k] == b[k - 1] && b[k - 1] in b;
    }
    ReplaceAllMissFront(x, y, pat, rep);
    assert x + ReplaceAll(y, pat, rep) == "&" + (b + ReplaceAll(y, pat, rep));
  }

  /** The `&lt;` call on text shaped like the documented example. */
  lemma LtCall(a: string, b: string, c: string, d: string)
    requires '&' !in a && '&' !in b && '&' !in c && '&' !in d && b != [] && b[0] == ' '
    ensures ReplaceAll(a + ("&" + (b + ("&lt;" + (c + ("&gt;" + d))))), "&lt;", "<")
         == a + ("&" + (b + ("<" + (c + ("&gt;" + d)))))
  {
    var lt := "&lt;";
    ReplaceAllAfterPrefix(a, "&" + (b + (lt + (c + ("&gt;" + d)))), lt, "<");
    SpacedAmpersand(b, lt + (c + ("&gt;" + d)), lt, "<");
    ReplaceAllAtMatch(c + ("&gt;" + d), lt, "<");
    LtCallTail(c, d);
  }

  /** A reference at the front of text without `&` is replaced once. */
  lemma ReplaceFront(d: string, pat: string, rep: string)
    requires '&' !in d && pat != [] && pat[0] == '&'
    ensures ReplaceAll(pat + d, pat, rep) == rep + d
  {
    ReplaceAllAtMatch(d, pat, rep);
    FirstCharAbsent(d, pat);
    ReplaceAllAbsent(d, pat, rep);
  }

  /** Text without `&`, then one reference, then text without `&`. */
  lemma ReplaceBetweenPlain(x: string, d: string, pat: string, rep: string)
    requires '&' !in x && '&' !in d && pat != [] && pat[0] == '&'
    ensures ReplaceAll(x + (pat + d), pat, rep) == x + (rep + d)
  {
    ReplaceAllAfterPrefix(x, pat + d, pat, rep);
    ReplaceFront(d, pat, rep);
  }

  /** No `&gt;` occurs before the one after c. */
  lemma GtCallTail(c: string, d: string)
    requires '&' !in c && '&' !in d
    ensures ReplaceAll("<" + (c + ("&gt;" + d)), "&gt;", ">") == "<" + (c + (">" + d))
  {
    ReplaceAllAfterPrefix("<", c + ("&gt;" + d), "&gt;", ">");
    ReplaceBetweenPlain(c, d, "&gt;", ">");
  }

  /** The `&gt;` call on text shaped like the documented example. */
  lemma GtCall(a: string, b: string, c: string, d: string)
    requires '&' !in a && '&' !in b && '&' !in c && '&' !in d && b != [] && b[0] == ' '
    ensures ReplaceAll(a + ("&" + (b + ("<" + (c + ("&gt;" + d))))), "&gt;", ">")
         == a + ("&" + (b + ("<" + (c + (">" + d)))))
  {
    ReplaceAllAfterPrefix(a, "&" + (b + ("<" + (c + ("&gt;" + d)))), "&gt;", ">");
    SpacedAmpersand(b, "<" + (c + ("&gt;" + d)), "&gt;", ">");
    GtCallTail(c, d);
  }

  /** Decoding text shaped like the documented example: `&amp;`, `&lt;` and `&gt;` are each
      replaced, and the `&` the first call produces is not taken for the start of a later
      reference because a space follows it. */
  lemma DecodeThreeReferences(a: string, b: string, c: string, d: string)
    requires '&' !in a && '&' !in b && '&' !in c && '&' !in d && b != [] && b[0] == ' '
    ensures DecodeHtmlEntities(a + ("&amp;" + (b + ("&lt;" + (c + ("&gt;" + d))))))
         == a + ("&" + (b + ("<" + (c + (">" + d)))))
  {
    assert Reference(Entity(0)) == "&amp;" && Reference(Entity(1)) == "&lt;" && Reference(Entity(2)) == "&gt;";
    AmpCall(a, b, c, d);
    LtCall(a, b, c, d);
    GtCall(a, b, c, d);
    var r := a + ("&" + (b + ("<" + (c + (">" + d)))));
    forall i | 0 <= i < |r| ensures r[i] != '&' || (i + 1 < |r| && r[i + 1] == ' ') {
      if i < |a| {
        assert r[i] == a[i] && a[i] in a;
      } else if i > |a| {
        var t := b + ("<" + (c + (">" + d)));
        assert r[i] == t[i - |a| - 1] && t[i - |a| - 1] in t;
      } else {
        assert r[i + 1] == b[0];
      }
    }
    assert AmpersandsSpaced(r);
    forall j | 3 <= j < EntityCount ensures !Contains(r, Reference(Entity(j))) {
      EntityNames(j);
      LooseAmpersands(r, Entity(j));
    }
    DecodeFromUntouched(r, 3);
  }

  /** The documented example. */
  lemma DecodeExample()
    ensures DecodeHtmlEntities("A &amp; B &lt;tag&gt;") == "A & B <tag>"
  {
    ExampleParts();
    DecodeThreeReferences("A ", " B ", "tag", "");
  }

  /** The documented example, cut into the parts `DecodeThreeReferences` speaks of. */
  lemma ExampleParts()
    ensures "A " + ("&amp;" + (" B " + ("&lt;" + ("tag" + ("&gt;" + ""))))) == "A &amp; B &lt;tag&gt;"
    ensures "A " + ("&" + (" B " + ("<" + ("tag" + (">" + ""))))) == "A & B <tag>"
  {
  }

  /** `&amp;` is replaced first, so a double-escaped `&lt;` is decoded twice over: `&amp;lt;`
      followed by any text without `&` becomes `<` followed by that text. */
  lemma DecodeAmpersandFirst(rest: string)
    requires '&' !in rest
    ensures DecodeHtmlEntities("&amp;lt;" + rest) == "<" + rest
  {
    var amp, lt := "&amp;", "&lt;";
    var s := "&amp;lt;" + rest;
    assert Entity(0) == NamedEntity("amp", '&') && Reference(Entity(0)) == amp;
    assert Entity(1) == NamedEntity("lt", '<') && Reference(Entity(1)) == lt;
    assert s == amp + ("lt;" + rest);
    ReplaceFront("lt;" + rest, amp, "&");
    assert "&" + ("lt;" + rest) == lt + rest;
    ReplaceFront(rest, lt, "<");
    assert DecodeFrom(s, 0) == DecodeFrom(lt + rest, 1);
    assert DecodeFrom(lt + rest, 1) == DecodeFrom("<" + rest, 2);
    DecodeWithoutAmpersandFrom("<" + rest, 2);
  }

  /** ... whereas a double-escaped `&amp;` is decoded once: no later call matches `&amp;`. */
  lemma DecodeDoubleAmpersand(rest: string)
    requires '&' !in rest && (rest == [] || rest[0] == ' ')
    ensures DecodeHtmlEntities("&amp;amp;" + rest) == "&amp;" + rest
  {
    var amp := "&amp;";
    assert Entity(0) == NamedEntity("amp", '&') && Reference(Entity(0)) == amp;
    AmpOfDoubleAmp(rest);
    assert DecodeFrom("&amp;amp;" + rest, 0) == DecodeFrom(amp + rest, 1);
    forall j | 1 <= j < EntityCount ensures !Contains(amp + rest, Reference(Entity(j))) {
      OnlyAmpMatchesAmp(j, rest);
    }
    DecodeFromUntouched(amp + rest, 1);
  }

  /** The `&amp;` call on a double-escaped ampersand leaves one escaped ampersand. */
  lemma AmpOfDoubleAmp(rest: string)
    requires '&' !in rest
    ensures ReplaceAll("&amp;amp;" + rest, "&amp;", "&") == "&amp;" + rest
  {
    var d := "amp;" + rest;
    assert '&' !in d by {
      assert '&' !in "amp;";
    }
    ReplaceFront(d, "&amp;", "&");
    assert "&amp;amp;" + rest == "&amp;" + d;
    assert "&" + d == "&amp;" + rest;
  }

  /** The calls from the `k`-th on leave a text without `&` unchanged. */
  lemma DecodeWithoutAmpersandFrom(s: string, k: nat)
    requires '&' !in s && k <= EntityCount
    ensures DecodeFrom(s, k) == s
  {
    forall j | k <= j < EntityCount ensures !Contains(s, Reference(Entity(j))) {
      FirstCharAbsent(s, Reference(Entity(j)));
    }
    DecodeFromUntouched(s, k);
  }

  /** No reference but the first occurs in `&amp;` followed by text without `&`. */
  lemma OnlyAmpMatchesAmp(j: nat, rest: string)
    requires 1 <= j < EntityCount && '&' !in rest
    ensures !Contains("&amp;" + rest, Reference(Entity(j)))
  {
    var s := "&amp;" + rest;
    var name := Entity(j).name;
    var r := Reference(Entity(j));
    EntityNames(j);
    assert r == "&" + name + ";" && s[1] == 'a' && s[2] == 'm';
    forall i | 0 <= i <= |s| ensures !(r <= s[i..]) {
      if i == |s| {
        assert |s[i..]| < |r|;
      } else if 0 < i < 5 {
        assert s[i..][0] == "&amp;"[i] != r[0];
      } else if i >= 5 {
        assert s[i..][0] == rest[i - 5] && rest[i - 5] in rest;
      } else if |name| < 2 {
        assert r[2] == ';' != s[2];
      } else if name[0] != 'a' {
        assert r[1] == name[0];
      } else {
        assert r[2] == name[1] != 'm';
      }
    }
  }

  /** How `parse` turns the content of a closed element into segment text: trimmed, then
      decoded unless formatting is preserved. The event loop below is stated for any such
      `finish` function and is run with this one. */
  function SegmentText(content: string, preserveFormatting: bool): string {
    if preserveFormatting then Trim(content) else DecodeHtmlEntities(Trim(content))
  }

  /** `SegmentText` as the `finish` function of the event loop. */
  function Finisher(preserveFormatting: bool): string -> string {
    content => SegmentText(content, preserveFormatting)
  }

  /** What closing a `text` element emits from cursor `st`. */
  function Emitted(st: ParserState, finish: string -> string): seq<TranscriptSegment> {
    if st.currentStart.Some? && st.currentDuration.Some? && st.currentText != [] then
      var text := finish(st.currentText);
      if text != [] then [TranscriptSegment(text, st.currentStart.value, st.currentDuration.value)] else []
    else []
  }

  /** One iteration of the event loop: the new cursor and what it emitted. */
  function Step(st: ParserState, ev: XmlEvent, finish: string -> string): Progress {
    match ev
    case StartTag(name, start, dur) =>
      if name == "text" then Progress(ParserState(start, Some(dur.GetOr(0.0)), ""), []) else Progress(st, [])
    case Text(t) =>
      if st.currentStart.Some? then Progress(st.(currentText := st.currentText + t), []) else Progress(st, [])
    case EndTag(name) =>
      if name == "text" then Progress(Idle, Emitted(st, finish)) else Progress(st, [])
  }

  /** The loop over `events` from cursor `st`: the final cursor and every segment emitted,
      in order. */
  function RunFrom(st: ParserState, events: seq<XmlEvent>, finish: string -> string): Progress
    decreases |events|
  {
    if events == [] then Progress(st, [])
    else
      var p := RunFrom(st, events[..|events| - 1], finish);
      var q := Step(p.state, events[|events| - 1], finish);
      Progress(q.state, p.segments + q.segments)
  }

  /** Running over one more event is one more step. */
  lemma RunFromSnoc(st: ParserState, events: seq<XmlEvent>, ev: XmlEvent, finish: string -> string)
    ensures var p := RunFrom(st, events, finish);
            var q := Step(p.state, ev, finish);
            RunFrom(st, events + [ev], finish) == Progress(q.state, p.segments + q.segments)
  {
    assert (events + [ev])[..|events|] == events;
  }

  /** One pass of the `when (eventType)` in the loop of `parse`: the three cursor variables
      after the event, and the segment added to the result list, if any. */
  method HandleEvent(currentStart: Option<real>, currentDuration: Option<real>, currentText: string,
                     ev: XmlEvent, finish: string -> string)
    returns (start: Option<real>, duration: Option<real>, text: string, emitted: seq<TranscriptSegment>)
    ensures Step(ParserState(currentStart, currentDuration, currentText), ev, finish)
         == Progress(ParserState(start, duration, text), emitted)
  {
    start, duration, text, emitted := currentStart, currentDuration, currentText, [];
    match ev {
      case StartTag(name, s, d) =>
        if name == "text" {
          start := s;
          duration := Some(d.GetOr(0.0));
          text := "";
        }
      case Text(t) =>
        if currentStart.Some? {
          text := currentText + t;
        }
      case EndTag(name) =>
        if name == "text" {
          if currentStart.Some? && currentDuration.Some? && currentText != [] {
            var segmentText := finish(currentText);
            if segmentText != [] {
              emitted := [TranscriptSegment(segmentText, currentStart.value, currentDuration.value)];
            }
          }
          start := None;
          duration := None;
          text := "";
        }
    }
  }

  /** `parse(xmlContent)` over the events of the document. */
  method Parse(events: seq<XmlEvent>, preserveFormatting: bool) returns (segments: seq<TranscriptSegment>)
    ensures segments == RunFrom(Idle, events, Finisher(preserveFormatting)).segments
  {
    var finish := Finisher(preserveFormatting);
    segments := [];
    var currentStart: Option<real> := None;
    var currentDuration: Option<real> := None;
    var currentText: string := "";
    var i := 0;
    assert events[..i] == [];
    while i < |events|
      invariant 0 <= i <= |events|
      invariant RunFrom(Idle, events[..i], finish)
             == Progress(ParserState(currentStart, currentDuration, currentText), segments)
    {
      assert events[..i + 1] == events[..i] + [events[i]];
      RunFromSnoc(Idle, events[..i], events[i], finish);
      var emitted;
      currentStart, currentDuration, currentText, emitted := HandleEvent(currentStart, currentDuration, currentText, events[i], finish);
      segments := segments + emitted;
      i := i + 1;
    }
    assert events[..|events|] == events;
  }

  /** The loop over `a + b` is the loop over `a` followed by the loop over `b` from where
      the first one stopped. */
  lemma {:induction false} RunFromAppend(st: ParserState, a: seq<XmlEvent>, b: seq<XmlEvent>, finish: string -> string)
    ensures var p := RunFrom(st, a, finish);
            var q := RunFrom(p.state, b, finish);
            RunFrom(st, a + b, finish) == Progress(q.state, p.segments + q.segments)
    decreases |b|
  {
    if b == [] {
      assert a + b == a;
    } else {
      var b' := b[..|b| - 1];
      assert a + b == (a + b') + [b[|b| - 1]];
      assert b == b' + [b[|b| - 1]];
      RunFromAppend(st, a, b', finish);
      RunFromSnoc(st, a + b', b[|b| - 1], finish);
      RunFromSnoc(RunFrom(st, a, finish).state, b', b[|b| - 1], finish);
    }
  }

  /** Segments are only ever appended: the segments emitted by a prefix of the events are a
      prefix of those emitted by all of them. */
  lemma {:induction false} RunFromAppendOnly(st: ParserState, events: seq<XmlEvent>, n: nat, finish: string -> string)
    requires n <= |events|
    ensures RunFrom(st, events[..n], finish).segments <= RunFrom(st, events, finish).segments
  {
    assert events == events[..n] + events[n..];
    RunFromAppend(st, events[..n], events[n..], finish);
  }

  /** Every emitted segment has non-empty text. */
  lemma {:induction false} RunFromTexts(st: ParserState, events: seq<XmlEvent>, finish: string -> string)
    ensures forall k :: 0 <= k < |RunFrom(st, events, finish).segments| ==>
              RunFrom(st, events, finish).segments[k].text != []
    decreases |events|
  {
    if events != [] {
      RunFromTexts(st, events[..|events| - 1], finish);
    }
  }

  /** Non-empty, and neither starting nor ending with whitespace. */
  predicate TrimmedText(t: string) {
    t != [] && !IsWhitespace(t[0]) && !IsWhitespace(t[|t| - 1])
  }

  /** With formatting preserved, every emitted text is the trimmed content, so it neither
      starts nor ends with whitespace. */
  lemma {:induction false} RunFromTrimmed(st: ParserState, events: seq<XmlEvent>)
    ensures forall k :: 0 <= k < |RunFrom(st, events, Finisher(true)).segments| ==>
              TrimmedText(RunFrom(st, events, Finisher(true)).segments[k].text)
    decreases |events|
  {
    if events != [] {
      var finish := Finisher(true);
      var p := RunFrom(st, events[..|events| - 1], finish);
      var q := Step(p.state, events[|events| - 1], finish);
      RunFromTrimmed(st, events[..|events| - 1]);
      StepTrimmed(p.state, events[|events| - 1]);
      var r := RunFrom(st, events, finish).segments;
      assert r == p.segments + q.segments;
      forall k | 0 <= k < |r| ensures TrimmedText(r[k].text) {
        if k >= |p.segments| {
          assert r[k] == q.segments[k - |p.segments|];
        }
      }
    }
  }

  /** One step with formatting preserved emits only trimmed text. */
  lemma StepTrimmed(st: ParserState, ev: XmlEvent)
    ensures forall k :: 0 <= k < |Step(st, ev, Finisher(true)).segments| ==>
              TrimmedText(Step(st, ev, Finisher(true)).segments[k].text)
  {
    var q := Step(st, ev, Finisher(true));
    if ev.EndTag? && ev.name == "text" {
      EmittedTrimmed(st);
      assert q.segments == Emitted(st, Finisher(true));
    } else {
      assert q.segments == [];
    }
  }

  /** Closing an element with formatting preserved emits, if anything, the trimmed content. */
  lemma EmittedTrimmed(st: ParserState)
    ensures forall k :: 0 <= k < |Emitted(st, Finisher(true))| ==> TrimmedText(Emitted(st, Finisher(true))[k].text)
  {
    var e := Emitted(st, Finisher(true));
    if e != [] {
      var c := st.currentText;
      var t := Trim(c);
      assert Finisher(true)(c) == t;
      assert e == [TranscriptSegment(t, st.currentStart.value, st.currentDuration.value)];
      assert t != [];
      assert TrimmedText(t);
      forall k | 0 <= k < |e| ensures TrimmedText(e[k].text) {
        assert e[k].text == t;
      }
    }
  }

  /** Events that are not about a `text` element change nothing while no element is open:
      character content, and tags of any other name. */
  lemma IdleIgnores(ev: XmlEvent, finish: string -> string)
    requires ev.Text? || ev.name != "text"
    ensures Step(Idle, ev, finish) == Progress(Idle, [])
  {
  }

  /** Tags of other names leave any cursor as it is; closing a `text` element always
      returns to the idle cursor. */
  lemma TagSteps(st: ParserState, name: string, start: Option<real>, dur: Option<real>, finish: string -> string)
    ensures name != "text" ==> Step(st, StartTag(name, start, dur), finish) == Progress(st, [])
    ensures name != "text" ==> Step(st, EndTag(name), finish) == Progress(st, [])
    ensures Step(st, EndTag("text"), finish).state == Idle
    ensures |Step(st, EndTag("text"), finish).segments| <= 1
  {
  }

  /** Character content events carrying the strings of `ts`, in order. */
  function TextEvents(ts: seq<string>): (evs: seq<XmlEvent>)
    ensures |evs| == |ts| && forall i :: 0 <= i < |ts| ==> evs[i] == Text(ts[i])
  {
    seq(|ts|, i requires 0 <= i < |ts| => Text(ts[i]))
  }

  /** The strings of `ts` appended one after the other. */
  function Concat(ts: seq<string>): string
    decreases |ts|
  {
    if ts == [] then "" else Concat(ts[..|ts| - 1]) + ts[|ts| - 1]
  }

  /** Inside an element with a start time, character content accumulates; otherwise it is
      dropped. Nothing is emitted either way. */
  lemma TextEventsAccumulate(st: ParserState, ts: seq<string>, finish: string -> string)
    ensures RunFrom(st, TextEvents(ts), finish)
         == Progress(if st.currentStart.Some? then st.(currentText := st.currentText + Concat(ts)) else st, [])
  {
    if st.currentStart.Some? {
      TextEventsKept(st, ts, finish);
    } else {
      TextEventsDropped(st, ts, finish);
    }
  }

  lemma {:induction false} TextEventsKept(st: ParserState, ts: seq<string>, finish: string -> string)
    requires st.currentStart.Some?
    ensures RunFrom(st, TextEvents(ts), finish) == Progress(st.(currentText := st.currentText + Concat(ts)), [])
    decreases |ts|
  {
    if ts == [] {
      assert TextEvents(ts) == [];
    } else {
      var ts', last := ts[..|ts| - 1], ts[|ts| - 1];
      assert TextEvents(ts) == TextEvents(ts') + [Text(last)];
      TextEventsKept(st, ts', finish);
      RunFromSnoc(st, TextEvents(ts'), Text(last), finish);
      assert Concat(ts) == Concat(ts') + last;
      assert st.currentText + Concat(ts') + last == st.currentText + Concat(ts);
    }
  }

  lemma {:induction false} TextEventsDropped(st: ParserState, ts: seq<string>, finish: string -> string)
    requires st.currentStart.None?
    ensures RunFrom(st, TextEvents(ts), finish) == Progress(st, [])
    decreases |ts|
  {
    if ts != [] {
      var ts', last := ts[..|ts| - 1], ts[|ts| - 1];
      assert TextEvents(ts) == TextEvents(ts') + [Text(last)];
      TextEventsDropped(st, ts', finish);
      RunFromSnoc(st, TextEvents(ts'), Text(last), finish);
    }
  }

  /** One `text` element of a timed-text document, with the character content that precedes
      it: `<text start=".." dur="..">content</text>`. */
  datatype Caption = Caption(before: seq<string>, start: Option<real>, dur: Option<real>, content: seq<string>)

  /** The events of one caption. */
  function CaptionEvents(c: Caption): seq<XmlEvent> {
    TextEvents(c.before) + [StartTag("text", c.start, c.dur)] + TextEvents(c.content) + [EndTag("text")]
  }

  /** What one caption should yield: nothing when its start is missing or its text is empty,
      otherwise one segment with the element's start, its duration (0 when missing) and its
      trimmed, decoded content. */
  function CaptionSegments(c: Caption, finish: string -> string): seq<TranscriptSegment> {
    var text := finish(Concat(c.content));
    if c.start.Some? && Concat(c.content) != [] && text != [] then [TranscriptSegment(text, c.start.value, c.dur.GetOr(0.0))] else []
  }

  /** A caption read from the idle cursor yields exactly `CaptionSegments` and leaves the
      cursor idle. */
  lemma CaptionRun(c: Caption, finish: string -> string)
    ensures RunFrom(Idle, CaptionEvents(c), finish) == Progress(Idle, CaptionSegments(c, finish))
  {
    var startTag := StartTag("text", c.start, c.dur);
    var a := TextEvents(c.before);
    var b := TextEvents(c.content);
    TextEventsAccumulate(Idle, c.before, finish);
    RunFromSnoc(Idle, a, startTag, finish);
    var inside := ParserState(c.start, Some(c.dur.GetOr(0.0)), "");
    RunFromAppend(Idle, a + [startTag], b, finish);
    TextEventsAccumulate(inside, c.content, finish);
    RunFromSnoc(Idle, a + [startTag] + b, EndTag("text"), finish);
    if c.start.None? {
      assert Step(inside, EndTag("text"), finish).segments == [];
    } else {
      assert "" + Concat(c.content) == Concat(c.content);
      if Concat(c.content) == [] {
        assert Trim([]) == [];
      }
    }
  }

  /** The events of a document made of `cs`, in order. */
  function DocumentEvents(cs: seq<Caption>): seq<XmlEvent>
    decreases |cs|
  {
    if cs == [] then [] else DocumentEvents(cs[..|cs| - 1]) + CaptionEvents(cs[|cs| - 1])
  }

  /** What the document should yield: each caption's segments, in document order. */
  function DocumentSegments(cs: seq<Caption>, finish: string -> string): seq<TranscriptSegment>
    decreases |cs|
  {
    if cs == [] then [] else DocumentSegments(cs[..|cs| - 1], finish) + CaptionSegments(cs[|cs| - 1], finish)
  }

  /** A document of captions yields the captions' segments in order. */
  lemma {:induction false} DocumentRun(cs: seq<Caption>, finish: string -> string)
    ensures RunFrom(Idle, DocumentEvents(cs), finish) == Progress(Idle, DocumentSegments(cs, finish))
    decreases |cs|
  {
    if cs != [] {
      DocumentRun(cs[..|cs| - 1], finish);
      RunFromAppend(Idle, DocumentEvents(cs[..|cs| - 1]), CaptionEvents(cs[|cs| - 1]), finish);
      CaptionRun(cs[|cs| - 1], finish);
    }
  }

  /** The `<transcript>` document of YouTube's timed-text format. */
  function TimedText(cs: seq<Caption>): seq<XmlEvent> {
    [StartTag("transcript", None, None)] + DocumentEvents(cs) + [EndTag("transcript")]
  }

  /** `parse` of a timed-text document returns its captions' segments in order. */
  lemma TimedTextParse(cs: seq<Caption>, finish: string -> string)
    ensures RunFrom(Idle, TimedText(cs), finish).segments == DocumentSegments(cs, finish)
  {
    var root := [StartTag("transcript", None, None)];
    assert root == [] + root;
    RunFromSnoc(Idle, [], root[0], finish);
    IdleIgnores(root[0], finish);
    RunFromAppend(Idle, root, DocumentEvents(cs), finish);
    DocumentRun(cs, finish);
    IdleIgnores(EndTag("transcript"), finish);
    RunFromSnoc(Idle, root + DocumentEvents(cs), EndTag("transcript"), finish);
  }
}
