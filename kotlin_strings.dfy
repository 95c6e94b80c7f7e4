/** The Kotlin standard-library string operations the library relies on, stated on
    `string` (= `seq<char>`): `isWhitespace`, `isBlank`, `trim`, `contains`, `replace`,
    `joinToString`, `List.toString` and the `distinct().sorted()` of a list of strings. */
module KotlinStrings {

  /** Kotlin `Char.isWhitespace()` on the JVM: Java's `Character.isWhitespace` or
      `Character.isSpaceChar` (so the no-break spaces count, U+0085 does not). */
  predicate IsWhitespace(c: char) {
    || ('\t' <= c <= '\r')
    || ('\U{1C}' <= c <= ' ')
    || c == '\U{A0}' || c == '\U{1680}'
    || ('\U{2000}' <= c <= '\U{200A}')
    || c == '\U{2028}' || c == '\U{2029}' || c == '\U{202F}' || c == '\U{205F}' || c == '\U{3000}'
  }

  /** Kotlin `CharSequence.isBlank()`: empty or whitespace only. */
  predicate IsBlank(s: string) {
    forall i :: 0 <= i < |s| ==> IsWhitespace(s[i])
  }

  /** `trimStart()`: the suffix left after dropping the leading whitespace. */
  function TrimStart(s: string): (r: string)
    ensures |r| <= |s| && r == s[|s| - |r|..]
    ensures forall i :: 0 <= i < |s| - |r| ==> IsWhitespace(s[i])
    ensures r == [] || !IsWhitespace(r[0])
  {
    if s != [] && IsWhitespace(s[0]) then TrimStart(s[1..]) else s
  }

  /** `trimEnd()`: the prefix left after dropping the trailing whitespace. */
  function TrimEnd(s: string): (r: string)
    ensures |r| <= |s| && r == s[..|r|]
    ensures forall i :: |r| <= i < |s| ==> IsWhitespace(s[i])
    ensures r == [] || !IsWhitespace(r[|r| - 1])
  {
    if s != [] && IsWhitespace(s[|s| - 1]) then TrimEnd(s[..|s| - 1]) else s
  }

  /** Kotlin `String.trim()`: the slice of `s` between its leading and its trailing
      whitespace. It is empty exactly when `s` is blank. */
  function Trim(s: string): (r: string)
    ensures exists i | 0 <= i <= |s| - |r| :: IsBlank(s[..i]) && s[i..][..|r|] == r && IsBlank(s[i..][|r|..])
    ensures r == [] || (!IsWhitespace(r[0]) && !IsWhitespace(r[|r| - 1]))
    ensures r == [] <==> IsBlank(s)
  {
    var r := TrimEnd(TrimStart(s));
    TrimSplits(s);
    TrimEmptyIffBlank(s);
    r
  }

  /** The leading whitespace `trimStart` drops and the trailing whitespace `trimEnd` then
      drops frame what `trim` keeps. */
  lemma TrimSplits(s: string)
    ensures var i := |s| - |TrimStart(s)|; var r := TrimEnd(TrimStart(s));
      0 <= i <= |s| - |r| && IsBlank(s[..i]) && s[i..][..|r|] == r && IsBlank(s[i..][|r|..])
  {
    var t := TrimStart(s);
    var i := |s| - |t|;
    assert t == s[i..];
  }

  /** Nothing is left exactly when everything was whitespace. */
  lemma TrimEmptyIffBlank(s: string)
    ensures TrimEnd(TrimStart(s)) == [] <==> IsBlank(s)
  {
    var t := TrimStart(s);
    if TrimEnd(t) == [] {
      assert t == [];
    }
  }

  lemma {:induction false} TrimStartSkips(a: string, b: string)
    requires IsBlank(a)
    requires b == [] || !IsWhitespace(b[0])
    ensures TrimStart(a + b) == b
  {
    if a != [] {
      assert (a + b)[1..] == a[1..] + b;
      TrimStartSkips(a[1..], b);
    }
  }

  lemma {:induction false} TrimEndSkips(a: string, b: string)
    requires IsBlank(b)
    requires a == [] || !IsWhitespace(a[|a| - 1])
    ensures TrimEnd(a + b) == a
  {
    if b != [] {
      assert (a + b)[..|a + b| - 1] == a + b[..|b| - 1];
      TrimEndSkips(a, b[..|b| - 1]);
    }
  }

  /** Trimming removes exactly the surrounding whitespace: a text that neither starts
      nor ends with whitespace comes back unchanged from any blank padding. */
  lemma TrimPadded(left: string, m: string, right: string)
    requires IsBlank(left) && IsBlank(right)
    requires m == [] || (!IsWhitespace(m[0]) && !IsWhitespace(m[|m| - 1]))
    ensures Trim(left + m + right) == m
  {
    if m == [] {
      assert IsBlank(left + m + right);
    } else {
      assert left + m + right == left + (m + right);
      TrimStartSkips(left, m + right);
      TrimEndSkips(m, right);
    }
  }

  /** Kotlin `String.contains(other)`: `p` occurs in `s` at some index. */
  function Contains(s: string, p: string): (b: bool)
    ensures b <==> exists i :: 0 <= i <= |s| && p <= s[i..]
  {
    if p <= s then
      assert p <= s[0..];
      true
    else if s == [] then
      false
    else
      var b := Contains(s[1..], p);
      assert forall i :: 1 <= i <= |s| ==> s[i..] == s[1..][i - 1..];
      b
  }

  /** An occurrence survives appending more text. */
  lemma ContainsAppend(s: string, t: string, p: string)
    requires Contains(s, p)
    ensures Contains(s + t, p)
  {
    var i :| 0 <= i <= |s| && p <= s[i..];
    assert (s + t)[i..] == s[i..] + t;
  }

  /** What a suffix contains the whole text contains. */
  lemma ContainsInSuffix(s: string, i: nat, p: string)
    requires i <= |s| && Contains(s[i..], p)
    ensures Contains(s, p)
  {
    var k :| 0 <= k <= |s[i..]| && p <= s[i..][k..];
    assert s[i..][k..] == s[i + k..];
  }

  /** Kotlin `String.replace(oldValue, newValue)`: one left-to-right pass that replaces each
      non-overlapping occurrence of `pat` by `rep`; the inserted text is not scanned again. */
  function ReplaceAll(s: string, pat: string, rep: string): string
    requires pat != []
    decreases |s|
  {
    if s == [] then []
    else if pat <= s then rep + ReplaceAll(s[|pat|..], pat, rep)
    else [s[0]] + ReplaceAll(s[1..], pat, rep)
  }

  /** A string without any occurrence of the pattern is left unchanged. */
  lemma {:induction false} ReplaceAllAbsent(s: string, pat: string, rep: string)
    requires pat != [] && !Contains(s, pat)
    ensures ReplaceAll(s, pat, rep) == s
  {
    if s != [] {
      assert !(pat <= s[0..]);
      assert forall i :: 0 <= i <= |s| - 1 ==> s[1..][i..] == s[i + 1..];
      ReplaceAllAbsent(s[1..], pat, rep);
    }
  }

  /** A pattern whose first character does not occur in `s` does not occur in `s`. */
  lemma FirstCharAbsent(s: string, pat: string)
    requires pat != [] && pat[0] !in s
    ensures !Contains(s, pat)
  {
    forall i | 0 <= i <= |s| ensures !(pat <= s[i..]) {
      if i < |s| {
        assert s[i] in s;
      }
    }
  }

  /** The pass copies a prefix in which no occurrence can start, then goes on with the rest. */
  lemma {:induction false} ReplaceAllAfterPrefix(a: string, b: string, pat: string, rep: string)
    requires pat != [] && pat[0] !in a
    ensures ReplaceAll(a + b, pat, rep) == a + ReplaceAll(b, pat, rep)
  {
    if a != [] {
      assert (a + b)[0] == a[0] != pat[0];
      assert !(pat <= a + b);
      assert (a + b)[1..] == a[1..] + b;
      assert ReplaceAll(a + b, pat, rep) == [a[0]] + ReplaceAll(a[1..] + b, pat, rep);
      ReplaceAllAfterPrefix(a[1..], b, pat, rep);
      assert [a[0]] + (a[1..] + ReplaceAll(b, pat, rep)) == ([a[0]] + a[1..]) + ReplaceAll(b, pat, rep);
      assert a == [a[0]] + a[1..];
    } else {
      assert a + b == b;
    }
  }

  /** An occurrence at the front is replaced, and the pass goes on right after it. */
  lemma ReplaceAllAtMatch(b: string, pat: string, rep: string)
    requires pat != []
    ensures ReplaceAll(pat + b, pat, rep) == rep + ReplaceAll(b, pat, rep)
  {
    assert (pat + b)[|pat|..] == b;
  }

  /** A front part that differs from the pattern in its second character, and in which the
      pattern's first character does not recur, is copied; the pass goes on after it. */
  lemma ReplaceAllMissFront(x: string, y: string, pat: string, rep: string)
    requires 1 < |pat| && 1 < |x| && x[1] != pat[1]
    requires forall k :: 1 <= k < |x| ==> x[k] != pat[0]
    ensures ReplaceAll(x + y, pat, rep) == x + ReplaceAll(y, pat, rep)
  {
    assert (x + y)[1] != pat[1];
    assert (x + y)[1..] == x[1..] + y;
    assert pat[0] !in x[1..] by {
      forall k | 0 <= k < |x[1..]| ensures x[1..][k] != pat[0] {
        assert x[1..][k] == x[k + 1];
      }
    }
    ReplaceAllAfterPrefix(x[1..], y, pat, rep);
    assert x == [x[0]] + x[1..];
  }

  /** A front part in which the pattern's first character does not recur, and from
      which the pattern differs at offset `d`, is copied; the pass goes on after it. */
  lemma ReplaceAllMissAt(x: string, y: string, pat: string, rep: string, d: nat)
    requires pat != [] && x != [] && d < |pat| && d < |x + y| && (x + y)[d] != pat[d]
    requires forall k :: 1 <= k < |x| ==> x[k] != pat[0]
    ensures ReplaceAll(x + y, pat, rep) == x + ReplaceAll(y, pat, rep)
  {
    assert !(pat <= x + y);
    assert (x + y)[1..] == x[1..] + y;
    assert pat[0] !in x[1..] by {
      forall k | 0 <= k < |x[1..]| ensures x[1..][k] != pat[0] {
        assert x[1..][k] == x[k + 1];
      }
    }
    ReplaceAllAfterPrefix(x[1..], y, pat, rep);
    assert x == [x[0]] + x[1..];
  }

  /** Replacing in the pattern itself yields the replacement. */
  lemma ReplaceAllWhole(pat: string, rep: string)
    requires pat != []
    ensures ReplaceAll(pat, pat, rep) == rep
  {
    assert pat[|pat|..] == [];
    assert rep + [] == rep;
  }

  /** Kotlin `joinToString(sep)`. */
  function JoinToString(xs: seq<string>, sep: string): string {
    if xs == [] then []
    else if |xs| == 1 then xs[0]
    else xs[0] + sep + JoinToString(xs[1..], sep)
  }

  /** Joining one more element appends the separator and that element. */
  lemma {:induction false} JoinToStringSnoc(xs: seq<string>, x: string, sep: string)
    requires xs != []
    ensures JoinToString(xs + [x], sep) == JoinToString(xs, sep) + sep + x
  {
    if |xs| > 1 {
      assert (xs + [x])[1..] == xs[1..] + [x];
      JoinToStringSnoc(xs[1..], x, sep);
    } else {
      assert (xs + [x])[1..] == [x];
    }
  }

  /** Kotlin `List<String>.toString()`: `[a, b, c]`. */
  function ListToString(xs: seq<string>): string {
    "[" + JoinToString(xs, ", ") + "]"
  }

  /** Kotlin `String.compareTo(other) < 0`: lexicographic order on characters, a proper
      prefix coming first. */
  predicate Less(a: string, b: string)
    decreases |a|
  {
    if a == [] then b != []
    else if b == [] then false
    else if a[0] != b[0] then a[0] < b[0]
    else Less(a[1..], b[1..])
  }

  lemma {:induction false} LessIrreflexive(a: string)
    ensures !Less(a, a)
  {
    if a != [] {
      LessIrreflexive(a[1..]);
    }
  }

  lemma {:induction false} LessTransitive(a: string, b: string, c: string)
    requires Less(a, b) && Less(b, c)
    ensures Less(a, c)
  {
    if a != [] && a[0] == b[0] && b[0] == c[0] {
      LessTransitive(a[1..], b[1..], c[1..]);
    }
  }

  lemma {:induction false} LessTotal(a: string, b: string)
    ensures a == b || Less(a, b) || Less(b, a)
  {
    if a != [] && b != [] && a[0] == b[0] {
      LessTotal(a[1..], b[1..]);
      if a[1..] == b[1..] {
        assert a == [a[0]] + a[1..] && b == [b[0]] + b[1..];
      }
    }
  }

  lemma {:induction false} LessAsymmetric(a: string, b: string)
    requires Less(a, b)
    ensures !Less(b, a)
  {
    if Less(b, a) {
      LessTransitive(a, b, a);
      LessIrreflexive(a);
    }
  }

  /** Strictly increasing, hence free of duplicates. */
  predicate StrictlySorted(s: seq<string>) {
    forall i, j :: 0 <= i < j < |s| ==> Less(s[i], s[j])
  }

  /** Inserts `x` into a strictly sorted list unless it is already there. */
  function Insert(x: string, s: seq<string>): (r: seq<string>)
    requires StrictlySorted(s)
    ensures StrictlySorted(r)
    ensures forall y :: y in r <==> y == x || y in s
  {
    if s == [] then [x]
    else if x == s[0] then s
    else if Less(x, s[0]) then
      assert forall j :: 0 < j < |s| ==> Less(x, s[j]) by {
        forall j | 0 < j < |s| ensures Less(x, s[j]) { LessTransitive(x, s[0], s[j]); }
      }
      [x] + s
    else
      var t := Insert(x, s[1..]);
      assert forall y :: y in s[1..] ==> Less(s[0], y);
      LessTotal(x, s[0]);
      [s[0]] + t
  }

  /** Kotlin `distinct().sorted()` on a list of strings. */
  function SortedDistinct(xs: seq<string>): (r: seq<string>)
    ensures StrictlySorted(r)
    ensures forall y :: y in r <==> y in xs
  {
    if xs == [] then [] else Insert(xs[0], SortedDistinct(xs[1..]))
  }

  /** No element of `xs` occurs twice. */
  predicate NoDuplicates(xs: seq<string>) {
    forall i, j :: 0 <= i < j < |xs| ==> xs[i] != xs[j]
  }

  /** `distinct()` drops nothing from a list without duplicates. */
  lemma {:induction false} SortedDistinctLength(xs: seq<string>)
    requires NoDuplicates(xs)
    ensures |SortedDistinct(xs)| == |xs|
  {
    if xs != [] {
      SortedDistinctLength(xs[1..]);
      assert xs[0] !in xs[1..];
      InsertNew(xs[0], SortedDistinct(xs[1..]));
    }
  }

  /** Inserting a new element adds exactly one. */
  lemma {:induction false} InsertNew(x: string, s: seq<string>)
    requires StrictlySorted(s) && x !in s
    ensures |Insert(x, s)| == |s| + 1
  {
    if s != [] && x != s[0] && !Less(x, s[0]) {
      InsertNew(x, s[1..]);
    }
  }

  /** A strictly sorted list is determined by its elements: `distinct().sorted()` has
      exactly one possible outcome. */
  lemma {:induction false} StrictlySortedUnique(a: seq<string>, b: seq<string>)
    requires StrictlySorted(a) && StrictlySorted(b)
    requires forall y :: y in a <==> y in b
    ensures a == b
  {
    assert a != [] ==> a[0] in b;
    assert b != [] ==> b[0] in a;
    if a != [] && b != [] {
      assert a[0] in b && b[0] in a;
      if a[0] != b[0] {
        var i :| 0 <= i < |b| && b[i] == a[0];
        var j :| 0 <= j < |a| && a[j] == b[0];
        assert Less(b[0], a[0]) && Less(a[0], b[0]);
        LessAsymmetric(a[0], b[0]);
      }
      forall y ensures y in a[1..] <==> y in b[1..] {
        if y in a[1..] {
          var k :| 0 <= k < |a| - 1 && a[1..][k] == y;
          assert a[k + 1] == y && Less(a[0], y);
          LessIrreflexive(y);
          assert y in b && y != b[0];
          var m :| 0 <= m < |b| && b[m] == y;
          assert b[1..][m - 1] == y;
        }
        if y in b[1..] {
          var k :| 0 <= k < |b| - 1 && b[1..][k] == y;
          assert b[k + 1] == y && Less(b[0], y);
          LessIrreflexive(y);
          assert y in a && y != a[0];
          var m :| 0 <= m < |a| && a[m] == y;
          assert a[1..][m - 1] == y;
        }
      }
      StrictlySortedUnique(a[1..], b[1..]);
      assert a == [a[0]] + a[1..] && b == [b[0]] + b[1..];
    }
  }

  /** The first element of a strictly sorted list is strictly smaller than every other. */
  lemma SortedHeadIsLeast(s: seq<string>, y: string)
    requires StrictlySorted(s) && y in s && s != []
    ensures y == s[0] || Less(s[0], y)
  {
  }
}
