/** Text as the template matcher sees it: whitespace normalisation and letter case.

    A string is a sequence of code points; the program's byte and rune positions both become
    positions in it. */
module SmsText {

  /** unicode.IsSpace. */
  predicate IsSpace(c: char) {
    c == ' ' || '\U{9}' <= c <= '\U{D}' || c == '\U{85}' || c == '\U{A0}' || c == '\U{1680}'
    || '\U{2000}' <= c <= '\U{200A}' || c == '\U{2028}' || c == '\U{2029}' || c == '\U{202F}'
    || c == '\U{205F}' || c == '\U{3000}'
  }

  /** Length of the leading run without whitespace. */
  function WordLength(s: string): (n: nat)
    ensures n <= |s|
    ensures forall i :: 0 <= i < n ==> !IsSpace(s[i])
    ensures n < |s| ==> IsSpace(s[n])
  {
    if |s| == 0 || IsSpace(s[0]) then 0 else 1 + WordLength(s[1..])
  }

  /** strings.Fields. */
  function Words(s: string): seq<string>
    decreases |s|
  {
    if |s| == 0 then []
    else if IsSpace(s[0]) then Words(s[1..])
    else [s[..WordLength(s)]] + Words(s[WordLength(s)..])
  }

  /** strings.Join with single spaces. */
  function Join(words: seq<string>): string {
    if |words| == 0 then ""
    else if |words| == 1 then words[0]
    else words[0] + " " + Join(words[1..])
  }

  function Normalize(s: string): string {
    Join(Words(s))
  }

  /** Only single spaces, each between two words. */
  predicate IsNormal(s: string) {
    forall i | 0 <= i < |s| && IsSpace(s[i]) :: s[i] == ' ' && 0 < i < |s| - 1 && !IsSpace(s[i + 1])
  }

  predicate Blank(s: string) {
    forall i | 0 <= i < |s| :: IsSpace(s[i])
  }

  predicate Solid(s: string) {
    forall i | 0 <= i < |s| :: !IsSpace(s[i])
  }

  lemma {:induction false} WordsAreSolid(s: string)
    ensures forall k :: 0 <= k < |Words(s)| ==> Words(s)[k] != "" && Solid(Words(s)[k])
    decreases |s|
  {
    if |s| > 0 {
      if IsSpace(s[0]) {
        WordsAreSolid(s[1..]);
      } else {
        WordsAreSolid(s[WordLength(s)..]);
      }
    }
  }

  lemma {:induction false} JoinIsNormal(words: seq<string>)
    requires forall k :: 0 <= k < |words| ==> words[k] != "" && Solid(words[k])
    ensures IsNormal(Join(words))
    ensures |words| > 0 ==> Join(words) != "" && !IsSpace(Join(words)[0])
  {
    if |words| > 1 {
      JoinIsNormal(words[1..]);
      var first, rest := words[0] + " ", Join(words[1..]);
      assert Join(words) == first + rest;
    }
  }

  lemma NormalizeIsNormal(s: string)
    ensures IsNormal(Normalize(s))
  {
    WordsAreSolid(s);
    JoinIsNormal(Words(s));
  }

  lemma RestIsNormal(s: string, n: nat)
    requires IsNormal(s) && n < |s| && IsSpace(s[n])
    ensures s[n] == ' ' && 0 < n < |s| - 1 && IsNormal(s[n + 1..])
  {
    var rest := s[n + 1..];
    forall i | 0 <= i < |rest| && IsSpace(rest[i])
      ensures rest[i] == ' ' && 0 < i < |rest| - 1 && !IsSpace(rest[i + 1])
    {
      assert rest[i] == s[n + 1 + i];
      assert i + 1 < |rest| ==> rest[i + 1] == s[n + 2 + i];
    }
  }

  lemma WordsUnfold(s: string)
    requires 0 < WordLength(s) < |s|
    ensures Words(s) == [s[..WordLength(s)]] + Words(s[WordLength(s) + 1..])
  {
    var n := WordLength(s);
    var tail := s[n..];
    assert tail[0] == s[n] && tail[1..] == s[n + 1..];
  }

  lemma OneWord(s: string)
    requires s != "" && WordLength(s) == |s|
    ensures Words(s) == [s]
  {
    assert s[..|s|] == s && s[|s|..] == "";
  }

  lemma JoinCons(words: seq<string>, word: string, tail: seq<string>, rest: string)
    requires words == [word] + tail && Join(tail) == rest != ""
    ensures Join(words) == word + " " + rest
  {
    assert words[1..] == tail;
  }

  lemma SplitAtSpace(s: string, n: nat)
    requires n < |s| && s[n] == ' '
    ensures s[..n] + " " + s[n + 1..] == s
  {
  }

  /** Normal text is left alone. */
  lemma {:induction false} NormalizeKeepsNormal(s: string)
    requires IsNormal(s)
    ensures Normalize(s) == s
    decreases |s|
  {
    var n := WordLength(s);
    if s != "" && n == |s| {
      OneWord(s);
    } else if s != "" {
      RestIsNormal(s, n);
      NormalizeKeepsNormal(s[n + 1..]);
      WordThenRest(s);
    }
  }

  lemma WordThenRest(s: string)
    requires 0 < WordLength(s) < |s| - 1 && s[WordLength(s)] == ' '
    requires Normalize(s[WordLength(s) + 1..]) == s[WordLength(s) + 1..]
    ensures Normalize(s) == s
  {
    var n := WordLength(s);
    WordsUnfold(s);
    JoinCons(Words(s), s[..n], Words(s[n + 1..]), s[n + 1..]);
    SplitAtSpace(s, n);
  }

  // ---- whitespace layout does not matter ----

  lemma {:induction false} WordsSplitAtSpace(a: string, c: char, b: string)
    requires IsSpace(c)
    ensures Words(a + [c] + b) == Words(a) + Words(b)
    decreases |a|
  {
    if |a| == 0 {
      assert (a + [c] + b)[1..] == b;
    } else if IsSpace(a[0]) {
      assert (a + [c] + b)[1..] == a[1..] + [c] + b;
      WordsSplitAtSpace(a[1..], c, b);
    } else {
      WordsSplitAtSpace(a[WordLength(a)..], c, b);
      FirstWordSplits(a, c, b);
    }
  }

  lemma FirstWord(s: string, n: nat)
    requires |s| > 0 && !IsSpace(s[0]) && n == WordLength(s)
    ensures Words(s) == [s[..n]] + Words(s[n..])
  {
  }

  lemma FirstWordSplits(a: string, c: char, b: string)
    requires IsSpace(c) && |a| > 0 && !IsSpace(a[0])
    requires Words(a[WordLength(a)..] + [c] + b) == Words(a[WordLength(a)..]) + Words(b)
    ensures Words(a + [c] + b) == Words(a) + Words(b)
  {
    var s, n := a + [c] + b, WordLength(a);
    WordLengthUpTo(a, c, b);
    FirstWord(s, n);
    FirstWord(a, n);
    assert s[..n] == a[..n] && s[n..] == a[n..] + [c] + b;
  }

  lemma {:induction false} WordLengthUpTo(a: string, c: char, b: string)
    requires IsSpace(c)
    ensures WordLength(a + [c] + b) == WordLength(a)
  {
    if |a| > 0 && !IsSpace(a[0]) {
      assert (a + [c] + b)[1..] == a[1..] + [c] + b;
      WordLengthUpTo(a[1..], c, b);
    }
  }

  lemma {:induction false} LeadingSpaceVanishes(w: string, b: string)
    requires Blank(w)
    ensures Words(w + b) == Words(b)
  {
    if |w| > 0 {
      assert (w + b)[1..] == w[1..] + b;
      LeadingSpaceVanishes(w[1..], b);
    } else {
      assert w + b == b;
    }
  }

  /** Two texts that differ in the whitespace between two parts normalise alike, and so do texts
      that differ in leading or trailing whitespace. */
  lemma LayoutDoesNotMatter(a: string, w: string, w': string, b: string)
    requires Blank(w) && Blank(w')
    requires (w != "" && w' != "") || Words(a) == [] || Words(b) == []
    ensures Words(a + w + b) == Words(a + w' + b) && Normalize(a + w + b) == Normalize(a + w' + b)
  {
    GapSplits(a, w, b);
    GapSplits(a, w', b);
  }

  lemma GapSplits(a: string, w: string, b: string)
    requires Blank(w) && (w != "" || Words(a) == [] || Words(b) == [])
    ensures Words(a + w + b) == Words(a) + Words(b)
  {
    if w != "" {
      assert a + w + b == a + [w[0]] + (w[1..] + b);
      WordsSplitAtSpace(a, w[0], w[1..] + b);
      LeadingSpaceVanishes(w[1..], b);
    } else {
      assert a + w + b == a + b;
      if Words(a) == [] {
        NoWordsIsBlank(a);
        LeadingSpaceVanishes(a, b);
      } else {
        NoWordsIsBlank(b);
        TrailingSpaceVanishes(a, b);
      }
    }
  }

  lemma {:induction false} NoWordsIsBlank(s: string)
    requires Words(s) == []
    ensures Blank(s)
  {
    if |s| > 0 {
      NoWordsIsBlank(s[1..]);
    }
  }

  lemma TrailingSpaceVanishes(a: string, w: string)
    requires Blank(w)
    ensures Words(a + w) == Words(a)
  {
    if w == "" {
      assert a + w == a;
    } else {
      assert a + w == a + [w[0]] + w[1..];
      WordsSplitAtSpace(a, w[0], w[1..]);
      LeadingSpaceVanishes(w[1..], "");
      assert w[1..] + "" == w[1..];
    }
  }

  lemma {:induction false} SolidIsOneWord(w: string)
    requires w != "" && Solid(w)
    ensures WordLength(w) == |w|
  {
    if |w| > 1 {
      SolidIsOneWord(w[1..]);
    }
  }

  /** Joining words loses nothing. */
  lemma {:induction false} WordsOfJoined(words: seq<string>)
    requires forall k :: 0 <= k < |words| ==> words[k] != "" && Solid(words[k])
    ensures Words(Join(words)) == words
  {
    if |words| > 0 {
      SolidIsOneWord(words[0]);
      OneWord(words[0]);
      if |words| == 1 {
        assert words == [words[0]];
      } else {
        WordsOfJoined(words[1..]);
        WordsSplitAtSpace(words[0], ' ', Join(words[1..]));
        assert Join(words) == words[0] + [' '] + Join(words[1..]);
        assert [words[0]] + words[1..] == words;
      }
    }
  }

  /** Two texts normalise alike if and only if they have the same words: only the layout of whitespace is
      lost. */
  lemma SameWordsNormalizeAlike(a: string, b: string)
    ensures Normalize(a) == Normalize(b) <==> Words(a) == Words(b)
  {
    WordsAreSolid(a);
    WordsAreSolid(b);
    WordsOfJoined(Words(a));
    WordsOfJoined(Words(b));
  }

  // ---- case ----

  /** The representative of a character under case-insensitive matching. ASCII letters fold, and
      with them the two other characters of their orbits, the Kelvin sign and the long s. */
  function Canon(c: char): char {
    if 'A' <= c <= 'Z' then 'a' + (c - 'A')
    else if c == '\U{212A}' then 'k'
    else if c == '\U{17F}' then 's'
    else c
  }

  predicate FoldEq(s: string, t: string) {
    |s| == |t| && forall i | 0 <= i < |s| :: Canon(s[i]) == Canon(t[i])
  }
}
