/** The part of the regular expression language that templates compile to, with the leftmost-first
    meaning: a matcher tries the alternatives in order of preference, greedy ones longest first. */
module SmsRegex {
  import opened Prelude
  import opened SmsText

  datatype Class = Digits | DigitsAndCommas | BengaliDigits | Alphanumerics | Just(c: char)

  predicate IsDigit(c: char) {
    '0' <= c <= '9'
  }

  predicate IsBengaliDigit(c: char) {
    '\U{9E6}' <= c <= '\U{9EF}'
  }

  /** Membership under (?i). */
  predicate Has(cls: Class, c: char) {
    match cls
    case Digits => IsDigit(c)
    case DigitsAndCommas => IsDigit(c) || c == ','
    case BengaliDigits => IsBengaliDigit(c)
    case Alphanumerics => IsDigit(c) || 'a' <= Canon(c) <= 'z'
    case Just(d) => Canon(c) == Canon(d)
  }

  datatype Re =
    | One(cls: Class)
    | Repeat(cls: Class, min: nat, max: Option<nat>)
    | Then(first: Re, second: Re)
    | Either(left: Re, right: Re)
    | Maybe(inner: Re)

  /** The texts an expression describes. */
  ghost predicate Lang(re: Re, v: string) {
    match re
    case One(cls) => |v| == 1 && Has(cls, v[0])
    case Repeat(cls, min, max) =>
      min <= |v| && (max.Some? ==> |v| <= max.value) && forall i :: 0 <= i < |v| ==> Has(cls, v[i])
    case Then(a, b) => exists k :: 0 <= k <= |v| && Lang(a, v[..k]) && Lang(b, v[k..])
    case Either(a, b) => Lang(a, v) || Lang(b, v)
    case Maybe(a) => v == "" || Lang(a, v)
  }

  // ---- the backtracking matcher ----

  /** Length of the run of a class from position `p`, cut off at `max`. */
  function RunLength(cls: Class, s: string, p: nat, max: Option<nat>): (n: nat)
    requires p <= |s|
    ensures p + n <= |s| && (max.Some? ==> n <= max.value)
    ensures forall i :: p <= i < p + n ==> Has(cls, s[i])
    ensures (max.Some? && n == max.value) || p + n == |s| || !Has(cls, s[p + n])
    decreases |s| - p
  {
    if p == |s| || max == Some(0) || !Has(cls, s[p]) then 0
    else 1 + RunLength(cls, s, p + 1, if max.Some? then Some(max.value - 1) else None)
  }

  function Down(hi: nat, lo: nat): (ends: seq<nat>)
    ensures |ends| == if hi < lo then 0 else hi - lo + 1
    ensures forall i :: 0 <= i < |ends| ==> ends[i] == hi - i
    decreases hi + 1
  {
    if hi < lo then [] else if hi == 0 then [0] else [hi] + Down(hi - 1, lo)
  }

  predicate Within(ends: seq<nat>, s: string, p: nat) {
    forall i | 0 <= i < |ends| :: p <= ends[i] <= |s|
  }

  /** Where a match of the expression from position `p` can end, in order of preference. */
  function Ends(re: Re, s: string, p: nat): (ends: seq<nat>)
    requires p <= |s|
    ensures Within(ends, s, p)
    decreases re, 0
  {
    match re
    case One(cls) => if p < |s| && Has(cls, s[p]) then [p + 1] else []
    case Repeat(cls, min, max) => Down(p + RunLength(cls, s, p, max), p + min)
    case Then(a, b) => EndsFromAll(b, s, Ends(a, s, p), p)
    case Either(a, b) => Ends(a, s, p) + Ends(b, s, p)
    case Maybe(a) => Ends(a, s, p) + [p]
  }

  function EndsFromAll(re: Re, s: string, starts: seq<nat>, p: nat): (ends: seq<nat>)
    requires Within(starts, s, p)
    ensures Within(ends, s, p)
    decreases re, |starts|
  {
    if |starts| == 0 then []
    else Ends(re, s, starts[0]) + EndsFromAll(re, s, starts[1..], p)
  }

  lemma {:induction false} FromSomeStart(re: Re, s: string, starts: seq<nat>, p: nat, e: nat) returns (k: nat)
    requires Within(starts, s, p) && e in EndsFromAll(re, s, starts, p)
    ensures k in starts && p <= k <= |s| && e in Ends(re, s, k)
    decreases |starts|
  {
    k := starts[0];
    if e !in Ends(re, s, k) {
      k := FromSomeStart(re, s, starts[1..], p, e);
    }
  }

  lemma {:induction false} FromEachStart(re: Re, s: string, starts: seq<nat>, p: nat, k: nat, e: nat)
    requires Within(starts, s, p) && k in starts && k <= |s| && e in Ends(re, s, k)
    ensures e in EndsFromAll(re, s, starts, p)
    decreases |starts|
  {
    if k != starts[0] {
      FromEachStart(re, s, starts[1..], p, k, e);
    }
  }

  lemma RepeatIsExact(cls: Class, min: nat, max: Option<nat>, s: string, p: nat, e: nat)
    requires p <= e <= |s|
    ensures e in Ends(Repeat(cls, min, max), s, p) <==> Lang(Repeat(cls, min, max), s[p..e])
  {
    var re := Repeat(cls, min, max);
    var n := RunLength(cls, s, p, max);
    if p + min <= e <= p + n {
      assert Ends(re, s, p)[p + n - e] == e;
      assert forall i :: 0 <= i < e - p ==> s[p..e][i] == s[p + i];
    } else if e > p + n {
      assert s[p..e][n] == s[p + n];
    }
  }

  lemma {:induction false} ThenIsSound(a: Re, b: Re, s: string, p: nat, e: nat)
    requires p <= e <= |s| && e in Ends(Then(a, b), s, p)
    ensures Lang(Then(a, b), s[p..e])
    decreases Then(a, b), 0
  {
    var k := FromSomeStart(b, s, Ends(a, s, p), p, e);
    EndsWithin(b, s, k, e);
    EndsAreExact(a, s, p, k);
    EndsAreExact(b, s, k, e);
    LangJoins(a, b, s, p, k, e);
  }

  lemma LangJoins(a: Re, b: Re, s: string, p: nat, k: nat, e: nat)
    requires p <= k <= e <= |s| && Lang(a, s[p..k]) && Lang(b, s[k..e])
    ensures Lang(Then(a, b), s[p..e])
  {
    var v := s[p..e];
    assert v[..k - p] == s[p..k] && v[k - p..] == s[k..e];
  }

  lemma SplitOf(a: Re, b: Re, v: string) returns (k: nat)
    requires Lang(Then(a, b), v)
    ensures k <= |v| && Lang(a, v[..k]) && Lang(b, v[k..])
  {
    k :| 0 <= k <= |v| && Lang(a, v[..k]) && Lang(b, v[k..]);
  }

  lemma SplitAt(a: Re, b: Re, s: string, p: nat, e: nat) returns (m: nat)
    requires p <= e <= |s| && Lang(Then(a, b), s[p..e])
    ensures p <= m <= e && Lang(a, s[p..m]) && Lang(b, s[m..e])
  {
    var k := SplitOf(a, b, s[p..e]);
    m := p + k;
    assert s[p..e][..k] == s[p..m] && s[p..e][k..] == s[m..e];
  }

  lemma {:induction false} ThenIsComplete(a: Re, b: Re, s: string, p: nat, m: nat, e: nat)
    requires p <= m <= e <= |s| && Lang(a, s[p..m]) && Lang(b, s[m..e])
    ensures e in EndsFromAll(b, s, Ends(a, s, p), p)
    decreases Then(a, b), 0
  {
    EndsAreExact(a, s, p, m);
    EndsAreExact(b, s, m, e);
    FromEachStart(b, s, Ends(a, s, p), p, m, e);
  }

  /** The matcher is sound and complete: it can end exactly where the text described ends. */
  lemma {:induction false} EndsAreExact(re: Re, s: string, p: nat, e: nat)
    requires p <= e <= |s|
    ensures e in Ends(re, s, p) <==> Lang(re, s[p..e])
    decreases re, 1
  {
    match re
    case One(cls) =>
    case Repeat(cls, min, max) => RepeatIsExact(cls, min, max, s, p, e);
    case Then(a, b) =>
      if e in Ends(re, s, p) {
        ThenIsSound(a, b, s, p, e);
      } else if Lang(re, s[p..e]) {
        var k := SplitAt(a, b, s, p, e);
        ThenIsComplete(a, b, s, p, k, e);
      }
    case Either(a, b) =>
      EndsAreExact(a, s, p, e);
      EndsAreExact(b, s, p, e);
    case Maybe(a) =>
      EndsAreExact(a, s, p, e);
      assert s[p..e] == "" <==> e == p;
  }

  lemma EndsWithin(re: Re, s: string, p: nat, e: nat)
    requires p <= |s| && e in Ends(re, s, p)
    ensures p <= e <= |s|
  {
  }
}
