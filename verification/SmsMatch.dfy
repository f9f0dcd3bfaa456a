/** Matching a compiled template against a message. */
module SmsMatch {
  import opened Prelude
  import opened SmsText
  import opened SmsRegex
  import opened SmsTemplate
  import opened SmsAmount

  // ---- leftmost-first search ----

  type Span = (nat, nat)

  /** What each placeholder captured, in template order; an optional one may capture nothing. */
  type Captures = seq<Option<Span>>

  predicate LiteralAt(text: string, s: string, p: nat) {
    p + |text| <= |s| && FoldEq(text, s[p..p + |text|])
  }

  /** The preferred match of the tokens from position `p`. */
  function MatchHere(tokens: seq<Token>, s: string, p: nat): Option<Captures>
    requires p <= |s|
    decreases |tokens|, 1, 0
  {
    if |tokens| == 0 then Some([])
    else match tokens[0]
      case Literal(text) => if LiteralAt(text, s, p) then MatchHere(tokens[1..], s, p + |text|) else None
      case Placeholder(f, optional) =>
        var taken := TryEnds(tokens[1..], s, p, Ends(SubRe(f), s, p));
        if taken.Some? || !optional then taken else Cons(None, MatchHere(tokens[1..], s, p))
  }

  /** The first of the ends from which the rest matches. */
  function TryEnds(tokens: seq<Token>, s: string, p: nat, ends: seq<nat>): Option<Captures>
    requires Within(ends, s, p)
    decreases |tokens|, 2, |ends|
  {
    if |ends| == 0 then None
    else
      var rest := MatchHere(tokens, s, ends[0]);
      if rest.Some? then Cons(Some((p, ends[0])), rest) else TryEnds(tokens, s, p, ends[1..])
  }

  function Cons(c: Option<Span>, rest: Option<Captures>): Option<Captures> {
    if rest.Some? then Some([c] + rest.value) else None
  }

  /** The leftmost position from `p` on where the tokens match. */
  function FindFrom(tokens: seq<Token>, s: string, p: nat): Option<Captures>
    requires p <= |s|
    decreases |s| - p
  {
    var here := MatchHere(tokens, s, p);
    if here.Some? then here
    else if p == |s| then None
    else FindFrom(tokens, s, p + 1)
  }

  // ---- instances of a template ----

  /** The text from `p` to `q` is an instance of the tokens with these captures. */
  ghost predicate Instance(tokens: seq<Token>, s: string, p: nat, q: nat, caps: Captures)
    decreases |tokens|
  {
    p <= |s| &&
    if |tokens| == 0 then p == q && caps == []
    else match tokens[0]
      case Literal(text) => LiteralAt(text, s, p) && Instance(tokens[1..], s, p + |text|, q, caps)
      case Placeholder(f, optional) =>
        |caps| > 0 &&
        if caps[0].Some? then
          var (lo, hi) := caps[0].value;
          lo == p <= hi <= |s| && Fits(f, s[lo..hi]) && Instance(tokens[1..], s, hi, q, caps[1..])
        else optional && Instance(tokens[1..], s, p, q, caps[1..])
  }

  lemma {:induction false} MatchIsInstance(tokens: seq<Token>, s: string, p: nat) returns (q: nat)
    requires p <= |s| && MatchHere(tokens, s, p).Some?
    ensures p <= q <= |s| && Instance(tokens, s, p, q, MatchHere(tokens, s, p).value)
    decreases |tokens|, 1, 0
  {
    if |tokens| == 0 {
      return p;
    }
    match tokens[0]
    case Literal(text) => q := MatchIsInstance(tokens[1..], s, p + |text|);
    case Placeholder(f, optional) =>
      var ends := Ends(SubRe(f), s, p);
      if TryEnds(tokens[1..], s, p, ends).Some? {
        var e := TakenEnd(tokens[1..], s, p, ends);
        q := MatchIsInstance(tokens[1..], s, e);
        CaptureIsInstance(tokens, s, p, e, q, MatchHere(tokens[1..], s, e).value);
      } else {
        q := MatchIsInstance(tokens[1..], s, p);
        SkipIsInstance(tokens, s, p, q, MatchHere(tokens[1..], s, p).value);
      }
  }

  lemma CaptureIsInstance(tokens: seq<Token>, s: string, p: nat, e: nat, q: nat, caps: Captures)
    requires |tokens| > 0 && tokens[0].Placeholder? && p <= e <= |s| && e in Ends(SubRe(tokens[0].field), s, p)
    requires Instance(tokens[1..], s, e, q, caps)
    ensures Instance(tokens, s, p, q, [Some((p, e))] + caps)
  {
    EndsAreExact(SubRe(tokens[0].field), s, p, e);
    assert ([Some((p, e))] + caps)[1..] == caps;
  }

  lemma SkipIsInstance(tokens: seq<Token>, s: string, p: nat, q: nat, caps: Captures)
    requires |tokens| > 0 && tokens[0].Placeholder? && tokens[0].optional && p <= |s|
    requires Instance(tokens[1..], s, p, q, caps)
    ensures Instance(tokens, s, p, q, [None] + caps)
  {
    var all: Captures := [None] + caps;
    assert all[1..] == caps;
  }

  lemma {:induction false} TakenEnd(tokens: seq<Token>, s: string, p: nat, ends: seq<nat>) returns (e: nat)
    requires Within(ends, s, p) && TryEnds(tokens, s, p, ends).Some?
    ensures e in ends && p <= e <= |s| && MatchHere(tokens, s, e).Some?
    ensures TryEnds(tokens, s, p, ends) == Cons(Some((p, e)), MatchHere(tokens, s, e))
    decreases |ends|
  {
    if MatchHere(tokens, s, ends[0]).Some? {
      e := ends[0];
    } else {
      e := TakenEnd(tokens, s, p, ends[1..]);
    }
  }

  lemma {:induction false} SomeEndTaken(tokens: seq<Token>, s: string, p: nat, ends: seq<nat>, e: nat)
    requires Within(ends, s, p) && e in ends && e <= |s| && MatchHere(tokens, s, e).Some?
    ensures TryEnds(tokens, s, p, ends).Some?
    decreases |ends|
  {
    if MatchHere(tokens, s, ends[0]).None? {
      SomeEndTaken(tokens, s, p, ends[1..], e);
    }
  }

  lemma {:induction false} InstanceIsMatched(tokens: seq<Token>, s: string, p: nat, q: nat, caps: Captures)
    requires Instance(tokens, s, p, q, caps)
    ensures MatchHere(tokens, s, p).Some?
    decreases |tokens|
  {
    if |tokens| > 0 {
      match tokens[0]
      case Literal(text) => InstanceIsMatched(tokens[1..], s, p + |text|, q, caps);
      case Placeholder(f, optional) =>
        if caps[0].Some? {
          var e := caps[0].value.1;
          InstanceIsMatched(tokens[1..], s, e, q, caps[1..]);
          EndsAreExact(SubRe(f), s, p, e);
          SomeEndTaken(tokens[1..], s, p, Ends(SubRe(f), s, p), e);
        } else {
          InstanceIsMatched(tokens[1..], s, p, q, caps[1..]);
        }
    }
  }

  /** No instance starts in the given range of positions. */
  ghost predicate NoInstance(tokens: seq<Token>, s: string, from: nat, until: nat) {
    forall p: nat, q: nat, caps: Captures :: from <= p < until ==> !Instance(tokens, s, p, q, caps)
  }

  lemma UnmatchedHere(tokens: seq<Token>, s: string, p: nat)
    requires p <= |s| && MatchHere(tokens, s, p).None?
    ensures NoInstance(tokens, s, p, p + 1)
  {
    forall q: nat, caps: Captures ensures !Instance(tokens, s, p, q, caps) {
      if Instance(tokens, s, p, q, caps) {
        InstanceIsMatched(tokens, s, p, q, caps);
      }
    }
  }

  /** The search result from `from` on: an instance from `p` to `q` with none starting before, or none
      at all. */
  ghost predicate Leftmost(tokens: seq<Token>, s: string, from: nat, r: Option<Captures>, p: nat, q: nat) {
    && (r.Some? ==> from <= p <= q <= |s| && Instance(tokens, s, p, q, r.value))
    && NoInstance(tokens, s, from, if r.Some? then p else |s| + 1)
  }

  lemma LeftmostLater(tokens: seq<Token>, s: string, from: nat, r: Option<Captures>, p: nat, q: nat)
    requires NoInstance(tokens, s, from, from + 1) && Leftmost(tokens, s, from + 1, r, p, q)
    ensures Leftmost(tokens, s, from, r, p, q)
  {
  }

  lemma FindsLater(tokens: seq<Token>, s: string, from: nat)
    requires from < |s| && MatchHere(tokens, s, from).None?
    ensures FindFrom(tokens, s, from) == FindFrom(tokens, s, from + 1)
  {
  }

  /** A match is found exactly when the text has an instance of the template, and it starts at the
      leftmost position where an instance starts. */
  lemma {:induction false} FindsLeftmost(tokens: seq<Token>, s: string, from: nat) returns (p: nat, q: nat)
    requires from <= |s|
    ensures Leftmost(tokens, s, from, FindFrom(tokens, s, from), p, q)
    decreases |s| - from
  {
    p, q := from, from;
    if MatchHere(tokens, s, from).Some? {
      q := MatchIsInstance(tokens, s, from);
    } else {
      UnmatchedHere(tokens, s, from);
      if from < |s| {
        p, q := FindsLeftmost(tokens, s, from + 1);
        FindsLater(tokens, s, from);
        LeftmostLater(tokens, s, from, FindFrom(tokens, s, from), p, q);
      }
    }
  }

  // ---- preference ----

  lemma {:induction false} EarlierEndsFail(tokens: seq<Token>, s: string, p: nat, ends: seq<nat>, k: nat)
    requires Within(ends, s, p) && Decreasing(ends) && k in ends && k <= |s| && MatchHere(tokens, s, k).Some?
    ensures var taken := TryEnds(tokens, s, p, ends);
      taken.Some? && |taken.value| > 0 && taken.value[0].Some? && k <= taken.value[0].value.1
    decreases |ends|
  {
    if MatchHere(tokens, s, ends[0]).Some? {
      var i :| 0 <= i < |ends| && ends[i] == k;
    } else {
      EarlierEndsFail(tokens, s, p, ends[1..], k);
    }
  }

  /** A placeholder captures the longest text in its grammar after which the rest can still match,
      and an optional one captures something whenever it can. */
  lemma GreedyChoice(tokens: seq<Token>, s: string, p: nat, k: nat)
    requires p <= k <= |s| && |tokens| > 0 && tokens[0].Placeholder?
    requires Fits(tokens[0].field, s[p..k]) && MatchHere(tokens[1..], s, k).Some?
    ensures var found := MatchHere(tokens, s, p);
      found.Some? && |found.value| > 0 && found.value[0].Some? && k <= found.value[0].value.1
  {
    var f := tokens[0].field;
    LongestFirst(f, s, p);
    EndsAreExact(SubRe(f), s, p, k);
    EarlierEndsFail(tokens[1..], s, p, Ends(SubRe(f), s, p), k);
  }

  // ---- rendering ----

  /** The placeholders of a template, in order. */
  function Holes(tokens: seq<Token>): nat {
    if |tokens| == 0 then 0 else (if tokens[0].Placeholder? then 1 else 0) + Holes(tokens[1..])
  }

  /** The message a template stands for when its placeholders have these values. */
  function Render(tokens: seq<Token>, vals: seq<string>): string
    requires Holes(tokens) == |vals|
  {
    if |tokens| == 0 then ""
    else if tokens[0].Literal? then tokens[0].text + Render(tokens[1..], vals)
    else vals[0] + Render(tokens[1..], vals[1..])
  }

  predicate InBounds(s: string, caps: Captures) {
    forall i | 0 <= i < |caps| && caps[i].Some? :: caps[i].value.0 <= caps[i].value.1 <= |s|
  }

  function Texts(s: string, caps: Captures): (vals: seq<string>)
    requires InBounds(s, caps)
    ensures |vals| == |caps|
    ensures forall i :: 0 <= i < |caps| ==>
      vals[i] == if caps[i].Some? then s[caps[i].value.0..caps[i].value.1] else ""
  {
    if |caps| == 0 then []
    else [if caps[0].Some? then s[caps[0].value.0..caps[0].value.1] else ""] + Texts(s, caps[1..])
  }

  lemma InBoundsCons(s: string, caps: Captures)
    requires |caps| > 0 && (caps[0].Some? ==> caps[0].value.0 <= caps[0].value.1 <= |s|) && InBounds(s, caps[1..])
    ensures InBounds(s, caps) && Texts(s, caps)[1..] == Texts(s, caps[1..])
    ensures Texts(s, caps)[0] == if caps[0].Some? then s[caps[0].value.0..caps[0].value.1] else ""
  {
    assert caps == [caps[0]] + caps[1..];
  }

  /** An instance is the rendered template, with the captured texts, up to letter case. */
  lemma {:induction false} InstanceIsRendering(tokens: seq<Token>, s: string, p: nat, q: nat, caps: Captures)
    requires Instance(tokens, s, p, q, caps)
    ensures p <= q <= |s| && |caps| == Holes(tokens) && InBounds(s, caps)
    ensures FoldEq(Render(tokens, Texts(s, caps)), s[p..q])
    decreases |tokens|
  {
    if |tokens| > 0 {
      if tokens[0].Literal? {
        var text := tokens[0].text;
        InstanceIsRendering(tokens[1..], s, p + |text|, q, caps);
        FoldEqAppends(text, Render(tokens[1..], Texts(s, caps)), s, p, p + |text|, q);
      } else {
        var hi := if caps[0].Some? then caps[0].value.1 else p;
        InstanceIsRendering(tokens[1..], s, hi, q, caps[1..]);
        CaptureIsRendering(tokens, s, p, hi, q, caps);
      }
    }
  }

  lemma CaptureIsRendering(tokens: seq<Token>, s: string, p: nat, hi: nat, q: nat, caps: Captures)
    requires |tokens| > 0 && tokens[0].Placeholder? && |caps| == Holes(tokens) && p <= hi <= q <= |s|
    requires if caps[0].Some? then caps[0].value == (p, hi) else p == hi
    requires InBounds(s, caps[1..]) && FoldEq(Render(tokens[1..], Texts(s, caps[1..])), s[hi..q])
    ensures InBounds(s, caps) && FoldEq(Render(tokens, Texts(s, caps)), s[p..q])
  {
    InBoundsCons(s, caps);
    FoldEqAppends(s[p..hi], Render(tokens[1..], Texts(s, caps[1..])), s, p, hi, q);
    assert Texts(s, caps)[0] == s[p..hi];
  }

  lemma FoldEqAppends(a: string, b: string, s: string, p: nat, m: nat, q: nat)
    requires p <= m <= q <= |s| && FoldEq(a, s[p..m]) && FoldEq(b, s[m..q])
    ensures FoldEq(a + b, s[p..q])
  {
    forall i | 0 <= i < q - p ensures Canon((a + b)[i]) == Canon(s[p..q][i]) {
      if i < m - p {
        assert Canon(a[i]) == Canon(s[p..m][i]);
      } else {
        assert Canon(b[i - (m - p)]) == Canon(s[m..q][i - (m - p)]);
      }
    }
  }

  // ---- round trip ----

  /** The literal after a placeholder cannot extend its value. `last` says that no placeholder
      follows the literal. */
  predicate CannotExtend(f: Field, lit: string, last: bool)
    requires lit != ""
  {
    match f
    case Sender => !IsDigit(lit[0])
    case TrxId => !Has(Alphanumerics, lit[0])
    case _ =>
      && !Figure(lit[0]) && lit[0] != ','
      && (lit[0] == '.' ==> if |lit| > 1 then !Figure(lit[1]) else last)
  }

  predicate Unambiguous(tokens: seq<Token>) {
    && WellFormed(tokens)
    && (forall i | 0 <= i < |tokens| && tokens[i].Placeholder? :: !tokens[i].optional)
    && (forall i | 0 <= i < |tokens| - 1 && tokens[i].Placeholder? ::
          CannotExtend(tokens[i].field, tokens[i + 1].text, i + 2 == |tokens|))
  }

  /** One value per placeholder, each in the placeholder's grammar. */
  ghost predicate FitsAll(tokens: seq<Token>, vals: seq<string>) {
    && Holes(tokens) == |vals|
    && if |tokens| == 0 then true
       else if tokens[0].Literal? then FitsAll(tokens[1..], vals)
       else Fits(tokens[0].field, vals[0]) && FitsAll(tokens[1..], vals[1..])
  }

  /** Where the values stand in a rendered message that starts at `p`. */
  function Spans(tokens: seq<Token>, vals: seq<string>, p: nat): Captures
    requires Holes(tokens) == |vals|
  {
    if |tokens| == 0 then []
    else if tokens[0].Literal? then Spans(tokens[1..], vals, p + |tokens[0].text|)
    else [Some((p, p + |vals[0]|))] + Spans(tokens[1..], vals[1..], p + |vals[0]|)
  }

  lemma SenderShape(v: string)
    requires Fits(Sender, v)
    ensures v != "" && forall i :: 1 <= i < |v| ==> IsDigit(v[i])
  {
    var k := SplitOf(Maybe(One(Just('+'))), Repeat(Digits, 5, Some(15)), v);
    assert k <= 1;
    assert forall i :: k <= i < |v| ==> v[i] == v[k..][i - k];
  }

  predicate ShapedAt(v: string, i: nat)
    requires i < |v|
  {
    Figure(v[i]) || v[i] == ',' || (v[i] == '.' && i + 1 < |v| && Figure(v[i + 1]))
  }

  lemma AmountShape(f: Field, v: string, i: nat)
    requires Fits(f, v) && (f.Amount? || f.Balance?) && i < |v|
    ensures Figure(v[0]) && ShapedAt(v, i)
  {
    var p := AmountSplits(f, v);
    if i < p {
      assert v[i] == v[..p][i];
    } else if i == p {
      assert v[p + 1] == v[p + 1..][0];
    } else {
      assert v[i] == v[p + 1..][i - p - 1];
    }
    assert v[0] == v[..p][0];
  }

  /** A value followed by text that cannot extend it is the longest match there. */
  lemma NoLongerValue(f: Field, v: string, more: string, longer: string)
    requires Fits(f, v) && more != ""
    requires |v| < |longer| && longer[..|v|] == v && longer <= v + more
    requires match f
      case Sender => !IsDigit(more[0])
      case TrxId => !Has(Alphanumerics, more[0])
      case _ => !Figure(more[0]) && more[0] != ',' && (more[0] == '.' && |more| > 1 ==> !Figure(more[1]))
    ensures !Fits(f, longer)
  {
    var n := |v|;
    assert longer[n] == (v + more)[n] == more[0];
    if n + 1 < |longer| {
      assert longer[n + 1] == (v + more)[n + 1] == more[1];
    }
    if Fits(f, longer) {
      match f
      case Sender =>
        SenderShape(v);
        SenderShape(longer);
      case TrxId =>
      case _ => AmountShape(f, longer, n);
    }
  }

  lemma {:induction false} UnambiguousTail(tokens: seq<Token>)
    requires Unambiguous(tokens) && |tokens| > 0
    ensures Unambiguous(tokens[1..])
  {
    var tail := tokens[1..];
    assert forall i :: 0 <= i < |tail| ==> tail[i] == tokens[i + 1];
  }

  lemma RenderingStarts(tokens: seq<Token>, vals: seq<string>)
    requires WellFormed(tokens) && Holes(tokens) == |vals| && |tokens| > 0 && tokens[0].Literal?
    ensures var text := Render(tokens, vals);
      text != "" && text[0] == tokens[0].text[0] && text[0] != '{'
      && (|tokens[0].text| > 1 ==> |text| > 1 && text[1] == tokens[0].text[1])
      && (|tokens| == 1 ==> text == tokens[0].text)
  {
    if |tokens| == 1 {
      assert Render(tokens[1..], vals) == "";
    }
  }

  lemma FollowedSafely(tokens: seq<Token>, vals: seq<string>, longer: string)
    requires Unambiguous(tokens) && FitsAll(tokens, vals) && |tokens| > 1 && tokens[0].Placeholder?
    requires |vals[0]| < |longer| && longer[..|vals[0]|] == vals[0]
    requires longer <= vals[0] + Render(tokens[1..], vals[1..])
    ensures !Fits(tokens[0].field, longer)
  {
    var more := Render(tokens[1..], vals[1..]);
    UnambiguousTail(tokens);
    assert CannotExtend(tokens[0].field, tokens[0 + 1].text, 0 + 2 == |tokens|);
    RenderingStarts(tokens[1..], vals[1..]);
    NoLongerValue(tokens[0].field, vals[0], more, longer);
  }

  // ---- reading a rendered message back ----

  /** A message rendered from the tokens and values stands at `p`. */
  ghost predicate RenderedAt(tokens: seq<Token>, vals: seq<string>, s: string, p: nat) {
    FitsAll(tokens, vals) && p <= |s| && s[p..] == Render(tokens, vals)
  }

  lemma RestAfterValue(s: string, p: nat, v: string, more: string)
    requires p <= |s| && s[p..] == v + more
    ensures p + |v| <= |s| && s[p..p + |v|] == v && s[p + |v|..] == more
  {
    assert s[p..p + |v|] == s[p..][..|v|];
    assert s[p + |v|..] == s[p..][|v|..];
  }

  /** What follows the first token of a rendered message: the rest, rendered. */
  lemma RenderedRest(tokens: seq<Token>, vals: seq<string>, s: string, p: nat)
    requires RenderedAt(tokens, vals, s, p) && |tokens| > 0
    ensures tokens[0].Literal? ==> p + |tokens[0].text| <= |s| && RenderedAt(tokens[1..], vals, s, p + |tokens[0].text|)
    ensures tokens[0].Placeholder? ==> p + |vals[0]| <= |s| && RenderedAt(tokens[1..], vals[1..], s, p + |vals[0]|)
  {
    if tokens[0].Literal? {
      RestAfterValue(s, p, tokens[0].text, Render(tokens[1..], vals));
    } else {
      RestAfterValue(s, p, vals[0], Render(tokens[1..], vals[1..]));
    }
  }

  lemma ValueFitsThere(tokens: seq<Token>, vals: seq<string>, s: string, p: nat)
    requires RenderedAt(tokens, vals, s, p) && |tokens| > 0 && tokens[0].Placeholder?
    ensures p + |vals[0]| <= |s| && Fits(tokens[0].field, s[p..p + |vals[0]|])
  {
    RestAfterValue(s, p, vals[0], Render(tokens[1..], vals[1..]));
  }

  lemma LiteralStands(tokens: seq<Token>, vals: seq<string>, s: string, p: nat)
    requires RenderedAt(tokens, vals, s, p) && |tokens| > 0 && tokens[0].Literal?
    ensures LiteralAt(tokens[0].text, s, p)
  {
    RestAfterValue(s, p, tokens[0].text, Render(tokens[1..], vals));
  }

  lemma LiteralStep(tokens: seq<Token>, s: string, p: nat)
    requires |tokens| > 0 && tokens[0].Literal? && LiteralAt(tokens[0].text, s, p)
    ensures MatchHere(tokens, s, p) == MatchHere(tokens[1..], s, p + |tokens[0].text|)
  {
  }

  lemma LiteralMatches(tokens: seq<Token>, vals: seq<string>, s: string, p: nat)
    requires RenderedAt(tokens, vals, s, p) && |tokens| > 0 && tokens[0].Literal?
    ensures var e := p + |tokens[0].text|;
      e <= |s| && MatchHere(tokens, s, p) == MatchHere(tokens[1..], s, e)
  {
    LiteralStands(tokens, vals, s, p);
    LiteralStep(tokens, s, p);
  }

  lemma {:induction false} RenderedIsInstance(tokens: seq<Token>, vals: seq<string>, s: string, p: nat)
    requires RenderedAt(tokens, vals, s, p)
    ensures Instance(tokens, s, p, |s|, Spans(tokens, vals, p))
    decreases |tokens|
  {
    if |tokens| > 0 {
      RenderedRest(tokens, vals, s, p);
      if tokens[0].Literal? {
        RenderedIsInstance(tokens[1..], vals, s, p + |tokens[0].text|);
        LiteralStands(tokens, vals, s, p);
      } else {
        RenderedIsInstance(tokens[1..], vals[1..], s, p + |vals[0]|);
        ValueIsCaptured(tokens, vals, s, p);
      }
    }
  }

  lemma ValueIsCaptured(tokens: seq<Token>, vals: seq<string>, s: string, p: nat)
    requires RenderedAt(tokens, vals, s, p) && |tokens| > 0 && tokens[0].Placeholder?
    requires Instance(tokens[1..], s, p + |vals[0]|, |s|, Spans(tokens[1..], vals[1..], p + |vals[0]|))
    ensures Instance(tokens, s, p, |s|, Spans(tokens, vals, p))
  {
    var e := p + |vals[0]|;
    ValueFitsThere(tokens, vals, s, p);
    EndsAreExact(SubRe(tokens[0].field), s, p, e);
    CaptureIsInstance(tokens, s, p, e, |s|, Spans(tokens[1..], vals[1..], e));
  }

  lemma RenderedMatches(tokens: seq<Token>, vals: seq<string>, s: string, p: nat)
    requires RenderedAt(tokens, vals, s, p)
    ensures MatchHere(tokens, s, p).Some?
  {
    RenderedIsInstance(tokens, vals, s, p);
    InstanceIsMatched(tokens, s, p, |s|, Spans(tokens, vals, p));
  }

  /** An instance of the tokens stands at `p`. */
  ghost predicate StandsAt(tokens: seq<Token>, s: string, p: nat) {
    exists q: nat, caps: Captures :: Instance(tokens, s, p, q, caps)
  }

  lemma MatchedWhereItStands(tokens: seq<Token>, s: string, p: nat)
    requires p <= |s|
    ensures MatchHere(tokens, s, p).Some? <==> StandsAt(tokens, s, p)
  {
    if MatchHere(tokens, s, p).Some? {
      var q := MatchIsInstance(tokens, s, p);
    }
    forall q: nat, caps: Captures | Instance(tokens, s, p, q, caps) ensures MatchHere(tokens, s, p).Some? {
      InstanceIsMatched(tokens, s, p, q, caps);
    }
  }

  /** No text in the placeholder's grammar that goes beyond `k` is followed by an instance of the rest. */
  ghost predicate NoneBeyond(tokens: seq<Token>, s: string, p: nat, k: nat)
    requires |tokens| > 0 && tokens[0].Placeholder? && p <= k
  {
    forall e: nat | k < e <= |s| :: Fits(tokens[0].field, s[p..e]) ==> !StandsAt(tokens[1..], s, e)
  }

  /** At no placeholder is a longer text in its grammar followed by an instance of the rest. */
  ghost predicate NothingLonger(tokens: seq<Token>, vals: seq<string>, s: string, p: nat)
    requires Holes(tokens) == |vals|
    decreases |tokens|
  {
    if |tokens| == 0 then true
    else if tokens[0].Literal? then NothingLonger(tokens[1..], vals, s, p + |tokens[0].text|)
    else
      NoneBeyond(tokens, s, p, p + |vals[0]|)
      && NothingLonger(tokens[1..], vals[1..], s, p + |vals[0]|)
  }

  /** The end a placeholder takes: no nearer than any that lets the rest match. */
  lemma EndTaken(tokens: seq<Token>, s: string, p: nat, k: nat) returns (e: nat)
    requires p <= k <= |s| && |tokens| > 0 && tokens[0].Placeholder?
    requires Fits(tokens[0].field, s[p..k]) && MatchHere(tokens[1..], s, k).Some?
    ensures k <= e <= |s| && Fits(tokens[0].field, s[p..e]) && MatchHere(tokens[1..], s, e).Some?
    ensures MatchHere(tokens, s, p) == Cons(Some((p, e)), MatchHere(tokens[1..], s, e))
  {
    var ends := Ends(SubRe(tokens[0].field), s, p);
    GreedyChoice(tokens, s, p, k);
    EndsAreExact(SubRe(tokens[0].field), s, p, k);
    SomeEndTaken(tokens[1..], s, p, ends, k);
    e := TakenEnd(tokens[1..], s, p, ends);
    EndsAreExact(SubRe(tokens[0].field), s, p, e);
  }

  lemma TakenUnlessBeyond(tokens: seq<Token>, s: string, p: nat, k: nat) returns (e: nat)
    requires p <= k <= |s| && |tokens| > 0 && tokens[0].Placeholder?
    requires Fits(tokens[0].field, s[p..k]) && MatchHere(tokens[1..], s, k).Some?
    ensures k <= e <= |s| && MatchHere(tokens, s, p) == Cons(Some((p, e)), MatchHere(tokens[1..], s, e))
    ensures MatchHere(tokens[1..], s, e).Some? && (e == k <==> NoneBeyond(tokens, s, p, k))
  {
    e := EndTaken(tokens, s, p, k);
    forall d: nat | d <= |s| ensures MatchHere(tokens[1..], s, d).Some? <==> StandsAt(tokens[1..], s, d) {
      MatchedWhereItStands(tokens[1..], s, d);
    }
    forall d | k < d <= |s| && Fits(tokens[0].field, s[p..d]) && MatchHere(tokens[1..], s, d).Some? ensures e != k {
      GreedyChoice(tokens, s, p, d);
    }
  }

  lemma SpansStartWith(tokens: seq<Token>, vals: seq<string>, p: nat, e: nat, rest: Captures)
    requires |tokens| > 0 && tokens[0].Placeholder? && Holes(tokens) == |vals|
    ensures Cons(Some((p, e)), Some(rest)) == Some(Spans(tokens, vals, p))
      <==> e == p + |vals[0]| && rest == Spans(tokens[1..], vals[1..], p + |vals[0]|)
  {
    var all, spans: Captures := [Some((p, e))] + rest, Spans(tokens, vals, p);
    assert all[0] == Some((p, e)) && all[1..] == rest;
    assert spans[1..] == Spans(tokens[1..], vals[1..], p + |vals[0]|);
  }

  lemma PlaceholderReadBack(tokens: seq<Token>, vals: seq<string>, s: string, p: nat, k: nat)
    requires |tokens| > 0 && tokens[0].Placeholder? && Holes(tokens) == |vals| && k == p + |vals[0]| <= |s|
    requires Fits(tokens[0].field, s[p..k]) && MatchHere(tokens[1..], s, k).Some?
    ensures MatchHere(tokens, s, p) == Some(Spans(tokens, vals, p))
      <==> NoneBeyond(tokens, s, p, k) && MatchHere(tokens[1..], s, k) == Some(Spans(tokens[1..], vals[1..], k))
  {
    var e := TakenUnlessBeyond(tokens, s, p, k);
    SpansStartWith(tokens, vals, p, e, MatchHere(tokens[1..], s, e).value);
  }

  lemma NothingLongerStep(tokens: seq<Token>, vals: seq<string>, s: string, p: nat)
    requires |tokens| > 0 && Holes(tokens) == |vals|
    ensures tokens[0].Literal? ==>
      (NothingLonger(tokens, vals, s, p) <==> NothingLonger(tokens[1..], vals, s, p + |tokens[0].text|))
    ensures tokens[0].Placeholder? ==>
      (NothingLonger(tokens, vals, s, p)
       <==> NoneBeyond(tokens, s, p, p + |vals[0]|) && NothingLonger(tokens[1..], vals[1..], s, p + |vals[0]|))
  {
  }

  ghost predicate ReadBack(tokens: seq<Token>, vals: seq<string>, s: string, p: nat)
    requires Holes(tokens) == |vals| && p <= |s|
  {
    MatchHere(tokens, s, p) == Some(Spans(tokens, vals, p))
  }

  lemma LiteralReadBack(tokens: seq<Token>, vals: seq<string>, s: string, p: nat)
    requires RenderedAt(tokens, vals, s, p) && |tokens| > 0 && tokens[0].Literal?
    ensures var e := p + |tokens[0].text|;
      e <= |s| && (ReadBack(tokens, vals, s, p) <==> ReadBack(tokens[1..], vals, s, e))
  {
    LiteralMatches(tokens, vals, s, p);
  }

  lemma ValueReadBack(tokens: seq<Token>, vals: seq<string>, s: string, p: nat)
    requires RenderedAt(tokens, vals, s, p) && |tokens| > 0 && tokens[0].Placeholder?
    ensures var k := p + |vals[0]|;
      && k <= |s|
      && (ReadBack(tokens, vals, s, p) <==> NoneBeyond(tokens, s, p, k) && ReadBack(tokens[1..], vals[1..], s, k))
  {
    RenderedRest(tokens, vals, s, p);
    ValueFitsThere(tokens, vals, s, p);
    RenderedMatches(tokens[1..], vals[1..], s, p + |vals[0]|);
    PlaceholderReadBack(tokens, vals, s, p, p + |vals[0]|);
  }

  ghost predicate ExactlyReadBack(tokens: seq<Token>, vals: seq<string>, s: string, p: nat)
    requires Holes(tokens) == |vals| && p <= |s|
  {
    ReadBack(tokens, vals, s, p) <==> NothingLonger(tokens, vals, s, p)
  }

  lemma LiteralCase(tokens: seq<Token>, vals: seq<string>, s: string, p: nat)
    requires RenderedAt(tokens, vals, s, p) && |tokens| > 0 && tokens[0].Literal?
    requires p + |tokens[0].text| <= |s| && ExactlyReadBack(tokens[1..], vals, s, p + |tokens[0].text|)
    ensures ExactlyReadBack(tokens, vals, s, p)
  {
    LiteralReadBack(tokens, vals, s, p);
    NothingLongerStep(tokens, vals, s, p);
  }

  lemma PlaceholderCase(tokens: seq<Token>, vals: seq<string>, s: string, p: nat)
    requires RenderedAt(tokens, vals, s, p) && |tokens| > 0 && tokens[0].Placeholder?
    requires p + |vals[0]| <= |s| && ExactlyReadBack(tokens[1..], vals[1..], s, p + |vals[0]|)
    ensures ExactlyReadBack(tokens, vals, s, p)
  {
    ValueReadBack(tokens, vals, s, p);
    NothingLongerStep(tokens, vals, s, p);
  }

  lemma EmptyCase(vals: seq<string>, s: string, p: nat)
    requires vals == [] && p <= |s|
    ensures ExactlyReadBack([], vals, s, p)
  {
  }

  /** A rendered message is matched from its start, and the captures are exactly the values it was made
      from if and only if at no placeholder a longer text in the grammar is followed by an instance of the
      rest. */
  lemma {:induction false} ReadBackExactly(tokens: seq<Token>, vals: seq<string>, s: string, p: nat)
    requires RenderedAt(tokens, vals, s, p)
    ensures ExactlyReadBack(tokens, vals, s, p)
    decreases |tokens|
  {
    if |tokens| == 0 {
      EmptyCase(vals, s, p);
    } else {
      RenderedRest(tokens, vals, s, p);
      if tokens[0].Literal? {
        ReadBackExactly(tokens[1..], vals, s, p + |tokens[0].text|);
        LiteralCase(tokens, vals, s, p);
      } else {
        ReadBackExactly(tokens[1..], vals[1..], s, p + |vals[0]|);
        PlaceholderCase(tokens, vals, s, p);
      }
    }
  }

  lemma ValueThenMore(s: string, p: nat, v: string, more: string, k: nat)
    requires p <= |s| && s[p..] == v + more && p + |v| < k <= |s|
    ensures s[p..k][..|v|] == v && s[p..k] <= v + more && more != ""
  {
    assert s[p..k] == (v + more)[..k - p];
  }

  /** Literals that cannot extend the values before them are enough. */
  lemma {:induction false} UnambiguousHoldsBack(tokens: seq<Token>, vals: seq<string>, s: string, p: nat)
    requires Unambiguous(tokens) && RenderedAt(tokens, vals, s, p)
    ensures NothingLonger(tokens, vals, s, p)
    decreases |tokens|
  {
    if |tokens| > 0 {
      UnambiguousTail(tokens);
      RenderedRest(tokens, vals, s, p);
      if tokens[0].Literal? {
        UnambiguousHoldsBack(tokens[1..], vals, s, p + |tokens[0].text|);
      } else {
        UnambiguousHoldsBack(tokens[1..], vals[1..], s, p + |vals[0]|);
        forall e | p + |vals[0]| < e <= |s| ensures !Fits(tokens[0].field, s[p..e]) {
          LongerDoesNotFit(tokens, vals, s, p, e);
        }
      }
    }
  }

  lemma LongerDoesNotFit(tokens: seq<Token>, vals: seq<string>, s: string, p: nat, e: nat)
    requires Unambiguous(tokens) && RenderedAt(tokens, vals, s, p) && |tokens| > 0 && tokens[0].Placeholder?
    requires p + |vals[0]| < e <= |s|
    ensures !Fits(tokens[0].field, s[p..e])
  {
    ValueThenMore(s, p, vals[0], Render(tokens[1..], vals[1..]), e);
    assert |tokens| > 1;
    FollowedSafely(tokens, vals, s[p..e]);
  }
}
