/** `Compile` and `Match`, and what the two promise together. */
module SmsCompiler {
  import opened Prelude
  import opened SmsText
  import opened SmsRegex
  import opened SmsTemplate
  import opened SmsAmount
  import opened SmsMatch

  // ---- compile ----

  const MAX_TEMPLATE_LENGTH := 1024

  datatype Template = Template(raw: string, tokens: seq<Token>, pattern: string, fields: seq<Field>)

  /** Length in bytes of the UTF-8 form. */
  function ByteLength(s: string): nat {
    if |s| == 0 then 0
    else
      var c := s[|s| - 1];
      ByteLength(s[..|s| - 1])
      + if c < '\U{80}' then 1 else if c < '\U{800}' then 2 else if c < '\U{10000}' then 3 else 4
  }

  /** The characters that regexp.QuoteMeta escapes. */
  predicate Special(c: char) {
    || c == '\\' || c == '.' || c == '+' || c == '*' || c == '?' || c == '(' || c == ')'
    || c == '[' || c == ']' || c == '{' || c == '}' || c == '|' || c == '^' || c == '$'
  }

  /** regexp.QuoteMeta. */
  function QuoteMeta(s: string): string {
    if |s| == 0 then ""
    else (if Special(s[0]) then ['\\', s[0]] else [s[0]]) + QuoteMeta(s[1..])
  }

  function PatternOf(t: Token): string {
    if t.Literal? then QuoteMeta(t.text)
    else
      var named := "(?P<" + FieldName(t.field) + ">" + Show(SubRe(t.field)) + ")";
      if t.optional then "(?:" + named + ")?" else named
  }

  function PatternText(tokens: seq<Token>): string {
    if |tokens| == 0 then "(?i)" else PatternText(tokens[..|tokens| - 1]) + PatternOf(tokens[|tokens| - 1])
  }

  /** The fields of the placeholders, in order. */
  function FieldsIn(tokens: seq<Token>): seq<Field> {
    if |tokens| == 0 then []
    else FieldsIn(tokens[..|tokens| - 1])
         + if tokens[|tokens| - 1].Placeholder? then [tokens[|tokens| - 1].field] else []
  }

  function Compiled(raw: string): Result<Template, Error> {
    var normalized := Normalize(raw);
    if normalized == "" then Err(EmptyTemplate)
    else if ByteLength(normalized) > MAX_TEMPLATE_LENGTH then Err(TemplateTooLong)
    else match Tokens(normalized, false)
      case Err(e) => Err(e)
      case Ok(tokens) =>
        if Amount in FieldsIn(tokens) && TrxId in FieldsIn(tokens)
        then Ok(Template(raw, tokens, PatternText(tokens), FieldsIn(tokens)))
        else Err(MissingRequired)
  }

  method Compile(raw: string) returns (r: Result<Template, Error>)
    ensures r == Compiled(raw)
  {
    var normalized := Normalize(raw);
    if normalized == "" {
      return Err(EmptyTemplate);
    }
    if ByteLength(normalized) > MAX_TEMPLATE_LENGTH {
      return Err(TemplateTooLong);
    }
    var read := Tokenize(normalized);
    if read.Err? {
      return Err(read.error);
    }
    var tokens := read.value;
    var sb := "(?i)";
    var fields: seq<Field> := [];
    var hasAmount, hasTrxID := false, false;
    for i := 0 to |tokens|
      invariant sb == PatternText(tokens[..i])
      invariant fields == FieldsIn(tokens[..i])
      invariant hasAmount == (Amount in fields) && hasTrxID == (TrxId in fields)
    {
      var tok := tokens[i];
      assert tokens[..i + 1][..i] == tokens[..i];
      if tok.Placeholder? {
        match tok.field {
          case Amount => hasAmount := true;
          case TrxId => hasTrxID := true;
          case _ =>
        }
        fields := fields + [tok.field];
      }
      sb := sb + PatternOf(tok);
    }
    assert tokens[..|tokens|] == tokens;
    if !hasAmount || !hasTrxID {
      return Err(MissingRequired);
    }
    return Ok(Template(raw, tokens, sb, fields));
  }

  /** What `Compile` accepts: the normalised template is the printed form of its tokens, and has both
      required placeholders. */
  lemma CompiledTokens(raw: string)
    requires Compiled(raw).Ok?
    ensures var t := Compiled(raw).value;
      && WellFormed(t.tokens) && PrintAll(t.tokens) == Normalize(raw)
      && t.fields == FieldsIn(t.tokens) && Amount in t.fields && TrxId in t.fields
  {
    TokensPrintBack(Normalize(raw), false);
  }

  // ---- match ----

  datatype Fields = Fields(amount: Decimal, sender: string, trxId: string, balance: Option<Decimal>)

  datatype MatchResult = NoMatch | MatchFails | Found(fields: Fields)

  /** The capture of a field: of its last placeholder, when the template repeats it. */
  function CaptureOf(tokens: seq<Token>, caps: Captures, f: Field): Option<Span> {
    if |tokens| == 0 then None
    else if tokens[0].Literal? then CaptureOf(tokens[1..], caps, f)
    else if |caps| == 0 then None
    else if tokens[0].field == f && f !in FieldsIn(tokens[1..]) then caps[0]
    else CaptureOf(tokens[1..], caps[1..], f)
  }

  function TextOf(tokens: seq<Token>, caps: Captures, s: string, f: Field): Option<string> {
    match CaptureOf(tokens, caps, f)
    case None => None
    case Some((lo, hi)) => if lo <= hi <= |s| then Some(s[lo..hi]) else None
  }

  function AmountOf(text: Option<string>): Option<Decimal> {
    if text.Some? then ParsedAmount(text.value) else None
  }

  /** The result of a successful search. */
  function ReadFields(tokens: seq<Token>, caps: Captures, s: string): MatchResult {
    var amount, trxId := TextOf(tokens, caps, s, Amount), TextOf(tokens, caps, s, TrxId);
    var sender, balance := TextOf(tokens, caps, s, Sender), TextOf(tokens, caps, s, Balance);
    if amount.None? || trxId.None? || AmountOf(amount).None? || (balance.Some? && AmountOf(balance).None?) then
      MatchFails
    else
      Found(Fields(AmountOf(amount).value, if sender.Some? then sender.value else "", trxId.value, AmountOf(balance)))
  }

  function Matched(t: Template, body: string): MatchResult {
    var normalized := Normalize(body);
    match FindFrom(t.tokens, normalized, 0)
    case None => NoMatch
    case Some(caps) => ReadFields(t.tokens, caps, normalized)
  }

  // ---- soundness ----

  lemma {:induction false} CaptureFits(tokens: seq<Token>, s: string, p: nat, q: nat, caps: Captures, f: Field)
    requires Instance(tokens, s, p, q, caps) && CaptureOf(tokens, caps, f).Some?
    ensures var (lo, hi) := CaptureOf(tokens, caps, f).value; lo <= hi <= |s| && Fits(f, s[lo..hi])
    decreases |tokens|
  {
    if tokens[0].Literal? {
      CaptureFits(tokens[1..], s, p + |tokens[0].text|, q, caps, f);
    } else if !(tokens[0].field == f && f !in FieldsIn(tokens[1..])) {
      CaptureFits(tokens[1..], s, if caps[0].Some? then caps[0].value.1 else p, q, caps[1..], f);
    }
  }

  /** The last placeholder of a field matched something. */
  predicate Captured(tokens: seq<Token>, caps: Captures, f: Field) {
    CaptureOf(tokens, caps, f).Some?
  }

  /** Match soundness, the place. There is no match if and only if no instance of the template stands in
      the normalised body. Otherwise a contiguous part of the body is the template rendered with the
      captured texts, up to letter case, and no instance starts earlier. */
  lemma MatchIsLeftmostInstance(t: Template, body: string) returns (p: nat, q: nat, caps: Captures)
    ensures var s := Normalize(body);
      && (Matched(t, body).NoMatch? <==> NoInstance(t.tokens, s, 0, |s| + 1))
      && (!Matched(t, body).NoMatch? ==> MatchedAt(t.tokens, s, p, q, caps))
  {
    var s := Normalize(body);
    p, q := FindsLeftmost(t.tokens, s, 0);
    caps := [];
    if FindFrom(t.tokens, s, 0).Some? {
      caps := FindFrom(t.tokens, s, 0).value;
      InstanceIsRendering(t.tokens, s, p, q, caps);
      assert Instance(t.tokens, s, p, q, caps);
    }
  }

  /** The search finds the captures of the leftmost instance, which stands from `p` to `q`. */
  ghost predicate MatchedAt(tokens: seq<Token>, s: string, p: nat, q: nat, caps: Captures) {
    && FindFrom(tokens, s, 0) == Some(caps)
    && p <= q <= |s| && Instance(tokens, s, p, q, caps) && NoInstance(tokens, s, 0, p)
    && |caps| == Holes(tokens) && InBounds(s, caps)
    && FoldEq(Render(tokens, Texts(s, caps)), s[p..q])
  }

  lemma CapturedText(t: Template, body: string, caps: Captures, f: Field)
    requires FindFrom(t.tokens, Normalize(body), 0) == Some(caps) && Captured(t.tokens, caps, f)
    ensures var text := TextOf(t.tokens, caps, Normalize(body), f);
      && text.Some? && Fits(f, text.value)
      && (f.Amount? || f.Balance? ==> AmountOf(text) == Some(NumeralValue(text.value)))
  {
    var s := Normalize(body);
    var p, q := FindsLeftmost(t.tokens, s, 0);
    CaptureFits(t.tokens, s, p, q, caps, f);
    if f.Amount? || f.Balance? {
      AmountsParse(f, TextOf(t.tokens, caps, s, f).value);
    }
  }

  /** Match soundness, the fields. They are the texts captured there by the placeholders of their
      names, amounts at the value of their numerals; the optional ones are there when captured. */
  lemma FieldsAreCaptures(t: Template, body: string, caps: Captures)
    requires FindFrom(t.tokens, Normalize(body), 0) == Some(caps) && Matched(t, body).Found?
    ensures var fields := Matched(t, body).fields;
      var text := f => TextOf(t.tokens, caps, Normalize(body), f);
      && text(TrxId) == Some(fields.trxId) && Fits(TrxId, fields.trxId)
      && text(Amount).Some? && fields.amount == NumeralValue(text(Amount).value)
      && fields.balance == (if text(Balance).Some? then Some(NumeralValue(text(Balance).value)) else None)
      && fields.sender == (if text(Sender).Some? then text(Sender).value else "")
  {
    forall f | Captured(t.tokens, caps, f)
      ensures var text := TextOf(t.tokens, caps, Normalize(body), f);
        && text.Some? && Fits(f, text.value)
        && (f.Amount? || f.Balance? ==> AmountOf(text) == Some(NumeralValue(text.value)))
    {
      CapturedText(t, body, caps, f);
    }
  }

  /** `Match` fails exactly when the body has an instance of the template in which the last amount
      or the last TrxID placeholder took no part; so never, when both are required. */
  lemma MatchFailsExactly(t: Template, body: string)
    ensures var caps := FindFrom(t.tokens, Normalize(body), 0);
      Matched(t, body).MatchFails?
      <==> caps.Some? && !(Captured(t.tokens, caps.value, Amount) && Captured(t.tokens, caps.value, TrxId))
  {
    var found := FindFrom(t.tokens, Normalize(body), 0);
    if found.Some? {
      forall f | Captured(t.tokens, found.value, f)
        ensures var text := TextOf(t.tokens, found.value, Normalize(body), f);
          text.Some? && (f.Amount? || f.Balance? ==> AmountOf(text).Some?)
      {
        CapturedText(t, body, found.value, f);
      }
    }
  }

  /** The last placeholder of a field is a required one. */
  predicate Required(tokens: seq<Token>, f: Field) {
    exists i | 0 <= i < |tokens| :: tokens[i] == Placeholder(f, false) && f !in FieldsIn(tokens[i + 1..])
  }

  lemma {:induction false} RequiredIsCaptured(tokens: seq<Token>, s: string, p: nat, q: nat, caps: Captures, f: Field)
    requires Instance(tokens, s, p, q, caps) && Required(tokens, f)
    ensures Captured(tokens, caps, f)
    decreases |tokens|
  {
    var i :| 0 <= i < |tokens| && tokens[i] == Placeholder(f, false) && f !in FieldsIn(tokens[i + 1..]);
    if i > 0 {
      assert tokens[1..][i - 1] == tokens[i] && tokens[1..][i..] == tokens[i + 1..];
      FieldIsIn(tokens[1..], i - 1);
      if tokens[0].Literal? {
        RequiredIsCaptured(tokens[1..], s, p + |tokens[0].text|, q, caps, f);
      } else {
        RequiredIsCaptured(tokens[1..], s, if caps[0].Some? then caps[0].value.1 else p, q, caps[1..], f);
      }
    }
  }

  lemma {:induction false} FieldIsIn(tokens: seq<Token>, i: nat)
    requires i < |tokens| && tokens[i].Placeholder?
    ensures tokens[i].field in FieldsIn(tokens)
    decreases |tokens|
  {
    if i < |tokens| - 1 {
      FieldIsIn(tokens[..|tokens| - 1], i);
    }
  }

  lemma RequiredNeverFails(t: Template, body: string)
    requires Required(t.tokens, Amount) && Required(t.tokens, TrxId)
    ensures !Matched(t, body).MatchFails?
  {
    var s := Normalize(body);
    var p, q := FindsLeftmost(t.tokens, s, 0);
    MatchFailsExactly(t, body);
    if FindFrom(t.tokens, s, 0).Some? {
      RequiredIsCaptured(t.tokens, s, p, q, FindFrom(t.tokens, s, 0).value, Amount);
      RequiredIsCaptured(t.tokens, s, p, q, FindFrom(t.tokens, s, 0).value, TrxId);
    }
  }


  /** Bodies that differ only in the layout of whitespace, so that they have the same words, give the same
      result. */
  lemma MatchIgnoresLayout(t: Template, a: string, b: string)
    requires Words(a) == Words(b)
    ensures Matched(t, a) == Matched(t, b)
  {
    SameWordsNormalizeAlike(a, b);
  }

  // ---- round trip ----

  /** The value of a field in a rendered message: that of its last placeholder. */
  function ValueOf(tokens: seq<Token>, vals: seq<string>, f: Field): Option<string> {
    if |tokens| == 0 then None
    else if tokens[0].Literal? then ValueOf(tokens[1..], vals, f)
    else if |vals| == 0 then None
    else if tokens[0].field == f && f !in FieldsIn(tokens[1..]) then Some(vals[0])
    else ValueOf(tokens[1..], vals[1..], f)
  }

  lemma ValuesAreSolid(f: Field, v: string)
    requires Fits(f, v)
    ensures v != "" && Solid(v)
  {
    match f
    case Sender =>
      SenderShape(v);
      var k := SplitOf(Maybe(One(Just('+'))), Repeat(Digits, 5, Some(15)), v);
      if k > 0 {
        assert v[..k][0] == v[0];
      } else {
        assert v[k..][0] == v[0];
      }
    case TrxId =>
    case _ =>
      var p := AmountSplits(f, v);
      assert v != "";
      forall i | 0 <= i < |v| ensures !IsSpace(v[i]) {
        AmountShape(f, v, i);
      }
  }

  /** Single spaces, each followed by something. */
  predicate TailNormal(s: string) {
    forall i | 0 <= i < |s| && IsSpace(s[i]) :: s[i] == ' ' && i < |s| - 1 && !IsSpace(s[i + 1])
  }

  lemma TailNormalSuffix(a: string, b: string)
    requires TailNormal(a + b)
    ensures TailNormal(b)
    ensures a != "" && IsSpace(a[|a| - 1]) ==> b != "" && !IsSpace(b[0])
    ensures forall i :: 0 <= i < |a| && IsSpace(a[i]) ==> a[i] == ' ' && (i < |a| - 1 ==> !IsSpace(a[i + 1]))
  {
    var s := a + b;
    forall i | 0 <= i < |b| && IsSpace(b[i]) ensures b[i] == ' ' && i < |b| - 1 && !IsSpace(b[i + 1]) {
      assert s[|a| + i] == b[i];
      assert i < |b| - 1 ==> s[|a| + i + 1] == b[i + 1];
    }
    if a != "" && IsSpace(a[|a| - 1]) {
      assert s[|a| - 1] == a[|a| - 1];
      assert b != "" ==> s[|a|] == b[0];
    }
    forall i | 0 <= i < |a| && IsSpace(a[i]) ensures a[i] == ' ' && (i < |a| - 1 ==> !IsSpace(a[i + 1])) {
      assert s[i] == a[i];
      assert i < |a| - 1 ==> s[i + 1] == a[i + 1];
    }
  }

  lemma TailNormalJoin(a: string, b: string)
    requires TailNormal(b)
    requires a != "" && IsSpace(a[|a| - 1]) ==> b != "" && !IsSpace(b[0])
    requires forall i :: 0 <= i < |a| && IsSpace(a[i]) ==> a[i] == ' ' && (i < |a| - 1 ==> !IsSpace(a[i + 1]))
    ensures TailNormal(a + b)
  {
  }

  lemma {:induction false} RenderingIsNormal(tokens: seq<Token>, vals: seq<string>)
    requires WellFormed(tokens) && FitsAll(tokens, vals) && TailNormal(PrintAll(tokens))
    ensures var text, printed := Render(tokens, vals), PrintAll(tokens);
      && TailNormal(text)
      && (text == "" <==> tokens == []) && (printed == "" <==> tokens == [])
      && (tokens != [] ==> IsSpace(text[0]) == IsSpace(printed[0]))
    decreases |tokens|
  {
    if |tokens| > 0 {
      WellFormedTail(tokens);
      var head := Print(tokens[0]);
      TailNormalSuffix(head, PrintAll(tokens[1..]));
      if tokens[0].Literal? {
        RenderingIsNormal(tokens[1..], vals);
        TailNormalJoin(head, Render(tokens[1..], vals));
      } else {
        RenderingIsNormal(tokens[1..], vals[1..]);
        ValuesAreSolid(tokens[0].field, vals[0]);
        TailNormalJoin(vals[0], Render(tokens[1..], vals[1..]));
      }
    }
  }

  ghost predicate HoldsValue(tokens: seq<Token>, vals: seq<string>, s: string, p: nat, f: Field)
    requires Holes(tokens) == |vals|
  {
    TextOf(tokens, Spans(tokens, vals, p), s, f) == ValueOf(tokens, vals, f)
  }

  lemma LiteralHoldsNothing(tokens: seq<Token>, vals: seq<string>, s: string, p: nat, f: Field)
    requires FitsAll(tokens, vals) && |tokens| > 0 && tokens[0].Literal?
    requires HoldsValue(tokens[1..], vals, s, p + |tokens[0].text|, f)
    ensures HoldsValue(tokens, vals, s, p, f)
  {
  }

  lemma PlaceholderHoldsValue(tokens: seq<Token>, vals: seq<string>, s: string, p: nat, f: Field)
    requires FitsAll(tokens, vals) && |tokens| > 0 && tokens[0].Placeholder?
    requires p + |vals[0]| <= |s| && s[p..p + |vals[0]|] == vals[0]
    requires HoldsValue(tokens[1..], vals[1..], s, p + |vals[0]|, f)
    ensures HoldsValue(tokens, vals, s, p, f)
  {
    var spans := Spans(tokens, vals, p);
    assert spans[0] == Some((p, p + |vals[0]|)) && spans[1..] == Spans(tokens[1..], vals[1..], p + |vals[0]|);
  }

  lemma {:induction false} SpansHoldValues(tokens: seq<Token>, vals: seq<string>, s: string, p: nat, f: Field)
    requires FitsAll(tokens, vals) && p <= |s| && s[p..] == Render(tokens, vals)
    ensures HoldsValue(tokens, vals, s, p, f)
    decreases |tokens|
  {
    if |tokens| > 0 {
      if tokens[0].Literal? {
        var text := tokens[0].text;
        assert s[p + |text|..] == s[p..][|text|..];
        SpansHoldValues(tokens[1..], vals, s, p + |text|, f);
        LiteralHoldsNothing(tokens, vals, s, p, f);
      } else {
        var v := vals[0];
        assert s[p..p + |v|] == s[p..][..|v|] == v;
        assert s[p + |v|..] == s[p..][|v|..];
        SpansHoldValues(tokens[1..], vals[1..], s, p + |v|, f);
        PlaceholderHoldsValue(tokens, vals, s, p, f);
      }
    }
  }

  lemma {:induction false} PresentFieldHasValue(tokens: seq<Token>, vals: seq<string>, f: Field)
    requires FitsAll(tokens, vals)
    ensures f in FieldsIn(tokens) ==> ValueOf(tokens, vals, f).Some?
    ensures ValueOf(tokens, vals, f).Some? ==> Fits(f, ValueOf(tokens, vals, f).value)
    decreases |tokens|
  {
    if |tokens| > 0 {
      FieldsSplit(tokens);
      if tokens[0].Literal? {
        PresentFieldHasValue(tokens[1..], vals, f);
      } else {
        PresentFieldHasValue(tokens[1..], vals[1..], f);
      }
    }
  }

  lemma {:induction false} FieldsSplit(tokens: seq<Token>)
    requires |tokens| > 0
    ensures FieldsIn(tokens) == (if tokens[0].Placeholder? then [tokens[0].field] else []) + FieldsIn(tokens[1..])
    decreases |tokens|
  {
    if |tokens| > 1 {
      FieldsSplit(tokens[..|tokens| - 1]);
      assert tokens[..|tokens| - 1][1..] == tokens[1..][..|tokens| - 2];
    }
  }

  /** The fields a message carries when it was rendered from these values. */
  function FieldsOf(tokens: seq<Token>, vals: seq<string>): Option<Fields> {
    var amount, trxId := ValueOf(tokens, vals, Amount), ValueOf(tokens, vals, TrxId);
    var sender, balance := ValueOf(tokens, vals, Sender), ValueOf(tokens, vals, Balance);
    if amount.None? || trxId.None? then None
    else Some(Fields(NumeralValue(amount.value),
                     if sender.Some? then sender.value else "",
                     trxId.value,
                     if balance.Some? then Some(NumeralValue(balance.value)) else None))
  }

  lemma ValuesAreRead(tokens: seq<Token>, vals: seq<string>)
    requires FitsAll(tokens, vals) && Amount in FieldsIn(tokens) && TrxId in FieldsIn(tokens)
    ensures var result := ReadFields(tokens, Spans(tokens, vals, 0), Render(tokens, vals));
      result.Found? && FieldsOf(tokens, vals) == Some(result.fields)
  {
    var body := Render(tokens, vals);
    assert body[0..] == body;
    forall f ensures TextOf(tokens, Spans(tokens, vals, 0), body, f) == ValueOf(tokens, vals, f) {
      SpansHoldValues(tokens, vals, body, 0, f);
    }
    PresentFieldHasValue(tokens, vals, Amount);
    PresentFieldHasValue(tokens, vals, TrxId);
    PresentFieldHasValue(tokens, vals, Balance);
    AmountsParse(Amount, ValueOf(tokens, vals, Amount).value);
    if ValueOf(tokens, vals, Balance).Some? {
      AmountsParse(Balance, ValueOf(tokens, vals, Balance).value);
    }
  }

  /** Round trip, exactly. For every template that compiles and all values in the placeholders' grammars,
      matching the rendered message captures exactly those values if and only if at no placeholder a
      longer text in its grammar is followed by an instance of the rest; then the fields are read back. */
  lemma ReadsBackExactly(raw: string, vals: seq<string>)
    requires Compiled(raw).Ok? && FitsAll(Compiled(raw).value.tokens, vals)
    ensures var t := Compiled(raw).value;
      var body := Render(t.tokens, vals);
      var read := FindFrom(t.tokens, Normalize(body), 0);
      read == Some(Spans(t.tokens, vals, 0)) <==> NothingLonger(t.tokens, vals, body, 0)
    ensures var t := Compiled(raw).value;
      var body := Render(t.tokens, vals);
      NothingLonger(t.tokens, vals, body, 0) ==>
        Matched(t, body).Found? && FieldsOf(t.tokens, vals) == Some(Matched(t, body).fields)
  {
    var t := Compiled(raw).value;
    var body := Render(t.tokens, vals);
    CompiledTokens(raw);
    RenderedIsNormal(raw, vals);
    NormalizeKeepsNormal(body);
    assert body[0..] == body;
    RenderedMatches(t.tokens, vals, body, 0);
    ReadBackExactly(t.tokens, vals, body, 0);
    ValuesAreRead(t.tokens, vals);
  }

  /** Round trip. For every template that compiles with all placeholders required and unambiguous,
      and all values in the placeholders' grammars, the rendered message matches and gives exactly
      those values back. */
  lemma RoundTrip(raw: string, vals: seq<string>)
    requires Compiled(raw).Ok? && Unambiguous(Compiled(raw).value.tokens)
    requires FitsAll(Compiled(raw).value.tokens, vals)
    ensures var t := Compiled(raw).value;
      var result := Matched(t, Render(t.tokens, vals));
      result.Found? && FieldsOf(t.tokens, vals) == Some(result.fields)
  {
    var t := Compiled(raw).value;
    var body := Render(t.tokens, vals);
    assert body[0..] == body;
    UnambiguousHoldsBack(t.tokens, vals, body, 0);
    ReadsBackExactly(raw, vals);
  }

  lemma RenderedIsNormal(raw: string, vals: seq<string>)
    requires Compiled(raw).Ok? && FitsAll(Compiled(raw).value.tokens, vals)
    ensures IsNormal(Render(Compiled(raw).value.tokens, vals))
  {
    var tokens := Compiled(raw).value.tokens;
    CompiledTokens(raw);
    NormalizeIsNormal(raw);
    RenderingIsNormal(tokens, vals);
    var text := Render(tokens, vals);
    assert tokens != [] ==> !IsSpace(PrintAll(tokens)[0]);
    assert forall i :: 0 <= i < |text| && IsSpace(text[i]) ==> i != 0;
  }
}
