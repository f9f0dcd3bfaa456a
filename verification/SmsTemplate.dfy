/** The template compiler: tokens of a template, and the regular expression of each placeholder. */
module SmsTemplate {
  import opened Prelude
  import opened SmsRegex

  datatype Field = Amount | Sender | TrxId | Balance

  function FieldName(f: Field): string {
    match f
    case Amount => "amount"
    case Sender => "sender"
    case TrxId => "trxId"
    case Balance => "balance"
  }

  function FieldOf(name: string): Option<Field> {
    if name == "amount" then Some(Amount)
    else if name == "sender" then Some(Sender)
    else if name == "trxId" then Some(TrxId)
    else if name == "balance" then Some(Balance)
    else None
  }

  // ---- sub-patterns ----

  function FractionRe(digit: Class): Re {
    Maybe(Then(One(Just('.')), Repeat(digit, 1, None)))
  }

  function TailRe(digit: Class, run: Class): Re {
    Then(Repeat(run, 0, None), FractionRe(digit))
  }

  function NumeralRe(digit: Class, run: Class): Re {
    Then(One(digit), TailRe(digit, run))
  }

  function AmountRe(): Re {
    Either(NumeralRe(Digits, DigitsAndCommas), NumeralRe(BengaliDigits, BengaliDigits))
  }

  function SubRe(f: Field): Re {
    match f
    case Amount => AmountRe()
    case Balance => AmountRe()
    case Sender => Then(Maybe(One(Just('+'))), Repeat(Digits, 5, Some(15)))
    case TrxId => Repeat(Alphanumerics, 6, Some(20))
  }

  /** The values a placeholder stands for. */
  ghost predicate Fits(f: Field, v: string) {
    Lang(SubRe(f), v)
  }

  lemma AsciiNumeralFits(v: string)
    requires v != "" && forall i :: 0 <= i < |v| ==> IsDigit(v[i])
    ensures Fits(Amount, v)
  {
    var tail := v[1..];
    assert tail[..|tail|] == tail && tail[|tail|..] == "";
    assert Lang(FractionRe(Digits), "");
    assert Lang(Repeat(DigitsAndCommas, 0, None), tail[..|tail|]);
    assert Lang(TailRe(Digits, DigitsAndCommas), tail);
    assert v[..1] == [v[0]];
    assert Lang(NumeralRe(Digits, DigitsAndCommas), v);
  }

  function ShowClass(cls: Class): string {
    match cls
    case Digits => "[0-9]"
    case DigitsAndCommas => "[0-9,]"
    case BengaliDigits => "[\U{9E6}-\U{9EF}]"
    case Alphanumerics => "[A-Za-z0-9]"
    case Just(c) => ['\\', c]
  }

  function ShowCount(min: nat, max: Option<nat>): string {
    if max == Some(15) then "{5,15}" else if max == Some(20) then "{6,20}" else if min == 0 then "*" else "+"
  }

  /** The expression in the notation of the regexp package. */
  function Show(re: Re): string {
    match re
    case One(cls) => ShowClass(cls)
    case Repeat(cls, min, max) => ShowClass(cls) + ShowCount(min, max)
    case Then(a, b) => Show(a) + Show(b)
    case Either(a, b) => "(?:" + Show(a) + "|" + Show(b) + ")"
    case Maybe(a) => if a.One? then Show(a) + "?" else "(?:" + Show(a) + ")?"
  }

  /** The expressions print as the program's own sub-patterns. */
  lemma SubPatternsAsWritten()
    ensures Show(SubRe(Amount)) == "(?:" + "[0-9][0-9,]*(?:\\.[0-9]+)?" + "|"
      + "[\U{9E6}-\U{9EF}][\U{9E6}-\U{9EF}]*(?:\\.[\U{9E6}-\U{9EF}]+)?" + ")"
    ensures Show(SubRe(Balance)) == Show(SubRe(Amount))
    ensures Show(SubRe(Sender)) == "\\+?[0-9]{5,15}"
    ensures Show(SubRe(TrxId)) == "[A-Za-z0-9]{6,20}"
  {
    AsciiNumeralShown();
    BengaliNumeralShown();
    assert Show(SubRe(Sender)) == ("\\+" + "?") + ("[0-9]" + "{5,15}");
  }

  lemma AsciiNumeralShown()
    ensures Show(NumeralRe(Digits, DigitsAndCommas)) == "[0-9][0-9,]*(?:\\.[0-9]+)?"
  {
    NumeralShown(Digits, DigitsAndCommas);
    assert "[0-9]" + "[0-9,]" == "[0-9][0-9,]";
    assert "[0-9][0-9,]" + "*(?:\\." == "[0-9][0-9,]*(?:\\.";
    assert "[0-9]" + "+)?" == "[0-9]+)?";
  }

  lemma BengaliNumeralShown()
    ensures Show(NumeralRe(BengaliDigits, BengaliDigits))
        == "[\U{9E6}-\U{9EF}][\U{9E6}-\U{9EF}]*(?:\\.[\U{9E6}-\U{9EF}]+)?"
  {
    NumeralShown(BengaliDigits, BengaliDigits);
    assert "[\U{9E6}-\U{9EF}]" + "[\U{9E6}-\U{9EF}]" == "[\U{9E6}-\U{9EF}][\U{9E6}-\U{9EF}]";
    assert "[\U{9E6}-\U{9EF}][\U{9E6}-\U{9EF}]" + "*(?:\\." == "[\U{9E6}-\U{9EF}][\U{9E6}-\U{9EF}]*(?:\\.";
    assert "[\U{9E6}-\U{9EF}]" + "+)?" == "[\U{9E6}-\U{9EF}]+)?";
  }

  lemma NumeralShown(d: Class, run: Class)
    ensures Show(NumeralRe(d, run)) == ((ShowClass(d) + ShowClass(run)) + "*(?:\\.") + (ShowClass(d) + "+)?")
  {
    NumeralPieces(d, run);
    Regroup(ShowClass(d), ShowClass(run));
  }

  lemma Regroup(d: string, run: string)
    ensures d + ((run + "*") + ("(?:" + ("\\." + (d + "+")) + ")?")) == ((d + run) + "*(?:\\.") + (d + "+)?")
  {
    assert "*" + ("(?:" + "\\.") == "*(?:\\.";
    assert "+" + ")?" == "+)?";
  }

  lemma NumeralPieces(d: Class, run: Class)
    ensures Show(NumeralRe(d, run))
        == ShowClass(d) + ((ShowClass(run) + "*") + ("(?:" + ("\\." + (ShowClass(d) + "+")) + ")?"))
  {
    var fraction := Then(One(Just('.')), Repeat(d, 1, None));
    assert Show(fraction) == ShowClass(Just('.')) + (ShowClass(d) + "+");
    assert Show(FractionRe(d)) == "(?:" + Show(fraction) + ")?";
    assert Show(TailRe(d, run)) == Show(Repeat(run, 0, None)) + Show(FractionRe(d));
    assert Show(NumeralRe(d, run)) == ShowClass(d) + Show(TailRe(d, run));
    assert ShowClass(Just('.')) == "\\.";
  }

  ghost predicate Decreasing(ends: seq<nat>) {
    forall i, j :: 0 <= i < j < |ends| ==> ends[j] < ends[i]
  }

  lemma EndsFromOne(re: Re, s: string, q: nat, p: nat)
    requires p <= q <= |s|
    ensures EndsFromAll(re, s, [q], p) == Ends(re, s, q)
  {
    assert [q][1..] == [];
    assert EndsFromAll(re, s, [q], p) == Ends(re, s, q) + [];
  }

  lemma NoFractionInRun(d: Class, s: string, h: nat)
    requires h < |s| && s[h] != '.'
    ensures Ends(FractionRe(d), s, h) == [h]
  {
    assert Ends(One(Just('.')), s, h) == [];
    assert Ends(Then(One(Just('.')), Repeat(d, 1, None)), s, h) == [];
  }

  lemma {:induction false} NumeralRun(d: Class, run: Class, s: string, q: nat, h: nat, ends: seq<nat>)
    requires q <= |s| && q <= h < q + RunLength(run, s, q, None)
    requires !Has(run, '.') && ends == Down(h, q)
    ensures EndsFromAll(FractionRe(d), s, ends, q) == ends
    decreases h
  {
    NoFractionInRun(d, s, h) by {
      assert Has(run, s[h]);
    }
    if q < h {
      assert ends[1..] == Down(h - 1, q);
      NumeralRun(d, run, s, q, h - 1, ends[1..]);
      EndsFromSplit(FractionRe(d), s, ends, q);
      assert [h] + ends[1..] == ends;
    } else {
      assert ends == [h];
      EndsFromOne(FractionRe(d), s, h, q);
    }
  }

  lemma FractionEnds(d: Class, s: string, h: nat)
    requires h <= |s|
    ensures Decreasing(Ends(FractionRe(d), s, h))
    ensures var ends := Ends(FractionRe(d), s, h); |ends| > 0 && forall i :: 0 <= i < |ends| ==> h <= ends[i]
  {
    var fraction := Then(One(Just('.')), Repeat(d, 1, None));
    assert Ends(FractionRe(d), s, h) == Ends(fraction, s, h) + [h];
    PointThenDigits(d, s, h);
  }

  lemma PointThenDigits(d: Class, s: string, h: nat)
    requires h <= |s|
    ensures var ends := Ends(Then(One(Just('.')), Repeat(d, 1, None)), s, h);
      Decreasing(ends) && forall i :: 0 <= i < |ends| ==> h < ends[i]
  {
    if h < |s| && Has(Just('.'), s[h]) {
      assert Ends(One(Just('.')), s, h) == [h + 1];
      EndsFromOne(Repeat(d, 1, None), s, h + 1, h);
    } else {
      assert Ends(One(Just('.')), s, h) == [];
    }
  }

  lemma DecreasingConcat(first: seq<nat>, others: seq<nat>, h: nat)
    requires Decreasing(first) && Decreasing(others)
    requires forall i :: 0 <= i < |first| ==> h <= first[i]
    requires forall i :: 0 <= i < |others| ==> others[i] < h
    ensures Decreasing(first + others)
  {
  }

  lemma ThenEnds(a: Re, b: Re, s: string, p: nat)
    requires p <= |s|
    ensures Ends(Then(a, b), s, p) == EndsFromAll(b, s, Ends(a, s, p), p)
  {
  }

  lemma EndsFromSplit(re: Re, s: string, starts: seq<nat>, p: nat)
    requires Within(starts, s, p) && |starts| > 0
    ensures EndsFromAll(re, s, starts, p) == Ends(re, s, starts[0]) + EndsFromAll(re, s, starts[1..], p)
  {
  }

  /** Where the digits before a fraction can end: only after the longest run can a fraction follow. */
  lemma RunEnds(d: Class, run: Class, s: string, q: nat, starts: seq<nat>)
    requires q <= |s| && !Has(run, '.') && starts == Ends(Repeat(run, 0, None), s, q)
    ensures |starts| > 0 && starts[0] <= |s| && Decreasing(starts)
    ensures Within(starts, s, q) && EndsFromAll(FractionRe(d), s, starts[1..], q) == starts[1..]
  {
    var n := RunLength(run, s, q, None);
    assert starts == Down(q + n, q);
    if n > 0 {
      NumeralRun(d, run, s, q, q + n - 1, starts[1..]);
    } else {
      assert starts[1..] == [];
    }
  }

  lemma FirstThenRest(re: Re, s: string, starts: seq<nat>, p: nat)
    requires Within(starts, s, p) && |starts| > 0 && Decreasing(starts)
    requires EndsFromAll(re, s, starts[1..], p) == starts[1..]
    requires Decreasing(Ends(re, s, starts[0]))
    requires forall i :: 0 <= i < |Ends(re, s, starts[0])| ==> starts[0] <= Ends(re, s, starts[0])[i]
    ensures Decreasing(EndsFromAll(re, s, starts, p))
  {
    EndsFromSplit(re, s, starts, p);
    DecreasingConcat(Ends(re, s, starts[0]), starts[1..], starts[0]);
  }

  lemma TailEndsDecrease(d: Class, run: Class, s: string, q: nat)
    requires q <= |s| && !Has(run, '.')
    ensures Decreasing(Ends(TailRe(d, run), s, q))
  {
    var starts := Ends(Repeat(run, 0, None), s, q);
    RunEnds(d, run, s, q, starts);
    FractionEnds(d, s, starts[0]);
    FirstThenRest(FractionRe(d), s, starts, q);
    ThenEnds(Repeat(run, 0, None), FractionRe(d), s, q);
  }

  lemma NumeralEndsDecrease(d: Class, run: Class, s: string, p: nat)
    requires p <= |s| && !Has(run, '.')
    ensures Decreasing(Ends(NumeralRe(d, run), s, p))
  {
    if p < |s| && Has(d, s[p]) {
      assert Ends(One(d), s, p) == [p + 1];
      EndsFromOne(TailRe(d, run), s, p + 1, p);
      TailEndsDecrease(d, run, s, p + 1);
    } else {
      assert Ends(One(d), s, p) == [];
    }
  }

  lemma SenderLongestFirst(s: string, p: nat)
    requires p <= |s|
    ensures Decreasing(Ends(SubRe(Sender), s, p))
  {
    var plus, number := Maybe(One(Just('+'))), Repeat(Digits, 5, Some(15));
    if p < |s| && Has(Just('+'), s[p]) {
      assert Ends(plus, s, p) == [p + 1, p];
      NumberAfterPlus(s, p);
    } else {
      assert Ends(plus, s, p) == [p];
      EndsFromOne(number, s, p, p);
    }
  }

  lemma EndsFromTwo(re: Re, s: string, x: nat, y: nat, p: nat)
    requires p <= x <= |s| && p <= y <= |s|
    ensures EndsFromAll(re, s, [x, y], p) == Ends(re, s, x) + Ends(re, s, y)
  {
    EndsFromOne(re, s, y, p);
    assert [x, y][1..] == [y];
  }

  /** A number does not start with the sign, so it is taken from behind it. */
  lemma NumberAfterPlus(s: string, p: nat)
    requires p < |s| && s[p] == '+'
    ensures var number := Repeat(Digits, 5, Some(15));
      EndsFromAll(number, s, [p + 1, p], p) == Ends(number, s, p + 1)
  {
    var number := Repeat(Digits, 5, Some(15));
    EndsFromTwo(number, s, p + 1, p, p);
    assert RunLength(Digits, s, p, Some(15)) == 0;
    assert Ends(number, s, p) == [];
  }

  lemma AmountLongestFirst(s: string, p: nat)
    requires p <= |s|
    ensures Decreasing(Ends(AmountRe(), s, p))
  {
    NumeralEndsDecrease(Digits, DigitsAndCommas, s, p);
    NumeralEndsDecrease(BengaliDigits, BengaliDigits, s, p);
    if p < |s| && IsDigit(s[p]) {
      assert Ends(One(BengaliDigits), s, p) == [];
      assert Ends(NumeralRe(BengaliDigits, BengaliDigits), s, p) == [];
    } else {
      assert Ends(One(Digits), s, p) == [];
      assert Ends(NumeralRe(Digits, DigitsAndCommas), s, p) == [];
    }
  }

  /** Every placeholder prefers the longest text. */
  lemma LongestFirst(f: Field, s: string, p: nat)
    requires p <= |s|
    ensures Decreasing(Ends(SubRe(f), s, p))
  {
    match f
    case TrxId =>
    case Sender => SenderLongestFirst(s, p);
    case _ => AmountLongestFirst(s, p);
  }

  // ---- tokens ----

  datatype Token = Literal(text: string) | Placeholder(field: Field, optional: bool)

  datatype Error =
    | EmptyTemplate | TemplateTooLong | UnbalancedBraces | UnknownField | AdjacentPlaceholders | MissingRequired

  function Name(t: Token): string
    requires t.Placeholder?
  {
    FieldName(t.field) + if t.optional then "?" else ""
  }

  function Print(t: Token): string {
    if t.Literal? then t.text else "{" + Name(t) + "}"
  }

  function PrintAll(tokens: seq<Token>): string {
    if |tokens| == 0 then "" else Print(tokens[0]) + PrintAll(tokens[1..])
  }

  predicate Plain(s: string) {
    forall i | 0 <= i < |s| :: s[i] != '{' && s[i] != '}'
  }

  /** Literals are nonempty and without braces; literals and placeholders alternate. */
  predicate WellFormed(tokens: seq<Token>) {
    && (forall i | 0 <= i < |tokens| && tokens[i].Literal? :: tokens[i].text != "" && Plain(tokens[i].text))
    && (forall i | 0 <= i < |tokens| - 1 :: tokens[i].Literal? != tokens[i + 1].Literal?)
  }

  function PlainLength(s: string): (n: nat)
    ensures n <= |s| && Plain(s[..n])
    ensures n < |s| ==> s[n] == '{' || s[n] == '}'
  {
    if |s| == 0 || s[0] == '{' || s[0] == '}' then 0
    else
      var n := 1 + PlainLength(s[1..]);
      assert s[1..n] == s[1..][..n - 1];
      n
  }

  /** A placeholder's name, with its optional mark. */
  function ReadName(name: string): Option<Token> {
    var optional := |name| > 0 && name[|name| - 1] == '?';
    var base := if optional then name[..|name| - 1] else name;
    match FieldOf(base)
    case None => None
    case Some(f) => Some(Placeholder(f, optional))
  }

  function Prepend(tokens: seq<Token>, r: Result<seq<Token>, Error>): Result<seq<Token>, Error> {
    if r.Ok? then Ok(tokens + r.value) else r
  }

  /** The placeholder at the head of a text that starts with '{', and what follows it. */
  function ReadPlaceholder(s: string, afterPlaceholder: bool): (r: Result<(Token, nat), Error>)
    requires |s| > 0 && s[0] == '{'
    ensures r.Ok? ==> r.value.0.Placeholder? && 0 < r.value.1 <= |s| && !afterPlaceholder
    ensures r.Ok? ==> Print(r.value.0) == s[..r.value.1]
    ensures r.Err? ==> r.error.UnbalancedBraces? || r.error.UnknownField? || r.error.AdjacentPlaceholders?
  {
    var end := IndexOf(s[1..], '}');
    if end.None? then Err(UnbalancedBraces)
    else
      var name := s[1..1 + end.value];
      if '{' in name then Err(UnbalancedBraces)
      else
        var token := ReadName(name);
        if token.None? then Err(UnknownField)
        else if afterPlaceholder then Err(AdjacentPlaceholders)
        else
          NamePrints(name);
          BracedName(s, end.value);
          Ok((token.value, end.value + 2))
  }

  /** A name between braces, `n` characters long, at the head of a text. */
  lemma BracedName(s: string, n: nat)
    requires n + 2 <= |s| && s[0] == '{' && s[n + 1] == '}'
    ensures s[..n + 2] == "{" + s[1..1 + n] + "}"
  {
    assert s[..n + 2] == [s[0]] + s[1..1 + n] + [s[n + 1]];
    assert "{" == ['{'] && "}" == ['}'];
  }

  lemma NamePrints(name: string)
    ensures var t := ReadName(name); t.Some? ==> t.value.Placeholder? && Name(t.value) == name
  {
    if |name| > 0 && name[|name| - 1] == '?' {
      assert name == name[..|name| - 1] + "?";
    }
  }

  /** The tokens of a text, or the first error from the left. */
  function Tokens(s: string, afterPlaceholder: bool): Result<seq<Token>, Error>
    decreases |s|
  {
    if |s| == 0 then Ok([])
    else if s[0] == '{' then
      match ReadPlaceholder(s, afterPlaceholder)
      case Err(e) => Err(e)
      case Ok((token, n)) => Prepend([token], Tokens(s[n..], true))
    else if s[0] == '}' then Err(UnbalancedBraces)
    else Prepend([Literal(s[..PlainLength(s)])], Tokens(s[PlainLength(s)..], false))
  }

  predicate Startable(tokens: seq<Token>, afterPlaceholder: bool) {
    afterPlaceholder ==> |tokens| == 0 || tokens[0].Literal?
  }

  lemma {:induction false} WellFormedTail(tokens: seq<Token>)
    requires WellFormed(tokens) && |tokens| > 0
    ensures WellFormed(tokens[1..]) && Startable(tokens[1..], tokens[0].Placeholder?)
    ensures |tokens| > 1 ==> tokens[1..][0] == tokens[1]
  {
  }

  /** The tokens are well formed, print as the text, and begin as it does. */
  ghost predicate PrintBack(tokens: seq<Token>, s: string, afterPlaceholder: bool) {
    && PrintAll(tokens) == s && WellFormed(tokens) && Startable(tokens, afterPlaceholder)
    && (|s| > 0 ==> |tokens| > 0 && tokens[0].Placeholder? == (s[0] == '{'))
  }

  lemma WellFormedCons(first: Token, rest: seq<Token>)
    requires WellFormed(rest) && Startable(rest, first.Placeholder?)
    requires first.Literal? ==> first.text != "" && Plain(first.text) && (|rest| == 0 || rest[0].Placeholder?)
    ensures WellFormed([first] + rest) && PrintAll([first] + rest) == Print(first) + PrintAll(rest)
  {
    var tokens := [first] + rest;
    assert tokens[1..] == rest;
    forall i | 0 <= i < |tokens| - 1 ensures tokens[i].Literal? != tokens[i + 1].Literal? {
      if i > 0 {
        assert tokens[i] == rest[i - 1] && tokens[i + 1] == rest[i];
      }
    }
  }

  lemma PrintBackCons(first: Token, rest: seq<Token>, s: string, n: nat, afterPlaceholder: bool)
    requires 0 < n <= |s| && Print(first) == s[..n] && first.Placeholder? == (s[0] == '{')
    requires first.Literal? ==> first.text != "" && Plain(first.text) && (n < |s| ==> s[n] == '{')
    requires first.Placeholder? ==> !afterPlaceholder
    requires PrintBack(rest, s[n..], first.Placeholder?)
    ensures PrintBack([first] + rest, s, afterPlaceholder)
  {
    if |rest| > 0 {
      SomethingPrints(rest);
    }
    WellFormedCons(first, rest);
    assert s == s[..n] + s[n..];
  }

  lemma SomethingPrints(tokens: seq<Token>)
    requires WellFormed(tokens) && |tokens| > 0
    ensures PrintAll(tokens) != ""
  {
    assert |Print(tokens[0])| > 0;
  }

  /** The first token of a template, and where the rest begins. */
  ghost function FirstToken(s: string, afterPlaceholder: bool): (Token, nat)
    requires |s| > 0 && Tokens(s, afterPlaceholder).Ok?
  {
    if s[0] == '{' then ReadPlaceholder(s, afterPlaceholder).value else (Literal(s[..PlainLength(s)]), PlainLength(s))
  }

  lemma TokensUnfold(s: string, afterPlaceholder: bool)
    requires |s| > 0 && Tokens(s, afterPlaceholder).Ok?
    ensures var (first, n) := FirstToken(s, afterPlaceholder);
      && 0 < n <= |s| && Print(first) == s[..n] && first.Placeholder? == (s[0] == '{')
      && (first.Literal? ==> first.text != "" && Plain(first.text) && (n < |s| ==> s[n] == '{' || s[n] == '}'))
      && (first.Placeholder? ==> !afterPlaceholder)
      && Tokens(s[n..], first.Placeholder?).Ok?
      && Tokens(s, afterPlaceholder).value == [first] + Tokens(s[n..], first.Placeholder?).value
  {
  }

  /** Tokens print back to the template. */
  lemma {:induction false} TokensPrintBack(s: string, afterPlaceholder: bool)
    requires Tokens(s, afterPlaceholder).Ok?
    ensures PrintBack(Tokens(s, afterPlaceholder).value, s, afterPlaceholder)
    decreases |s|
  {
    if |s| > 0 {
      TokensUnfold(s, afterPlaceholder);
      var (first, n) := FirstToken(s, afterPlaceholder);
      TokensPrintBack(s[n..], first.Placeholder?);
      if first.Literal? {
        BraceOpens(s, n);
      }
      PrintBackCons(first, Tokens(s[n..], first.Placeholder?).value, s, n, afterPlaceholder);
    }
  }

  lemma BraceOpens(s: string, n: nat)
    requires n <= |s| && Tokens(s[n..], false).Ok? && (n < |s| ==> s[n] == '{' || s[n] == '}')
    ensures n < |s| ==> s[n] == '{'
  {
  }

  lemma NameReads(t: Token)
    requires t.Placeholder?
    ensures ReadName(Name(t)) == Some(t) && Plain(Name(t))
  {
    var name := Name(t);
    if t.optional {
      assert name[..|name| - 1] == FieldName(t.field);
    } else {
      assert name == FieldName(t.field);
    }
  }

  lemma BraceCloses(name: string, rest: string)
    requires '}' !in name
    ensures var s := "{" + name + "}" + rest;
      IndexOf(s[1..], '}') == Some(|name|) && s[1..1 + |name|] == name
  {
    var s := "{" + name + "}" + rest;
    assert s[1..] == name + "}" + rest;
    assert s[1..][|name|] == '}';
    assert forall i :: 0 <= i < |name| ==> s[1..][i] == name[i];
  }

  lemma PlaceholderReads(t: Token, rest: string)
    requires t.Placeholder?
    ensures ReadPlaceholder(Print(t) + rest, false) == Ok((t, |Print(t)|))
  {
    var name := Name(t);
    NameReads(t);
    BraceCloses(name, rest);
    assert Print(t) + rest == "{" + name + "}" + rest;
  }

  lemma {:induction false} PlainLengthUpTo(text: string, rest: string)
    requires Plain(text) && (|rest| > 0 ==> rest[0] == '{' || rest[0] == '}')
    ensures PlainLength(text + rest) == |text|
  {
    if |text| > 0 {
      assert (text + rest)[1..] == text[1..] + rest;
      PlainLengthUpTo(text[1..], rest);
    } else {
      assert text + rest == rest;
    }
  }

  lemma PlaceholderComesBack(t: Token, rest: string, tail: seq<Token>)
    requires t.Placeholder? && Tokens(rest, true) == Ok(tail)
    ensures Tokens(Print(t) + rest, false) == Ok([t] + tail)
  {
    PlaceholderReads(t, rest);
    assert (Print(t) + rest)[0] == '{' && (Print(t) + rest)[|Print(t)|..] == rest;
  }

  lemma LiteralComesBack(text: string, rest: string, tail: seq<Token>, afterPlaceholder: bool)
    requires text != "" && Plain(text) && (|rest| > 0 ==> rest[0] == '{') && Tokens(rest, false) == Ok(tail)
    ensures Tokens(text + rest, afterPlaceholder) == Ok([Literal(text)] + tail)
  {
    var s := text + rest;
    PlainLengthUpTo(text, rest);
    assert s[0] == text[0] && s[..|text|] == text && s[|text|..] == rest;
  }

  lemma PlaceholderStartsWithBrace(tokens: seq<Token>)
    requires |tokens| > 0 && tokens[0].Placeholder?
    ensures PrintAll(tokens) != "" && PrintAll(tokens)[0] == '{'
  {
  }

  /** Every well-formed token list is read back from its printed form, so a template is rejected
      exactly when no token list prints to it, and has no second reading. */
  lemma {:induction false} PrintedTokensReadBack(tokens: seq<Token>, afterPlaceholder: bool)
    requires WellFormed(tokens) && Startable(tokens, afterPlaceholder)
    ensures Tokens(PrintAll(tokens), afterPlaceholder) == Ok(tokens)
    decreases |tokens|
  {
    if |tokens| > 0 {
      WellFormedTail(tokens);
      var t, tail := tokens[0], tokens[1..];
      PrintedTokensReadBack(tail, t.Placeholder?);
      if t.Placeholder? {
        PlaceholderComesBack(t, PrintAll(tail), tail);
      } else {
        if |tail| > 0 {
          PlaceholderStartsWithBrace(tail);
        }
        LiteralComesBack(t.text, PrintAll(tail), tail, afterPlaceholder);
      }
      assert [t] + tail == tokens;
    }
  }

  /** `tokenize`: one pass over the text with a literal buffer. */
  method Tokenize(s: string) returns (r: Result<seq<Token>, Error>)
    ensures r == Tokens(s, false)
  {
    var tokens: seq<Token> := [];
    var lit := "";
    var i := 0;
    ReadingStarts(s);
    while i < |s|
      invariant 0 <= i <= |s| && Plain(lit)
      invariant Tokens(s, false) == Reading(tokens, lit + s[i..])
    {
      if s[i] == '{' {
        Flushes(tokens, lit, s[i..]);
        tokens, lit := Flushed(tokens, lit), "";
        var placeholder := ReadPlaceholder(s[i..], EndsInPlaceholder(tokens));
        if placeholder.Err? {
          PlaceholderFails(tokens, s[i..]);
          return Err(placeholder.error);
        }
        var (token, length) := placeholder.value;
        PlaceholderTaken(tokens, s, i, token, length);
        tokens := tokens + [token];
        i := i + length;
      } else if s[i] == '}' {
        BraceFails(tokens, lit, s[i..]);
        return Err(UnbalancedBraces);
      } else {
        Buffers(lit, s, i);
        lit := lit + [s[i]];
        i := i + 1;
      }
    }
    AllRead(tokens, lit, s[i..]);
    return Ok(Flushed(tokens, lit));
  }

  /** `flushLiteral`. */
  function Flushed(tokens: seq<Token>, lit: string): seq<Token> {
    if lit == "" then tokens else tokens + [Literal(lit)]
  }

  predicate EndsInPlaceholder(tokens: seq<Token>) {
    |tokens| > 0 && tokens[|tokens| - 1].Placeholder?
  }

  /** The result when `tokens` have been read and the text is still to come. */
  function Reading(tokens: seq<Token>, text: string): Result<seq<Token>, Error> {
    Prepend(tokens, Tokens(text, EndsInPlaceholder(tokens)))
  }

  lemma ReadingStarts(s: string)
    ensures Reading([], "" + s[0..]) == Tokens(s, false)
  {
    var r := Tokens(s, false);
    assert "" + s[0..] == s;
    assert r.Ok? ==> [] + r.value == r.value;
  }

  lemma PrependTwice(tokens: seq<Token>, token: Token, r: Result<seq<Token>, Error>)
    ensures Prepend(tokens, Prepend([token], r)) == Prepend(tokens + [token], r)
  {
    assert r.Ok? ==> tokens + ([token] + r.value) == (tokens + [token]) + r.value;
  }

  lemma Flushes(tokens: seq<Token>, lit: string, rest: string)
    requires Plain(lit) && (|rest| > 0 ==> rest[0] == '{' || rest[0] == '}')
    ensures Reading(tokens, lit + rest) == Reading(Flushed(tokens, lit), rest)
  {
    if lit != "" {
      LiteralRead(lit, rest, EndsInPlaceholder(tokens));
      PrependTwice(tokens, Literal(lit), Tokens(rest, false));
    } else {
      assert lit + rest == rest;
    }
  }

  lemma LiteralRead(lit: string, rest: string, afterPlaceholder: bool)
    requires lit != "" && Plain(lit) && (|rest| > 0 ==> rest[0] == '{' || rest[0] == '}')
    ensures Tokens(lit + rest, afterPlaceholder) == Prepend([Literal(lit)], Tokens(rest, false))
  {
    PlainLengthUpTo(lit, rest);
    assert (lit + rest)[0] == lit[0];
    assert (lit + rest)[..|lit|] == lit && (lit + rest)[|lit|..] == rest;
  }

  lemma Buffers(lit: string, s: string, i: nat)
    requires i < |s| && Plain(lit) && s[i] != '{' && s[i] != '}'
    ensures lit + s[i..] == (lit + [s[i]]) + s[i + 1..] && Plain(lit + [s[i]])
  {
  }

  lemma PlaceholderTaken(tokens: seq<Token>, s: string, i: nat, token: Token, n: nat)
    requires i < |s| && s[i] == '{'
    requires ReadPlaceholder(s[i..], EndsInPlaceholder(tokens)) == Ok((token, n))
    ensures i + n <= |s| && Reading(tokens, s[i..]) == Reading(tokens + [token], "" + s[i + n..])
  {
    assert s[i..][n..] == "" + s[i + n..];
    PrependTwice(tokens, token, Tokens(s[i..][n..], true));
  }

  lemma PlaceholderFails(tokens: seq<Token>, text: string)
    requires |text| > 0 && text[0] == '{' && ReadPlaceholder(text, EndsInPlaceholder(tokens)).Err?
    ensures Reading(tokens, text) == Err(ReadPlaceholder(text, EndsInPlaceholder(tokens)).error)
  {
  }

  lemma BraceFails(tokens: seq<Token>, lit: string, rest: string)
    requires Plain(lit) && |rest| > 0 && rest[0] == '}'
    ensures Reading(tokens, lit + rest) == Err(UnbalancedBraces)
  {
    Flushes(tokens, lit, rest);
  }

  lemma AllRead(tokens: seq<Token>, lit: string, rest: string)
    requires Plain(lit) && rest == ""
    ensures Reading(tokens, lit + rest) == Ok(Flushed(tokens, lit))
  {
    Flushes(tokens, lit, rest);
    assert Flushed(tokens, lit) + [] == Flushed(tokens, lit);
  }

  /** `Tokens` inverts printing: it gives the one well-formed token list that prints to the text,
      and an error exactly when there is none. */
  lemma TokensInvertPrinting(s: string, tokens: seq<Token>)
    ensures Tokens(s, false) == Ok(tokens) <==> WellFormed(tokens) && PrintAll(tokens) == s
  {
    if Tokens(s, false) == Ok(tokens) {
      TokensPrintBack(s, false);
    } else if WellFormed(tokens) && PrintAll(tokens) == s {
      PrintedTokensReadBack(tokens, false);
    }
  }
}
