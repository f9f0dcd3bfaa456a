/** The four built-in templates read back whatever they are rendered with; and an ambiguous one
    that does not. */
module SeededTemplates {
  import opened Prelude
  import opened SmsText
  import opened SmsTemplate
  import opened SmsAmount
  import opened SmsMatch
  import opened SmsCompiler

  function Hole(f: Field): Token {
    Placeholder(f, false)
  }

  /** The shape of the built-in templates: an amount, a sender and two more fields. */
  function Seed(opening: string, from: string, third: string, f: Field, fourth: string, g: Field,
                close: string): seq<Token> {
    [Literal(opening), Hole(Amount), Literal(from), Hole(Sender), Literal(third), Hole(f), Literal(fourth), Hole(g)]
    + if close == "" then [] else [Literal(close)]
  }

  function Bkash(): seq<Token> {
    Seed("You have received Tk ", " from ", ". Balance: Tk ", Balance, ". TrxID ", TrxId, "")
  }

  function Nagad(): seq<Token> {
    Seed("Money received successfully. Amount Tk ", " from ", ". TrxID ", TrxId, ". New balance Tk ", Balance, ".")
  }

  function Rocket(): seq<Token> {
    Seed("You have received Tk", " from ", ". TxnId: ", TrxId, ". Balance: Tk", Balance, "")
  }

  function Upay(): seq<Token> {
    Seed("You have received BDT ", " from ", ". Transaction ID: ", TrxId, ". New balance is Tk ", Balance, ".")
  }

  // ---- literals ----

  const MAX_LITERAL := 40

  /** Short ASCII text without braces, with single spaces; it may end in one. */
  predicate GoodLiteral(s: string) {
    0 < |s| <= MAX_LITERAL && Plain(s) && IsAscii(s) && Spaced(s)
  }

  predicate IsAscii(s: string) {
    forall i | 0 <= i < |s| :: s[i] < '\U{80}'
  }

  predicate Spaced(s: string) {
    forall i | 0 <= i < |s| && IsSpace(s[i]) :: s[i] == ' ' && (i + 1 == |s| || !IsSpace(s[i + 1]))
  }

  /** The characters of the built-in literals. */
  predicate Ordinary(c: char) {
    'a' <= c <= 'z' || 'A' <= c <= 'Z' || c == ' ' || c == '.' || c == ':'
  }

  predicate Worded(s: string) {
    (forall i | 0 <= i < |s| :: Ordinary(s[i])) && forall i | 0 <= i < |s| - 1 :: s[i] == ' ' ==> s[i + 1] != ' '
  }

  lemma WordedIsGood(s: string)
    requires 0 < |s| <= MAX_LITERAL && Worded(s)
    ensures GoodLiteral(s)
  {
    forall i | 0 <= i < |s| && IsSpace(s[i]) ensures s[i] == ' ' && (i + 1 == |s| || !IsSpace(s[i + 1])) {
      assert Ordinary(s[i]);
      assert i + 1 < |s| ==> Ordinary(s[i + 1]);
    }
  }

  predicate EndsSolid(s: string)
    requires s != ""
  {
    !IsSpace(s[|s| - 1])
  }

  /** Tokens that print to normal ASCII text. */
  predicate GoodTokens(tokens: seq<Token>) {
    && WellFormed(tokens)
    && (forall i | 0 <= i < |tokens| && tokens[i].Literal? ::
          GoodLiteral(tokens[i].text) && (i + 1 == |tokens| ==> EndsSolid(tokens[i].text)))
  }

  lemma {:induction false} PrintedIsGood(tokens: seq<Token>)
    requires GoodTokens(tokens)
    ensures var s := PrintAll(tokens); TailNormal(s) && |s| <= MAX_LITERAL * |tokens| && IsAscii(s)
    ensures tokens != [] && tokens[0].Placeholder? ==> PrintAll(tokens) != "" && PrintAll(tokens)[0] == '{'
    decreases |tokens|
  {
    if |tokens| > 0 {
      WellFormedTail(tokens);
      var tail := tokens[1..];
      assert forall i :: 0 <= i < |tail| ==> tail[i] == tokens[i + 1];
      PrintedIsGood(tail);
      if tokens[0].Placeholder? {
        PlaceholderIsGood(tokens[0]);
      } else {
        assert |tail| > 0 ==> tail[0].Placeholder?;
        assert |tail| == 0 ==> PrintAll(tail) == "";
      }
      TailNormalJoin(Print(tokens[0]), PrintAll(tail));
    }
  }

  lemma PlaceholderIsGood(t: Token)
    requires t.Placeholder?
    ensures var s := Print(t); Solid(s) && s[0] == '{' && |s| <= MAX_LITERAL && IsAscii(s)
  {
    var name := FieldName(t.field);
    assert Solid(name) && IsAscii(name);
  }

  lemma {:induction false} AsciiBytes(s: string)
    requires IsAscii(s)
    ensures ByteLength(s) == |s|
  {
    if |s| > 0 {
      AsciiBytes(s[..|s| - 1]);
    }
  }

  predicate StartsSolid(tokens: seq<Token>) {
    tokens != [] && (tokens[0].Literal? ==> tokens[0].text != "" && !IsSpace(tokens[0].text[0]))
  }

  lemma PrintedIsNormal(tokens: seq<Token>)
    requires GoodTokens(tokens) && StartsSolid(tokens)
    ensures var raw := PrintAll(tokens);
      raw != "" && Normalize(raw) == raw && ByteLength(raw) <= MAX_LITERAL * |tokens|
  {
    var raw := PrintAll(tokens);
    PrintedIsGood(tokens);
    assert tokens[0].Literal? ==> raw[0] == tokens[0].text[0];
    NormalizeKeepsNormal(raw);
    AsciiBytes(raw);
  }

  lemma AcceptedTokens(raw: string, tokens: seq<Token>)
    requires raw != "" && Normalize(raw) == raw && ByteLength(raw) <= MAX_TEMPLATE_LENGTH
    requires Tokens(raw, false) == Ok(tokens) && Amount in FieldsIn(tokens) && TrxId in FieldsIn(tokens)
    ensures Compiled(raw).Ok? && Compiled(raw).value.tokens == tokens
  {
  }

  /** A template given by its tokens compiles to them. */
  lemma TokensCompile(tokens: seq<Token>, a: nat, x: nat)
    requires GoodTokens(tokens) && |tokens| <= 9 && StartsSolid(tokens)
    requires a < |tokens| && tokens[a] == Hole(Amount)
    requires x < |tokens| && tokens[x] == Hole(TrxId)
    ensures Compiled(PrintAll(tokens)).Ok? && Compiled(PrintAll(tokens)).value.tokens == tokens
  {
    PrintedIsNormal(tokens);
    PrintedTokensReadBack(tokens, false);
    FieldIsIn(tokens, a);
    FieldIsIn(tokens, x);
    AcceptedTokens(PrintAll(tokens), tokens);
  }

  /** The template compiles to these tokens, and a message rendered with any fitting values matches
      and gives exactly those values back. */
  ghost predicate ReadsBack(tokens: seq<Token>) {
    var raw := PrintAll(tokens);
    && Compiled(raw).Ok? && Compiled(raw).value.tokens == tokens
    && forall vals: seq<string> :: FitsAll(tokens, vals) ==>
         var result := Matched(Compiled(raw).value, Render(tokens, vals));
         result.Found? && FieldsOf(tokens, vals) == Some(result.fields)
  }

  /** What the built-in literals have in common. */
  predicate SafeAfter(s: string) {
    GoodLiteral(s) && (s == " from " || (|s| > 1 && s[0] == '.' && s[1] == ' '))
  }

  /** The tokens of a seed, one by one. */
  predicate SeedShape(tokens: seq<Token>, opening: string, third: string, f: Field, fourth: string, g: Field,
                      close: string) {
    && 8 <= |tokens| <= 9 && (|tokens| == 9 <==> close != "")
    && tokens[0] == Literal(opening) && tokens[1] == Hole(Amount) && tokens[2] == Literal(" from ")
    && tokens[3] == Hole(Sender) && tokens[4] == Literal(third) && tokens[5] == Hole(f)
    && tokens[6] == Literal(fourth) && tokens[7] == Hole(g)
    && (|tokens| == 9 ==> tokens[8] == Literal(close))
  }

  lemma SeedTokens(opening: string, third: string, f: Field, fourth: string, g: Field, close: string)
    ensures SeedShape(Seed(opening, " from ", third, f, fourth, g, close), opening, third, f, fourth, g, close)
  {
  }

  lemma SeedIsGood(tokens: seq<Token>, opening: string, third: string, f: Field, fourth: string, g: Field,
                   close: string)
    requires SeedShape(tokens, opening, third, f, fourth, g, close)
    requires GoodLiteral(opening) && SafeAfter(" from ") && SafeAfter(third) && SafeAfter(fourth)
    requires close == "" || close == "."
    ensures GoodTokens(tokens)
  {
    WordedIsGood(".");
    forall i | 0 <= i < |tokens| && tokens[i].Literal?
      ensures GoodLiteral(tokens[i].text) && (i + 1 == |tokens| ==> EndsSolid(tokens[i].text))
    {
      assert i == 0 || i == 2 || i == 4 || i == 6 || i == 8;
    }
    forall i | 0 <= i < |tokens| - 1 ensures tokens[i].Literal? != tokens[i + 1].Literal? {
      assert i == 0 || i == 1 || i == 2 || i == 3 || i == 4 || i == 5 || i == 6 || i == 7;
    }
  }

  lemma SeedIsUnambiguous(tokens: seq<Token>, opening: string, third: string, f: Field, fourth: string, g: Field,
                          close: string)
    requires SeedShape(tokens, opening, third, f, fourth, g, close) && WellFormed(tokens)
    requires SafeAfter(" from ") && SafeAfter(third) && SafeAfter(fourth)
    requires close == "" || close == "."
    ensures Unambiguous(tokens)
  {
    forall i | 0 <= i < |tokens| - 1 && tokens[i].Placeholder?
      ensures CannotExtend(tokens[i].field, tokens[i + 1].text, i + 2 == |tokens|)
    {
      assert i == 1 || i == 3 || i == 5 || i == 7;
    }
    forall i | 0 <= i < |tokens| && tokens[i].Placeholder? ensures !tokens[i].optional {
      assert i == 1 || i == 3 || i == 5 || i == 7;
    }
  }

  lemma SeedReadsBack(opening: string, third: string, f: Field, fourth: string, g: Field, close: string)
    requires GoodLiteral(opening) && !IsSpace(opening[0]) && SafeAfter(" from ") && SafeAfter(third)
        && SafeAfter(fourth)
    requires close == "" || close == "."
    requires f.TrxId? || g.TrxId?
    ensures ReadsBack(Seed(opening, " from ", third, f, fourth, g, close))
  {
    var tokens := Seed(opening, " from ", third, f, fourth, g, close);
    SeedTokens(opening, third, f, fourth, g, close);
    SeedIsGood(tokens, opening, third, f, fourth, g, close);
    SeedIsUnambiguous(tokens, opening, third, f, fourth, g, close);
    TokensCompile(tokens, 1, if f.TrxId? then 5 else 7);
    forall vals: seq<string> | FitsAll(tokens, vals)
      ensures var result := Matched(Compiled(PrintAll(tokens)).value, Render(tokens, vals));
        result.Found? && FieldsOf(tokens, vals) == Some(result.fields)
    {
      RoundTrip(PrintAll(tokens), vals);
    }
  }

  // ---- as the program writes them ----

  lemma {:induction false} PrintJoins(a: seq<Token>, b: seq<Token>)
    ensures PrintAll(a + b) == PrintAll(a) + PrintAll(b)
  {
    if |a| == 0 {
      assert a + b == b;
    } else {
      assert (a + b)[1..] == a[1..] + b;
      PrintJoins(a[1..], b);
    }
  }

  /** A placeholder as it is written. */
  function Written(f: Field): string {
    match f
    case Amount => "{amount}"
    case Sender => "{sender}"
    case TrxId => "{trxId}"
    case Balance => "{balance}"
  }

  lemma HolePrints(f: Field)
    ensures Print(Hole(f)) == Written(f)
  {
    assert Name(Hole(f)) == FieldName(f) + "" == FieldName(f);
    match f
    case Amount => assert "{" + "amount" + "}" == "{amount}";
    case Sender => assert "{" + "sender" + "}" == "{sender}";
    case TrxId => assert "{" + "trxId" + "}" == "{trxId}";
    case Balance => assert "{" + "balance" + "}" == "{balance}";
  }

  lemma PairPrints(text: string, f: Field)
    ensures PrintAll([Literal(text), Hole(f)]) == text + Written(f)
  {
    var pair := [Literal(text), Hole(f)];
    assert pair[1..] == [Hole(f)] && pair[1..][1..] == [];
    HolePrints(f);
    assert Written(f) + "" == Written(f);
    assert PrintAll([Hole(f)]) == Written(f);
  }

  lemma SeedPrints(opening: string, from: string, third: string, f: Field, fourth: string, g: Field, close: string)
    ensures PrintAll(Seed(opening, from, third, f, fourth, g, close))
      == opening + "{amount}" + from + "{sender}" + third + Written(f) + fourth + Written(g) + close
  {
    var a, b := [Literal(opening), Hole(Amount)], [Literal(from), Hole(Sender)];
    var c, d := [Literal(third), Hole(f)], [Literal(fourth), Hole(g)];
    var e: seq<Token> := if close == "" then [] else [Literal(close)];
    assert Seed(opening, from, third, f, fourth, g, close) == a + b + c + d + e;
    PrintJoins(a + b + c + d, e);
    PrintJoins(a + b + c, d);
    PrintJoins(a + b, c);
    PrintJoins(a, b);
    PairPrints(opening, Amount);
    PairPrints(from, Sender);
    PairPrints(third, f);
    PairPrints(fourth, g);
    ClosePrints(close);
    Regroup(opening + "{amount}", from, "{sender}", third, Written(f), fourth, Written(g), close);
  }

  lemma Regroup(a: string, b: string, c: string, d: string, e: string, f: string, g: string, h: string)
    ensures a + (b + c) + (d + e) + (f + g) + h == a + b + c + d + e + f + g + h
  {
  }

  lemma ClosePrints(close: string)
    ensures PrintAll(if close == "" then [] else [Literal(close)]) == close
  {
    if close != "" {
      assert [Literal(close)][1..] == [];
      assert close + "" == close;
    }
  }

  /** The four templates print as the program's own strings, cut where a placeholder begins or ends. */
  lemma BkashAsWritten()
    ensures PrintAll(Bkash())
      == "You have received Tk " + "{amount}" + " from " + "{sender}" + ". Balance: Tk " + "{balance}"
         + ". TrxID " + "{trxId}"
  {
    SeedPrints("You have received Tk ", " from ", ". Balance: Tk ", Balance, ". TrxID ", TrxId, "");
  }

  lemma NagadAsWritten()
    ensures PrintAll(Nagad())
      == "Money received successfully. Amount Tk " + "{amount}" + " from " + "{sender}" + ". TrxID " + "{trxId}"
         + ". New balance Tk " + "{balance}" + "."
  {
    SeedPrints("Money received successfully. Amount Tk ", " from ", ". TrxID ", TrxId,
               ". New balance Tk ", Balance, ".");
  }

  lemma RocketAsWritten()
    ensures PrintAll(Rocket())
      == "You have received Tk" + "{amount}" + " from " + "{sender}" + ". TxnId: " + "{trxId}"
         + ". Balance: Tk" + "{balance}"
  {
    SeedPrints("You have received Tk", " from ", ". TxnId: ", TrxId, ". Balance: Tk", Balance, "");
  }

  lemma UpayAsWritten()
    ensures PrintAll(Upay())
      == "You have received BDT " + "{amount}" + " from " + "{sender}" + ". Transaction ID: " + "{trxId}"
         + ". New balance is Tk " + "{balance}" + "."
  {
    SeedPrints("You have received BDT ", " from ", ". Transaction ID: ", TrxId, ". New balance is Tk ", Balance, ".");
  }

  lemma FromIsSafe()
    ensures SafeAfter(" from ")
  {
    WordedIsGood(" from ");
  }

  lemma NagadOpening()
    ensures GoodLiteral("Money received successfully. Amount Tk ")
  {
    WordedIsGood("Money received successfully. Amount Tk ");
  }

  lemma UpayOpening()
    ensures GoodLiteral("You have received BDT ")
  {
    WordedIsGood("You have received BDT ");
  }

  lemma UpayThird()
    ensures SafeAfter(". Transaction ID: ")
  {
    WordedIsGood(". Transaction ID: ");
  }

  lemma UpayFourth()
    ensures SafeAfter(". New balance is Tk ")
  {
    WordedIsGood(". New balance is Tk ");
  }

  lemma BkashReadsBack()
    ensures ReadsBack(Bkash())
  {
    FromIsSafe();
    BkashOpening();
    BkashThird();
    BkashFourth();
    SeedReadsBack("You have received Tk ", ". Balance: Tk ", Balance, ". TrxID ", TrxId, "");
  }

  lemma BkashOpening()
    ensures GoodLiteral("You have received Tk ")
  {
    WordedIsGood("You have received Tk ");
  }

  lemma BkashThird()
    ensures SafeAfter(". Balance: Tk ")
  {
    WordedIsGood(". Balance: Tk ");
  }

  lemma BkashFourth()
    ensures SafeAfter(". TrxID ")
  {
    WordedIsGood(". TrxID ");
  }

  lemma NagadReadsBack()
    ensures ReadsBack(Nagad())
  {
    FromIsSafe();
    NagadOpening();
    BkashFourth();
    NagadFourth();
    SeedReadsBack("Money received successfully. Amount Tk ", ". TrxID ", TrxId, ". New balance Tk ", Balance, ".");
  }

  lemma NagadFourth()
    ensures SafeAfter(". New balance Tk ")
  {
    WordedIsGood(". New balance Tk ");
  }

  lemma RocketReadsBack()
    ensures ReadsBack(Rocket())
  {
    FromIsSafe();
    RocketOpening();
    RocketThird();
    RocketFourth();
    SeedReadsBack("You have received Tk", ". TxnId: ", TrxId, ". Balance: Tk", Balance, "");
  }

  lemma RocketOpening()
    ensures GoodLiteral("You have received Tk")
  {
    WordedIsGood("You have received Tk");
  }

  lemma RocketThird()
    ensures SafeAfter(". TxnId: ")
  {
    WordedIsGood(". TxnId: ");
  }

  lemma RocketFourth()
    ensures SafeAfter(". Balance: Tk")
  {
    WordedIsGood(". Balance: Tk");
  }

  lemma UpayReadsBack()
    ensures ReadsBack(Upay())
  {
    FromIsSafe();
    UpayOpening();
    UpayThird();
    UpayFourth();
    SeedReadsBack("You have received BDT ", ". Transaction ID: ", TrxId, ". New balance is Tk ", Balance, ".");
  }

  // ---- an ambiguous template ----

  const AMBIGUOUS: seq<Token> := [Placeholder(Amount, false), Literal("0"), Placeholder(TrxId, false)]

  const MISREAD: seq<string> := ["1", "00ABCDEF"]

  /** A side condition of the round trip is needed: a literal that can extend the amount before it
      lets the amount take digits that were not its own. The template `{amount}0{trxId}` compiles, and
      of the message that states amount 1 and TrxID `00ABCDEF` it makes amount 100 and TrxID `ABCDEF`. */
  lemma AmbiguousTemplateMisreads()
    ensures Compiled("{amount}0{trxId}").Ok? && Compiled("{amount}0{trxId}").value.tokens == AMBIGUOUS
    ensures FitsAll(AMBIGUOUS, MISREAD) && Render(AMBIGUOUS, MISREAD) == "1000ABCDEF"
    ensures FieldsOf(AMBIGUOUS, MISREAD) == Some(Fields(Decimal(1, 0), "", "00ABCDEF", None))
    ensures Matched(Compiled("{amount}0{trxId}").value, "1000ABCDEF")
            == Found(Fields(Decimal(100, 0), "", "ABCDEF", None))
  {
    AmbiguousCompiles();
    AmbiguousMessage();
    IntendedFields();
    FieldsMisread(Compiled("{amount}0{trxId}").value, "1000ABCDEF");
  }

  lemma AmbiguousCompiles()
    ensures Compiled("{amount}0{trxId}").Ok? && Compiled("{amount}0{trxId}").value.tokens == AMBIGUOUS
  {
    AmbiguousPrints();
    assert GoodTokens(AMBIGUOUS) by {
      assert GoodLiteral("0");
    }
    TokensCompile(AMBIGUOUS, 0, 2);
  }

  lemma AmbiguousPrints()
    ensures PrintAll(AMBIGUOUS) == "{amount}0{trxId}"
  {
    var tail, last := AMBIGUOUS[1..], AMBIGUOUS[1..][1..];
    assert tail[0] == Literal("0") && last == [Hole(TrxId)] && last[1..] == [];
    HolePrints(Amount);
    HolePrints(TrxId);
    assert PrintAll(last) == "{trxId}" + "";
    assert PrintAll(tail) == "0" + "{trxId}";
    assert "{amount}" + ("0" + "{trxId}") == "{amount}0{trxId}";
  }

  lemma AmbiguousMessage()
    ensures FitsAll(AMBIGUOUS, MISREAD) && Render(AMBIGUOUS, MISREAD) == "1000ABCDEF"
  {
    AmbiguousTail();
    AsciiNumeralFits("1");
    assert MISREAD[1..] == ["00ABCDEF"];
    assert AMBIGUOUS[0] == Placeholder(Amount, false) && AMBIGUOUS[1..][0] == Literal("0");
    assert "1" + ("0" + "00ABCDEF") == "1000ABCDEF";
  }

  lemma AmbiguousTail()
    ensures var last := AMBIGUOUS[1..][1..];
      FitsAll(last, ["00ABCDEF"]) && Render(last, ["00ABCDEF"]) == "00ABCDEF"
  {
    var last := AMBIGUOUS[1..][1..];
    assert last == [Placeholder(TrxId, false)] && last[1..] == [] && ["00ABCDEF"][1..] == [];
    assert Fits(TrxId, "00ABCDEF");
    assert "00ABCDEF" + "" == "00ABCDEF";
  }

  lemma AmbiguousFields()
    ensures var tail, last := AMBIGUOUS[1..], AMBIGUOUS[1..][1..];
      && FieldsIn(last[1..]) == [] && FieldsIn(last) == [TrxId] && FieldsIn(tail) == [TrxId]
      && FieldsIn(AMBIGUOUS) == [Amount, TrxId]
  {
    var tail, last := AMBIGUOUS[1..], AMBIGUOUS[1..][1..];
    assert last == [Hole(TrxId)] && last[..0] == [];
    assert tail == [Literal("0"), Hole(TrxId)] && tail[..1] == [Literal("0")] && tail[..1][..0] == [];
    assert AMBIGUOUS[..2][..1] == [Hole(Amount)] && AMBIGUOUS[..2][..1][..0] == [];
  }

  lemma OneThenZeros()
    ensures NumeralValue("1") == Decimal(1, 0) && NumeralValue("100") == Decimal(100, 0)
  {
    assert "1"[..0] == "" && Read("1") == Reader(1, 0, false);
    assert "10"[..1] == "1" && Read("10") == Reader(10, 0, false);
    assert "100"[..2] == "10" && Read("100") == Reader(100, 0, false);
  }

  lemma IntendedFields()
    ensures FieldsOf(AMBIGUOUS, MISREAD) == Some(Fields(Decimal(1, 0), "", "00ABCDEF", None))
  {
    AmbiguousFields();
    OneThenZeros();
    forall f: Field ensures ValueOf(AMBIGUOUS, MISREAD, f) == Intended(f) {
      var tail, last := AMBIGUOUS[1..], AMBIGUOUS[1..][1..];
      assert AMBIGUOUS[0] == Hole(Amount) && tail[0] == Literal("0") && last == [Hole(TrxId)] && last[1..] == [];
      assert MISREAD[1..] == ["00ABCDEF"];
    }
  }

  /** What the message was written with. */
  function Intended(f: Field): Option<string> {
    match f
    case Amount => Some("1")
    case TrxId => Some("00ABCDEF")
    case _ => None
  }

  /** The captures that the message is matched with. */
  const TAKEN: Captures := [Some((0, 3)), Some((4, 10))]

  /** A longer amount lets the rest match, so it is preferred. */
  lemma LongerAmount(s: string)
    requires s == "1000ABCDEF"
    ensures var found := MatchHere(AMBIGUOUS, s, 0);
      found.Some? && |found.value| > 0 && found.value[0].Some? && 3 <= found.value[0].value.1
  {
    OtherReading(s);
    AsciiNumeralFits(s[0..3]);
    GreedyChoice(AMBIGUOUS, s, 0, 3);
  }

  lemma OtherReading(s: string)
    requires s == "1000ABCDEF"
    ensures MatchHere(AMBIGUOUS[1..], s, 3).Some?
  {
    var last := AMBIGUOUS[1..][1..];
    assert last == [Placeholder(TrxId, false)];
    ShortTrxId(last, s);
    InstanceIsMatched(last, s, 4, 10, [Some((4, 10))]);
    assert s[3] == '0' && s[3..4] == [s[3]];
    assert LiteralAt("0", s, 3);
  }

  lemma ShortTrxId(last: seq<Token>, s: string)
    requires last == [Placeholder(TrxId, false)] && s == "1000ABCDEF"
    ensures Instance(last, s, 4, 10, [Some((4, 10))])
  {
    var rest: Captures := [Some((4, 10))];
    assert last[1..] == [] && rest[1..] == [];
    assert s[4..10] == "ABCDEF";
    CodeFits(s[4..10]);
    assert Instance(last[1..], s, 10, 10, []);
  }

  lemma CodeFits(code: string)
    requires code == "ABCDEF"
    ensures Fits(TrxId, code)
  {
  }

  lemma TrxIdIsTaken(last: seq<Token>, s: string, p: nat, q: nat, caps: Captures)
    requires last == [Placeholder(TrxId, false)] && Instance(last, s, p, q, caps)
    ensures |caps| == 1 && caps[0].Some? && caps[0].value.0 == p && p + 6 <= caps[0].value.1 <= |s|
  {
    assert last[1..] == [];
    assert caps[0].Some? && Fits(TrxId, s[p..caps[0].value.1]);
    assert Instance(last[1..], s, caps[0].value.1, q, caps[1..]);
  }

  /** The literal fixes the end of the amount, and the TrxID takes all that is left. */
  lemma RestIsTaken(s: string, e: nat, q: nat, caps: Captures)
    requires s == "1000ABCDEF" && e >= 3 && Instance(AMBIGUOUS[1..], s, e, q, caps)
    ensures e == 3 && caps == [Some((4, 10))]
  {
    var last := AMBIGUOUS[1..][1..];
    assert last == [Placeholder(TrxId, false)] && last[1..] == [];
    assert LiteralAt("0", s, e) && s[e..e + 1][0] == s[e];
    TrxIdIsTaken(last, s, e + 1, q, caps);
  }

  lemma MatchedSpans(s: string)
    requires s == "1000ABCDEF"
    ensures FindFrom(AMBIGUOUS, s, 0) == Some(TAKEN)
  {
    LongerAmount(s);
    var caps := MatchHere(AMBIGUOUS, s, 0).value;
    var q := MatchIsInstance(AMBIGUOUS, s, 0);
    assert AMBIGUOUS[0] == Placeholder(Amount, false) && caps[0].value.0 == 0;
    RestIsTaken(s, caps[0].value.1, q, caps[1..]);
    assert caps == [caps[0]] + caps[1..];
    assert caps == TAKEN;
  }

  /** What the captures say. */
  function Misread(f: Field): Option<string> {
    match f
    case Amount => Some("100")
    case TrxId => Some("ABCDEF")
    case _ => None
  }

  lemma TextTaken(s: string, f: Field)
    requires s == "1000ABCDEF"
    ensures TextOf(AMBIGUOUS, TAKEN, s, f) == Misread(f)
  {
    AmbiguousFields();
    var tail, last := AMBIGUOUS[1..], AMBIGUOUS[1..][1..];
    assert AMBIGUOUS[0] == Hole(Amount) && tail[0] == Literal("0") && last == [Hole(TrxId)] && last[1..] == [];
    assert TAKEN[1..] == [Some((4, 10))];
    assert s[0..3] == "100" && s[4..10] == "ABCDEF";
  }

  lemma HundredIsRead()
    ensures ParsedAmount("100") == Some(Decimal(100, 0))
  {
    OneThenZeros();
    AsciiNumeralFits("100");
    AmountsParse(Amount, "100");
  }

  lemma FieldsTaken(s: string)
    requires s == "1000ABCDEF"
    ensures ReadFields(AMBIGUOUS, TAKEN, s) == Found(Fields(Decimal(100, 0), "", "ABCDEF", None))
  {
    TextTaken(s, Amount);
    TextTaken(s, TrxId);
    TextTaken(s, Sender);
    TextTaken(s, Balance);
    HundredIsRead();
    TwoFields(AMBIGUOUS, TAKEN, s, "100", "ABCDEF", Decimal(100, 0));
  }

  /** The result when only amount and TrxID are captured. */
  lemma TwoFields(tokens: seq<Token>, caps: Captures, s: string, amount: string, trxId: string, value: Decimal)
    requires TextOf(tokens, caps, s, Amount) == Some(amount) && ParsedAmount(amount) == Some(value)
    requires TextOf(tokens, caps, s, TrxId) == Some(trxId)
    requires TextOf(tokens, caps, s, Sender).None? && TextOf(tokens, caps, s, Balance).None?
    ensures ReadFields(tokens, caps, s) == Found(Fields(value, "", trxId, None))
  {
  }

  lemma MessageIsNormal(s: string)
    requires s == "1000ABCDEF"
    ensures Normalize(s) == s
  {
    NormalizeKeepsNormal(s);
  }

  lemma FieldsMisread(t: Template, s: string)
    requires t.tokens == AMBIGUOUS && s == "1000ABCDEF"
    ensures Matched(t, s) == Found(Fields(Decimal(100, 0), "", "ABCDEF", None))
  {
    MessageIsNormal(s);
    MatchedSpans(s);
    FieldsTaken(s);
  }
}
