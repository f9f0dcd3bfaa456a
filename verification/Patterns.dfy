/** The pattern text that `Compile` hands to the regexp package: quoting of literals, and the patterns of
    the built-in templates written out. */
module Patterns {
  import opened SmsTemplate
  import opened SmsCompiler
  import opened SeededTemplates

  // ---- quoting ----

  /** Every special character stands behind a backslash of its own, and there is no other backslash. */
  predicate Escaped(q: string) {
    q == ""
    || (if q[0] == '\\' then |q| >= 2 && Special(q[1]) && Escaped(q[2..]) else !Special(q[0]) && Escaped(q[1..]))
  }

  /** The text that escaped text stands for. */
  function Unquoted(q: string): string {
    if q == "" then ""
    else if q[0] == '\\' && |q| >= 2 then [q[1]] + Unquoted(q[2..])
    else [q[0]] + Unquoted(q[1..])
  }

  lemma QuotedHead(s: string)
    requires s != ""
    ensures QuoteMeta(s) == (if Special(s[0]) then ['\\', s[0]] else [s[0]]) + QuoteMeta(s[1..])
  {
  }

  /** The characters that mean something to the regexp package. */
  lemma SpecialsListed(c: char)
    ensures c in "\\.+*?()|[]{}^$" <==> Special(c)
  {
    var all := "\\.+*?()|[]{}^$";
    assert all[0] == '\\' && all[1] == '.' && all[2] == '+' && all[3] == '*' && all[4] == '?';
    assert all[5] == '(' && all[6] == ')' && all[7] == '|' && all[8] == '[' && all[9] == ']';
    assert all[10] == '{' && all[11] == '}' && all[12] == '^' && all[13] == '$';
  }

  /** Quoting escapes exactly the special characters: the quoted form of a text is the one escaped text
      that stands for it. */
  lemma {:induction false} QuotingIsEscaping(s: string, q: string)
    ensures q == QuoteMeta(s) <==> Escaped(q) && Unquoted(q) == s
    decreases |s| + |q|
  {
    if s == "" {
      assert Escaped(q) && Unquoted(q) == s ==> q == "";
    } else {
      QuotedHead(s);
      var head := if Special(s[0]) then ['\\', s[0]] else [s[0]];
      if |head| <= |q| && q[..|head|] == head {
        var rest := q[|head|..];
        assert q == head + rest;
        QuotingIsEscaping(s[1..], rest);
        HeadUnquoted(s, q, head, rest);
      } else {
        HeadNeeded(s, q, head);
      }
    }
  }

  lemma HeadUnquoted(s: string, q: string, head: string, rest: string)
    requires s != "" && head == (if Special(s[0]) then ['\\', s[0]] else [s[0]]) && q == head + rest
    ensures Escaped(q) <==> Escaped(rest)
    ensures Unquoted(q) == s <==> Unquoted(rest) == s[1..]
    ensures q == head + QuoteMeta(s[1..]) <==> rest == QuoteMeta(s[1..])
  {
    assert q[|head|..] == rest && q[..|head|] == head;
    assert Unquoted(q) == [s[0]] + Unquoted(rest);
    assert s == [s[0]] + s[1..];
    assert (head + QuoteMeta(s[1..]))[|head|..] == QuoteMeta(s[1..]);
    assert ([s[0]] + Unquoted(rest))[1..] == Unquoted(rest);
  }

  lemma HeadNeeded(s: string, q: string, head: string)
    requires s != "" && head == (if Special(s[0]) then ['\\', s[0]] else [s[0]])
    requires !(|head| <= |q| && q[..|head|] == head)
    ensures q != head + QuoteMeta(s[1..]) && !(Escaped(q) && Unquoted(q) == s)
  {
    assert (head + QuoteMeta(s[1..]))[..|head|] == head;
  }

  predicate NoneSpecial(s: string) {
    forall i | 0 <= i < |s| :: !Special(s[i])
  }

  lemma {:induction false} OrdinaryStays(s: string)
    requires NoneSpecial(s)
    ensures QuoteMeta(s) == s
  {
    if s != "" {
      QuotedHead(s);
      OrdinaryStays(s[1..]);
      assert s == [s[0]] + s[1..];
    }
  }

  /** A literal that starts with a full stop and has no special character after it. */
  lemma StopIsEscaped(s: string, rest: string, quoted: string)
    requires s != "" && s[0] == '.' && s[1..] == rest && forall i :: 0 <= i < |rest| ==> !Special(rest[i])
    requires |quoted| > 1 && quoted[0] == '\\' && quoted[1..] == s
    ensures QuoteMeta(s) == quoted
  {
    QuotedHead(s);
    OrdinaryStays(rest);
  }

  // ---- placeholders ----

  /** A field's group as the program writes it. */
  function Group(f: Field): string {
    match f
    case Amount => "(?P<amount>" + AmountPattern() + ")"
    case Balance => "(?P<balance>" + AmountPattern() + ")"
    case Sender => "(?P<sender>" + "\\+?[0-9]{5,15}" + ")"
    case TrxId => "(?P<trxId>" + "[A-Za-z0-9]{6,20}" + ")"
  }

  function AmountPattern(): string {
    "(?:" + "[0-9][0-9,]*(?:\\.[0-9]+)?" + "|" + "[\U{9E6}-\U{9EF}][\U{9E6}-\U{9EF}]*(?:\\.[\U{9E6}-\U{9EF}]+)?" + ")"
  }

  lemma NamedGroup(f: Field)
    ensures "(?P<" + FieldName(f) + ">" == match f
      case Amount => "(?P<amount>"
      case Balance => "(?P<balance>"
      case Sender => "(?P<sender>"
      case TrxId => "(?P<trxId>"
  {
    match f
    case Amount => assert "(?P<" + "amount" + ">" == "(?P<amount>";
    case Balance => assert "(?P<" + "balance" + ">" == "(?P<balance>";
    case Sender => assert "(?P<" + "sender" + ">" == "(?P<sender>";
    case TrxId => assert "(?P<" + "trxId" + ">" == "(?P<trxId>";
  }

  /** A placeholder becomes its group, an optional one in a group of its own that may be left out. */
  lemma PlaceholdersAsWritten(f: Field)
    ensures PatternOf(Placeholder(f, false)) == Group(f)
    ensures PatternOf(Placeholder(f, true)) == "(?:" + Group(f) + ")?"
  {
    SubPatternsAsWritten();
    NamedGroup(f);
  }

  // ---- the built-in templates ----

  lemma {:induction false} PatternOfMore(tokens: seq<Token>, t: Token)
    ensures PatternText(tokens + [t]) == PatternText(tokens) + PatternOf(t)
  {
    assert (tokens + [t])[..|tokens|] == tokens;
  }

  lemma PatternOfTwo(tokens: seq<Token>, a: Token, b: Token)
    ensures PatternText(tokens + [a, b]) == PatternText(tokens) + (PatternOf(a) + PatternOf(b))
  {
    PatternOfMore(tokens, a);
    PatternOfMore(tokens + [a], b);
    assert tokens + [a] + [b] == tokens + [a, b];
    Regrouped(PatternText(tokens), PatternOf(a), PatternOf(b));
  }

  lemma Regrouped(x: string, y: string, z: string)
    ensures (x + y) + z == x + (y + z)
  {
  }

  lemma PatternOfPair(tokens: seq<Token>, text: string, f: Field)
    ensures PatternText(tokens + Pair(text, f)) == PatternText(tokens) + (QuoteMeta(text) + Group(f))
  {
    PatternOfTwo(tokens, Literal(text), Hole(f));
    PlaceholdersAsWritten(f);
  }

  /** The pieces of a built-in template's pattern, given its quoted literals. */
  function SeedText(opening: string, third: string, f: Field, fourth: string, g: Field, close: string): string {
    "(?i)" + (opening + Group(Amount)) + (" from " + Group(Sender)) + (third + Group(f)) + (fourth + Group(g)) + close
  }

  function Pair(text: string, f: Field): seq<Token> {
    [Literal(text), Hole(f)]
  }

  lemma TwoPairs(tokens: seq<Token>, a: string, f: Field, b: string, g: Field)
    ensures PatternText(tokens + Pair(a, f) + Pair(b, g))
      == PatternText(tokens) + (QuoteMeta(a) + Group(f)) + (QuoteMeta(b) + Group(g))
  {
    PatternOfPair(tokens, a, f);
    PatternOfPair(tokens + Pair(a, f), b, g);
  }

  lemma FourPairs(opening: string, third: string, f: Field, fourth: string, g: Field)
    ensures PatternText([] + Pair(opening, Amount) + Pair(" from ", Sender) + Pair(third, f) + Pair(fourth, g))
      == SeedText(QuoteMeta(opening), QuoteMeta(third), f, QuoteMeta(fourth), g, "")
  {
    FromStays();
    TwoPairs([], opening, Amount, " from ", Sender);
    TwoPairs([] + Pair(opening, Amount) + Pair(" from ", Sender), third, f, fourth, g);
  }

  lemma SeedPattern(opening: string, third: string, f: Field, fourth: string, g: Field, close: string)
    ensures PatternText(Seed(opening, " from ", third, f, fourth, g, close))
      == SeedText(QuoteMeta(opening), QuoteMeta(third), f, QuoteMeta(fourth), g, QuoteMeta(close))
  {
    var pairs := [] + Pair(opening, Amount) + Pair(" from ", Sender) + Pair(third, f) + Pair(fourth, g);
    FourPairs(opening, third, f, fourth, g);
    SeedIsPairs(opening, third, f, fourth, g, close);
    if close != "" {
      PatternOfMore(pairs, Literal(close));
    }
  }

  /** The same with the quoted literals at hand. */
  lemma SeedQuoted(opening: string, o: string, third: string, t: string, f: Field, fourth: string, u: string, g: Field,
                   close: string, c: string)
    requires QuoteMeta(opening) == o && QuoteMeta(third) == t && QuoteMeta(fourth) == u && QuoteMeta(close) == c
    ensures PatternText(Seed(opening, " from ", third, f, fourth, g, close)) == SeedText(o, t, f, u, g, c)
  {
    SeedPattern(opening, third, f, fourth, g, close);
  }

  lemma SeedIsPairs(opening: string, third: string, f: Field, fourth: string, g: Field, close: string)
    ensures var pairs := [] + Pair(opening, Amount) + Pair(" from ", Sender) + Pair(third, f) + Pair(fourth, g);
      Seed(opening, " from ", third, f, fourth, g, close) == if close == "" then pairs else pairs + [Literal(close)]
  {
  }

  lemma FromStays()
    ensures QuoteMeta(" from ") == " from "
  {
    OrdinaryStays(" from ");
  }

  lemma BkashWords()
    ensures NoneSpecial("You have received Tk ")
  {
  }

  lemma BkashOpens()
    ensures QuoteMeta("You have received Tk ") == "You have received Tk "
  {
    BkashWords();
    OrdinaryStays("You have received Tk ");
  }

  /** The patterns of the four templates, as the regexp package gets them. */
  lemma BkashPattern()
    ensures PatternText(Bkash())
      == SeedText("You have received Tk ", "\\. Balance: Tk ", Balance, "\\. TrxID ", TrxId, "")
  {
    BkashOpens();
    BalanceStop();
    TrxIdStop();
    SeedQuoted("You have received Tk ", "You have received Tk ", ". Balance: Tk ", "\\. Balance: Tk ", Balance,
               ". TrxID ", "\\. TrxID ", TrxId, "", "");
  }

  lemma BalanceStop()
    ensures QuoteMeta(". Balance: Tk ") == "\\. Balance: Tk "
  {
    StopIsEscaped(". Balance: Tk ", " Balance: Tk ", "\\. Balance: Tk ");
  }

  lemma TrxIdStop()
    ensures QuoteMeta(". TrxID ") == "\\. TrxID "
  {
    StopIsEscaped(". TrxID ", " TrxID ", "\\. TrxID ");
  }

  /** "Money received successfully\\. Amount Tk ", with its one full stop escaped. */
  function QuotedNagadOpening(): string {
    var opening := "Money received successfully. Amount Tk ";
    opening[..27] + ['\\'] + opening[27..]
  }

  lemma NagadPattern()
    ensures PatternText(Nagad())
      == SeedText(QuotedNagadOpening(), "\\. TrxID ", TrxId, "\\. New balance Tk ", Balance, "\\.")
  {
    NagadOpens();
    TrxIdStop();
    NewBalanceStop();
    LastStop();
    SeedQuoted("Money received successfully. Amount Tk ", QuotedNagadOpening(), ". TrxID ", "\\. TrxID ", TrxId,
               ". New balance Tk ", "\\. New balance Tk ", Balance, ".", "\\.");
  }

  /** The only special character of a text is the full stop at `k`. */
  predicate OnlyStop(s: string, k: nat) {
    k < |s| && s[k] == '.' && forall i | 0 <= i < |s| && i != k :: !Special(s[i])
  }

  lemma {:induction false} StopWithinIsEscaped(s: string, k: nat)
    requires OnlyStop(s, k)
    ensures QuoteMeta(s) == s[..k] + ['\\'] + s[k..]
    decreases k
  {
    QuotedHead(s);
    if k == 0 {
      OrdinaryStays(s[1..]);
    } else {
      StopWithinIsEscaped(s[1..], k - 1);
      assert s[..k] == [s[0]] + s[1..][..k - 1] && s[1..][k - 1..] == s[k..];
    }
  }

  lemma NagadStop()
    ensures OnlyStop("Money received successfully. Amount Tk ", 27)
  {
  }

  lemma NagadOpens()
    ensures var opening := "Money received successfully. Amount Tk ";
      QuoteMeta(opening) == opening[..27] + ['\\'] + opening[27..]
  {
    NagadStop();
    StopWithinIsEscaped("Money received successfully. Amount Tk ", 27);
  }

  lemma NewBalanceStop()
    ensures QuoteMeta(". New balance Tk ") == "\\. New balance Tk "
  {
    StopIsEscaped(". New balance Tk ", " New balance Tk ", "\\. New balance Tk ");
  }

  lemma LastStop()
    ensures QuoteMeta(".") == "\\."
  {
    StopIsEscaped(".", "", "\\.");
  }

  lemma RocketWords()
    ensures NoneSpecial("You have received Tk")
  {
  }

  lemma RocketOpens()
    ensures QuoteMeta("You have received Tk") == "You have received Tk"
  {
    RocketWords();
    OrdinaryStays("You have received Tk");
  }

  lemma RocketPattern()
    ensures PatternText(Rocket())
      == SeedText("You have received Tk", "\\. TxnId: ", TrxId, "\\. Balance: Tk", Balance, "")
  {
    RocketOpens();
    TxnIdStop();
    BalanceTkStop();
    SeedQuoted("You have received Tk", "You have received Tk", ". TxnId: ", "\\. TxnId: ", TrxId,
               ". Balance: Tk", "\\. Balance: Tk", Balance, "", "");
  }

  lemma TxnIdStop()
    ensures QuoteMeta(". TxnId: ") == "\\. TxnId: "
  {
    StopIsEscaped(". TxnId: ", " TxnId: ", "\\. TxnId: ");
  }

  lemma BalanceTkStop()
    ensures QuoteMeta(". Balance: Tk") == "\\. Balance: Tk"
  {
    StopIsEscaped(". Balance: Tk", " Balance: Tk", "\\. Balance: Tk");
  }

  lemma UpayWords()
    ensures NoneSpecial("You have received BDT ")
  {
  }

  lemma UpayOpens()
    ensures QuoteMeta("You have received BDT ") == "You have received BDT "
  {
    UpayWords();
    OrdinaryStays("You have received BDT ");
  }

  lemma UpayPattern()
    ensures PatternText(Upay())
      == SeedText("You have received BDT ", "\\. Transaction ID: ", TrxId, "\\. New balance is Tk ", Balance, "\\.")
  {
    UpayOpens();
    LastStop();
    TransactionStop();
    BalanceIsStop();
    SeedQuoted("You have received BDT ", "You have received BDT ", ". Transaction ID: ", "\\. Transaction ID: ", TrxId,
               ". New balance is Tk ", "\\. New balance is Tk ", Balance, ".", "\\.");
  }

  lemma TransactionStop()
    ensures QuoteMeta(". Transaction ID: ") == "\\. Transaction ID: "
  {
    StopIsEscaped(". Transaction ID: ", " Transaction ID: ", "\\. Transaction ID: ");
  }

  lemma BalanceIsStop()
    ensures QuoteMeta(". New balance is Tk ") == "\\. New balance is Tk "
  {
    StopIsEscaped(". New balance is Tk ", " New balance is Tk ", "\\. New balance is Tk ");
  }
}
