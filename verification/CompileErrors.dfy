/** When `Compile` refuses a template, and with which error. */
module CompileErrors {
  import opened Prelude
  import opened SmsText
  import opened SmsTemplate
  import opened SmsCompiler
  import EntryCodec

  // ---- the tokenizer's errors ----

  /** The text goes on with a brace where a token ends. */
  predicate AtBrace(rest: string) {
    rest != "" && (rest[0] == '{' || rest[0] == '}')
  }

  predicate EndsInPlaceholder(tokens: seq<Token>) {
    |tokens| > 0 && tokens[|tokens| - 1].Placeholder?
  }

  /** An error further on is reported for the whole text. */
  ghost predicate Reported(tokens: seq<Token>, rest: string, afterPlaceholder: bool) {
    var after := if tokens == [] then afterPlaceholder else EndsInPlaceholder(tokens);
    Tokens(rest, after).Err? ==> Tokens(PrintAll(tokens) + rest, afterPlaceholder) == Tokens(rest, after)
  }

  /** Tokens that are read without an error change nothing about what follows them but whether it stands
      after a placeholder. */
  lemma {:induction false} TokensGoOn(tokens: seq<Token>, rest: string, afterPlaceholder: bool)
    requires WellFormed(tokens) && Startable(tokens, afterPlaceholder) && AtBrace(rest)
    ensures Reported(tokens, rest, afterPlaceholder)
    decreases |tokens|
  {
    if tokens == [] {
      assert PrintAll(tokens) + rest == rest;
    } else {
      WellFormedTail(tokens);
      TokensGoOn(tokens[1..], rest, tokens[0].Placeholder?);
      TokenGoesOn(tokens, rest, afterPlaceholder);
    }
  }

  lemma TokenGoesOn(tokens: seq<Token>, rest: string, afterPlaceholder: bool)
    requires WellFormed(tokens) && Startable(tokens, afterPlaceholder) && AtBrace(rest) && tokens != []
    requires Reported(tokens[1..], rest, tokens[0].Placeholder?)
    ensures Reported(tokens, rest, afterPlaceholder)
  {
    var t, tail := tokens[0], tokens[1..];
    assert PrintAll(tokens) + rest == Print(t) + (PrintAll(tail) + rest);
    if t.Placeholder? {
      PlaceholderPassed(t, PrintAll(tail) + rest);
    } else {
      WellFormedTail(tokens);
      if tail != [] {
        PlaceholderStartsWithBrace(tail);
      }
      LiteralPassed(t.text, PrintAll(tail) + rest, afterPlaceholder);
    }
  }

  lemma PlaceholderPassed(t: Token, rest: string)
    requires t.Placeholder?
    ensures Tokens(rest, true).Err? ==> Tokens(Print(t) + rest, false) == Tokens(rest, true)
  {
    PlaceholderReads(t, rest);
    assert (Print(t) + rest)[0] == '{' && (Print(t) + rest)[|Print(t)|..] == rest;
  }

  lemma LiteralPassed(text: string, rest: string, afterPlaceholder: bool)
    requires text != "" && Plain(text) && AtBrace(rest)
    ensures Tokens(rest, false).Err? ==> Tokens(text + rest, afterPlaceholder) == Tokens(rest, false)
  {
    var s := text + rest;
    PlainLengthUpTo(text, rest);
    assert s[0] == text[0] && s[|text|..] == rest;
  }

  /** The names that a template may use, with or without their mark. */
  predicate Known(name: string) {
    || name == "amount" || name == "sender" || name == "trxId" || name == "balance"
    || name == "amount?" || name == "sender?" || name == "trxId?" || name == "balance?"
  }

  lemma KnownNames(name: string)
    ensures Known(name) <==> ReadName(name).Some?
  {
    if name != "" && name[|name| - 1] == '?' {
      assert name == name[..|name| - 1] + "?";
    }
  }

  /** After tokens that are read, a closing brace is unbalanced, and so is an opening one that is not closed
      before the next opens; a name in braces that no field has is unknown; and one that a field has may not
      stand right behind another placeholder. */
  lemma FirstErrorIsReported(tokens: seq<Token>, name: string, rest: string)
    requires WellFormed(tokens) && Plain(name)
    ensures Tokens(PrintAll(tokens) + ("}" + rest), false) == Err(UnbalancedBraces)
    ensures Tokens(PrintAll(tokens) + ("{" + name), false) == Err(UnbalancedBraces)
    ensures Tokens(PrintAll(tokens) + ("{" + name + "{" + rest), false) == Err(UnbalancedBraces)
    ensures !Known(name) ==> Tokens(PrintAll(tokens) + ("{" + name + "}" + rest), false) == Err(UnknownField)
    ensures Known(name) && EndsInPlaceholder(tokens) ==>
      Tokens(PrintAll(tokens) + ("{" + name + "}" + rest), false) == Err(AdjacentPlaceholders)
  {
    var after := EndsInPlaceholder(tokens);
    ClosingBrace(rest, after);
    NeverClosed(name, after);
    OpenedAgain(name, rest, after);
    NamedBrace(name, rest, after);
    TokensGoOn(tokens, "}" + rest, false);
    TokensGoOn(tokens, "{" + name, false);
    TokensGoOn(tokens, "{" + name + "{" + rest, false);
    TokensGoOn(tokens, "{" + name + "}" + rest, false);
  }

  lemma ClosingBrace(rest: string, afterPlaceholder: bool)
    ensures Tokens("}" + rest, afterPlaceholder) == Err(UnbalancedBraces)
  {
    assert ("}" + rest)[0] == '}';
  }

  lemma NeverClosed(name: string, afterPlaceholder: bool)
    requires Plain(name)
    ensures Tokens("{" + name, afterPlaceholder) == Err(UnbalancedBraces)
  {
    var s := "{" + name;
    assert s[0] == '{' && s[1..] == name;
    NoBrace(name);
  }

  lemma OpenedAgain(name: string, rest: string, afterPlaceholder: bool)
    requires Plain(name)
    ensures Tokens("{" + name + "{" + rest, afterPlaceholder) == Err(UnbalancedBraces)
  {
    var s := "{" + name + "{" + rest;
    assert s[0] == '{' && s[1..] == name + "{" + rest;
    SecondBrace(name, rest);
    StillOpen(s, name + "{" + rest, afterPlaceholder);
  }

  /** A brace that no closing one follows before the next opening one. */
  lemma StillOpen(s: string, text: string, afterPlaceholder: bool)
    requires s != "" && s[0] == '{' && s[1..] == text
    requires var end := IndexOf(text, '}'); end.Some? ==> '{' in text[..end.value]
    ensures Tokens(s, afterPlaceholder) == Err(UnbalancedBraces)
  {
    var end := IndexOf(text, '}');
    assert end.Some? ==> s[1..1 + end.value] == text[..end.value];
  }

  lemma NoBrace(name: string)
    requires Plain(name)
    ensures IndexOf(name, '}').None?
  {
  }

  lemma SecondBrace(name: string, rest: string)
    requires Plain(name)
    ensures var text := name + "{" + rest;
      var end := IndexOf(text, '}');
      end.Some? ==> '{' in text[..end.value]
  {
    var text := name + "{" + rest;
    var end := IndexOf(text, '}');
    if end.Some? {
      assert text[|name|] == '{';
      assert forall i :: 0 <= i < |name| ==> text[i] == name[i];
      assert |name| < end.value && text[..end.value][|name|] == '{';
    }
  }

  lemma NamedBrace(name: string, rest: string, afterPlaceholder: bool)
    requires Plain(name)
    ensures !Known(name) ==> Tokens("{" + name + "}" + rest, afterPlaceholder) == Err(UnknownField)
    ensures Known(name) && afterPlaceholder ==>
      Tokens("{" + name + "}" + rest, afterPlaceholder) == Err(AdjacentPlaceholders)
  {
    var s := "{" + name + "}" + rest;
    assert s[0] == '{' && '}' !in name && '{' !in name;
    BraceCloses(name, rest);
    KnownNames(name);
  }

  // ---- the compiler's errors ----

  /** The limit on templates counts the bytes of the UTF-8 form. */
  lemma {:induction false} LengthIsInBytes(s: string)
    ensures ByteLength(s) == |EntryCodec.EncodeUtf8(s)|
    decreases |s|
  {
    if |s| > 0 {
      var n := |s| - 1;
      LengthIsInBytes(s[..n]);
      BytesJoin(s[..n], s[n]);
      assert s == s[..n] + [s[n]];
    }
  }

  lemma {:induction false} BytesJoin(s: string, c: char)
    ensures EntryCodec.EncodeUtf8(s + [c]) == EntryCodec.EncodeUtf8(s) + EntryCodec.EncodeChar(c)
    decreases |s|
  {
    if |s| == 0 {
      assert (s + [c])[1..] == "";
    } else {
      assert (s + [c])[1..] == s[1..] + [c];
      BytesJoin(s[1..], c);
    }
  }

  predicate HasField(tokens: seq<Token>, f: Field) {
    exists i | 0 <= i < |tokens| :: tokens[i].Placeholder? && tokens[i].field == f
  }

  lemma {:induction false} FieldsListed(tokens: seq<Token>, f: Field)
    ensures f in FieldsIn(tokens) <==> HasField(tokens, f)
    decreases |tokens|
  {
    if |tokens| > 0 {
      var n := |tokens| - 1;
      FieldsListed(tokens[..n], f);
      assert forall i :: 0 <= i < n ==> tokens[..n][i] == tokens[i];
    }
  }

  /** The fields are those of the placeholders, in their order. */
  lemma {:induction false} FieldsInOrder(a: seq<Token>, b: seq<Token>, t: Token)
    ensures FieldsIn(a + b) == FieldsIn(a) + FieldsIn(b)
    ensures FieldsIn([t]) == if t.Placeholder? then [t.field] else []
    decreases |b|
  {
    assert [t][..0] == [] && FieldsIn([t][..0]) == [];
    if b == [] {
      assert a + b == a;
    } else {
      var n := |b| - 1;
      FieldsInOrder(a, b[..n], t);
      assert (a + b)[..|a + b| - 1] == a + b[..n];
    }
  }

  lemma NoWords(raw: string)
    ensures Normalize(raw) == "" <==> Blank(raw)
  {
    WordsAreSolid(raw);
    WordsOfJoined(Words(raw));
    if Words(raw) == [] {
      NoWordsIsBlank(raw);
    } else if Blank(raw) {
      BlankHasNoWords(raw);
    }
  }

  lemma {:induction false} BlankHasNoWords(s: string)
    requires Blank(s)
    ensures Words(s) == []
    decreases |s|
  {
    if |s| > 0 {
      BlankHasNoWords(s[1..]);
    }
  }

  /** `Compile` refuses blank templates, those of more than 1024 bytes once normalised, those the tokenizer
      refuses, and those without an amount or a TrxID; every other template it accepts, as it was given. */
  lemma CompileErrors(raw: string)
    ensures var s := Normalize(raw);
      if Blank(raw) then Compiled(raw) == Err(EmptyTemplate)
      else if |EntryCodec.EncodeUtf8(s)| > 1024 then Compiled(raw) == Err(TemplateTooLong)
      else match Tokens(s, false)
        case Err(e) => Compiled(raw) == Err(e)
        case Ok(tokens) =>
          if HasField(tokens, Amount) && HasField(tokens, TrxId)
          then Compiled(raw) == Ok(Template(raw, tokens, PatternText(tokens), FieldsIn(tokens)))
          else Compiled(raw) == Err(MissingRequired)
  {
    var s := Normalize(raw);
    NoWords(raw);
    LengthIsInBytes(s);
    if Tokens(s, false).Ok? {
      FieldsListed(Tokens(s, false).value, Amount);
      FieldsListed(Tokens(s, false).value, TrxId);
    }
  }
}
