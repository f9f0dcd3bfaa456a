/** What the patterns of the placeholders, white space and letter case mean, character by character. */
module Grammar {
  import opened SmsText
  import opened SmsRegex
  import opened SmsTemplate
  import opened SmsAmount
  import opened Prelude

  // ---- characters ----

  /** unicode.IsSpace holds of these characters. */
  lemma SpacesListed(c: char)
    ensures IsSpace(c) <==>
      c in {'\t', '\n', '\U{B}', '\U{C}', '\r', ' ', '\U{85}', '\U{A0}', '\U{1680}', '\U{2000}', '\U{2001}', '\U{2002}',
            '\U{2003}', '\U{2004}', '\U{2005}', '\U{2006}', '\U{2007}', '\U{2008}', '\U{2009}', '\U{200A}', '\U{2028}',
            '\U{2029}', '\U{202F}', '\U{205F}', '\U{3000}'}
  {
  }

  /** The same ASCII letter, in upper or lower case. */
  predicate SameLetter(c: char, d: char) {
    ('A' <= c <= 'Z' && d == 'a' + (c - 'A')) || ('A' <= d <= 'Z' && c == 'a' + (d - 'A'))
  }

  predicate KayLike(c: char) {
    c == 'k' || c == 'K' || c == '\U{212A}'
  }

  predicate EssLike(c: char) {
    c == 's' || c == 'S' || c == '\U{17F}'
  }

  /** Characters agree under case folding when they are equal, the two cases of an ASCII letter, or among the
      three spellings of k, with the Kelvin sign, or of s, with the long s. */
  lemma FoldingExactly(c: char, d: char)
    ensures Canon(c) == Canon(d) <==>
      c == d || SameLetter(c, d) || (KayLike(c) && KayLike(d)) || (EssLike(c) && EssLike(d))
  {
  }

  predicate LetterOrDigit(c: char) {
    '0' <= c <= '9' || 'a' <= c <= 'z' || 'A' <= c <= 'Z' || c == '\U{212A}' || c == '\U{17F}'
  }

  // ---- placeholders ----

  /** A TrxID is 6 to 20 letters or digits. */
  lemma TrxIdFits(v: string)
    ensures Fits(TrxId, v) <==> 6 <= |v| <= 20 && forall i | 0 <= i < |v| :: LetterOrDigit(v[i])
  {
    forall c: char ensures Has(Alphanumerics, c) <==> LetterOrDigit(c) {}
  }

  predicate DigitsFrom(v: string, k: nat) {
    k <= |v| && 5 <= |v| - k <= 15 && forall i | k <= i < |v| :: '0' <= v[i] <= '9'
  }

  /** A sender is 5 to 15 digits, with or without a plus sign before them. */
  lemma SenderFits(v: string)
    ensures Fits(Sender, v) <==> DigitsFrom(v, 0) || (v != "" && v[0] == '+' && DigitsFrom(v, 1))
  {
    var plus, digits := Maybe(One(Just('+'))), Repeat(Digits, 5, Some(15));
    if Fits(Sender, v) {
      var k := SplitOf(plus, digits, v);
      assert forall i :: k <= i < |v| ==> v[i] == v[k..][i - k];
      assert k == 0 || v[..k][0] == v[0];
    }
    if DigitsFrom(v, 0) {
      assert Lang(plus, v[..0]) && v[0..] == v && Lang(digits, v[0..]);
    }
    if v != "" && v[0] == '+' && DigitsFrom(v, 1) {
      assert v[..1][0] == '+' && Lang(plus, v[..1]);
      assert forall i :: 0 <= i < |v[1..]| ==> v[1..][i] == v[i + 1];
      assert Lang(digits, v[1..]);
    }
  }

  /** A numeral of the given digits: one digit, digits with what may stand among them up to `p`, and then
      perhaps a point and at least one digit. */
  predicate NumeralUpTo(v: string, p: nat, digit: char -> bool, among: char -> bool) {
    && 1 <= p <= |v| && digit(v[0]) && (forall i | 1 <= i < p :: digit(v[i]) || among(v[i]))
    && (p < |v| ==> v[p] == '.' && p + 1 < |v| && forall i | p < i < |v| :: digit(v[i]))
  }

  ghost predicate IsNumeral(v: string, digit: char -> bool, among: char -> bool) {
    exists p: nat :: NumeralUpTo(v, p, digit, among)
  }

  lemma NumeralFits(d: Class, run: Class, v: string, p: nat)
    requires 1 <= p <= |v| && Has(d, v[0]) && forall i :: 1 <= i < p ==> Has(run, v[i])
    requires p < |v| ==> v[p] == '.' && p + 1 < |v| && forall i :: p < i < |v| ==> Has(d, v[i])
    ensures Lang(NumeralRe(d, run), v)
  {
    var fraction := Then(One(Just('.')), Repeat(d, 1, None));
    assert v[0..|v|] == v;
    assert v[0..1] == [v[0]] && Lang(One(d), v[0..1]);
    assert forall i :: 0 <= i < p - 1 ==> v[1..p][i] == v[i + 1];
    assert Lang(Repeat(run, 0, None), v[1..p]);
    if p < |v| {
      assert v[p..p + 1] == [v[p]] && Lang(One(Just('.')), v[p..p + 1]);
      var rest := v[p + 1..|v|];
      assert forall i :: 0 <= i < |rest| ==> rest[i] == v[p + 1 + i];
      LangJoins(One(Just('.')), Repeat(d, 1, None), v, p, p + 1, |v|);
      assert Lang(fraction, v[p..|v|]);
    } else {
      assert v[p..|v|] == "";
    }
    assert Lang(FractionRe(d), v[p..|v|]);
    LangJoins(Repeat(run, 0, None), FractionRe(d), v, 1, p, |v|);
    LangJoins(One(d), TailRe(d, run), v, 0, 1, |v|);
  }

  lemma NumeralExactly(d: Class, run: Class, v: string, digit: char -> bool, among: char -> bool)
    requires forall c: char :: (Has(d, c) <==> digit(c)) && (Has(run, c) <==> digit(c) || among(c))
    ensures Lang(NumeralRe(d, run), v) <==> IsNumeral(v, digit, among)
  {
    if Lang(NumeralRe(d, run), v) {
      var p := NumeralSplits(d, run, v);
      assert NumeralUpTo(v, p, digit, among);
    }
    forall p: nat | NumeralUpTo(v, p, digit, among) ensures Lang(NumeralRe(d, run), v) {
      NumeralFits(d, run, v, p);
    }
  }

  predicate AsciiFigure(c: char) {
    '0' <= c <= '9'
  }

  predicate BengaliFigure(c: char) {
    '\U{9E6}' <= c <= '\U{9EF}'
  }

  predicate Comma(c: char) {
    c == ','
  }

  predicate NoChar(c: char) {
    false
  }

  /** An amount is a numeral in ASCII digits, with commas after the first digit, or one in Bengali digits
      without; a balance is an amount. */
  lemma AmountFits(v: string)
    ensures Fits(Amount, v) <==> IsNumeral(v, AsciiFigure, Comma) || IsNumeral(v, BengaliFigure, NoChar)
    ensures Fits(Balance, v) <==> Fits(Amount, v)
  {
    NumeralExactly(Digits, DigitsAndCommas, v, AsciiFigure, Comma);
    NumeralExactly(BengaliDigits, BengaliDigits, v, BengaliFigure, NoChar);
  }
}
