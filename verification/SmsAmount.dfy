/** Amounts in messages: commas, Bengali digits, and their decimal value. */
module SmsAmount {
  import opened Prelude
  import opened SmsRegex
  import opened SmsTemplate

  /** `coef` divided by ten to the power `scale`. */
  datatype Decimal = Decimal(coef: int, scale: nat)

  function WithoutCommas(s: string): string {
    if |s| == 0 then ""
    else WithoutCommas(s[..|s| - 1]) + if s[|s| - 1] == ',' then "" else [s[|s| - 1]]
  }

  function AsciiDigit(c: char): char {
    if IsBengaliDigit(c) then '0' + (c - '\U{9E6}') else c
  }

  function Ascii(s: string): (t: string)
    ensures |t| == |s| && forall i :: 0 <= i < |s| ==> t[i] == AsciiDigit(s[i])
  {
    if |s| == 0 then "" else Ascii(s[..|s| - 1]) + [AsciiDigit(s[|s| - 1])]
  }

  predicate AllDigits(s: string) {
    forall i | 0 <= i < |s| :: IsDigit(s[i])
  }

  /** The number a string of digits denotes. */
  function DigitsValue(s: string): nat
    requires AllDigits(s)
  {
    if |s| == 0 then 0 else DigitsValue(s[..|s| - 1]) * 10 + (s[|s| - 1] - '0') as int
  }

  /** decimal.NewFromString on unsigned numerals without an exponent; everything else is an error. */
  function DecimalFromString(s: string): Option<Decimal> {
    match IndexOf(s, '.')
    case None => if s != "" && AllDigits(s) then Some(Decimal(DigitsValue(s), 0)) else None
    case Some(p) =>
      var digits := s[..p] + s[p + 1..];
      if digits != "" && AllDigits(digits) then Some(Decimal(DigitsValue(digits), |s| - p - 1)) else None
  }

  function ParsedAmount(raw: string): Option<Decimal> {
    DecimalFromString(Ascii(WithoutCommas(raw)))
  }

  /** `parseAmount`. */
  method ParseAmount(raw: string) returns (d: Option<Decimal>)
    ensures d == ParsedAmount(raw)
  {
    var cleaned := WithoutCommas(raw);
    var b := "";
    for i := 0 to |cleaned|
      invariant b == Ascii(cleaned[..i])
    {
      var r := cleaned[i];
      if '\U{9E6}' <= r <= '\U{9EF}' {
        b := b + ['0' + (r - '\U{9E6}')];
      } else {
        b := b + [r];
      }
      assert cleaned[..i + 1][..i] == cleaned[..i];
    }
    assert cleaned[..|cleaned|] == cleaned;
    return DecimalFromString(b);
  }

  // ---- the reference: a numeral read digit by digit ----

  datatype Reader = Reader(coef: nat, scale: nat, inFraction: bool)

  predicate Figure(c: char) {
    IsDigit(c) || IsBengaliDigit(c)
  }

  function FigureValue(c: char): nat
    requires Figure(c)
  {
    if IsDigit(c) then (c - '0') as int else (c - '\U{9E6}') as int
  }

  function ReadOne(r: Reader, c: char): Reader {
    if Figure(c) then Reader(r.coef * 10 + FigureValue(c), if r.inFraction then r.scale + 1 else r.scale, r.inFraction)
    else if c == '.' then r.(inFraction := true)
    else r
  }

  function Read(s: string): Reader {
    if |s| == 0 then Reader(0, 0, false) else ReadOne(Read(s[..|s| - 1]), s[|s| - 1])
  }

  /** The value of a numeral, by that reading. */
  function NumeralValue(s: string): Decimal {
    Decimal(Read(s).coef, Read(s).scale)
  }

  // ---- the shape of an amount ----

  predicate IntegerPart(s: string) {
    s != "" && Figure(s[0]) && forall i | 0 <= i < |s| :: Figure(s[i]) || s[i] == ','
  }

  predicate FractionPart(s: string) {
    s != "" && forall i | 0 <= i < |s| :: Figure(s[i])
  }

  lemma RepeatSplits(run: Class, m: Re, w: string) returns (k: nat)
    requires Lang(Then(Repeat(run, 0, None), m), w)
    ensures k <= |w| && Lang(m, w[k..]) && forall i :: 0 <= i < k ==> Has(run, w[i])
  {
    k := SplitOf(Repeat(run, 0, None), m, w);
    assert forall i :: 0 <= i < k ==> w[i] == w[..k][i];
  }

  lemma FractionSplits(d: Class, w: string)
    requires Lang(FractionRe(d), w) && w != ""
    ensures w[0] == '.' && |w| > 1 && forall i :: 1 <= i < |w| ==> Has(d, w[i])
  {
    var digits := Repeat(d, 1, None);
    var k := SplitOf(One(Just('.')), digits, w);
    assert w[..k][0] == w[0];
    assert forall i :: 1 <= i < |w| ==> w[i] == w[k..][i - 1];
    DotIsDot(w[0]);
  }

  lemma DotIsDot(c: char)
    requires Has(Just('.'), c)
    ensures c == '.'
  {
  }

  lemma NumeralSplits(d: Class, run: Class, v: string) returns (p: nat)
    requires Lang(NumeralRe(d, run), v)
    ensures 1 <= p <= |v| && Has(d, v[0]) && forall i :: 1 <= i < p ==> Has(run, v[i])
    ensures p < |v| ==> v[p] == '.' && p + 1 < |v| && forall i :: p < i < |v| ==> Has(d, v[i])
  {
    var k := SplitOf(One(d), TailRe(d, run), v);
    assert v[..k][0] == v[0];
    var w := v[k..];
    var q := RepeatSplits(run, FractionRe(d), w);
    assert forall i :: 1 <= i < q + 1 ==> v[i] == w[i - 1];
    p := q + 1;
    var f := w[q..];
    if p < |v| {
      FractionSplits(d, f);
      assert forall i :: p <= i < |v| ==> v[i] == f[i - p];
    }
  }

  /** An amount is an integer part, and perhaps a point and a fraction. */
  lemma AmountSplits(f: Field, v: string) returns (p: nat)
    requires Fits(f, v) && (f.Amount? || f.Balance?)
    ensures 1 <= p <= |v| && IntegerPart(v[..p])
    ensures p < |v| ==> v[p] == '.' && FractionPart(v[p + 1..])
  {
    if Lang(NumeralRe(Digits, DigitsAndCommas), v) {
      p := NumeralSplits(Digits, DigitsAndCommas, v);
    } else {
      p := NumeralSplits(BengaliDigits, BengaliDigits, v);
    }
  }

  // ---- parsing agrees with reading ----

  function Digits10(s: string): string {
    Ascii(WithoutCommas(s))
  }

  /** Digit by digit, the text reads as the value of its digits. */
  ghost predicate ReadsAsInteger(s: string) {
    AllDigits(Digits10(s)) && Read(s) == Reader(DigitsValue(Digits10(s)), 0, false)
  }

  lemma {:induction false} IntegerReads(s: string)
    requires forall i :: 0 <= i < |s| ==> Figure(s[i]) || s[i] == ','
    ensures ReadsAsInteger(s)
  {
    if |s| > 0 {
      var init, c := s[..|s| - 1], s[|s| - 1];
      IntegerReads(init);
      if c == ',' {
        CommaReads(init);
      } else {
        FigureReads(init, c);
      }
      assert s == init + [c];
    }
  }

  lemma {:induction false} SomeDigits(s: string)
    requires s != "" && Figure(s[0])
    ensures Digits10(s) != ""
  {
    if |s| > 1 {
      SomeDigits(s[..|s| - 1]);
    }
  }

  lemma CommaAddsNothing(s: string)
    ensures Digits10(s + [',']) == Digits10(s) && Read(s + [',']) == Read(s)
  {
    assert (s + [','])[..|s|] == s;
    assert WithoutCommas(s) + "" == WithoutCommas(s);
  }

  lemma CommaReads(s: string)
    requires ReadsAsInteger(s)
    ensures ReadsAsInteger(s + [','])
  {
    var t := s + [','];
    CommaAddsNothing(s);
    assert Digits10(t) == Digits10(s) && Read(t) == Read(s);
  }

  lemma FigureReads(s: string, c: char)
    requires Figure(c) && ReadsAsInteger(s)
    ensures ReadsAsInteger(s + [c])
  {
    Appends(s, c);
    assert (s + [c])[..|s|] == s;
    var w := Digits10(s) + [AsciiDigit(c)];
    assert w[..|w| - 1] == Digits10(s);
  }

  lemma Appends(s: string, c: char)
    requires c != ','
    ensures Digits10(s + [c]) == Digits10(s) + [AsciiDigit(c)]
  {
    assert (s + [c])[..|s|] == s;
    var w := WithoutCommas(s) + [c];
    assert w[..|w| - 1] == WithoutCommas(s);
  }

  lemma {:induction false} TailAppends(whole: string, t: string)
    requires ',' !in t
    ensures Digits10(whole + t) == Digits10(whole) + Ascii(t)
    decreases |t|
  {
    if |t| == 0 {
      assert whole + t == whole;
    } else {
      var init, c := t[..|t| - 1], t[|t| - 1];
      assert whole + t == (whole + init) + [c];
      TailAppends(whole, init);
      Appends(whole + init, c);
    }
  }

  lemma ReadAppends(s: string, c: char)
    ensures Read(s + [c]) == ReadOne(Read(s), c)
  {
    assert (s + [c])[..|s|] == s;
  }

  lemma DigitsAppend(s: string, c: char)
    requires AllDigits(s) && IsDigit(c)
    ensures AllDigits(s + [c]) && DigitsValue(s + [c]) == DigitsValue(s) * 10 + (c - '0') as int
  {
    assert (s + [c])[..|s|] == s;
  }

  /** After the point too. */
  ghost predicate ReadsAsFraction(whole: string, frac: string) {
    var digits := Digits10(whole) + Ascii(frac);
    AllDigits(digits) && Read(whole + "." + frac) == Reader(DigitsValue(digits), |frac|, true)
  }

  lemma FractionReadsOn(whole: string, frac: string, c: char)
    requires ReadsAsFraction(whole, frac) && Figure(c)
    ensures ReadsAsFraction(whole, frac + [c])
  {
    ReadAppends(whole + "." + frac, c);
    assert whole + "." + (frac + [c]) == (whole + "." + frac) + [c];
    DigitsAppend(Digits10(whole) + Ascii(frac), AsciiDigit(c));
    assert Ascii(frac + [c]) == Ascii(frac) + [AsciiDigit(c)];
    assert Digits10(whole) + Ascii(frac + [c]) == (Digits10(whole) + Ascii(frac)) + [AsciiDigit(c)];
  }

  lemma {:induction false} FractionReads(whole: string, frac: string)
    requires forall i :: 0 <= i < |whole| ==> Figure(whole[i]) || whole[i] == ','
    requires forall i :: 0 <= i < |frac| ==> Figure(frac[i])
    ensures ReadsAsFraction(whole, frac)
    decreases |frac|
  {
    if |frac| == 0 {
      IntegerReads(whole);
      ReadAppends(whole, '.');
      assert whole + "." + frac == whole + ['.'];
      assert Digits10(whole) + Ascii(frac) == Digits10(whole);
    } else {
      var init, c := frac[..|frac| - 1], frac[|frac| - 1];
      FractionReads(whole, init);
      FractionReadsOn(whole, init, c);
      assert init + [c] == frac;
    }
  }

  lemma SplitsAtPoint(whole: string, frac: string)
    requires AllDigits(whole)
    ensures var s := whole + "." + frac;
      IndexOf(s, '.') == Some(|whole|) && s[..|whole|] == whole && s[|whole| + 1..] == frac
  {
    var s := whole + "." + frac;
    assert s[|whole|] == '.' && forall i :: 0 <= i < |whole| ==> s[i] == whole[i];
  }

  /** Every amount parses, to the value its numeral has when read digit by digit. */
  lemma AmountsParse(f: Field, v: string)
    requires Fits(f, v) && (f.Amount? || f.Balance?)
    ensures ParsedAmount(v) == Some(NumeralValue(v))
  {
    var p := AmountSplits(f, v);
    IntegerReads(v[..p]);
    SomeDigits(v[..p]);
    if p == |v| {
      assert v[..p] == v;
    } else {
      PointedAmountParses(v[..p], v[p + 1..]);
      assert v == v[..p] + "." + v[p + 1..];
    }
  }

  lemma FractionTail(frac: string)
    requires FractionPart(frac)
    ensures ',' !in "." + frac && Ascii("." + frac) == "." + Ascii(frac)
  {
    var tail := "." + frac;
    forall i | 0 <= i < |tail| ensures tail[i] != ',' {
      assert i == 0 || Figure(frac[i - 1]);
    }
  }

  lemma PointedDigits(whole: string, frac: string)
    requires IntegerPart(whole) && FractionPart(frac)
    ensures Digits10(whole + "." + frac) == Digits10(whole) + "." + Ascii(frac)
  {
    FractionTail(frac);
    TailAppends(whole, "." + frac);
    assert whole + "." + frac == whole + ("." + frac);
    assert Digits10(whole) + "." + Ascii(frac) == Digits10(whole) + ("." + Ascii(frac));
  }

  lemma PointedAmountParses(whole: string, frac: string)
    requires IntegerPart(whole) && FractionPart(frac)
    ensures var v := whole + "." + frac; ParsedAmount(v) == Some(NumeralValue(v))
  {
    IntegerReads(whole);
    SomeDigits(whole);
    FractionReads(whole, frac);
    PointedDigits(whole, frac);
    SplitsAtPoint(Digits10(whole), Ascii(frac));
  }

  lemma {:induction false} NoCommasLeft(s: string)
    ensures ',' !in WithoutCommas(s)
    ensures ',' !in s ==> WithoutCommas(s) == s
  {
    if |s| > 0 {
      NoCommasLeft(s[..|s| - 1]);
      assert s == s[..|s| - 1] + [s[|s| - 1]];
    }
  }

  lemma AsciiDigitPlain(c: char)
    ensures !IsBengaliDigit(AsciiDigit(c)) && (c != ',' ==> AsciiDigit(c) != ',')
  {
  }

  lemma AsciiStays(w: string)
    requires ',' !in w
    ensures Ascii(Ascii(w)) == Ascii(w) && ',' !in Ascii(w)
  {
    var a := Ascii(w);
    forall i | 0 <= i < |a| ensures AsciiDigit(a[i]) == a[i] && a[i] != ',' {
      assert w[i] in w;
      AsciiDigitPlain(w[i]);
    }
    assert Ascii(a) == a;
  }

  /** Commas and the script of the digits do not matter: a text parses like its plain ASCII form. */
  lemma SpellingDoesNotMatter(v: string)
    ensures ParsedAmount(v) == ParsedAmount(WithoutCommas(v)) == ParsedAmount(Digits10(v))
  {
    var w := WithoutCommas(v);
    NoCommasLeft(v);
    NoCommasLeft(w);
    AsciiStays(w);
    NoCommasLeft(Ascii(w));
  }
}
