/** How a partly received message is kept as text: decimal numbers, UTF-8 and Base64 (section 4 of
    RFC 4648), one part to a line. What is written reads back unchanged.

    A string is a sequence of Unicode scalar values, so it has no unpaired surrogates. */
module EntryCodec {
  import opened Prelude
  import opened ConcatHeader

  // ---- UTF-8 ----

  function EncodePoint(n: int): (bytes: seq<Byte>)
    requires Scalar(n)
    ensures 1 <= |bytes| <= 4
  {
    if n < 0x80 then [n]
    else if n < 0x800 then [0xC0 + n / 64, 0x80 + n % 64]
    else if n < 0x10000 then [0xE0 + n / 4096, 0x80 + n / 64 % 64, 0x80 + n % 64]
    else [0xF0 + n / 262144, 0x80 + n / 4096 % 64, 0x80 + n / 64 % 64, 0x80 + n % 64]
  }

  function EncodeChar(c: char): seq<Byte> {
    EncodePoint(c as int)
  }

  function EncodeUtf8(s: string): seq<Byte> {
    if |s| == 0 then [] else EncodeChar(s[0]) + EncodeUtf8(s[1..])
  }

  predicate Continuation(b: Byte) {
    0x80 <= b < 0xC0
  }

  predicate Scalar(n: int) {
    0 <= n < 0xD800 || 0xE000 <= n < 0x110000
  }

  /** The code point at the head of the bytes, and its length; `None` when malformed. */
  function DecodeHead(bytes: seq<Byte>): (r: Option<(int, nat)>)
    ensures r.Some? ==> 1 <= r.value.1 <= |bytes|
  {
    if |bytes| == 0 then None
    else
      var b: int := bytes[0];
      if b < 0x80 then Some((b, 1))
      else if 0xC0 <= b < 0xE0 && |bytes| > 1 && Continuation(bytes[1]) then
        Some(((b - 0xC0) * 64 + bytes[1] as int - 0x80, 2))
      else if 0xE0 <= b < 0xF0 && |bytes| > 2 && Continuation(bytes[1]) && Continuation(bytes[2]) then
        Some(((b - 0xE0) * 4096 + (bytes[1] as int - 0x80) * 64 + bytes[2] as int - 0x80, 3))
      else if 0xF0 <= b < 0xF8 && |bytes| > 3
              && Continuation(bytes[1]) && Continuation(bytes[2]) && Continuation(bytes[3]) then
        Some(((b - 0xF0) * 262144 + (bytes[1] as int - 0x80) * 4096
              + (bytes[2] as int - 0x80) * 64 + bytes[3] as int - 0x80, 4))
      else None
  }

  function DecodeUtf8(bytes: seq<Byte>): Option<string>
    decreases |bytes|
  {
    if |bytes| == 0 then Some("")
    else match DecodeHead(bytes)
      case None => None
      case Some((n, k)) =>
        if !Scalar(n) then None
        else
          var rest := DecodeUtf8(bytes[k..]);
          if rest.Some? then Some([n as char] + rest.value) else None
  }

  lemma ShortPoint(n: int, code: seq<Byte>, bytes: seq<Byte>)
    requires Scalar(n) && n < 0x800 && code == EncodePoint(n)
    requires |code| <= |bytes| && bytes[..|code|] == code
    ensures DecodeHead(bytes) == Some((n, |code|))
  {
    assert bytes[0] == code[0];
    if n >= 0x80 {
      assert bytes[1] == code[1];
    }
  }

  lemma ThreeBytePoint(n: int, code: seq<Byte>, bytes: seq<Byte>)
    requires Scalar(n) && 0x800 <= n < 0x10000 && code == EncodePoint(n)
    requires |code| <= |bytes| && bytes[..|code|] == code
    ensures DecodeHead(bytes) == Some((n, |code|))
  {
    assert bytes[0] == code[0] && bytes[1] == code[1] && bytes[2] == code[2];
    assert n == n / 4096 * 4096 + n / 64 % 64 * 64 + n % 64;
  }

  lemma FourBytePoint(n: int, code: seq<Byte>, bytes: seq<Byte>)
    requires Scalar(n) && 0x10000 <= n && code == EncodePoint(n)
    requires |code| <= |bytes| && bytes[..|code|] == code
    ensures DecodeHead(bytes) == Some((n, |code|))
  {
    assert bytes[0] == code[0] && bytes[1] == code[1] && bytes[2] == code[2] && bytes[3] == code[3];
    FourDigits(n);
  }

  lemma FourDigits(n: int)
    requires 0 <= n < 0x110000
    ensures n == n / 262144 * 262144 + n / 4096 % 64 * 4096 + n / 64 % 64 * 64 + n % 64
    ensures 0 <= n / 262144 < 8
  {
    var a, b := n / 64, n / 4096;
    assert n == a * 64 + n % 64;
    assert b == a / 64 && a == b * 64 + a % 64;
    assert n / 262144 == b / 64 && b == b / 64 * 64 + b % 64;
  }

  lemma PointRoundTrip(n: int, rest: seq<Byte>)
    requires Scalar(n)
    ensures DecodeHead(EncodePoint(n) + rest) == Some((n, |EncodePoint(n)|))
  {
    var code := EncodePoint(n);
    assert (code + rest)[..|code|] == code;
    if n < 0x800 {
      ShortPoint(n, code, code + rest);
    } else if n < 0x10000 {
      ThreeBytePoint(n, code, code + rest);
    } else {
      FourBytePoint(n, code, code + rest);
    }
  }

  lemma {:induction false} Utf8RoundTrip(s: string)
    ensures DecodeUtf8(EncodeUtf8(s)) == Some(s)
  {
    if |s| > 0 {
      var code, rest := EncodeChar(s[0]), EncodeUtf8(s[1..]);
      PointRoundTrip(s[0] as int, rest);
      assert (code + rest)[|code|..] == rest;
      Utf8RoundTrip(s[1..]);
      assert [s[0]] + s[1..] == s;
    }
  }

  // ---- Base64 ----

  type Sextet = x: int | 0 <= x < 64

  function Letter(x: Sextet): char {
    if x < 26 then 'A' + x as char
    else if x < 52 then 'a' + (x - 26) as char
    else if x < 62 then '0' + (x - 52) as char
    else if x == 62 then '+' else '/'
  }

  function SextetOf(c: char): (r: Option<int>)
    ensures r.Some? ==> 0 <= r.value < 64
  {
    if 'A' <= c <= 'Z' then Some((c - 'A') as int)
    else if 'a' <= c <= 'z' then Some((c - 'a') as int + 26)
    else if '0' <= c <= '9' then Some((c - '0') as int + 52)
    else if c == '+' then Some(62)
    else if c == '/' then Some(63)
    else None
  }

  lemma LetterRoundTrip(x: Sextet)
    ensures SextetOf(Letter(x)) == Some(x) && Letter(x) != '=' && Letter(x) != '\n' && Letter(x) != '|'
  {
  }

  function EncodeBase64(bytes: seq<Byte>): string {
    if |bytes| == 0 then ""
    else if |bytes| == 1 then [Letter(bytes[0] / 4), Letter(bytes[0] % 4 * 16), '=', '=']
    else if |bytes| == 2 then
      [Letter(bytes[0] / 4), Letter(bytes[0] % 4 * 16 + bytes[1] / 16), Letter(bytes[1] % 16 * 4), '=']
    else
      [Letter(bytes[0] / 4), Letter(bytes[0] % 4 * 16 + bytes[1] / 16),
       Letter(bytes[1] % 16 * 4 + bytes[2] / 64), Letter(bytes[2] % 64)] + EncodeBase64(bytes[3..])
  }

  /** The bytes of one group of four characters. */
  function DecodeGroup(a: char, b: char, c: char, d: char): Option<seq<Byte>> {
    match (SextetOf(a), SextetOf(b), SextetOf(c), SextetOf(d))
    case (Some(w), Some(x), Some(y), Some(z)) => Some([w * 4 + x / 16, x % 16 * 16 + y / 4, y % 4 * 64 + z])
    case (Some(w), Some(x), Some(y), None) => if d == '=' then Some([w * 4 + x / 16, x % 16 * 16 + y / 4]) else None
    case (Some(w), Some(x), None, None) => if c == '=' && d == '=' then Some([w * 4 + x / 16]) else None
    case _ => None
  }

  function DecodeBase64(s: string): Option<seq<Byte>> {
    if |s| == 0 then Some([])
    else if |s| < 4 then None
    else
      var head := DecodeGroup(s[0], s[1], s[2], s[3]);
      var rest := DecodeBase64(s[4..]);
      if head.Some? && rest.Some? && (|head.value| == 3 || |s| == 4) then Some(head.value + rest.value) else None
  }

  lemma OneByteGroup(x: Byte)
    ensures DecodeGroup(Letter(x / 4), Letter(x % 4 * 16), '=', '=') == Some([x])
  {
    LetterRoundTrip(x / 4);
    LetterRoundTrip(x % 4 * 16);
  }

  lemma TwoByteGroup(x: Byte, y: Byte)
    ensures DecodeGroup(Letter(x / 4), Letter(x % 4 * 16 + y / 16), Letter(y % 16 * 4), '=') == Some([x, y])
  {
    LetterRoundTrip(x / 4);
    LetterRoundTrip(x % 4 * 16 + y / 16);
    LetterRoundTrip(y % 16 * 4);
  }

  lemma ThreeByteGroup(x: Byte, y: Byte, z: Byte)
    ensures DecodeGroup(Letter(x / 4), Letter(x % 4 * 16 + y / 16), Letter(y % 16 * 4 + z / 64), Letter(z % 64))
        == Some([x, y, z])
  {
    var a, b, c, d := x / 4, x % 4 * 16 + y / 16, y % 16 * 4 + z / 64, z % 64;
    LetterRoundTrip(a);
    LetterRoundTrip(b);
    LetterRoundTrip(c);
    LetterRoundTrip(d);
    assert a * 4 + b / 16 == x && b % 16 * 16 + c / 4 == y && c % 4 * 64 + d == z;
  }

  lemma LastGroup(a: char, b: char, c: char, d: char, bytes: seq<Byte>)
    requires DecodeGroup(a, b, c, d) == Some(bytes)
    ensures DecodeBase64([a, b, c, d]) == Some(bytes)
  {
    var code := [a, b, c, d];
    assert code[4..] == [];
    assert DecodeBase64(code[4..]) == Some([]);
    assert bytes + [] == bytes;
  }

  lemma OneByte(x: Byte)
    ensures DecodeBase64(EncodeBase64([x])) == Some([x]) && '\n' !in EncodeBase64([x])
  {
    var a, b := Letter(x / 4), Letter(x % 4 * 16);
    OneByteGroup(x);
    LetterRoundTrip(x / 4);
    LetterRoundTrip(x % 4 * 16);
    LastGroup(a, b, '=', '=', [x]);
    assert EncodeBase64([x]) == [a, b, '=', '='];
  }

  lemma TwoBytes(x: Byte, y: Byte)
    ensures DecodeBase64(EncodeBase64([x, y])) == Some([x, y]) && '\n' !in EncodeBase64([x, y])
  {
    TwoByteGroup(x, y);
    LetterRoundTrip(x / 4);
    LetterRoundTrip(x % 4 * 16 + y / 16);
    LetterRoundTrip(y % 16 * 4);
    LastGroup(Letter(x / 4), Letter(x % 4 * 16 + y / 16), Letter(y % 16 * 4), '=', [x, y]);
  }

  /** A full group in front of text that decodes. */
  lemma FirstGroup(a: char, b: char, c: char, d: char, code: string, bytes: seq<Byte>, rest: seq<Byte>)
    requires DecodeGroup(a, b, c, d) == Some(bytes) && |bytes| == 3 && DecodeBase64(code) == Some(rest)
    ensures DecodeBase64([a, b, c, d] + code) == Some(bytes + rest)
  {
    var all := [a, b, c, d] + code;
    assert all[4..] == code;
  }

  lemma ThreeBytes(x: Byte, y: Byte, z: Byte, rest: seq<Byte>)
    requires DecodeBase64(EncodeBase64(rest)) == Some(rest) && '\n' !in EncodeBase64(rest)
    ensures var bytes := [x, y, z] + rest;
      DecodeBase64(EncodeBase64(bytes)) == Some(bytes) && '\n' !in EncodeBase64(bytes)
  {
    var a, b, c, d := Letter(x / 4), Letter(x % 4 * 16 + y / 16), Letter(y % 16 * 4 + z / 64), Letter(z % 64);
    var bytes := [x, y, z] + rest;
    assert bytes[3..] == rest;
    assert EncodeBase64(bytes) == [a, b, c, d] + EncodeBase64(rest);
    LetterRoundTrip(x / 4);
    LetterRoundTrip(x % 4 * 16 + y / 16);
    LetterRoundTrip(y % 16 * 4 + z / 64);
    LetterRoundTrip(z % 64);
    ThreeByteGroup(x, y, z);
    FirstGroup(a, b, c, d, EncodeBase64(rest), [x, y, z], rest);
  }

  ghost predicate ComesBack(bytes: seq<Byte>) {
    DecodeBase64(EncodeBase64(bytes)) == Some(bytes) && '\n' !in EncodeBase64(bytes)
  }

  lemma LastBytes(bytes: seq<Byte>)
    requires |bytes| < 3
    ensures ComesBack(bytes)
  {
    if |bytes| == 1 {
      OneByte(bytes[0]);
      assert bytes == [bytes[0]];
    } else if |bytes| == 2 {
      TwoBytes(bytes[0], bytes[1]);
      assert bytes == [bytes[0], bytes[1]];
    }
  }

  lemma FirstBytes(bytes: seq<Byte>)
    requires |bytes| >= 3 && ComesBack(bytes[3..])
    ensures ComesBack(bytes)
  {
    ThreeBytes(bytes[0], bytes[1], bytes[2], bytes[3..]);
    assert bytes == [bytes[0], bytes[1], bytes[2]] + bytes[3..];
  }

  lemma {:induction false} Base64RoundTrip(bytes: seq<Byte>)
    ensures DecodeBase64(EncodeBase64(bytes)) == Some(bytes) && '\n' !in EncodeBase64(bytes)
  {
    if |bytes| < 3 {
      LastBytes(bytes);
    } else {
      Base64RoundTrip(bytes[3..]);
      FirstBytes(bytes);
    }
  }

  // ---- decimal numbers ----

  function ShowNat(n: nat): (s: string)
    ensures s != ""
  {
    if n < 10 then ['0' + n as char] else ShowNat(n / 10) + ['0' + (n % 10) as char]
  }

  function Show(n: int): string {
    if n < 0 then "-" + ShowNat(-n) else ShowNat(n)
  }

  function ReadNat(s: string): Option<nat> {
    if |s| == 0 then None
    else
      var last := s[|s| - 1];
      if !('0' <= last <= '9') then None
      else if |s| == 1 then Some((last - '0') as int)
      else match ReadNat(s[..|s| - 1])
        case None => None
        case Some(n) => Some(n * 10 + (last - '0') as int)
  }

  /** `toInt` and `toLong`, up to the range of the type. */
  function ReadInt(s: string): Option<int> {
    if |s| > 0 && (s[0] == '-' || s[0] == '+') then
      match ReadNat(s[1..])
      case None => None
      case Some(n) => Some(if s[0] == '-' then -(n as int) else n)
    else match ReadNat(s)
      case None => None
      case Some(n) => Some(n)
  }

  predicate IsNumeral(s: string) {
    forall i | 0 <= i < |s| :: '0' <= s[i] <= '9' || s[i] == '-'
  }

  lemma {:induction false} NatRoundTrip(n: nat)
    ensures ReadNat(ShowNat(n)) == Some(n)
    ensures forall i :: 0 <= i < |ShowNat(n)| ==> '0' <= ShowNat(n)[i] <= '9'
  {
    if n >= 10 {
      NatRoundTrip(n / 10);
      var s := ShowNat(n);
      assert s[..|s| - 1] == ShowNat(n / 10);
    }
  }

  lemma IntRoundTrip(n: int)
    ensures ReadInt(Show(n)) == Some(n) && IsNumeral(Show(n)) && Show(n) != ""
  {
    NatRoundTrip(if n < 0 then -n else n);
    if n < 0 {
      assert Show(n)[1..] == ShowNat(-n);
    } else {
      var s := ShowNat(n);
      assert '0' <= s[0] <= '9';
    }
  }

  // ---- entries ----

  datatype Part = Part(index: int, body: string)

  /** A message being assembled; the parts in the order of their indices. */
  datatype Entry = Entry(total: int, receivedAt: int, parts: seq<Part>)

  predicate Int32(n: int) {
    -0x8000_0000 <= n < 0x8000_0000
  }

  predicate Sorted(parts: seq<Part>) {
    forall i, j | 0 <= i < j < |parts| :: parts[i].index < parts[j].index
  }

  /** What the fields of an entry can hold. */
  predicate Storable(e: Entry) {
    Int32(e.total) && Int64(e.receivedAt) && Sorted(e.parts) && forall i | 0 <= i < |e.parts| :: Int32(e.parts[i].index)
  }

  /** `parts[index] = body` on a TreeMap. */
  function Put(parts: seq<Part>, index: int, body: string): seq<Part> {
    if |parts| == 0 || index < parts[0].index then [Part(index, body)] + parts
    else if index == parts[0].index then [Part(index, body)] + parts[1..]
    else [parts[0]] + Put(parts[1..], index, body)
  }

  function Get(parts: seq<Part>, index: int): Option<string> {
    if |parts| == 0 then None
    else if parts[0].index == index then Some(parts[0].body)
    else Get(parts[1..], index)
  }

  function Line(part: Part): string {
    Show(part.index) + "|" + EncodeBase64(EncodeUtf8(part.body))
  }

  function Lines(parts: seq<Part>): seq<string> {
    if |parts| == 0 then [] else [Line(parts[0])] + Lines(parts[1..])
  }

  function Unlines(lines: seq<string>): string {
    if |lines| == 0 then "" else lines[0] + "\n" + Unlines(lines[1..])
  }

  function Header(e: Entry): string {
    Show(e.total) + "|" + Show(e.receivedAt)
  }

  /** `saveEntry`. */
  function Saved(e: Entry): string {
    Unlines([Header(e)] + Lines(e.parts))
  }

  /** `split`. */
  function Split(s: string, c: char): (pieces: seq<string>)
    ensures |pieces| > 0
  {
    if |s| == 0 then [""]
    else
      var rest := Split(s[1..], c);
      if s[0] == c then [""] + rest else [[s[0]] + rest[0]] + rest[1..]
  }

  /** `isWhitespace`. */
  predicate BlankChar(c: char) {
    '\U{9}' <= c <= '\U{D}' || '\U{1C}' <= c <= ' ' || c == '\U{A0}' || c == '\U{1680}'
    || '\U{2000}' <= c <= '\U{200A}' || c == '\U{2028}' || c == '\U{2029}' || c == '\U{202F}'
    || c == '\U{205F}' || c == '\U{3000}'
  }

  predicate Blank(s: string) {
    forall i | 0 <= i < |s| :: BlankChar(s[i])
  }

  function NotBlank(lines: seq<string>): seq<string> {
    if |lines| == 0 then []
    else (if Blank(lines[0]) then [] else [lines[0]]) + NotBlank(lines[1..])
  }

  /** The text a line keeps for one part. */
  function Body(encoded: string): Option<string> {
    match DecodeBase64(encoded)
    case None => None
    case Some(bytes) => DecodeUtf8(bytes)
  }

  /** The parts that a line states, one at most; `None` when reading it throws. */
  function ReadLine(line: string): (r: Option<seq<Part>>)
    ensures r.Some? ==> |r.value| <= 1
  {
    match IndexOf(line, '|')
    case None => Some([])
    case Some(p) =>
      if p == 0 then Some([])
      else match (ReadInt(line[..p]), Body(line[p + 1..]))
        case (Some(index), Some(body)) => if Int32(index) then Some([Part(index, body)]) else None
        case _ => None
  }

  function ReadLines(lines: seq<string>): Option<seq<Part>> {
    if |lines| == 0 then Some([])
    else match (ReadLine(lines[0]), ReadLines(lines[1..]))
      case (Some(first), Some(rest)) => Some(first + rest)
      case _ => None
  }

  function PutAll(parts: seq<Part>, more: seq<Part>): seq<Part>
    decreases |more|
  {
    if |more| == 0 then parts else PutAll(Put(parts, more[0].index, more[0].body), more[1..])
  }

  /** The entry that lines of text state. */
  function Parsed(lines: seq<string>): Option<Entry> {
    if |lines| == 0 then None
    else
      var header := Split(lines[0], '|');
      if |header| < 2 then None
      else match (ReadInt(header[0]), ReadInt(header[1]), ReadLines(lines[1..]))
        case (Some(total), Some(receivedAt), Some(parts)) =>
          if Int32(total) && Int64(receivedAt) then Some(Entry(total, receivedAt, PutAll([], parts))) else None
        case _ => None
  }

  /** `loadEntry` on stored text. */
  function Loaded(raw: string): Option<Entry> {
    Parsed(NotBlank(Split(raw, '\n')))
  }

  // ---- reading back what was written ----

  lemma {:induction false} SplitOff(piece: string, c: char, rest: string)
    requires c !in piece
    ensures Split(piece + [c] + rest, c) == [piece] + Split(rest, c)
  {
    var s := piece + [c] + rest;
    if |piece| == 0 {
      assert s[1..] == rest;
    } else {
      assert s[1..] == piece[1..] + [c] + rest;
      SplitOff(piece[1..], c, rest);
      assert [piece[0]] + piece[1..] == piece;
    }
  }

  lemma {:induction false} SplitWhole(piece: string, c: char)
    requires c !in piece
    ensures Split(piece, c) == [piece]
  {
    if |piece| > 0 {
      SplitWhole(piece[1..], c);
      assert [piece[0]] + piece[1..] == piece;
    }
  }

  ghost predicate OneLiner(line: string) {
    '\n' !in line && !Blank(line)
  }

  lemma {:induction false} LinesComeBack(lines: seq<string>)
    requires forall i | 0 <= i < |lines| :: OneLiner(lines[i])
    ensures NotBlank(Split(Unlines(lines), '\n')) == lines
  {
    if |lines| == 0 {
      assert NotBlank([""]) == [] + NotBlank([""][1..]);
    } else {
      assert OneLiner(lines[0]);
      var rest := Split(Unlines(lines[1..]), '\n');
      SplitOff(lines[0], '\n', Unlines(lines[1..]));
      assert lines[0] + "\n" + Unlines(lines[1..]) == lines[0] + ['\n'] + Unlines(lines[1..]);
      LinesComeBack(lines[1..]);
      var all := [lines[0]] + rest;
      assert all[0] == lines[0] && all[1..] == rest;
      assert [lines[0]] + lines[1..] == lines;
    }
  }

  lemma NumeralHasNoMark(s: string, c: char)
    requires IsNumeral(s) && (c == '|' || c == '\n')
    ensures c !in s
  {
  }

  lemma StartsWithNumeral(n: int, rest: string)
    requires '\n' !in rest
    ensures OneLiner(Show(n) + rest)
  {
    IntRoundTrip(n);
    NumeralHasNoMark(Show(n), '\n');
    var s := Show(n) + rest;
    assert s[0] == Show(n)[0];
    assert '0' <= s[0] <= '9' || s[0] == '-';
  }

  lemma BodyRoundTrip(body: string)
    ensures Body(EncodeBase64(EncodeUtf8(body))) == Some(body) && '\n' !in EncodeBase64(EncodeUtf8(body))
  {
    Utf8RoundTrip(body);
    Base64RoundTrip(EncodeUtf8(body));
  }

  lemma AtTheBar(a: string, b: string)
    requires '|' !in a
    ensures var line := a + "|" + b;
      IndexOf(line, '|') == Some(|a|) && line[..|a|] == a && line[|a| + 1..] == b
  {
    var line := a + "|" + b;
    assert line[|a|] == '|' && forall i :: 0 <= i < |a| ==> line[i] == a[i];
  }

  lemma LineIsOne(part: Part)
    ensures OneLiner(Line(part))
  {
    var a, b := Show(part.index), EncodeBase64(EncodeUtf8(part.body));
    BodyRoundTrip(part.body);
    StartsWithNumeral(part.index, "|" + b);
    assert a + "|" + b == a + ("|" + b);
  }

  lemma LineRoundTrip(part: Part)
    requires Int32(part.index)
    ensures ReadLine(Line(part)) == Some([part])
  {
    var a, b := Show(part.index), EncodeBase64(EncodeUtf8(part.body));
    IntRoundTrip(part.index);
    NumeralHasNoMark(a, '|');
    BodyRoundTrip(part.body);
    AtTheBar(a, b);
  }

  predicate Below(parts: seq<Part>, index: int) {
    forall i | 0 <= i < |parts| :: parts[i].index < index
  }

  lemma {:induction false} PutLast(parts: seq<Part>, last: Part)
    requires Below(parts, last.index)
    ensures Put(parts, last.index, last.body) == parts + [last]
  {
    if |parts| > 0 {
      assert Below(parts[1..], last.index);
      PutLast(parts[1..], last);
      assert [parts[0]] + parts[1..] == parts;
    }
  }

  lemma {:induction false} LinesAreLines(parts: seq<Part>)
    ensures forall i | 0 <= i < |Lines(parts)| :: OneLiner(Lines(parts)[i])
  {
    if |parts| > 0 {
      LineIsOne(parts[0]);
      LinesAreLines(parts[1..]);
    }
  }

  lemma ReadLinesStep(line: string, part: Part, lines: seq<string>, parts: seq<Part>)
    requires ReadLine(line) == Some([part]) && ReadLines(lines) == Some(parts)
    ensures ReadLines([line] + lines) == Some([part] + parts)
  {
    assert ([line] + lines)[1..] == lines;
  }

  lemma {:induction false} LinesRoundTrip(parts: seq<Part>)
    requires forall i | 0 <= i < |parts| :: Int32(parts[i].index)
    ensures ReadLines(Lines(parts)) == Some(parts)
  {
    if |parts| > 0 {
      LineRoundTrip(parts[0]);
      LinesRoundTrip(parts[1..]);
      ReadLinesStep(Line(parts[0]), parts[0], Lines(parts[1..]), parts[1..]);
      assert [parts[0]] + parts[1..] == parts;
    }
  }

  lemma {:induction false} PutAllInOrder(before: seq<Part>, parts: seq<Part>)
    requires Sorted(parts) && (|parts| > 0 ==> Below(before, parts[0].index))
    ensures PutAll(before, parts) == before + parts
    decreases |parts|
  {
    if |parts| == 0 {
      assert before + parts == before;
    } else {
      PutLast(before, parts[0]);
      PutAllInOrder(before + [parts[0]], parts[1..]);
      assert before + [parts[0]] + parts[1..] == before + parts;
    }
  }

  lemma SplitInTwo(a: string, b: string)
    requires '|' !in a && '|' !in b
    ensures Split(a + "|" + b, '|') == [a, b]
  {
    SplitOff(a, '|', b);
    SplitWhole(b, '|');
    assert a + "|" + b == a + ['|'] + b;
  }

  lemma HeaderRoundTrip(e: Entry)
    ensures Split(Header(e), '|') == [Show(e.total), Show(e.receivedAt)] && OneLiner(Header(e))
  {
    var a, b := Show(e.total), Show(e.receivedAt);
    IntRoundTrip(e.total);
    IntRoundTrip(e.receivedAt);
    NumeralHasNoMark(a, '|');
    NumeralHasNoMark(b, '|');
    NumeralHasNoMark(b, '\n');
    SplitInTwo(a, b);
    StartsWithNumeral(e.total, "|" + b);
    assert Header(e) == a + ("|" + b);
  }

  lemma ParsedRoundTrip(e: Entry)
    requires Storable(e)
    ensures Parsed([Header(e)] + Lines(e.parts)) == Some(e)
  {
    HeaderRoundTrip(e);
    LinesRoundTrip(e.parts);
    PutAllInOrder([], e.parts);
    assert [] + e.parts == e.parts;
    var lines := [Header(e)] + Lines(e.parts);
    assert lines[0] == Header(e) && lines[1..] == Lines(e.parts);
    IntRoundTrip(e.total);
    IntRoundTrip(e.receivedAt);
  }

  /** `loadEntry` undoes `saveEntry`. */
  lemma EntryRoundTrip(e: Entry)
    requires Storable(e)
    ensures Loaded(Saved(e)) == Some(e)
  {
    HeaderRoundTrip(e);
    LinesAreLines(e.parts);
    LinesComeBack([Header(e)] + Lines(e.parts));
    ParsedRoundTrip(e);
  }

  // ---- the formats ----

  /** One character of each length: U+24, U+A3, U+20AC and U+10348, as in section 3 of RFC 3629. */
  lemma Utf8AsWritten()
    ensures EncodePoint(0x24) == [0x24] && EncodePoint(0xA3) == [0xC2, 0xA3]
    ensures EncodePoint(0x20AC) == [0xE2, 0x82, 0xAC] && EncodePoint(0x10348) == [0xF0, 0x90, 0x8D, 0x88]
  {
  }

  /** The alphabet of section 4 of RFC 4648: A to Z, a to z, 0 to 9, plus and slash. */
  lemma AlphabetAsWritten()
    ensures Letter(0) == 'A' && Letter(26) == 'a' && Letter(52) == '0' && Letter(62) == '+' && Letter(63) == '/'
    ensures forall x: Sextet :: x != 25 && x != 51 && x < 61 ==> Letter(x + 1) == Letter(x) + 1 as char
  {
  }

  /** The bytes of "foo", "fo" and "f", as in section 10 of RFC 4648. */
  lemma Base64AsWritten()
    ensures EncodeBase64([0x66, 0x6F, 0x6F]) == "Zm9v" && EncodeBase64([0x66, 0x6F]) == "Zm8="
    ensures EncodeBase64([0x66]) == "Zg=="
  {
    var foo: seq<Byte> := [0x66, 0x6F, 0x6F];
    assert foo[3..] == [];
    assert EncodeBase64(foo) == [Letter(25), Letter(38), Letter(61), Letter(47)] + EncodeBase64(foo[3..]);
  }

  /** An entry is saved as a line with its total and time and a line for each part. */
  lemma SavedAsWritten(total: int, receivedAt: int, a: Part, b: Part)
    ensures Saved(Entry(total, receivedAt, [a, b]))
      == Show(total) + "|" + Show(receivedAt) + "\n"
         + (Show(a.index) + "|" + EncodeBase64(EncodeUtf8(a.body)) + "\n"
            + (Show(b.index) + "|" + EncodeBase64(EncodeUtf8(b.body)) + "\n"))
  {
    var e := Entry(total, receivedAt, [a, b]);
    var parts := [a, b];
    assert parts[1..] == [b] && [b][1..] == [];
    assert Lines(parts[1..]) == [Line(b)] + Lines([b][1..]) == [Line(b)];
    assert Lines(e.parts) == [Line(a), Line(b)];
    assert [Header(e)] + Lines(e.parts) == [Header(e), Line(a), Line(b)];
    ThreeLines(Header(e), Line(a), Line(b));
  }

  lemma ThreeLines(x: string, y: string, z: string)
    ensures Unlines([x, y, z]) == x + "\n" + (y + "\n" + (z + "\n"))
  {
    var lines := [x, y, z];
    assert lines[1..] == [y, z] && [y, z][1..] == [z] && [z][1..] == [];
    assert Unlines([z]) == z + "\n" + "" == z + "\n";
    assert Unlines([y, z]) == y + "\n" + Unlines([z]);
  }

  // ---- text that was not written so ----

  /** A line without a bar, or that begins with one, states no part and is passed over; one whose number cannot
      be read or does not fit makes the whole text unreadable. */
  lemma {:induction false} OddLines(before: seq<string>, line: string, after: seq<string>)
    ensures '|' !in line || line[0] == '|' ==> ReadLines(before + [line] + after) == ReadLines(before + after)
    ensures '|' in line && line[0] != '|' && (var n := ReadInt(line[..BarAt(line)]); n.None? || !Int32(n.value))
      ==> ReadLines(before + [line] + after) == None
    decreases |before|
  {
    var all := before + [line] + after;
    if before == [] {
      assert all[0] == line && all[1..] == after && before + after == after;
      OddLine(line);
      var rest := ReadLines(after);
      assert rest.Some? ==> [] + rest.value == rest.value;
    } else {
      assert all[0] == before[0] && all[1..] == before[1..] + [line] + after;
      assert (before + after)[0] == before[0] && (before + after)[1..] == before[1..] + after;
      OddLines(before[1..], line, after);
    }
  }

  function BarAt(line: string): (p: nat)
    requires '|' in line
    ensures p < |line| && line[p] == '|' && '|' !in line[..p]
  {
    IndexOf(line, '|').value
  }

  lemma OddLine(line: string)
    ensures '|' !in line || line[0] == '|' ==> ReadLine(line) == Some([])
    ensures '|' in line && line[0] != '|' && (var n := ReadInt(line[..BarAt(line)]); n.None? || !Int32(n.value))
      ==> ReadLine(line) == None
  {
  }

  /** Of the header only the first two pieces count, both of which must be there, be numbers and fit. */
  lemma HeaderPieces(lines: seq<string>)
    requires |lines| > 0
    ensures var pieces := Split(lines[0], '|');
      Parsed(lines).Some? <==>
        |pieces| >= 2 && ReadLines(lines[1..]).Some?
        && (var total, time := ReadInt(pieces[0]), ReadInt(pieces[1]);
            && total.Some? && -0x8000_0000 <= total.value < 0x8000_0000
            && time.Some? && -0x8000_0000_0000_0000 <= time.value < 0x8000_0000_0000_0000)
    ensures Parsed(lines).Some? ==>
      ReadInt(Split(lines[0], '|')[0]) == Some(Parsed(lines).value.total)
      && ReadInt(Split(lines[0], '|')[1]) == Some(Parsed(lines).value.receivedAt)
  {
  }
}
