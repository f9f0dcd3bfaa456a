/** `extractConcatInfo`: the concatenation element of a received short message, read from the bytes
    of its TPDU (3GPP TS 23.040, sections 9.2.3.24.1 and 9.2.3.24.8). */
module ConcatHeader {
  import opened Prelude

  type Byte = b: int | 0 <= b < 256

  datatype ConcatInfo = ConcatInfo(reference: int, total: int, index: int)

  /** `b and 0x40`. */
  predicate HasUserDataHeader(b: Byte) {
    (b / 64) % 2 == 1
  }

  predicate InRange(info: ConcatInfo) {
    2 <= info.total <= 255 && 1 <= info.index <= info.total
  }

  /** The information in an element: the 8-bit form, the 16-bit form, or none. */
  function Read(id: Byte, data: seq<Byte>): Option<ConcatInfo> {
    if id == 0x00 && |data| == 3 then Some(ConcatInfo(data[0], data[1], data[2]))
    else if id == 0x08 && |data| == 4 then Some(ConcatInfo((data[0] as int) * 256 + data[1] as int, data[2], data[3]))
    else None
  }

  /** What the loop over the header's elements finds from `cursor` on. */
  function Scan(pdu: seq<Byte>, cursor: nat, consumed: nat, headerLength: nat,
                info: Option<ConcatInfo>): Option<ConcatInfo>
    decreases headerLength - consumed
  {
    if consumed + 2 > headerLength || |pdu| < cursor + 2 then info
    else
      var length: int := pdu[cursor + 1];
      if |pdu| < cursor + 2 + length then info
      else
        var found := if info.Some? then info else Read(pdu[cursor], pdu[cursor + 2..cursor + 2 + length]);
        Scan(pdu, cursor + 2 + length, consumed + 2 + length, headerLength, found)
  }

  /** Position of the user data header's length octet. */
  function HeaderAt(digits: nat): nat {
    2 + ((digits + 1) / 2 + 1) + 2 + 7 + 1
  }

  function Extracted(pdu: seq<Byte>): Option<ConcatInfo> {
    if |pdu| < 4 || !HasUserDataHeader(pdu[0]) || pdu[1] > 20 then None
    else
      var at := HeaderAt(pdu[1]);
      if |pdu| <= at || pdu[at] == 0 || pdu[at] > 20 then None
      else
        var info := Scan(pdu, at + 1, 0, pdu[at], None);
        if info.Some? && InRange(info.value) then info else None
  }

  /** The method reads only inside the array and always terminates. */
  method ExtractConcatInfo(bytes: Option<seq<Byte>>) returns (r: Option<ConcatInfo>)
    ensures r == if bytes.Some? then Extracted(bytes.value) else None
  {
    if bytes.None? {
      return None;
    }
    var pdu := bytes.value;
    if |pdu| < 4 {
      return None;
    }
    var cursor := 0;
    if !HasUserDataHeader(pdu[cursor]) {
      return None;
    }
    cursor := cursor + 1;
    var addressLengthDigits: int := pdu[cursor];
    if addressLengthDigits > 20 {
      return None;
    }
    cursor := cursor + 1;
    cursor := cursor + (addressLengthDigits + 1) / 2 + 1;
    cursor := cursor + 2;
    cursor := cursor + 7;
    if |pdu| <= cursor + 1 {
      return None;
    }
    cursor := cursor + 1;
    var headerLength: int := pdu[cursor];
    if headerLength == 0 || headerLength > 20 {
      return None;
    }
    cursor := cursor + 1;
    var info := ScanElements(pdu, cursor, headerLength);
    r := if info.Some? && InRange(info.value) then info else None;
  }

  /** The loop over the elements. */
  method ScanElements(pdu: seq<Byte>, start: nat, headerLength: nat) returns (info: Option<ConcatInfo>)
    ensures info == Scan(pdu, start, 0, headerLength, None)
  {
    var cursor, consumed := start, 0;
    info := None;
    while consumed + 2 <= headerLength && |pdu| >= cursor + 2
      invariant 0 <= cursor && 0 <= consumed
      invariant Scan(pdu, cursor, consumed, headerLength, info) == Scan(pdu, start, 0, headerLength, None)
      decreases headerLength - consumed
    {
      var elementId := pdu[cursor];
      var elementLength: int := pdu[cursor + 1];
      cursor := cursor + 2;
      if |pdu| < cursor + elementLength {
        break;
      }
      ghost var data := pdu[cursor..cursor + elementLength];
      if info.None? && elementId == 0x00 && elementLength == 3 {
        info := Some(ConcatInfo(pdu[cursor], pdu[cursor + 1], pdu[cursor + 2]));
        assert info == Read(elementId, data);
      } else if info.None? && elementId == 0x08 && elementLength == 4 {
        info := Some(ConcatInfo((pdu[cursor] as int) * 256 + pdu[cursor + 1] as int, pdu[cursor + 2], pdu[cursor + 3]));
        assert info == Read(elementId, data);
      }
      cursor := cursor + elementLength;
      consumed := consumed + 2 + elementLength;
    }
  }

  // ---- well-formed messages ----

  datatype Element = Element(id: Byte, data: seq<Byte>)

  function Encode(elements: seq<Element>): seq<Byte>
    requires forall i :: 0 <= i < |elements| ==> |elements[i].data| < 256
  {
    if |elements| == 0 then []
    else [elements[0].id, |elements[0].data|] + elements[0].data + Encode(elements[1..])
  }

  /** The first element in one of the two concatenation forms. */
  function FirstConcat(elements: seq<Element>): Option<ConcatInfo> {
    if |elements| == 0 then None
    else
      var info := Read(elements[0].id, elements[0].data);
      if info.Some? then info else FirstConcat(elements[1..])
  }

  /** An SMS-DELIVER message: first octet, originating address, PID, DCS, time stamp, user data
      length, user data header, user data. */
  datatype Tpdu = Tpdu(
    firstOctet: Byte, digits: Byte, address: seq<Byte>, pid: Byte, dcs: Byte, stamp: seq<Byte>,
    userDataLength: Byte, elements: seq<Element>, userData: seq<Byte>)
  {
    ghost predicate Valid() {
      && HasUserDataHeader(firstOctet)
      && |address| == (digits + 1) / 2 + 1 && |stamp| == 7
      && (forall i :: 0 <= i < |elements| ==> |elements[i].data| < 256)
      && |Encode(elements)| < 256
    }

    ghost function Prefix(): seq<Byte> {
      [firstOctet, digits] + address + [pid, dcs] + stamp + [userDataLength]
    }

    ghost function Bytes(): seq<Byte>
      requires Valid()
    {
      Prefix() + [|Encode(elements)|] + Encode(elements) + userData
    }
  }

  lemma Subslice(s: seq<Byte>, a: nat, b: nat, c: nat, d: nat)
    requires a <= b <= |s| && c <= d <= b - a
    ensures s[a..b][c..d] == s[a + c..a + d]
  {
    var t := s[a..b];
    assert forall i :: c <= i < d ==> t[i] == s[a + i];
    var u, v := t[c..d], s[a + c..a + d];
    assert forall i :: 0 <= i < d - c ==> u[i] == t[c + i];
    assert u == v;
  }

  lemma PartsOfCode(id: Byte, data: seq<Byte>, rest: seq<Byte>)
    requires |data| < 256
    ensures var code := [id, |data|] + data + rest;
      code[0] == id && code[1] == |data| && code[2..2 + |data|] == data && code[2 + |data|..|code|] == rest
  {
  }

  lemma PiecesAt(pdu: seq<Byte>, cursor: nat, id: Byte, data: seq<Byte>, rest: seq<Byte>)
    requires |data| < 256
    requires var code := [id, |data|] + data + rest;
      cursor + |code| <= |pdu| && pdu[cursor..cursor + |code|] == code
    ensures var next := cursor + 2 + |data|;
      && next + |rest| <= |pdu| && pdu[cursor] == id && pdu[cursor + 1] == |data|
      && pdu[cursor + 2..next] == data && pdu[next..next + |rest|] == rest
  {
    PartsOfCode(id, data, rest);
    CodeAt(pdu, cursor, [id, |data|] + data + rest, |data|);
  }

  /** The parts of an encoded list, where it stands in a message. */
  lemma FirstElementAt(elements: seq<Element>, pdu: seq<Byte>, cursor: nat)
    requires |elements| > 0 && forall i :: 0 <= i < |elements| ==> |elements[i].data| < 256
    requires cursor + |Encode(elements)| <= |pdu|
    requires pdu[cursor..cursor + |Encode(elements)|] == Encode(elements)
    ensures var e, rest := elements[0], Encode(elements[1..]);
      var next := cursor + 2 + |e.data|;
      && cursor + |Encode(elements)| == next + |rest|
      && pdu[cursor] == e.id && pdu[cursor + 1] == |e.data|
      && pdu[cursor + 2..next] == e.data && pdu[next..next + |rest|] == rest
  {
    PiecesAt(pdu, cursor, elements[0].id, elements[0].data, Encode(elements[1..]));
  }

  lemma CodeAt(pdu: seq<Byte>, cursor: nat, code: seq<Byte>, n: nat)
    requires cursor + |code| <= |pdu| && pdu[cursor..cursor + |code|] == code && n + 2 <= |code|
    ensures pdu[cursor] == code[0] && pdu[cursor + 1] == code[1]
    ensures pdu[cursor + 2..cursor + 2 + n] == code[2..2 + n]
    ensures pdu[cursor + 2 + n..cursor + |code|] == code[2 + n..|code|]
  {
    assert pdu[cursor..cursor + |code|][0] == pdu[cursor] && pdu[cursor..cursor + |code|][1] == pdu[cursor + 1];
    Subslice(pdu, cursor, cursor + |code|, 2, 2 + n);
    Subslice(pdu, cursor, cursor + |code|, 2 + n, |code|);
  }

  lemma {:induction false} ScanFindsFirst(elements: seq<Element>, pdu: seq<Byte>, cursor: nat, consumed: nat,
                                          headerLength: nat, info: Option<ConcatInfo>)
    requires forall i :: 0 <= i < |elements| ==> |elements[i].data| < 256
    requires cursor + |Encode(elements)| <= |pdu|
    requires pdu[cursor..cursor + |Encode(elements)|] == Encode(elements)
    requires consumed + |Encode(elements)| == headerLength
    ensures Scan(pdu, cursor, consumed, headerLength, info) == if info.Some? then info else FirstConcat(elements)
    decreases |elements|
  {
    if |elements| > 0 {
      var e := elements[0];
      var n := |e.data|;
      FirstElementAt(elements, pdu, cursor);
      var found := if info.Some? then info else Read(e.id, e.data);
      ScanFindsFirst(elements[1..], pdu, cursor + 2 + n, consumed + 2 + n, headerLength, found);
    }
  }

  lemma PartsOf(t: Tpdu)
    requires t.Valid()
    ensures var pdu, at, code := t.Bytes(), HeaderAt(t.digits), Encode(t.elements);
      && at + 1 + |code| <= |pdu|
      && pdu[0] == t.firstOctet && pdu[1] == t.digits && pdu[at] == |code|
      && pdu[at + 1..at + 1 + |code|] == code
  {
    var prefix, code := t.Prefix(), Encode(t.elements);
    assert |prefix| == HeaderAt(t.digits);
    assert prefix[0] == t.firstOctet && prefix[1] == t.digits;
    InTheMiddle(prefix + [|code|], code, t.userData);
  }

  lemma InTheMiddle(a: seq<Byte>, b: seq<Byte>, c: seq<Byte>)
    ensures (a + b + c)[|a|..|a| + |b|] == b
  {
  }

  /** For every message with a user data header, the first concatenation element is returned when its
      total and index are in range and neither address nor header is longer than 20, and nothing
      otherwise. */
  lemma ConcatInfoIsRecovered(t: Tpdu)
    requires t.Valid()
    ensures var info := FirstConcat(t.elements);
      Extracted(t.Bytes())
      == if t.digits <= 20 && |Encode(t.elements)| <= 20
            && info.Some? && 2 <= info.value.total <= 255 && 1 <= info.value.index <= info.value.total
         then info else None
  {
    var pdu, at, code := t.Bytes(), HeaderAt(t.digits), Encode(t.elements);
    PartsOf(t);
    ScanFindsFirst(t.elements, pdu, at + 1, 0, |code|, None);
  }

  // ---- messages cut short ----

  /** What has been found stays, whatever follows. */
  lemma {:induction false} FoundStays(pdu: seq<Byte>, cursor: nat, consumed: nat, headerLength: nat, info: ConcatInfo)
    ensures Scan(pdu, cursor, consumed, headerLength, Some(info)) == Some(info)
    decreases headerLength - consumed
  {
    if consumed + 2 <= headerLength && cursor + 2 <= |pdu| {
      var length: int := pdu[cursor + 1];
      if cursor + 2 + length <= |pdu| {
        FoundStays(pdu, cursor + 2 + length, consumed + 2 + length, headerLength, info);
      }
    }
  }

  /** A concatenation element that is complete counts even if the message is cut short behind it; an element that
      is cut short itself ends the search with nothing. */
  lemma CutShort(pdu: seq<Byte>, cursor: nat, consumed: nat, headerLength: nat)
    requires consumed + 2 <= headerLength && cursor + 2 <= |pdu|
    ensures var end := cursor + 2 + pdu[cursor + 1];
      if end > |pdu| then Scan(pdu, cursor, consumed, headerLength, None) == None
      else var info := Read(pdu[cursor], pdu[cursor + 2..end]);
        info.Some? ==> Scan(pdu, cursor, consumed, headerLength, None) == info
  {
    var end := cursor + 2 + pdu[cursor + 1];
    if end <= |pdu| {
      var info := Read(pdu[cursor], pdu[cursor + 2..end]);
      if info.Some? {
        FoundStays(pdu, end, consumed + 2 + pdu[cursor + 1], headerLength, info.value);
      }
    }
  }

  /** A concatenation element in the 8-bit form and in the 16-bit form. */
  function ShortForm(reference: Byte, total: Byte, index: Byte): Element {
    Element(0x00, [reference, total, index])
  }

  function LongForm(reference: nat, total: Byte, index: Byte): Element
    requires reference < 0x1_0000
  {
    Element(0x08, [reference / 0x100, reference % 0x100, total, index])
  }

  /** Neither form. */
  predicate Unrelated(e: Element) {
    !(e.id == 0x00 && |e.data| == 3) && !(e.id == 0x08 && |e.data| == 4)
  }

  lemma {:induction false} UnrelatedPassed(before: seq<Element>, e: Element, after: seq<Element>)
    requires forall i :: 0 <= i < |before| ==> Unrelated(before[i])
    requires !Unrelated(e)
    ensures FirstConcat(before + [e] + after) == FirstConcat([e])
    decreases |before|
  {
    var all := before + [e] + after;
    if |before| == 0 {
      assert all[0] == e;
    } else {
      assert all[0] == before[0] && all[1..] == before[1..] + [e] + after;
      UnrelatedPassed(before[1..], e, after);
    }
  }

  /** Reference, total and index are read back from either form, whatever other elements stand before and
      after; without such an element there is nothing to read. */
  lemma FormsAreRead(before: seq<Element>, after: seq<Element>, reference: nat, total: Byte, index: Byte)
    requires reference < 0x1_0000 && forall i :: 0 <= i < |before| ==> Unrelated(before[i])
    ensures FirstConcat(before) == None
    ensures var info := Some(ConcatInfo(reference, total, index));
      && FirstConcat(before + [LongForm(reference, total, index)] + after) == info
      && (reference < 0x100 ==> FirstConcat(before + [ShortForm(reference, total, index)] + after) == info)
  {
    NothingToRead(before);
    UnrelatedPassed(before, LongForm(reference, total, index), after);
    if reference < 0x100 {
      UnrelatedPassed(before, ShortForm(reference, total, index), after);
    }
  }

  lemma {:induction false} NothingToRead(elements: seq<Element>)
    requires forall i :: 0 <= i < |elements| ==> Unrelated(elements[i])
    ensures FirstConcat(elements) == None
    decreases |elements|
  {
    if |elements| > 0 {
      NothingToRead(elements[1..]);
    }
  }

  /** Part 1 of 2, after which another element fills the header up to 21 octets. */
  function LongHeader(): Tpdu {
    Tpdu(0x44, 2, [0x91, 0x21], 0, 0, seq(7, _ => 0), 22, [Element(0, [7, 2, 1]), Element(0x24, seq(14, _ => 0))], [])
  }

  /** A legal header of 21 octets is not looked into: the part is taken for a message of its own. */
  lemma LongHeaderIsIgnored()
    ensures LongHeader().Valid() && |Encode(LongHeader().elements)| == 21
    ensures FirstConcat(LongHeader().elements) == Some(ConcatInfo(7, 2, 1)) && InRange(ConcatInfo(7, 2, 1))
    ensures Extracted(LongHeader().Bytes()) == None
  {
    var elements := LongHeader().elements;
    assert Encode(elements[1..][1..]) == [];
    ConcatInfoIsRecovered(LongHeader());
  }
}
