/** `handleIncoming`: which messages the phone keeps. */
module Capture {
  import opened Prelude
  import opened EntryCodec
  import opened Delivery
  import opened Uploader
  import SmsText
  import Ingest

  /** Lower case, for the letters that `SmsText.Canon` folds; the long s is lower case already. */
  function Lower(c: char): char {
    if 'A' <= c <= 'Z' then 'a' + (c - 'A') else if c == '\U{212A}' then 'k' else c
  }

  function Lowered(s: string): (r: string)
    ensures |r| == |s| && forall i | 0 <= i < |s| :: r[i] == Lower(s[i])
  {
    seq(|s|, i requires 0 <= i < |s| => Lower(s[i]))
  }

  function TrimmedStart(s: string): string {
    if |s| > 0 && BlankChar(s[0]) then TrimmedStart(s[1..]) else s
  }

  function TrimmedEnd(s: string): string {
    if |s| > 0 && BlankChar(s[|s| - 1]) then TrimmedEnd(s[..|s| - 1]) else s
  }

  /** `trim().lowercase()`. */
  function Normalized(s: string): string {
    Lowered(TrimmedEnd(TrimmedStart(s)))
  }

  predicate Unnamed(senderId: Option<string>) {
    senderId.None? || Blank(senderId.value)
  }

  predicate GateAllows(sender: string, senderIds: seq<Option<string>>) {
    var normalized := Normalized(sender);
    normalized != ""
    && ((exists i | 0 <= i < |senderIds| :: !Unnamed(senderIds[i]) && Normalized(senderIds[i].value) == normalized)
        || exists i | 0 <= i < |senderIds| :: Unnamed(senderIds[i]))
  }

  datatype CaptureDecision = CapturedNow | DuplicateIgnored | DroppedNoProviders | DroppedUnmatchedSender

  /** Whole seconds, as integer division of a `Long` truncates. */
  function Seconds(millis: int): int {
    if millis >= 0 then millis / 1000 else -(-millis / 1000)
  }

  /** A message as it arrives. */
  datatype Incoming = Incoming(sender: string, body: string, receivedAt: int)

  type Digest = (string, string, int) -> string

  function KeyOf(m: Incoming, hash: Digest): string {
    hash(m.sender, m.body, Seconds(m.receivedAt))
  }

  function Decided(rows: Rows, m: Incoming, senderIds: seq<Option<string>>, hash: Digest): CaptureDecision {
    if senderIds == [] then DroppedNoProviders
    else if !GateAllows(m.sender, senderIds) then DroppedUnmatchedSender
    else if exists k | k in rows :: rows[k].dedupHash == KeyOf(m, hash) then DuplicateIgnored
    else CapturedNow
  }

  /** The rows after a message, which gets the identifier `id` if it is kept. */
  function Kept(rows: Rows, m: Incoming, id: nat, senderIds: seq<Option<string>>, hash: Digest): Rows {
    if Decided(rows, m, senderIds, hash).CapturedNow?
    then rows[id := Row(m.sender, m.body, m.receivedAt, KeyOf(m, hash), Waiting)]
    else rows
  }

  /** `handleIncoming`, with a new identifier `id`; `hash` stands for the digest of sender, body and
      second. A message is kept exactly when some provider is known, the gate lets it through, and no
      row has its hash. */
  method HandleIncoming(store: CaptureStore, m: Incoming, id: nat, senderIds: seq<Option<string>>, hash: Digest)
    returns (decision: CaptureDecision)
    requires id !in store.rows
    modifies store
    ensures decision == Decided(old(store.rows), m, senderIds, hash)
    ensures store.rows == Kept(old(store.rows), m, id, senderIds, hash)
  {
    if senderIds == [] {
      return DroppedNoProviders;
    }
    if !GateAllows(m.sender, senderIds) {
      return DroppedUnmatchedSender;
    }
    var dedupHash := KeyOf(m, hash);
    var inserted := store.Insert(id, Row(m.sender, m.body, m.receivedAt, dedupHash, Waiting));
    decision := if inserted then CapturedNow else DuplicateIgnored;
  }

  /** A message is dropped when no provider is known, or else when the gate is closed to it; if it is kept, it
      waits as it came, and no other row changes. */
  lemma KeptAsItCame(rows: Rows, m: Incoming, id: nat, senderIds: seq<Option<string>>, hash: Digest)
    requires id !in rows
    ensures var decision, after := Decided(rows, m, senderIds, hash), Kept(rows, m, id, senderIds, hash);
      && (decision == DroppedNoProviders <==> |senderIds| == 0)
      && (decision == DroppedUnmatchedSender <==> |senderIds| > 0 && !GateAllows(m.sender, senderIds))
      && (decision == CapturedNow <==> after != rows)
      && (forall k | k in rows :: k in after && after[k] == rows[k])
      && (decision == CapturedNow ==>
            && after.Keys == rows.Keys + {id} && after[id].status == Waiting
            && after[id].sender == m.sender && after[id].body == m.body && after[id].receivedAt == m.receivedAt)
  {
    var after := Kept(rows, m, id, senderIds, hash);
    if Decided(rows, m, senderIds, hash).CapturedNow? {
      assert id in after;
    }
  }

  // ---- the same message twice ----

  /** The digests of different texts, or of different seconds, differ. */
  ghost predicate Injective(hash: Digest) {
    forall s, b, t: int, s', b', t': int :: hash(s, b, t) == hash(s', b', t') ==> s == s' && b == b' && t == t'
  }

  ghost predicate SameSecond(a: int, b: int) {
    exists k: nat :: Within(a, k) && Within(b, k)
  }

  predicate Within(millis: int, k: nat) {
    1000 * k <= millis < 1000 * k + 1000
  }

  lemma SecondsExactly(a: int, b: int)
    requires a >= 0 && b >= 0
    ensures Seconds(a) == Seconds(b) <==> SameSecond(a, b)
  {
    assert Within(a, a / 1000);
    forall k: nat | Within(a, k) && Within(b, k) ensures a / 1000 == k && b / 1000 == k {}
  }

  /** A second message with the sender and text of one just kept is ignored within the same second. */
  lemma KeptOnceASecond(rows: Rows, m: Incoming, later: int, id: nat, id': nat,
                        senderIds: seq<Option<string>>, hash: Digest)
    requires Decided(rows, m, senderIds, hash).CapturedNow?
    requires m.receivedAt >= 0 && later >= 0 && SameSecond(m.receivedAt, later)
    ensures var after, again := Kept(rows, m, id, senderIds, hash), m.(receivedAt := later);
      Decided(after, again, senderIds, hash).DuplicateIgnored? && Kept(after, again, id', senderIds, hash) == after
  {
    SecondsExactly(m.receivedAt, later);
    assert Kept(rows, m, id, senderIds, hash)[id].dedupHash == KeyOf(m, hash);
  }

  /** With a digest that does not collide, a message is not mistaken for one of another sender, another text
      or another second. */
  lemma OthersAreKept(rows: Rows, m: Incoming, other: Incoming, id: nat, senderIds: seq<Option<string>>, hash: Digest)
    requires id !in rows && Injective(hash) && m.receivedAt >= 0 && other.receivedAt >= 0
    requires Decided(rows, other, senderIds, hash).CapturedNow?
    requires m.sender != other.sender || m.body != other.body || !SameSecond(m.receivedAt, other.receivedAt)
    ensures Decided(Kept(rows, m, id, senderIds, hash), other, senderIds, hash).CapturedNow?
  {
    SecondsExactly(m.receivedAt, other.receivedAt);
    assert KeyOf(m, hash) != KeyOf(other, hash);
  }

  // ---- the phone's gate and the server's ----

  /** The characters that the phone counts as white space. */
  lemma BlanksListed(c: char)
    ensures BlankChar(c) <==>
      c in {'\t', '\n', '\U{B}', '\U{C}', '\r', '\U{1C}', '\U{1D}', '\U{1E}', '\U{1F}', ' ', '\U{A0}', '\U{1680}',
            '\U{2000}', '\U{2001}', '\U{2002}', '\U{2003}', '\U{2004}', '\U{2005}', '\U{2006}', '\U{2007}', '\U{2008}',
            '\U{2009}', '\U{200A}', '\U{2028}', '\U{2029}', '\U{202F}', '\U{205F}', '\U{3000}'}
  {
  }

  ghost predicate SameLower(s: string, t: string) {
    |s| == |t| && forall i | 0 <= i < |s| :: Lower(s[i]) == Lower(t[i])
  }

  /** Both strings have their long s in the same places. */
  ghost predicate LongSAgrees(s: string, t: string)
    requires |s| == |t|
  {
    forall i | 0 <= i < |s| :: s[i] == '\U{17F}' <==> t[i] == '\U{17F}'
  }

  lemma FoldedBlanks(a: char, b: char)
    requires SmsText.Canon(a) == SmsText.Canon(b)
    ensures BlankChar(a) <==> BlankChar(b)
    ensures BlankChar(a) ==> a == b
    ensures Lower(a) == Lower(b) <==> (a == '\U{17F}' <==> b == '\U{17F}')
  {
  }

  lemma SameLowerIsAgreement(s: string, t: string)
    requires SmsText.FoldEq(s, t)
    ensures SameLower(s, t) <==> LongSAgrees(s, t)
  {
    forall i | 0 <= i < |s| ensures Lower(s[i]) == Lower(t[i]) <==> (s[i] == '\U{17F}' <==> t[i] == '\U{17F}') {
      FoldedBlanks(s[i], t[i]);
    }
  }

  lemma LoweredEqual(s: string, t: string)
    ensures Lowered(s) == Lowered(t) <==> SameLower(s, t)
  {
    if Lowered(s) == Lowered(t) {
      forall i | 0 <= i < |s| ensures Lower(s[i]) == Lower(t[i]) {
        assert Lowered(s)[i] == Lowered(t)[i];
      }
    }
  }

  lemma {:induction false} TrimStartAgrees(s: string, t: string)
    requires SmsText.FoldEq(s, t)
    ensures SmsText.FoldEq(TrimmedStart(s), TrimmedStart(t))
    ensures SameLower(s, t) <==> SameLower(TrimmedStart(s), TrimmedStart(t))
  {
    if |s| > 0 {
      FoldedBlanks(s[0], t[0]);
      if BlankChar(s[0]) {
        TrimStartAgrees(s[1..], t[1..]);
        if SameLower(s[1..], t[1..]) {
          forall i | 0 <= i < |s| ensures Lower(s[i]) == Lower(t[i]) {
            assert i > 0 ==> s[i] == s[1..][i - 1] && t[i] == t[1..][i - 1];
          }
        }
      }
    }
  }

  lemma {:induction false} TrimEndAgrees(s: string, t: string)
    requires SmsText.FoldEq(s, t)
    ensures SameLower(s, t) <==> SameLower(TrimmedEnd(s), TrimmedEnd(t))
  {
    if |s| > 0 {
      var n := |s| - 1;
      FoldedBlanks(s[n], t[n]);
      if BlankChar(s[n]) {
        TrimEndAgrees(s[..n], t[..n]);
        if SameLower(s[..n], t[..n]) {
          forall i | 0 <= i < |s| ensures Lower(s[i]) == Lower(t[i]) {
            assert i < n ==> s[i] == s[..n][i] && t[i] == t[..n][i];
          }
        }
      }
    }
  }

  lemma {:induction false} NotBlankStart(s: string)
    ensures TrimmedStart(s) == "" <==> Blank(s)
    ensures TrimmedStart(s) != "" ==> !BlankChar(TrimmedStart(s)[0])
  {
    if |s| > 0 && BlankChar(s[0]) {
      NotBlankStart(s[1..]);
      if Blank(s[1..]) {
        assert forall i | 0 <= i < |s| :: BlankChar(s[i]) by {
          forall i | 0 <= i < |s| ensures BlankChar(s[i]) {
            assert i > 0 ==> s[i] == s[1..][i - 1];
          }
        }
      }
    }
  }

  lemma {:induction false} TrimEndKeepsHead(s: string)
    requires s != "" && !BlankChar(s[0])
    ensures TrimmedEnd(s) != ""
  {
    if |s| > 1 && BlankChar(s[|s| - 1]) {
      TrimEndKeepsHead(s[..|s| - 1]);
    }
  }

  lemma NormalizedIsEmpty(s: string)
    ensures Normalized(s) == "" <==> Blank(s)
  {
    NotBlankStart(s);
    if TrimmedStart(s) != "" {
      TrimEndKeepsHead(TrimmedStart(s));
    }
  }

  /** Where the server's gate opens for a provider, the phone's gate for that provider opens exactly
      when the sender is not blank and either the provider names no sender or sender and name have the
      long s in the same places: the server's folding equates it with `s`, lower-casing does not. */
  lemma GatesAgree(p: Ingest.Provider, sender: string)
    requires Ingest.SenderGate(p, sender)
    ensures GateAllows(sender, [p.senderId]) <==>
      !Blank(sender)
      && (Unnamed(p.senderId) || (|sender| == |p.senderId.value| && LongSAgrees(sender, p.senderId.value)))
  {
    NormalizedIsEmpty(sender);
    var ids := [p.senderId];
    if !Unnamed(p.senderId) {
      var name := p.senderId.value;
      assert name != "";
      TrimStartAgrees(sender, name);
      TrimEndAgrees(TrimmedStart(sender), TrimmedStart(name));
      LoweredEqual(TrimmedEnd(TrimmedStart(sender)), TrimmedEnd(TrimmedStart(name)));
      SameLowerIsAgreement(sender, name);
      assert ids[0] == p.senderId;
    } else {
      assert Unnamed(ids[0]);
    }
  }

  /** The phone's gate for a provider that names its sender opens only when the server's comparison, applied
      to the trimmed texts, would. */
  lemma PhoneTakesOnlyItsOwn(senderId: string, sender: string)
    requires !Blank(senderId) && GateAllows(sender, [Some(senderId)])
    ensures SmsText.FoldEq(TrimmedEnd(TrimmedStart(sender)), TrimmedEnd(TrimmedStart(senderId)))
  {
    var a, b := TrimmedEnd(TrimmedStart(sender)), TrimmedEnd(TrimmedStart(senderId));
    assert Lowered(a) == Lowered(b);
    LoweredEqual(a, b);
    forall i | 0 <= i < |a| ensures SmsText.Canon(a[i]) == SmsText.Canon(b[i]) {
      assert Lower(a[i]) == Lower(b[i]);
    }
  }

  function SenderIds(providers: seq<Ingest.Provider>): (ids: seq<Option<string>>)
    ensures |ids| == |providers| && forall i | 0 <= i < |ids| :: ids[i] == providers[i].senderId
  {
    seq(|providers|, i requires 0 <= i < |providers| => providers[i].senderId)
  }

  /** The phone drops no message that a provider it knows would have taken, long s and blank senders
      aside. */
  lemma PhoneDropsNothingWanted(providers: seq<Ingest.Provider>, i: nat, sender: string)
    requires i < |providers| && Ingest.SenderGate(providers[i], sender) && !Blank(sender)
    requires '\U{17F}' !in sender && (providers[i].senderId.Some? ==> '\U{17F}' !in providers[i].senderId.value)
    ensures GateAllows(sender, SenderIds(providers))
  {
    GatesAgree(providers[i], sender);
    var one, ids := [providers[i].senderId], SenderIds(providers);
    assert one[0] == ids[i];
    if !Unnamed(ids[i]) {
      assert forall j | 0 <= j < |one| :: one[j] == ids[i];
    }
  }

  /** A sender spelt with a long s is one the server would take and the phone drops. */
  lemma LongSIsDropped(p: Ingest.Provider)
    requires p.senderId == Some("s")
    ensures Ingest.SenderGate(p, "\U{17F}") && !GateAllows("\U{17F}", [p.senderId])
  {
    assert SmsText.FoldEq("\U{17F}", "s");
    GatesAgree(p, "\U{17F}");
    assert !BlankChar("s"[0]);
    assert "\U{17F}"[0] == '\U{17F}' && "s"[0] != '\U{17F}';
  }
}
