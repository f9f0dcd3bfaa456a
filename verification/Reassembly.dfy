/** What the multipart assembler does to its entries, one part or one pruning at a time, and what
    that makes of a whole message. */
module Reassembly {
  import opened Prelude
  import opened ConcatHeader
  import opened EntryCodec

  type Long = n: int | Int64(n)

  datatype Message = Message(originatingAddress: Option<string>, messageBody: Option<string>, timestamp: Long,
                             pdu: Option<seq<Byte>>)
  {
    function Sender(): string {
      if originatingAddress.Some? then originatingAddress.value else ""
    }

    function Body(): string {
      if messageBody.Some? then messageBody.value else ""
    }

    function Concat(): (r: Option<ConcatInfo>)
      ensures r.Some? ==> InRange(r.value)
    {
      if pdu.Some? then Extracted(pdu.value) else None
    }

    /** The entry a part belongs to; `None` for a message that is not a part. */
    function Key(): Option<string> {
      match Concat()
      case None => None
      case Some(info) => Some(KeyOf(Sender(), info.reference, info.total))
    }
  }

  datatype IncomingSms = IncomingSms(sender: string, body: string, receivedAt: int)

  function KeyOf(sender: string, reference: int, total: int): string {
    sender + "|" + Show(reference) + "|" + Show(total)
  }

  type Store = map<string, Entry>

  datatype Event = Feed(message: Message) | Prune(cutoff: int)

  /** The bodies of parts `first` to `total`, those absent left out. */
  function Joined(parts: seq<Part>, first: int, total: int): string
    decreases total - first
  {
    if first > total then ""
    else
      var body := Get(parts, first);
      (if body.Some? then body.value else "") + Joined(parts, first + 1, total)
  }

  function Grown(store: Store, key: string, info: ConcatInfo, message: Message): Entry {
    var entry := if key in store then store[key] else Entry(info.total, message.timestamp, []);
    entry.(parts := Put(entry.parts, info.index, message.Body()))
  }

  /** An entry with all its parts is taken out, any other is saved. */
  function Stored(store: Store, key: string, entry: Entry): Store {
    if |entry.parts| >= entry.total then store - {key} else store[key := entry]
  }

  function Delivered(sender: string, entry: Entry): Option<IncomingSms> {
    if |entry.parts| >= entry.total then
      Some(IncomingSms(sender, Joined(entry.parts, 1, entry.total), entry.receivedAt))
    else None
  }

  function Next(store: Store, event: Event): Store {
    match event
    case Prune(cutoff) => map key | key in store && store[key].receivedAt >= cutoff :: store[key]
    case Feed(m) =>
      match m.Concat()
      case None => store
      case Some(info) =>
        var key := KeyOf(m.Sender(), info.reference, info.total);
        Stored(store, key, Grown(store, key, info, m))
  }

  function Output(store: Store, event: Event): Option<IncomingSms> {
    match event
    case Prune(_) => None
    case Feed(m) =>
      match m.Concat()
      case None => Some(IncomingSms(m.Sender(), m.Body(), m.timestamp))
      case Some(info) =>
        Delivered(m.Sender(), Grown(store, KeyOf(m.Sender(), info.reference, info.total), info, m))
  }

  function Final(store: Store, events: seq<Event>): Store {
    if |events| == 0 then store else Next(Final(store, events[..|events| - 1]), events[|events| - 1])
  }

  function Added(outputs: seq<IncomingSms>, output: Option<IncomingSms>): seq<IncomingSms> {
    if output.Some? then outputs + [output.value] else outputs
  }

  function Outputs(store: Store, events: seq<Event>): seq<IncomingSms> {
    if |events| == 0 then []
    else
      var before := events[..|events| - 1];
      Added(Outputs(store, before), Output(Final(store, before), events[|events| - 1]))
  }

  predicate Concerns(event: Event, key: string) {
    event.Feed? && event.message.Key() == Some(key)
  }

  /** The outputs that parts of one key gave rise to. */
  function OutputsFor(store: Store, events: seq<Event>, key: string): seq<IncomingSms> {
    if |events| == 0 then []
    else
      var before, last := events[..|events| - 1], events[|events| - 1];
      var outputs := OutputsFor(store, before, key);
      if Concerns(last, key) then Added(outputs, Output(Final(store, before), last)) else outputs
  }

  // ---- keys ----

  function AfterLast(s: string, c: char): string {
    if |s| == 0 || s[|s| - 1] == c then "" else AfterLast(s[..|s| - 1], c) + [s[|s| - 1]]
  }

  function TotalIn(key: string): Option<int> {
    ReadInt(AfterLast(key, '|'))
  }

  lemma {:induction false} AfterLastBar(a: string, b: string)
    requires '|' !in b
    ensures AfterLast(a + "|" + b, '|') == b
  {
    var s := a + "|" + b;
    if |b| == 0 {
      assert s[|s| - 1] == '|';
    } else {
      var shorter := b[..|b| - 1];
      assert s[..|s| - 1] == a + "|" + shorter;
      AfterLastBar(a, shorter);
      assert shorter + [b[|b| - 1]] == b;
    }
  }

  lemma NumeralHasNoBar(n: int)
    ensures '|' !in Show(n) && ReadInt(Show(n)) == Some(n)
  {
    IntRoundTrip(n);
    NumeralHasNoMark(Show(n), '|');
  }

  lemma KeyStatesTotal(sender: string, reference: int, total: int)
    ensures TotalIn(KeyOf(sender, reference, total)) == Some(total)
  {
    NumeralHasNoBar(total);
    AfterLastBar(sender + "|" + Show(reference), Show(total));
  }

  lemma SameParts(a: string, b: string, c: string, d: string)
    requires '|' !in b && '|' !in d && a + "|" + b == c + "|" + d
    ensures a == c && b == d
  {
    AfterLastBar(a, b);
    AfterLastBar(c, d);
    assert a == (a + "|" + b)[..|a|];
    assert c == (c + "|" + d)[..|c|];
  }

  /** Two parts share an entry only when sender, reference and total agree, bars in senders included. */
  lemma KeysAreDistinct(s: string, r: int, t: int, s': string, r': int, t': int)
    requires KeyOf(s, r, t) == KeyOf(s', r', t')
    ensures s == s' && r == r' && t == t'
  {
    NumeralHasNoBar(t);
    NumeralHasNoBar(t');
    SameParts(s + "|" + Show(r), Show(t), s' + "|" + Show(r'), Show(t'));
    NumeralHasNoBar(r);
    NumeralHasNoBar(r');
    SameParts(s, Show(r), s', Show(r'));
  }

  // ---- parts ----

  lemma {:induction false} PutKeepsOrder(parts: seq<Part>, index: int, body: string)
    requires Sorted(parts)
    ensures var more := Put(parts, index, body);
      Sorted(more) && |parts| <= |more| <= |parts| + 1 && |more| > 0
      && (more[0].index == index || (|parts| > 0 && more[0].index == parts[0].index < index))
  {
    if |parts| > 0 && index > parts[0].index {
      PutKeepsOrder(parts[1..], index, body);
      var rest := Put(parts[1..], index, body);
      var more := [parts[0]] + rest;
      assert rest[0].index > parts[0].index;
    }
  }

  lemma {:induction false} PutThenGet(parts: seq<Part>, index: int, body: string, i: int)
    requires Sorted(parts)
    ensures Get(Put(parts, index, body), i) == if i == index then Some(body) else Get(parts, i)
  {
    if |parts| == 0 || index <= parts[0].index {
      var more := Put(parts, index, body);
      assert more[1..] == if |parts| > 0 && index == parts[0].index then parts[1..] else parts;
    } else {
      PutThenGet(parts[1..], index, body, i);
      var more := Put(parts, index, body);
      assert more[1..] == Put(parts[1..], index, body);
    }
  }

  lemma {:induction false} PutStaysWithin(parts: seq<Part>, index: int, body: string, total: int)
    requires Within(parts, total) && 1 <= index <= total
    ensures Within(Put(parts, index, body), total)
  {
    if |parts| > 0 && index > parts[0].index {
      assert Within(parts[1..], total);
      PutStaysWithin(parts[1..], index, body, total);
    }
  }

  predicate Within(parts: seq<Part>, total: int) {
    forall i | 0 <= i < |parts| :: 1 <= parts[i].index <= total
  }

  lemma {:induction false} SpreadOut(parts: seq<Part>, total: int, i: int)
    requires Sorted(parts) && Within(parts, total) && 0 <= i < |parts|
    ensures i + 1 <= parts[i].index <= total - (|parts| - 1 - i)
    decreases |parts|
  {
    if |parts| > 1 {
      if i > 0 {
        var shorter := parts[..|parts| - 1];
        SpreadOut(shorter, parts[|parts| - 1].index - 1, i - 1) by {
          assert forall k | 0 <= k < |shorter| :: shorter[k] == parts[k];
        }
        assert parts[i - 1].index < parts[i].index;
      }
      if i < |parts| - 1 {
        var shorter := parts[..|parts| - 1];
        assert forall k | 0 <= k < |shorter| :: shorter[k] == parts[k];
        SpreadOut(shorter, parts[|parts| - 1].index - 1, i);
      }
    }
  }

  /** As many parts as the total means each of them, in order. */
  lemma EnoughPartsAreAll(parts: seq<Part>, total: int)
    requires Sorted(parts) && Within(parts, total) && |parts| >= total && total >= 0
    ensures |parts| == total && forall i | 0 <= i < total :: parts[i].index == i + 1
  {
    if |parts| > 0 {
      SpreadOut(parts, total, 0);
    }
    forall i | 0 <= i < |parts| ensures parts[i].index == i + 1 {
      SpreadOut(parts, total, i);
    }
  }

  lemma {:induction false} GetFirst(parts: seq<Part>, i: int)
    requires Sorted(parts)
    ensures Get(parts, i).Some? ==> |parts| > 0 && parts[0].index <= i
  {
    if |parts| > 0 && parts[0].index != i {
      GetFirst(parts[1..], i);
    }
  }

  lemma {:induction false} AllPartsAreEnough(parts: seq<Part>, lo: int, hi: int)
    requires Sorted(parts) && lo <= hi + 1
    requires forall i | lo <= i <= hi :: Get(parts, i).Some?
    ensures |parts| >= hi - lo + 1
    decreases |parts|
  {
    if lo <= hi {
      assert Get(parts, lo).Some?;
      GetFirst(parts, lo);
      var rest := parts[1..];
      var start := if parts[0].index == lo then lo + 1 else lo;
      forall i | start <= i <= hi ensures Get(rest, i).Some? {
        assert Get(parts, i).Some?;
      }
      AllPartsAreEnough(rest, start, hi);
    }
  }

  // ---- stored entries ----

  /** An entry is incomplete: fewer parts than its total, each index between 1 and the total, once. */
  ghost predicate Held(key: string, e: Entry) {
    && TotalIn(key) == Some(e.total) && 2 <= e.total <= 255 && Int64(e.receivedAt)
    && Sorted(e.parts) && Within(e.parts, e.total) && |e.parts| < e.total
  }

  ghost predicate Good(store: Store) {
    forall key | key in store :: Held(key, store[key])
  }

  lemma GrownIsWithin(store: Store, m: Message)
    requires Good(store) && m.Concat().Some?
    ensures var info := m.Concat().value;
      var key := KeyOf(m.Sender(), info.reference, info.total);
      var e := Grown(store, key, info, m);
      && TotalIn(key) == Some(e.total) && e.total == info.total && Int64(e.receivedAt)
      && Sorted(e.parts) && Within(e.parts, e.total)
  {
    var info := m.Concat().value;
    var key := KeyOf(m.Sender(), info.reference, info.total);
    KeyStatesTotal(m.Sender(), info.reference, info.total);
    var parts: seq<Part> := if key in store then store[key].parts else [];
    PutKeepsOrder(parts, info.index, m.Body());
    PutStaysWithin(parts, info.index, m.Body(), info.total);
  }

  /** Every event keeps every stored entry incomplete and well formed. */
  lemma EntriesStayIncomplete(store: Store, event: Event)
    requires Good(store)
    ensures Good(Next(store, event))
  {
    if event.Feed? && event.message.Concat().Some? {
      GrownIsWithin(store, event.message);
    }
  }

  lemma {:induction false} RunStaysGood(store: Store, events: seq<Event>)
    requires Good(store)
    ensures Good(Final(store, events))
  {
    if |events| > 0 {
      RunStaysGood(store, events[..|events| - 1]);
      EntriesStayIncomplete(Final(store, events[..|events| - 1]), events[|events| - 1]);
    }
  }

  // ---- a whole message ----

  /** The indices of the parts of one key that have arrived. */
  function Seen(events: seq<Event>, key: string): set<int> {
    if |events| == 0 then {}
    else
      var last := events[|events| - 1];
      Seen(events[..|events| - 1], key) + (if Concerns(last, key) then {last.message.Concat().value.index} else {})
  }

  /** The time stamp of the first part of one key to arrive. */
  function FirstTime(events: seq<Event>, key: string): Option<int> {
    if |events| == 0 then None
    else
      var before, last := FirstTime(events[..|events| - 1], key), events[|events| - 1];
      if before.Some? then before else if Concerns(last, key) then Some(last.message.timestamp) else None
  }

  predicate Complete(seen: set<int>, total: int) {
    forall i | 1 <= i <= total :: i in seen
  }

  /** A part of the message carries its text; other events are free, save that a pruning does not
      reach back to the message's first part. */
  predicate Fits(event: Event, key: string, texts: seq<string>, since: int) {
    match event
    case Prune(cutoff) => cutoff <= since
    case Feed(m) =>
      m.Key() == Some(key) ==>
        1 <= m.Concat().value.index <= |texts| && m.Body() == texts[m.Concat().value.index - 1]
  }

  function Text(texts: seq<string>): string {
    if |texts| == 0 then "" else texts[0] + Text(texts[1..])
  }

  lemma {:induction false} JoinedIsText(parts: seq<Part>, texts: seq<string>, k: nat)
    requires k <= |texts|
    requires forall i | 1 <= i <= |texts| :: Get(parts, i) == Some(texts[i - 1])
    ensures Joined(parts, k + 1, |texts|) == Text(texts[k..])
    decreases |texts| - k
  {
    if k < |texts| {
      JoinedIsText(parts, texts, k + 1);
      assert Get(parts, k + 1) == Some(texts[k]);
      assert texts[k..][1..] == texts[k + 1..];
    }
  }

  /** The parts are the texts of the indices in `seen`. */
  ghost predicate Holds(parts: seq<Part>, texts: seq<string>, seen: set<int>) {
    forall i :: Get(parts, i) == if i in seen && 1 <= i <= |texts| then Some(texts[i - 1]) else None
  }

  /** What the entry of a message holds when the parts in `seen` have arrived. */
  ghost predicate Progress(store: Store, key: string, texts: seq<string>, seen: set<int>, since: Option<int>) {
    if seen == {} then key !in store && since.None?
    else
      && key in store && since == Some(store[key].receivedAt) && store[key].total == |texts|
      && Holds(store[key].parts, texts, seen)
  }

  lemma CountTells(parts: seq<Part>, texts: seq<string>, seen: set<int>)
    requires Sorted(parts) && Within(parts, |texts|) && Holds(parts, texts, seen)
    ensures |parts| >= |texts| <==> Complete(seen, |texts|)
  {
    if |parts| >= |texts| {
      EnoughPartsAreAll(parts, |texts|);
      forall i | 1 <= i <= |texts| ensures i in seen {
        GetAt(parts, i - 1);
      }
    }
    if Complete(seen, |texts|) {
      AllPartsAreEnough(parts, 1, |texts|);
    }
  }

  lemma PutHolds(parts: seq<Part>, texts: seq<string>, seen: set<int>, index: int, body: string)
    requires Sorted(parts) && Holds(parts, texts, seen)
    requires 1 <= index <= |texts| && body == texts[index - 1]
    ensures Holds(Put(parts, index, body), texts, seen + {index})
  {
    forall i
      ensures Get(Put(parts, index, body), i)
              == if i in seen + {index} && 1 <= i <= |texts| then Some(texts[i - 1]) else None
    {
      PutThenGet(parts, index, body, i);
    }
  }

  /** What the entry of a message holds so far. */
  function PartsSoFar(store: Store, key: string): seq<Part> {
    if key in store then store[key].parts else []
  }

  lemma PartsHold(store: Store, key: string, texts: seq<string>, seen: set<int>, since: Option<int>)
    requires Good(store) && Progress(store, key, texts, seen, since)
    ensures Sorted(PartsSoFar(store, key)) && Holds(PartsSoFar(store, key), texts, seen)
    ensures key in store ==> since == Some(store[key].receivedAt) && store[key].total == |texts|
    ensures key !in store ==> since.None?
  {
    if key in store {
      assert Held(key, store[key]);
    }
  }

  lemma PartArrives(store: Store, m: Message, key: string, texts: seq<string>, seen: set<int>, since: Option<int>)
    requires Good(store) && Progress(store, key, texts, seen, since)
    requires m.Key() == Some(key) && m.Concat().value.total == |texts|
    requires Fits(Feed(m), key, texts, 0)
    ensures var info := m.Concat().value;
      var e := Grown(store, key, info, m);
      && Holds(e.parts, texts, seen + {info.index})
      && e.total == |texts| && Some(e.receivedAt) == (if since.Some? then since else Some(m.timestamp))
      && (|e.parts| >= e.total <==> Complete(seen + {info.index}, |texts|))
  {
    var info := m.Concat().value;
    var parts := PartsSoFar(store, key);
    PartsHold(store, key, texts, seen, since);
    GrownIsWithin(store, m);
    assert Grown(store, key, info, m).parts == Put(parts, info.index, m.Body());
    PutHolds(parts, texts, seen, info.index, m.Body());
    CountTells(Put(parts, info.index, m.Body()), texts, seen + {info.index});
  }

  lemma {:induction false} GetAt(parts: seq<Part>, k: nat)
    requires Sorted(parts) && k < |parts|
    ensures Get(parts, parts[k].index) == Some(parts[k].body)
  {
    if k > 0 {
      assert parts[0].index < parts[k].index;
      GetAt(parts[1..], k - 1);
    }
  }

  lemma OtherEvent(store: Store, event: Event, key: string, texts: seq<string>, seen: set<int>, since: Option<int>,
                   bound: int)
    requires Progress(store, key, texts, seen, since)
    requires !Concerns(event, key) && Fits(event, key, texts, bound) && (since.Some? ==> bound == since.value)
    ensures Progress(Next(store, event), key, texts, seen, since)
  {
  }

  lemma FeedsStepwise(store: Store, m: Message, key: string, texts: seq<string>, seen: set<int>, since: Option<int>)
    requires Good(store) && Progress(store, key, texts, seen, since)
    requires m.Key() == Some(key) && m.Concat().value.total == |texts|
    requires Fits(Feed(m), key, texts, 0) && !Complete(seen + {m.Concat().value.index}, |texts|)
    ensures Output(store, Feed(m)) == None
    ensures var first := if since.Some? then since else Some(m.timestamp);
      Progress(Next(store, Feed(m)), key, texts, seen + {m.Concat().value.index}, first)
  {
    PartArrives(store, m, key, texts, seen, since);
  }

  lemma KeyGivesTotal(m: Message, sender: string, reference: int, total: int)
    requires m.Key() == Some(KeyOf(sender, reference, total))
    ensures m.Sender() == sender && m.Concat().value.total == total
  {
    var info := m.Concat().value;
    KeysAreDistinct(m.Sender(), info.reference, info.total, sender, reference, total);
  }

  lemma {:induction false} Waits(store: Store, events: seq<Event>, sender: string, reference: int, texts: seq<string>,
                                 bound: int)
    requires Good(store)
    requires var key := KeyOf(sender, reference, |texts|);
      && key !in store && !Complete(Seen(events, key), |texts|)
      && (forall i | 0 <= i < |events| :: Fits(events[i], key, texts, bound))
      && (FirstTime(events, key).Some? ==> bound == FirstTime(events, key).value)
    ensures var key := KeyOf(sender, reference, |texts|);
      && OutputsFor(store, events, key) == []
      && Progress(Final(store, events), key, texts, Seen(events, key), FirstTime(events, key))
  {
    var key := KeyOf(sender, reference, |texts|);
    if |events| > 0 {
      var before, last := events[..|events| - 1], events[|events| - 1];
      assert Fits(last, key, texts, bound);
      Waits(store, before, sender, reference, texts, bound);
      RunStaysGood(store, before);
      if Concerns(last, key) {
        KeyGivesTotal(last.message, sender, reference, |texts|);
        FeedsStepwise(Final(store, before), last.message, key, texts, Seen(before, key), FirstTime(before, key));
      } else {
        OtherEvent(Final(store, before), last, key, texts, Seen(before, key), FirstTime(before, key), bound);
      }
    }
  }

  lemma WholeText(parts: seq<Part>, texts: seq<string>, seen: set<int>)
    requires Complete(seen, |texts|)
    requires Holds(parts, texts, seen)
    ensures Joined(parts, 1, |texts|) == Text(texts)
  {
    forall i | 1 <= i <= |texts| ensures Get(parts, i) == Some(texts[i - 1]) {
      assert i in seen;
    }
    JoinedIsText(parts, texts, 0);
    assert texts[0..] == texts;
  }

  lemma Completes(store: Store, m: Message, key: string, texts: seq<string>, seen: set<int>, since: Option<int>)
    requires Good(store) && Progress(store, key, texts, seen, since)
    requires m.Key() == Some(key) && m.Concat().value.total == |texts|
    requires Fits(Feed(m), key, texts, 0) && Complete(seen + {m.Concat().value.index}, |texts|)
    ensures Output(store, Feed(m))
        == Some(IncomingSms(m.Sender(), Text(texts), if since.Some? then since.value else m.timestamp))
    ensures key !in Next(store, Feed(m))
  {
    PartArrives(store, m, key, texts, seen, since);
    WholeText(Grown(store, key, m.Concat().value, m).parts, texts, seen + {m.Concat().value.index});
  }

  lemma {:induction false} Afterwards(store: Store, events: seq<Event>, post: seq<Event>, key: string)
    requires key !in Final(store, events)
    requires forall i | 0 <= i < |post| :: !Concerns(post[i], key)
    ensures OutputsFor(store, events + post, key) == OutputsFor(store, events, key)
    ensures key !in Final(store, events + post)
  {
    if |post| == 0 {
      assert events + post == events;
    } else {
      var all, before := events + post, post[..|post| - 1];
      Afterwards(store, events, before, key);
      assert all[..|all| - 1] == events + before;
      assert all[|all| - 1] == post[|post| - 1];
    }
  }

  /** The time of the message's first part. */
  function Since(before: seq<Event>, last: Message, key: string): int {
    var first := FirstTime(before, key);
    if first.Some? then first.value else last.timestamp
  }

  /** `last` brings the last missing part. */
  ghost predicate Arrival(before: seq<Event>, last: Message, key: string, texts: seq<string>) {
    && last.Key() == Some(key)
    && (forall i | 0 <= i < |before| :: Fits(before[i], key, texts, Since(before, last, key)))
    && Fits(Feed(last), key, texts, 0)
    && !Complete(Seen(before, key), |texts|) && Complete(Seen(before, key) + {last.Concat().value.index}, |texts|)
  }

  lemma LastArrives(store: Store, before: seq<Event>, last: Message, sender: string, reference: int, texts: seq<string>)
    requires Good(store) && KeyOf(sender, reference, |texts|) !in store
    requires Arrival(before, last, KeyOf(sender, reference, |texts|), texts)
    ensures var key := KeyOf(sender, reference, |texts|);
      && OutputsFor(store, before + [Feed(last)], key) == [IncomingSms(sender, Text(texts), Since(before, last, key))]
      && key !in Final(store, before + [Feed(last)])
  {
    var key := KeyOf(sender, reference, |texts|);
    var events := before + [Feed(last)];
    Waits(store, before, sender, reference, texts, Since(before, last, key));
    RunStaysGood(store, before);
    KeyGivesTotal(last, sender, reference, |texts|);
    Completes(Final(store, before), last, key, texts, Seen(before, key), FirstTime(before, key));
    assert events[..|events| - 1] == before && events[|events| - 1] == Feed(last);
  }

  /** The parts of a message, in any order, with repeats before the last is in, between parts of
      other messages and prunings: nothing is delivered for it until the last missing part arrives;
      then exactly one message is, its body the parts 1 to N in order, its time the first arrival's,
      and the entry is gone. */
  lemma MessageIsReassembled(store: Store, before: seq<Event>, last: Message, after: seq<Event>,
                             sender: string, reference: int, texts: seq<string>)
    requires Good(store) && KeyOf(sender, reference, |texts|) !in store
    requires Arrival(before, last, KeyOf(sender, reference, |texts|), texts)
    requires forall i | 0 <= i < |after| :: !Concerns(after[i], KeyOf(sender, reference, |texts|))
    ensures var key := KeyOf(sender, reference, |texts|);
      && OutputsFor(store, before, key) == []
      && OutputsFor(store, before + [Feed(last)] + after, key)
         == [IncomingSms(sender, Text(texts), Since(before, last, key))]
      && key !in Final(store, before + [Feed(last)] + after)
  {
    var key := KeyOf(sender, reference, |texts|);
    Waits(store, before, sender, reference, texts, Since(before, last, key));
    LastArrives(store, before, last, sender, reference, texts);
    Afterwards(store, before + [Feed(last)], after, key);
  }
}
