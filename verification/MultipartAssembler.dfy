/** `MultipartAssembler`: the preference store of partly received messages, as text. */
module MultipartAssembler {
  import opened Prelude
  import opened ConcatHeader
  import opened EntryCodec
  import opened Reassembly

  const STALE_AFTER_MILLIS := 24 * 60 * 60 * 1000

  /** `lineSequence().firstOrNull()`. */
  function FirstLine(raw: string): string {
    if |raw| == 0 || raw[0] == '\n' || raw[0] == '\r' then "" else [raw[0]] + FirstLine(raw[1..])
  }

  /** The arrival time in the header, where it can be read. */
  function StoredTime(raw: string): Option<int> {
    var header := Split(FirstLine(raw), '|');
    if |header| < 2 then None
    else
      var time := ReadInt(header[1]);
      if time.Some? && Int64(time.value) then time else None
  }

  lemma {:induction false} FirstLineEnds(line: string, rest: string)
    requires '\n' !in line && '\r' !in line
    ensures FirstLine(line + "\n" + rest) == line
  {
    if |line| > 0 {
      var s := line + "\n" + rest;
      assert s[1..] == line[1..] + "\n" + rest;
      FirstLineEnds(line[1..], rest);
    }
  }

  lemma NoReturnInHeader(e: Entry)
    ensures '\n' !in Header(e) && '\r' !in Header(e)
  {
    IntRoundTrip(e.total);
    IntRoundTrip(e.receivedAt);
    var a, b := Show(e.total), Show(e.receivedAt);
    assert forall i | 0 <= i < |a| :: '0' <= a[i] <= '9' || a[i] == '-';
    assert forall i | 0 <= i < |b| :: '0' <= b[i] <= '9' || b[i] == '-';
  }

  /** Pruning reads from the text the time that was saved. */
  lemma StoredTimeIsSaved(e: Entry)
    requires Int64(e.receivedAt)
    ensures StoredTime(Saved(e)) == Some(e.receivedAt)
  {
    var lines := [Header(e)] + Lines(e.parts);
    assert Saved(e) == Header(e) + "\n" + Unlines(lines[1..]);
    NoReturnInHeader(e);
    FirstLineEnds(Header(e), Unlines(lines[1..]));
    HeaderRoundTrip(e);
    IntRoundTrip(e.receivedAt);
  }

  /** A time that does not fit a `Long` is none, so its entry is never pruned. */
  lemma OversizedTimeIsIgnored(total: int, time: int, rest: string)
    requires !Int64(time)
    ensures StoredTime(Show(total) + "|" + Show(time) + "\n" + rest).None?
  {
    var header := Header(Entry(total, time, []));
    NoReturnInHeader(Entry(total, time, []));
    FirstLineEnds(header, rest);
    HeaderRoundTrip(Entry(total, time, []));
    IntRoundTrip(time);
  }

  function Feeds(messages: seq<Message>): (events: seq<Event>)
    ensures |events| == |messages| && forall i | 0 <= i < |messages| :: events[i] == Feed(messages[i])
  {
    seq(|messages|, i requires 0 <= i < |messages| => Feed(messages[i]))
  }

  lemma SavedStarts(entry: Entry)
    ensures Saved(entry) == Header(entry) + "\n" + Unlines(Lines(entry.parts[0..]))
  {
    var lines := [Header(entry)] + Lines(entry.parts);
    assert lines[1..] == Lines(entry.parts);
    assert entry.parts[0..] == entry.parts;
  }

  lemma SavedGrows(builder: string, parts: seq<Part>, i: nat)
    requires i < |parts|
    ensures builder + Unlines(Lines(parts[i..])) == builder + Line(parts[i]) + "\n" + Unlines(Lines(parts[i + 1..]))
  {
    var tail := parts[i..];
    assert tail[1..] == parts[i + 1..];
    var lines := Lines(tail);
    assert lines[0] == Line(parts[i]) && lines[1..] == Lines(parts[i + 1..]);
    assert Unlines(lines) == Line(parts[i]) + "\n" + Unlines(lines[1..]);
  }

  /** The text built by `saveEntry`. */
  method WriteEntry(entry: Entry) returns (builder: string)
    ensures builder == Saved(entry)
  {
    builder := Show(entry.total) + "|" + Show(entry.receivedAt) + "\n";
    var i := 0;
    SavedStarts(entry);
    while i < |entry.parts|
      invariant 0 <= i <= |entry.parts|
      invariant builder + Unlines(Lines(entry.parts[i..])) == Saved(entry)
    {
      SavedGrows(builder, entry.parts, i);
      builder := builder + Line(entry.parts[i]) + "\n";
      i := i + 1;
    }
    assert Lines(entry.parts[i..]) == [];
    assert builder + "" == builder;
  }

  lemma ReadLinesUnfold(lines: seq<string>, parts: seq<Part>)
    requires |lines| > 0
    ensures ReadLines(lines).Some? == (ReadLine(lines[0]).Some? && ReadLines(lines[1..]).Some?)
    ensures ReadLines(lines).Some? ==>
        PutAll(parts, ReadLines(lines).value)
        == PutAll(PutAll(parts, ReadLine(lines[0]).value), ReadLines(lines[1..]).value)
  {
    var first, rest := ReadLine(lines[0]), ReadLines(lines[1..]);
    if first.Some? && rest.Some? {
      if |first.value| == 1 {
        assert (first.value + rest.value)[1..] == rest.value;
      } else {
        assert first.value + rest.value == rest.value;
      }
    }
  }

  /** What `loadEntry` makes of a stored text; an exception while reading makes it `None`. */
  method ReadEntry(raw: string) returns (r: Option<Entry>)
    ensures r == Loaded(raw)
  {
    var lines := NotBlank(Split(raw, '\n'));
    if |lines| == 0 {
      return None;
    }
    var header := Split(lines[0], '|');
    if |header| < 2 {
      return None;
    }
    var total, receivedAt := ReadInt(header[0]), ReadInt(header[1]);
    if total.None? || receivedAt.None? || !Int32(total.value) || !Int64(receivedAt.value) {
      return None;
    }
    var parts := ReadParts(lines[1..]);
    r := if parts.Some? then Some(Entry(total.value, receivedAt.value, parts.value)) else None;
  }

  /** The loop over the lines after the header. */
  method ReadParts(lines: seq<string>) returns (r: Option<seq<Part>>)
    ensures var all := ReadLines(lines);
      r == if all.Some? then Some(PutAll([], all.value)) else None
  {
    var parts := [];
    var i := 0;
    assert lines[0..] == lines;
    while i < |lines|
      invariant 0 <= i <= |lines|
      invariant ReadLines(lines).Some? <==> ReadLines(lines[i..]).Some?
      invariant ReadLines(lines).Some? ==>
          PutAll(parts, ReadLines(lines[i..]).value) == PutAll([], ReadLines(lines).value)
    {
      ReadLinesUnfold(lines[i..], parts);
      assert lines[i..][1..] == lines[i + 1..];
      var line := ReadLine(lines[i]);
      if line.None? {
        return None;
      }
      if |line.value| == 1 {
        parts := Put(parts, line.value[0].index, line.value[0].body);
      }
      i := i + 1;
    }
    r := Some(parts);
  }

  predicate Stale(raw: string, cutoff: int) {
    var receivedAt := StoredTime(raw);
    receivedAt.Some? && receivedAt.value < cutoff
  }

  /** The keys that one pruning removes. */
  method StaleKeys(prefs: map<string, string>, cutoff: int) returns (removed: set<string>)
    ensures removed == set key | key in prefs && Stale(prefs[key], cutoff)
  {
    var keys := prefs.Keys;
    removed := {};
    while keys != {}
      invariant keys <= prefs.Keys
      invariant removed == set key | key in prefs && key !in keys && Stale(prefs[key], cutoff)
      decreases |keys|
    {
      var key :| key in keys;
      if Stale(prefs[key], cutoff) {
        removed := removed + {key};
      }
      keys := keys - {key};
    }
  }

  /** The texts are the saved forms of the entries. */
  ghost predicate Mirrors(prefs: map<string, string>, store: Store) {
    prefs.Keys == store.Keys && forall key | key in store :: prefs[key] == Saved(store[key])
  }

  lemma MirrorsPrune(prefs: map<string, string>, store: Store, cutoff: int)
    requires Mirrors(prefs, store) && Good(store)
    ensures Mirrors(prefs - (set key | key in prefs && Stale(prefs[key], cutoff)), Next(store, Prune(cutoff)))
  {
    forall key | key in store ensures Stale(prefs[key], cutoff) <==> store[key].receivedAt < cutoff {
      assert Held(key, store[key]);
      StoredTimeIsSaved(store[key]);
    }
  }

  lemma MirrorsLoad(prefs: map<string, string>, store: Store, key: string)
    requires Mirrors(prefs, store) && Good(store) && key in store
    ensures Loaded(prefs[key]) == Some(store[key])
  {
    assert Held(key, store[key]);
    EntryRoundTrip(store[key]);
  }

  lemma MirrorsStored(prefs: map<string, string>, store: Store, key: string, entry: Entry)
    requires Mirrors(prefs, store)
    ensures var done := |entry.parts| >= entry.total;
      Mirrors(if done then prefs - {key} else prefs[key := Saved(entry)], Stored(store, key, entry))
  {
  }

  lemma OneMore(store: Store, messages: seq<Message>, i: nat)
    requires i < |messages|
    ensures var before := Feeds(messages[..i]);
      && Final(store, Feeds(messages[..i + 1])) == Next(Final(store, before), Feed(messages[i]))
      && Outputs(store, Feeds(messages[..i + 1]))
         == Added(Outputs(store, before), Output(Final(store, before), Feed(messages[i])))
  {
    var events := Feeds(messages[..i + 1]);
    assert events[..i] == Feeds(messages[..i]) && events[i] == Feed(messages[i]);
  }

  lemma PruneLast(store: Store, events: seq<Event>, cutoff: int)
    ensures Final(store, events + [Prune(cutoff)]) == Next(Final(store, events), Prune(cutoff))
    ensures Outputs(store, events + [Prune(cutoff)]) == Outputs(store, events)
  {
    var all := events + [Prune(cutoff)];
    assert all[..|all| - 1] == events && all[|all| - 1] == Prune(cutoff);
  }

  class Assembler {
    var prefs: map<string, string>
    /** The entries that the texts stand for. */
    ghost var store: Store

    ghost predicate Valid()
      reads this
    {
      Good(store) && Mirrors(prefs, store)
    }

    constructor ()
      ensures Valid() && store == map[]
    {
      prefs := map[];
      store := map[];
    }

    method LoadEntry(key: string) returns (r: Option<Entry>)
      requires Valid()
      ensures r == if key in store then Some(store[key]) else None
    {
      if key !in prefs {
        return None;
      }
      MirrorsLoad(prefs, store, key);
      r := ReadEntry(prefs[key]);
    }

    method SaveEntry(key: string, entry: Entry)
      modifies this`prefs
      ensures prefs == old(prefs)[key := Saved(entry)]
    {
      var text := WriteEntry(entry);
      prefs := prefs[key := text];
    }

    /** Entries whose first part came before the cutoff go; no other entry changes. */
    method PruneStale(cutoff: int)
      requires Valid()
      modifies this
      ensures Valid() && store == Next(old(store), Prune(cutoff))
    {
      var removed := StaleKeys(prefs, cutoff);
      EntriesStayIncomplete(store, Prune(cutoff));
      MirrorsPrune(prefs, store, cutoff);
      prefs := prefs - removed;
      store := Next(store, Prune(cutoff));
    }

    method AddPart(key: string, info: ConcatInfo, message: Message) returns (completed: Option<IncomingSms>)
      requires Valid() && Good(Stored(store, key, Grown(store, key, info, message)))
      modifies this
      ensures Valid() && store == Stored(old(store), key, Grown(old(store), key, info, message))
      ensures completed == Delivered(message.Sender(), Grown(old(store), key, info, message))
    {
      var loaded := LoadEntry(key);
      var entry := if loaded.Some? then loaded.value else Entry(info.total, message.timestamp, []);
      entry := entry.(parts := Put(entry.parts, info.index, message.Body()));
      assert entry == Grown(store, key, info, message);
      MirrorsStored(prefs, store, key, entry);
      store := Stored(store, key, entry);
      if |entry.parts| >= entry.total {
        completed := Some(IncomingSms(message.Sender(), Joined(entry.parts, 1, entry.total), entry.receivedAt));
        prefs := prefs - {key};
      } else {
        completed := None;
        SaveEntry(key, entry);
      }
    }

    /** One message of the loop. */
    method AccumulateOne(message: Message) returns (completed: Option<IncomingSms>)
      requires Valid()
      modifies this
      ensures Valid() && store == Next(old(store), Feed(message)) && completed == Output(old(store), Feed(message))
    {
      var concat := ExtractConcatInfo(message.pdu);
      assert concat == message.Concat();
      EntriesStayIncomplete(store, Feed(message));
      if concat.None? || concat.value.total <= 1 {
        return Some(IncomingSms(message.Sender(), message.Body(), message.timestamp));
      }
      completed := AddPart(KeyOf(message.Sender(), concat.value.reference, concat.value.total), concat.value, message);
    }

    /** The messages are taken one by one and then stale entries pruned. */
    method Accumulate(messages: seq<Message>, now: int) returns (completed: seq<IncomingSms>)
      requires Valid()
      modifies this
      ensures Valid()
      ensures var events := Feeds(messages) + [Prune(now - STALE_AFTER_MILLIS)];
        store == Final(old(store), events) && completed == Outputs(old(store), events)
    {
      completed := [];
      var i := 0;
      while i < |messages|
        invariant 0 <= i <= |messages|
        invariant Valid()
        invariant store == Final(old(store), Feeds(messages[..i]))
        invariant completed == Outputs(old(store), Feeds(messages[..i]))
      {
        OneMore(old(store), messages, i);
        var one := AccumulateOne(messages[i]);
        completed := Added(completed, one);
        i := i + 1;
      }
      assert messages[..i] == messages;
      PruneLast(old(store), Feeds(messages), now - STALE_AFTER_MILLIS);
      PruneStale(now - STALE_AFTER_MILLIS);
    }
  }
}
