/** Reassembly over several calls: they are one run of events, and what they hand out can be told apart
    by the message it belongs to. */
module Calls {
  import opened Prelude
  import opened Reassembly
  import opened MultipartAssembler

  // ---- what is delivered for a key ----

  /** A delivered message with the key of the parts it was made of; none for a message in one part. */
  datatype Tag = Tag(key: Option<string>, message: IncomingSms)

  function Tagged(store: Store, events: seq<Event>): seq<Tag> {
    if |events| == 0 then []
    else
      var before, last := events[..|events| - 1], events[|events| - 1];
      WithTag(Tagged(store, before), last, Output(Final(store, before), last))
  }

  function Messages(tags: seq<Tag>): seq<IncomingSms> {
    if |tags| == 0 then [] else Messages(tags[..|tags| - 1]) + [tags[|tags| - 1].message]
  }

  function OfKey(tags: seq<Tag>, key: string): seq<IncomingSms> {
    if |tags| == 0 then []
    else
      var last := tags[|tags| - 1];
      OfKey(tags[..|tags| - 1], key) + if last.key == Some(key) then [last.message] else []
  }

  /** One event more. */
  lemma RunExtends(store: Store, before: seq<Event>, last: Event)
    ensures var events, now := before + [last], Final(store, before);
      && Final(store, events) == Next(now, last)
      && Outputs(store, events) == Added(Outputs(store, before), Output(now, last))
      && Tagged(store, events) == WithTag(Tagged(store, before), last, Output(now, last))
  {
    assert (before + [last])[..|before|] == before;
  }

  lemma OutputsForExtends(store: Store, before: seq<Event>, last: Event, key: string)
    ensures OutputsFor(store, before + [last], key)
      == if Concerns(last, key) then Added(OutputsFor(store, before, key), Output(Final(store, before), last))
         else OutputsFor(store, before, key)
  {
    assert (before + [last])[..|before|] == before;
  }

  function WithTag(tags: seq<Tag>, event: Event, output: Option<IncomingSms>): seq<Tag> {
    if output.Some? && event.Feed? then tags + [Tag(event.message.Key(), output.value)] else tags
  }

  lemma OneMoreTag(tags: seq<Tag>, event: Event, output: Option<IncomingSms>, key: string)
    requires output.Some? ==> event.Feed?
    ensures var more := WithTag(tags, event, output);
      && Messages(more) == Added(Messages(tags), output)
      && OfKey(more, key) == if Concerns(event, key) then Added(OfKey(tags, key), output) else OfKey(tags, key)
  {
    if output.Some? {
      assert WithTag(tags, event, output)[..|tags|] == tags;
    }
  }

  /** The outputs of a run are the tagged messages, and those for a key are the ones with its tag. */
  lemma {:induction false} OutputsByTag(store: Store, events: seq<Event>, key: string)
    ensures Outputs(store, events) == Messages(Tagged(store, events))
    ensures OutputsFor(store, events, key) == OfKey(Tagged(store, events), key)
    decreases |events|
  {
    if |events| > 0 {
      var before, last := events[..|events| - 1], events[|events| - 1];
      assert events == before + [last];
      OutputsByTag(store, before, key);
      RunExtends(store, before, last);
      OutputsForExtends(store, before, last, key);
      OneMoreTag(Tagged(store, before), last, Output(Final(store, before), last), key);
    }
  }

  lemma {:induction false} TaggedIsOutput(tags: seq<Tag>, key: string, m: IncomingSms)
    requires m in OfKey(tags, key)
    ensures m in Messages(tags)
  {
    if m !in OfKey(tags[..|tags| - 1], key) {
      assert m == tags[|tags| - 1].message;
    } else {
      TaggedIsOutput(tags[..|tags| - 1], key, m);
    }
  }

  // ---- runs in a row ----

  lemma AddedLast(a: seq<IncomingSms>, b: seq<IncomingSms>, output: Option<IncomingSms>)
    ensures Added(a + b, output) == a + Added(b, output)
  {
  }

  /** Two runs in a row are one. */
  ghost predicate Joins(store: Store, first: seq<Event>, second: seq<Event>) {
    && Final(store, first + second) == Final(Final(store, first), second)
    && Outputs(store, first + second) == Outputs(store, first) + Outputs(Final(store, first), second)
  }

  lemma JoinsLonger(store: Store, first: seq<Event>, before: seq<Event>, last: Event)
    requires Joins(store, first, before)
    ensures Joins(store, first, before + [last])
  {
    RunExtends(store, first + before, last);
    RunExtends(Final(store, first), before, last);
    assert first + before + [last] == first + (before + [last]);
    AddedLast(Outputs(store, first), Outputs(Final(store, first), before), Output(Final(store, first + before), last));
  }

  lemma {:induction false} RunsJoin(store: Store, first: seq<Event>, second: seq<Event>)
    ensures Joins(store, first, second)
    decreases |second|
  {
    if |second| == 0 {
      NothingJoins(store, first);
      assert second == [];
    } else {
      var before, last := second[..|second| - 1], second[|second| - 1];
      assert before + [last] == second;
      RunsJoin(store, first, before);
      JoinsLonger(store, first, before, last);
    }
  }

  lemma NothingJoins(store: Store, first: seq<Event>)
    ensures Joins(store, first, [])
  {
    assert first + [] == first;
  }

  /** One call of `accumulate`: its messages, and when it prunes. */
  datatype Call = Call(messages: seq<Message>, now: int)

  function EventsOf(call: Call): seq<Event> {
    Feeds(call.messages) + [Prune(call.now - STALE_AFTER_MILLIS)]
  }

  function Session(calls: seq<Call>): seq<Event> {
    if |calls| == 0 then [] else Session(calls[..|calls| - 1]) + EventsOf(calls[|calls| - 1])
  }

  /** The store after the calls, each as `accumulate` leaves it. */
  function AfterCalls(store: Store, calls: seq<Call>): Store {
    if |calls| == 0 then store else Final(AfterCalls(store, calls[..|calls| - 1]), EventsOf(calls[|calls| - 1]))
  }

  /** What the calls return, one after the other. */
  function Returned(store: Store, calls: seq<Call>): seq<IncomingSms> {
    if |calls| == 0 then []
    else
      var before := calls[..|calls| - 1];
      Returned(store, before) + Outputs(AfterCalls(store, before), EventsOf(calls[|calls| - 1]))
  }

  /** Calls in a row leave and return what one run of all their events does. */
  lemma {:induction false} CallsAreOneRun(store: Store, calls: seq<Call>)
    ensures AfterCalls(store, calls) == Final(store, Session(calls))
    ensures Returned(store, calls) == Outputs(store, Session(calls))
    decreases |calls|
  {
    if |calls| > 0 {
      var before := calls[..|calls| - 1];
      CallsAreOneRun(store, before);
      RunsJoin(store, Session(before), EventsOf(calls[|calls| - 1]));
    }
  }

  // ---- what a call prunes ----

  /** After its messages a call forgets exactly the entries whose first part is more than a day old. */
  lemma CallForgetsTheStale(store: Store, call: Call, key: string)
    ensures var fed, after := Final(store, Feeds(call.messages)), Final(store, EventsOf(call));
      && (key in after <==> key in fed && call.now - fed[key].receivedAt <= 86_400_000)
      && (key in after ==> after[key] == fed[key])
  {
    RunExtends(store, Feeds(call.messages), Prune(call.now - STALE_AFTER_MILLIS));
  }

  lemma OtherEntryStays(store: Store, m: Message, key: string)
    requires m.Key() != Some(key)
    ensures var fed := Next(store, Feed(m)); (key in fed <==> key in store) && (key in store ==> fed[key] == store[key])
  {
  }

  /** Messages change no entry but those they are parts of. */
  lemma {:induction false} OtherEntriesStay(store: Store, messages: seq<Message>, key: string)
    requires forall i | 0 <= i < |messages| :: messages[i].Key() != Some(key)
    ensures var fed := Final(store, Feeds(messages));
      (key in fed <==> key in store) && (key in store ==> fed[key] == store[key])
    decreases |messages|
  {
    if |messages| > 0 {
      var n := |messages| - 1;
      OtherEntriesStay(store, messages[..n], key);
      FeedsOn(store, messages, n);
      OtherEntryStays(Final(store, Feeds(messages[..n])), messages[n], key);
    }
  }

  lemma FeedsOn(store: Store, messages: seq<Message>, n: nat)
    requires |messages| == n + 1
    ensures Final(store, Feeds(messages)) == Next(Final(store, Feeds(messages[..n])), Feed(messages[n]))
  {
    OneMore(store, messages, n);
    assert messages[..n + 1] == messages;
  }

  // ---- messages in one part ----

  /** A message handed on: what it has no text for is empty. */
  function AsItCame(m: Message): IncomingSms {
    IncomingSms(match m.originatingAddress { case None => "" case Some(sender) => sender },
                match m.messageBody { case None => "" case Some(body) => body },
                m.timestamp)
  }

  /** The messages fed that are not parts of a longer one, as they are handed out, in order. */
  function Whole(events: seq<Event>): seq<IncomingSms> {
    if |events| == 0 then []
    else
      var last := events[|events| - 1];
      Whole(events[..|events| - 1])
      + if last.Feed? && last.message.Concat().None?
        then [AsItCame(last.message)] else []
  }

  /** Outputs that no key is responsible for. */
  function Untagged(tags: seq<Tag>): seq<IncomingSms> {
    if |tags| == 0 then []
    else
      var last := tags[|tags| - 1];
      Untagged(tags[..|tags| - 1]) + if last.key.None? then [last.message] else []
  }

  lemma OneMoreUntagged(tags: seq<Tag>, event: Event, output: Option<IncomingSms>)
    ensures Untagged(WithTag(tags, event, output))
      == Untagged(tags) + if output.Some? && event.Feed? && event.message.Concat().None? then [output.value] else []
  {
    if output.Some? && event.Feed? {
      assert WithTag(tags, event, output)[..|tags|] == tags;
    }
  }

  /** A message that is no part of a longer one is handed out at once, as it is, and no entry changes. */
  lemma WholeMessageIsHandedOut(store: Store, m: Message)
    requires m.Concat().None?
    ensures Final(store, [Feed(m)]) == store
    ensures Outputs(store, [Feed(m)]) == [AsItCame(m)]
  {
    assert [Feed(m)][..0] == [];
    assert Final(store, []) == store && Outputs(store, []) == [];
  }

  lemma {:induction false} UntaggedAreWhole(store: Store, events: seq<Event>)
    ensures Untagged(Tagged(store, events)) == Whole(events)
    decreases |events|
  {
    if |events| > 0 {
      var before, last := events[..|events| - 1], events[|events| - 1];
      assert events == before + [last];
      UntaggedAreWhole(store, before);
      RunExtends(store, before, last);
      OneMoreUntagged(Tagged(store, before), last, Output(Final(store, before), last));
    }
  }

  /** Of what a row of calls returns, the messages that are made of no parts are exactly those that were
      fed as such, unchanged and in order. */
  lemma WholeMessagesAreHandedOut(store: Store, calls: seq<Call>)
    ensures var tags := Tagged(store, Session(calls));
      Messages(tags) == Returned(store, calls) && Untagged(tags) == Whole(Session(calls))
  {
    CallsAreOneRun(store, calls);
    OutputsByTag(store, Session(calls), "");
    UntaggedAreWhole(store, Session(calls));
  }

  /** A message whose parts come in any number of calls: whatever the calls return, exactly one message
      among it is made of these parts, and it is the whole text; no entry is left. */
  lemma MessageIsReassembledOverCalls(store: Store, calls: seq<Call>, before: seq<Event>, last: Message,
                                      after: seq<Event>, sender: string, reference: int, texts: seq<string>)
    requires Good(store) && KeyOf(sender, reference, |texts|) !in store
    requires Session(calls) == before + [Feed(last)] + after
    requires Arrival(before, last, KeyOf(sender, reference, |texts|), texts)
    requires forall i | 0 <= i < |after| :: !Concerns(after[i], KeyOf(sender, reference, |texts|))
    ensures var key := KeyOf(sender, reference, |texts|);
      var whole, tags := IncomingSms(sender, Text(texts), Since(before, last, key)), Tagged(store, Session(calls));
      && Messages(tags) == Returned(store, calls) && OfKey(tags, key) == [whole] && whole in Returned(store, calls)
      && key !in AfterCalls(store, calls)
  {
    var key := KeyOf(sender, reference, |texts|);
    var events := Session(calls);
    CallsAreOneRun(store, calls);
    OutputsByTag(store, events, key);
    MessageIsReassembled(store, before, last, after, sender, reference, texts);
    TaggedIsOutput(Tagged(store, events), key, IncomingSms(sender, Text(texts), Since(before, last, key)));
  }
}
