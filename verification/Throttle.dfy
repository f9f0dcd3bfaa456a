/** `LoginThrottle` and the login handler that uses it: failed attempts counted by address, in windows
    that start with a failure. */
module Throttle {
  import opened Prelude

  const THROTTLE_MAX_TRACKED_IPS := 10_000

  datatype Entry = Entry(fails: int, windowStart: int)

  /** A `Map`: its entries, and its keys in the order of insertion. */
  datatype Table = Table(hits: map<string, Entry>, order: seq<string>)

  datatype Limits = Limits(maxFailures: int, windowMs: int)
  {
    /** The first failure of a window always counts. */
    function PerWindow(): (m: nat)
      ensures m >= 1
    {
      if maxFailures < 1 then 1 else maxFailures
    }
  }

  // ---- the table ----

  function Without(order: seq<string>, ip: string): seq<string> {
    if |order| == 0 then []
    else if order[0] == ip then order[1..]
    else [order[0]] + Without(order[1..], ip)
  }

  function Deleted(t: Table, ip: string): Table {
    if ip in t.hits then Table(t.hits - {ip}, Without(t.order, ip)) else t
  }

  function Put(t: Table, ip: string, e: Entry): Table {
    Table(t.hits[ip := e], if ip in t.hits then t.order else t.order + [ip])
  }

  predicate Current(t: Table, limits: Limits, ip: string, now: int) {
    ip in t.hits && now - t.hits[ip].windowStart <= limits.windowMs
  }

  predicate Blocked(t: Table, limits: Limits, ip: string, now: int) {
    Current(t, limits, ip, now) && t.hits[ip].fails >= limits.maxFailures
  }

  function Checked(t: Table, limits: Limits, ip: string, now: int): Table {
    if Current(t, limits, ip, now) then t else Deleted(t, ip)
  }

  /** The address to drop so that another can be tracked. */
  function Evicted(t: Table, ip: string): Option<string> {
    if ip !in t.hits && |t.hits| >= THROTTLE_MAX_TRACKED_IPS && |t.order| > 0 then Some(t.order[0]) else None
  }

  function Recorded(t: Table, limits: Limits, ip: string, now: int): Table {
    if Current(t, limits, ip, now) then t.(hits := t.hits[ip := t.hits[ip].(fails := t.hits[ip].fails + 1)])
    else
      var oldest := Evicted(t, ip);
      Put(if oldest.Some? then Deleted(t, oldest.value) else t, ip, Entry(1, now))
  }

  ghost predicate Unrepeated(order: seq<string>) {
    forall i, j | 0 <= i < j < |order| :: order[i] != order[j]
  }

  /** The order lists the keys, each once, and there are at most 10 000. */
  ghost predicate Sound(t: Table) {
    Unrepeated(t.order) && (forall ip :: ip in t.order <==> ip in t.hits) && |t.hits| <= THROTTLE_MAX_TRACKED_IPS
  }

  class LoginThrottle {
    const limits: Limits
    var hits: map<string, Entry>
    var order: seq<string>

    ghost function Contents(): Table
      reads this
    {
      Table(hits, order)
    }

    constructor (maxFailures: int := 5, windowMs: int := 300_000)
      ensures limits == Limits(maxFailures, windowMs) && Contents() == Table(map[], [])
    {
      limits := Limits(maxFailures, windowMs);
      hits := map[];
      order := [];
    }

    method Delete(ip: string)
      modifies this
      ensures Contents() == Deleted(old(Contents()), ip)
    {
      if ip in hits {
        hits := hits - {ip};
        order := Without(order, ip);
      }
    }

    method IsBlocked(ip: string, now: int) returns (blocked: bool)
      modifies this
      ensures blocked == Blocked(old(Contents()), limits, ip, now)
      ensures Contents() == Checked(old(Contents()), limits, ip, now)
    {
      if ip !in hits {
        return false;
      }
      if now - hits[ip].windowStart > limits.windowMs {
        Delete(ip);
        return false;
      }
      blocked := hits[ip].fails >= limits.maxFailures;
    }

    method RecordFailure(ip: string, now: int)
      modifies this
      ensures Contents() == Recorded(old(Contents()), limits, ip, now)
    {
      if ip !in hits || now - hits[ip].windowStart > limits.windowMs {
        if ip !in hits && |hits| >= THROTTLE_MAX_TRACKED_IPS {
          if |order| > 0 {
            Delete(order[0]);
          }
        }
        order := if ip in hits then order else order + [ip];
        hits := hits[ip := Entry(1, now)];
        return;
      }
      hits := hits[ip := hits[ip].(fails := hits[ip].fails + 1)];
    }

    method Reset(ip: string)
      modifies this
      ensures Contents() == Deleted(old(Contents()), ip)
    {
      Delete(ip);
    }

    /** The handler, once it has a candidate password: 429, 401 or success. */
    method Login(attempt: Attempt) returns (status: int)
      modifies this
      ensures Contents() == Next(old(Contents()), limits, attempt)
      ensures status == if Blocked(old(Contents()), limits, attempt.ip, attempt.checkedAt) then 429
                        else if !attempt.correct then 401 else 200
    {
      var blocked := IsBlocked(attempt.ip, attempt.checkedAt);
      if blocked {
        return 429;
      }
      if !attempt.correct {
        RecordFailure(attempt.ip, attempt.recordedAt);
        return 401;
      }
      Reset(attempt.ip);
      return 200;
    }
  }

  // ---- runs ----

  /** One login attempt; the clock is read for the check and again to record a failure. */
  datatype Attempt = Attempt(ip: string, correct: bool, checkedAt: int, recordedAt: int)

  function Next(t: Table, limits: Limits, a: Attempt): Table {
    var checked := Checked(t, limits, a.ip, a.checkedAt);
    if Blocked(t, limits, a.ip, a.checkedAt) then checked
    else if a.correct then Deleted(checked, a.ip)
    else Recorded(checked, limits, a.ip, a.recordedAt)
  }

  function After(limits: Limits, attempts: seq<Attempt>): Table {
    if |attempts| == 0 then Table(map[], [])
    else Next(After(limits, attempts[..|attempts| - 1]), limits, attempts[|attempts| - 1])
  }

  /** A wrong password of the address that the throttle let through to the comparison. */
  predicate Admits(t: Table, limits: Limits, a: Attempt, ip: string) {
    a.ip == ip && !a.correct && !Blocked(t, limits, ip, a.checkedAt)
  }

  /** The clock does not go back. */
  predicate ClockAdvances(attempts: seq<Attempt>) {
    && (forall i | 0 <= i < |attempts| :: attempts[i].checkedAt <= attempts[i].recordedAt)
    && (forall i, j | 0 <= i < j < |attempts| :: attempts[i].recordedAt <= attempts[j].checkedAt)
  }

  /** The attempt neither succeeds for the address nor pushes it out of the table. */
  predicate Spares(t: Table, limits: Limits, a: Attempt, ip: string) {
    if a.ip == ip then !a.correct || Blocked(t, limits, ip, a.checkedAt)
    else a.correct || Blocked(t, limits, a.ip, a.checkedAt)
         || Evicted(Checked(t, limits, a.ip, a.checkedAt), a.ip) != Some(ip)
  }

  /** What one attempt makes of the failures of an address. */
  function FailuresAfter(t: Table, limits: Limits, a: Attempt, ip: string, ts: seq<int>): seq<int> {
    if !Spares(t, limits, a, ip) then [] else if Admits(t, limits, a, ip) then ts + [a.recordedAt] else ts
  }

  /** When the admitted wrong passwords of an address were recorded, since it last logged in or was
      pushed out. */
  function Failures(limits: Limits, attempts: seq<Attempt>, ip: string): seq<int> {
    if |attempts| == 0 then []
    else
      var before, last := attempts[..|attempts| - 1], attempts[|attempts| - 1];
      FailuresAfter(After(limits, before), limits, last, ip, Failures(limits, before, ip))
  }

  predicate AllSpare(limits: Limits, attempts: seq<Attempt>, ip: string) {
    forall i | 0 <= i < |attempts| :: Spares(After(limits, attempts[..i]), limits, attempts[i], ip)
  }

  // ---- the table's size ----

  lemma {:induction false} WithoutKeeps(order: seq<string>, ip: string)
    requires Unrepeated(order)
    ensures forall x :: x in Without(order, ip) <==> x in order && x != ip
    ensures Unrepeated(Without(order, ip))
  {
    if |order| > 0 && order[0] != ip {
      var rest := Without(order[1..], ip);
      WithoutKeeps(order[1..], ip);
      assert order == [order[0]] + order[1..];
      var all := Without(order, ip);
      forall i, j | 0 <= i < j < |all| ensures all[i] != all[j] {
        if i == 0 {
          assert all[j] in rest;
          assert order[0] !in order[1..];
        }
      }
    } else if |order| > 0 {
      assert order == [order[0]] + order[1..];
    }
  }

  lemma DeletedSound(t: Table, ip: string)
    requires Sound(t)
    ensures Sound(Deleted(t, ip))
    ensures ip in t.hits ==> |Deleted(t, ip).hits| == |t.hits| - 1
  {
    WithoutKeeps(t.order, ip);
    if ip in t.hits {
      assert (t.hits - {ip}).Keys == t.hits.Keys - {ip};
      assert |t.hits - {ip}| == |(t.hits - {ip}).Keys|;
    }
  }

  lemma PutSound(t: Table, ip: string, e: Entry)
    requires Sound(t) && (ip in t.hits || |t.hits| < THROTTLE_MAX_TRACKED_IPS)
    ensures Sound(Put(t, ip, e))
  {
    var more := t.hits[ip := e];
    assert more.Keys == t.hits.Keys + {ip};
    assert |more| == |more.Keys| && |t.hits| == |t.hits.Keys|;
  }

  lemma RecordedSound(t: Table, limits: Limits, ip: string, now: int)
    requires Sound(t)
    ensures Sound(Recorded(t, limits, ip, now))
  {
    if Current(t, limits, ip, now) {
      PutSound(t, ip, t.hits[ip].(fails := t.hits[ip].fails + 1));
    } else if ip !in t.hits && |t.hits| >= THROTTLE_MAX_TRACKED_IPS {
      SomeFirst(t);
      DeletedSound(t, t.order[0]);
      PutSound(Deleted(t, t.order[0]), ip, Entry(1, now));
    } else {
      PutSound(t, ip, Entry(1, now));
    }
  }

  lemma SomeFirst(t: Table)
    requires Sound(t) && |t.hits| > 0
    ensures |t.order| > 0 && t.order[0] in t.hits
  {
    assert |t.hits.Keys| > 0;
    var ip :| ip in t.hits.Keys;
    assert ip in t.order;
    assert t.order[0] in t.order;
  }

  /** The table never holds more than 10 000 addresses. */
  lemma {:induction false} TableIsBounded(limits: Limits, attempts: seq<Attempt>)
    ensures Sound(After(limits, attempts))
    decreases |attempts|
  {
    if |attempts| > 0 {
      var a, t := attempts[|attempts| - 1], After(limits, attempts[..|attempts| - 1]);
      TableIsBounded(limits, attempts[..|attempts| - 1]);
      DeletedSound(t, a.ip);
      var checked := Checked(t, limits, a.ip, a.checkedAt);
      DeletedSound(checked, a.ip);
      RecordedSound(checked, limits, a.ip, a.recordedAt);
    }
  }

  // ---- the bound ----

  ghost predicate Ordered(ts: seq<int>) {
    forall i, j | 0 <= i < j < |ts| :: ts[i] <= ts[j]
  }

  /** Any 2m failures in a row take longer than a window. */
  ghost predicate Spread(ts: seq<int>, limits: Limits) {
    forall i, j | 0 <= i < j < |ts| && j - i >= 2 * limits.PerWindow() - 1 :: ts[j] - ts[i] > limits.windowMs
  }

  /** A window that starts with failure `p` starts later than a window after failure `p - m`. */
  ghost predicate Apart(ts: seq<int>, limits: Limits, p: int, at: int)
    requires p <= |ts|
  {
    p >= limits.PerWindow() ==> at - ts[p - limits.PerWindow()] > limits.windowMs
  }

  /** The entry counts exactly the failures of its window: the last `fails` ones, the first of which
      started it; all others are earlier, and all lie within the window's length of its start. */
  ghost predicate Counts(e: Entry, ts: seq<int>, limits: Limits) {
    && 1 <= e.fails <= |ts| && ts[|ts| - e.fails] == e.windowStart
    && (limits.windowMs >= 0 ==>
          && (forall i | 0 <= i < |ts| - e.fails :: ts[i] < e.windowStart)
          && (forall i | 0 <= i < |ts| :: ts[i] - e.windowStart <= limits.windowMs))
  }

  /** What the entry of an address says about its failures so far. */
  ghost predicate Tallied(t: Table, limits: Limits, ts: seq<int>, ip: string, clock: int) {
    && Ordered(ts) && Spread(ts, limits) && (forall i | 0 <= i < |ts| :: ts[i] <= clock)
    && if ip in t.hits then EntryTallied(t.hits[ip], limits, ts) else ts == []
  }

  ghost predicate EntryTallied(e: Entry, limits: Limits, ts: seq<int>) {
    Counts(e, ts, limits) && e.fails <= limits.PerWindow() && Apart(ts, limits, |ts| - e.fails, e.windowStart)
  }

  lemma {:induction false} WithoutOthers(t: Table, other: string, ip: string)
    requires other != ip
    ensures ip in Deleted(t, other).hits <==> ip in t.hits
    ensures ip in t.hits ==> Deleted(t, other).hits[ip] == t.hits[ip]
  {
  }

  lemma OtherAttempt(t: Table, limits: Limits, a: Attempt, ip: string, ts: seq<int>, clock: int)
    requires Tallied(t, limits, ts, ip, clock) && a.ip != ip && Spares(t, limits, a, ip)
    requires clock <= a.checkedAt <= a.recordedAt
    ensures Tallied(Next(t, limits, a), limits, ts, ip, a.recordedAt)
  {
    var checked := Checked(t, limits, a.ip, a.checkedAt);
    WithoutOthers(t, a.ip, ip);
    WithoutOthers(checked, a.ip, ip);
    var next := Next(t, limits, a);
    assert ip in next.hits <==> ip in t.hits;
    assert ip in t.hits ==> next.hits[ip] == t.hits[ip];
  }

  lemma AppendKeepsSpread(ts: seq<int>, limits: Limits, x: int, p: nat)
    requires Ordered(ts) && Spread(ts, limits) && forall i | 0 <= i < |ts| :: ts[i] <= x
    requires p <= |ts| && |ts| - p < limits.PerWindow() && Apart(ts, limits, p, if p < |ts| then ts[p] else x)
    ensures Ordered(ts + [x]) && Spread(ts + [x], limits)
  {
    var all, m := ts + [x], limits.PerWindow();
    forall i, j | 0 <= i < j < |all| && j - i >= 2 * m - 1 ensures all[j] - all[i] > limits.windowMs {
      if j == |ts| {
        assert i <= p - m;
        assert all[i] <= ts[p - m];
      }
    }
  }

  /** A further failure of the same window. */
  lemma SameWindow(e: Entry, limits: Limits, ts: seq<int>, x: int)
    requires Ordered(ts) && Spread(ts, limits) && (forall i | 0 <= i < |ts| :: ts[i] <= x)
    requires EntryTallied(e, limits, ts) && e.fails < limits.PerWindow() && x - e.windowStart <= limits.windowMs
    ensures Ordered(ts + [x]) && Spread(ts + [x], limits) && EntryTallied(e.(fails := e.fails + 1), limits, ts + [x])
  {
    AppendKeepsSpread(ts, limits, x, |ts| - e.fails);
    assert forall i :: 0 <= i < |ts| ==> (ts + [x])[i] == ts[i];
  }

  /** A failure that starts a window does so apart from the one before. */
  lemma NextWindow(e: Entry, limits: Limits, ts: seq<int>, x: int)
    requires Ordered(ts) && Spread(ts, limits) && (forall i | 0 <= i < |ts| :: ts[i] <= x)
    requires EntryTallied(e, limits, ts) && x - e.windowStart > limits.windowMs
    ensures Ordered(ts + [x]) && Spread(ts + [x], limits) && EntryTallied(Entry(1, x), limits, ts + [x])
  {
    if |ts| >= limits.PerWindow() {
      assert ts[|ts| - limits.PerWindow()] <= ts[|ts| - e.fails];
    }
    AppendKeepsSpread(ts, limits, x, |ts|);
    assert forall i :: 0 <= i < |ts| ==> (ts + [x])[i] == ts[i];
  }

  lemma FirstWindow(limits: Limits, x: int)
    ensures Ordered([x]) && Spread([x], limits) && EntryTallied(Entry(1, x), limits, [x])
  {
  }

  function EntryOf(t: Table, ip: string): Option<Entry> {
    if ip in t.hits then Some(t.hits[ip]) else None
  }

  /** The entry once a failure at `x` is recorded. */
  function EntryAfter(e: Option<Entry>, limits: Limits, x: int): Entry {
    if e.Some? && x - e.value.windowStart <= limits.windowMs then e.value.(fails := e.value.fails + 1) else Entry(1, x)
  }

  lemma EntryGrows(e: Option<Entry>, limits: Limits, ts: seq<int>, x: int)
    requires Ordered(ts) && Spread(ts, limits) && (forall i | 0 <= i < |ts| :: ts[i] <= x)
    requires if e.Some? then EntryTallied(e.value, limits, ts) else ts == []
    requires e.Some? && x - e.value.windowStart <= limits.windowMs ==> e.value.fails < limits.PerWindow()
    ensures Ordered(ts + [x]) && Spread(ts + [x], limits) && EntryTallied(EntryAfter(e, limits, x), limits, ts + [x])
  {
    if e.None? {
      FirstWindow(limits, x);
      assert ts + [x] == [x];
    } else if x - e.value.windowStart <= limits.windowMs {
      SameWindow(e.value, limits, ts, x);
    } else {
      NextWindow(e.value, limits, ts, x);
    }
  }

  /** What an admitted failure makes of the entry. */
  lemma RecordedEntry(t: Table, limits: Limits, a: Attempt)
    requires Admits(t, limits, a, a.ip) && a.checkedAt <= a.recordedAt
    ensures EntryOf(Next(t, limits, a), a.ip) == Some(EntryAfter(EntryOf(t, a.ip), limits, a.recordedAt))
    ensures Current(t, limits, a.ip, a.recordedAt) ==> t.hits[a.ip].fails < limits.PerWindow()
  {
  }

  lemma RefusedAttempt(t: Table, limits: Limits, a: Attempt)
    requires !Admits(t, limits, a, a.ip) && Spares(t, limits, a, a.ip)
    ensures Next(t, limits, a) == t
  {
  }

  lemma OwnAttempt(t: Table, limits: Limits, a: Attempt, ts: seq<int>, clock: int)
    requires Tallied(t, limits, ts, a.ip, clock) && Spares(t, limits, a, a.ip)
    requires clock <= a.checkedAt <= a.recordedAt
    ensures var ts' := if Admits(t, limits, a, a.ip) then ts + [a.recordedAt] else ts;
      Tallied(Next(t, limits, a), limits, ts', a.ip, a.recordedAt)
  {
    if Admits(t, limits, a, a.ip) {
      RecordedEntry(t, limits, a);
      EntryGrows(EntryOf(t, a.ip), limits, ts, a.recordedAt);
      TalliedNow(Next(t, limits, a), limits, ts, a.ip, a.recordedAt);
    } else {
      RefusedAttempt(t, limits, a);
    }
  }

  lemma TalliedNow(t: Table, limits: Limits, ts: seq<int>, ip: string, x: int)
    requires ip in t.hits && EntryTallied(t.hits[ip], limits, ts + [x])
    requires Ordered(ts + [x]) && Spread(ts + [x], limits) && forall i | 0 <= i < |ts| :: ts[i] <= x
    ensures Tallied(t, limits, ts + [x], ip, x)
  {
  }

  /** The time of the last attempt. */
  function Clock(attempts: seq<Attempt>): int {
    if |attempts| == 0 then 0 else attempts[|attempts| - 1].recordedAt
  }

  lemma PrefixAdvances(attempts: seq<Attempt>)
    requires |attempts| > 0 && ClockAdvances(attempts)
    ensures var before, a := attempts[..|attempts| - 1], attempts[|attempts| - 1];
      ClockAdvances(before) && a.checkedAt <= a.recordedAt && (|before| > 0 ==> Clock(before) <= a.checkedAt)
  {
  }

  /** An attempt that does not spare an address leaves it without an entry. */
  lemma NotSpared(t: Table, limits: Limits, a: Attempt, ip: string)
    requires !Spares(t, limits, a, ip)
    ensures ip !in Next(t, limits, a).hits
  {
  }

  lemma TalliedNext(t: Table, limits: Limits, a: Attempt, ip: string, ts: seq<int>, clock: int)
    requires Tallied(t, limits, ts, ip, clock) && clock <= a.checkedAt <= a.recordedAt
    ensures Tallied(Next(t, limits, a), limits, FailuresAfter(t, limits, a, ip, ts), ip, a.recordedAt)
  {
    if Spares(t, limits, a, ip) {
      AttemptTallied(t, limits, a, ip, ts, clock);
      assert ts + [] == ts;
    } else {
      NotSpared(t, limits, a, ip);
    }
  }

  lemma {:induction false} RunTallied(limits: Limits, attempts: seq<Attempt>, ip: string)
    requires ClockAdvances(attempts)
    ensures Tallied(After(limits, attempts), limits, Failures(limits, attempts, ip), ip, Clock(attempts))
    decreases |attempts|
  {
    if |attempts| > 0 {
      var before, a := attempts[..|attempts| - 1], attempts[|attempts| - 1];
      PrefixAdvances(attempts);
      RunTallied(limits, before, ip);
      var clock := if |before| == 0 then a.checkedAt else Clock(before);
      TalliedNext(After(limits, before), limits, a, ip, Failures(limits, before, ip), clock);
    }
  }

  lemma AttemptTallied(t: Table, limits: Limits, a: Attempt, ip: string, ts: seq<int>, clock: int)
    requires Tallied(t, limits, ts, ip, clock) && Spares(t, limits, a, ip)
    requires clock <= a.checkedAt <= a.recordedAt
    ensures var more := if Admits(t, limits, a, ip) then [a.recordedAt] else [];
      Tallied(Next(t, limits, a), limits, ts + more, ip, a.recordedAt)
  {
    assert ts + [] == ts;
    if a.ip == ip {
      OwnAttempt(t, limits, a, ts, clock);
    } else {
      OtherAttempt(t, limits, a, ip, ts, clock);
    }
  }

  /** With a clock that does not go back: the entry of an address counts exactly the admitted wrong
      passwords of its window, which are at most m, and any stretch of time no longer than a window admits
      at most 2m - 1 between two logins or evictions of the address, where m is the limit, or one if that
      is smaller. */
  lemma ThrottleBound(limits: Limits, attempts: seq<Attempt>, ip: string)
    requires ClockAdvances(attempts)
    ensures var ts, t := Failures(limits, attempts, ip), After(limits, attempts);
      && (ip in t.hits <==> ts != [])
      && (ip in t.hits ==> Counts(t.hits[ip], ts, limits) && t.hits[ip].fails <= limits.PerWindow())
      && forall i, j :: 0 <= i <= j < |ts| && ts[j] - ts[i] <= limits.windowMs ==>
           j - i + 1 <= 2 * limits.PerWindow() - 1
  {
    RunTallied(limits, attempts, ip);
  }

  /** The window that the last of some failures belongs to: its start, and how many of them it has. A
      failure belongs to the window before it unless that is over. */
  function WindowOf(ts: seq<int>, windowMs: int): Entry
    requires ts != []
  {
    var last := ts[|ts| - 1];
    if |ts| == 1 then Entry(1, last)
    else
      var before := WindowOf(ts[..|ts| - 1], windowMs);
      if last - before.windowStart > windowMs then Entry(1, last) else Entry(before.fails + 1, before.windowStart)
  }

  /** What the handler knows of an address is the window of its last failure, and nothing else. */
  lemma {:induction false} EntryIsWindow(limits: Limits, attempts: seq<Attempt>, ip: string)
    requires ClockAdvances(attempts)
    ensures var ts := Failures(limits, attempts, ip);
      EntryOf(After(limits, attempts), ip) == if ts == [] then None else Some(WindowOf(ts, limits.windowMs))
    decreases |attempts|
  {
    if |attempts| > 0 {
      var before, a := attempts[..|attempts| - 1], attempts[|attempts| - 1];
      PrefixAdvances(attempts);
      EntryIsWindow(limits, before, ip);
      EntryStep(After(limits, before), limits, a, ip, Failures(limits, before, ip));
    }
  }

  lemma EntryStep(t: Table, limits: Limits, a: Attempt, ip: string, ts: seq<int>)
    requires a.checkedAt <= a.recordedAt
    requires EntryOf(t, ip) == if ts == [] then None else Some(WindowOf(ts, limits.windowMs))
    ensures var ts' := FailuresAfter(t, limits, a, ip, ts);
      EntryOf(Next(t, limits, a), ip) == if ts' == [] then None else Some(WindowOf(ts', limits.windowMs))
  {
    if !Spares(t, limits, a, ip) {
      NotSpared(t, limits, a, ip);
    } else if a.ip != ip {
      OtherEntryStays(t, limits, a, ip);
    } else if Admits(t, limits, a, ip) {
      RecordedEntry(t, limits, a);
      assert (ts + [a.recordedAt])[..|ts|] == ts;
    } else {
      RefusedAttempt(t, limits, a);
    }
  }

  lemma OtherEntryStays(t: Table, limits: Limits, a: Attempt, ip: string)
    requires a.ip != ip && Spares(t, limits, a, ip)
    ensures EntryOf(Next(t, limits, a), ip) == EntryOf(t, ip)
  {
    WithoutOthers(t, a.ip, ip);
    WithoutOthers(Checked(t, limits, a.ip, a.checkedAt), a.ip, ip);
  }

  /** An address is blocked exactly while the window of its last failure lasts and has reached the limit. */
  lemma BlockedExactly(limits: Limits, attempts: seq<Attempt>, ip: string, now: int)
    requires ClockAdvances(attempts)
    ensures var ts := Failures(limits, attempts, ip);
      Blocked(After(limits, attempts), limits, ip, now)
      <==> ts != [] && var w := WindowOf(ts, limits.windowMs);
           w.fails >= limits.maxFailures && now - w.windowStart <= limits.windowMs
  {
    EntryIsWindow(limits, attempts, ip);
  }

  /** After the right password the address is unknown again, and every other is known as before. */
  lemma SuccessForgets(limits: Limits, attempts: seq<Attempt>, a: Attempt, other: string)
    requires a.correct && !Blocked(After(limits, attempts), limits, a.ip, a.checkedAt) && other != a.ip
    ensures var t, after := After(limits, attempts), After(limits, attempts + [a]);
      && a.ip !in after.hits && !Blocked(after, limits, a.ip, a.recordedAt)
      && EntryOf(after, other) == EntryOf(t, other)
      && Failures(limits, attempts + [a], a.ip) == []
  {
    assert (attempts + [a])[..|attempts|] == attempts;
    OtherEntryStays(After(limits, attempts), limits, a, other);
  }

  /** While an address is blocked even the right password changes nothing. */
  lemma BlockedChangesNothing(limits: Limits, attempts: seq<Attempt>, a: Attempt)
    requires Blocked(After(limits, attempts), limits, a.ip, a.checkedAt)
    ensures After(limits, attempts + [a]) == After(limits, attempts)
  {
    assert (attempts + [a])[..|attempts|] == attempts;
  }

  /** The last `m` failures are within one window of now. */
  ghost predicate Recent(ts: seq<int>, m: int, now: int, window: int) {
    |ts| >= m && forall i | |ts| - m <= i < |ts| && 0 <= i :: now - ts[i] <= window
  }

  lemma TallyShowsCause(t: Table, limits: Limits, ts: seq<int>, ip: string, clock: int, now: int)
    requires limits.maxFailures >= 1 && Tallied(t, limits, ts, ip, clock) && Blocked(t, limits, ip, now)
    ensures Recent(ts, limits.maxFailures, now, limits.windowMs)
  {
    var p := |ts| - t.hits[ip].fails;
    assert t.hits[ip].fails == limits.maxFailures;
    forall i | p <= i < |ts| ensures ts[p] <= ts[i] {}
  }

  /** An address is blocked only after as many failures as the limit, the last of them recorded within
      one window of now. */
  lemma BlockedForCause(limits: Limits, attempts: seq<Attempt>, ip: string, now: int)
    requires limits.maxFailures >= 1 && ClockAdvances(attempts)
    requires Blocked(After(limits, attempts), limits, ip, now)
    ensures Recent(Failures(limits, attempts, ip), limits.maxFailures, now, limits.windowMs)
  {
    RunTallied(limits, attempts, ip);
    TallyShowsCause(After(limits, attempts), limits, Failures(limits, attempts, ip), ip, Clock(attempts), now);
  }

  // ---- the bound is reached ----

  /** One failure, the rest of the limit when the window is about to end, and the limit again just
      after. */
  function BurstTime(limits: Limits, k: nat): int {
    if k == 0 then 0 else if k < limits.PerWindow() then limits.windowMs else limits.windowMs + 1
  }

  function Burst(limits: Limits, ip: string, n: nat): (attempts: seq<Attempt>)
    ensures |attempts| == n
    ensures forall k | 0 <= k < n :: attempts[k] == Attempt(ip, false, BurstTime(limits, k), BurstTime(limits, k))
  {
    seq(n, (k: nat) => Attempt(ip, false, BurstTime(limits, k), BurstTime(limits, k)))
  }

  function BurstEntry(limits: Limits, n: nat): Entry {
    if n <= limits.maxFailures then Entry(n, 0) else Entry(n - limits.maxFailures, limits.windowMs + 1)
  }

  lemma {:induction false} BurstIsAdmitted(limits: Limits, ip: string, n: nat)
    requires limits.maxFailures >= 1 && limits.windowMs >= 1 && n <= 2 * limits.maxFailures
    ensures var t, ts := After(limits, Burst(limits, ip, n)), Failures(limits, Burst(limits, ip, n), ip);
      && |ts| == n && (forall k: nat | k < n :: ts[k] == BurstTime(limits, k))
      && (n == 0 ==> ip !in t.hits)
      && (n > 0 ==> ip in t.hits && t.hits[ip] == BurstEntry(limits, n))
  {
    if n > 0 {
      var all := Burst(limits, ip, n);
      assert all[..n - 1] == Burst(limits, ip, n - 1);
      BurstIsAdmitted(limits, ip, n - 1);
      BurstStep(After(limits, all[..n - 1]), limits, ip, n, Failures(limits, all[..n - 1], ip));
    }
  }

  lemma BurstStep(t: Table, limits: Limits, ip: string, n: nat, ts: seq<int>)
    requires limits.maxFailures >= 1 && limits.windowMs >= 1 && 0 < n <= 2 * limits.maxFailures && |ts| == n - 1
    requires if n == 1 then ip !in t.hits else ip in t.hits && t.hits[ip] == BurstEntry(limits, n - 1)
    ensures var a := Attempt(ip, false, BurstTime(limits, n - 1), BurstTime(limits, n - 1));
      && FailuresAfter(t, limits, a, ip, ts) == ts + [a.recordedAt]
      && EntryOf(Next(t, limits, a), ip) == Some(BurstEntry(limits, n))
  {
  }

  /** The bound of 2m - 1 is exact: after the first failure come 2m - 1 within a millisecond. */
  lemma BoundIsReached(limits: Limits, ip: string)
    requires limits.maxFailures >= 1 && limits.windowMs >= 1
    ensures var m := limits.maxFailures;
      var attempts := Burst(limits, ip, 2 * m);
      var ts := Failures(limits, attempts, ip);
      && ClockAdvances(attempts) && AllSpare(limits, attempts, ip)
      && |ts| == 2 * m && ts[2 * m - 1] - ts[1] <= limits.windowMs
  {
    BurstIsAdmitted(limits, ip, 2 * limits.maxFailures);
  }

  // ---- who is evicted ----

  /** The attempt that brought a tracked address into the table, where it has been since. */
  function TrackedSince(limits: Limits, attempts: seq<Attempt>, ip: string): int {
    if |attempts| == 0 then 0
    else
      var before, last := attempts[..|attempts| - 1], attempts[|attempts| - 1];
      var t := After(limits, before);
      if ip in t.hits && (last.ip == ip ==> Current(t, limits, ip, last.checkedAt)) then
        TrackedSince(limits, before, ip)
      else |before|
  }

  ghost predicate Aged(order: seq<string>, age: string -> int) {
    forall i, j | 0 <= i < j < |order| :: age(order[i]) < age(order[j])
  }

  lemma {:induction false} WithoutAged(order: seq<string>, ip: string, age: string -> int)
    requires Aged(order, age) && Unrepeated(order)
    ensures Aged(Without(order, ip), age)
    ensures forall x :: x in Without(order, ip) <==> x in order && x != ip
  {
    WithoutKeeps(order, ip);
    if |order| > 0 && order[0] != ip {
      WithoutAged(order[1..], ip, age);
      var rest, all := Without(order[1..], ip), Without(order, ip);
      forall i, j | 0 <= i < j < |all| ensures age(all[i]) < age(all[j]) {
        if i == 0 {
          assert all[j] == rest[j - 1] && all[j] in order[1..];
          var k :| 0 <= k < |order[1..]| && order[1..][k] == all[j];
          assert order[k + 1] == all[j];
        }
      }
    }
  }

  lemma AgedAlike(order: seq<string>, age: string -> int, age': string -> int)
    requires Aged(order, age) && forall x :: x in order ==> age'(x) == age(x)
    ensures Aged(order, age')
  {
    forall i, j | 0 <= i < j < |order| ensures age'(order[i]) < age'(order[j]) {
      assert order[i] in order && order[j] in order;
    }
  }

  lemma AppendAged(order: seq<string>, ip: string, age: string -> int)
    requires Aged(order, age) && forall x :: x in order ==> age(x) < age(ip)
    ensures Aged(order + [ip], age)
  {
    forall i, j | 0 <= i < j < |order| + 1 ensures age((order + [ip])[i]) < age((order + [ip])[j]) {
      if j == |order| {
        assert order[i] in order;
      }
    }
  }

  function AgeIn(limits: Limits, attempts: seq<Attempt>): string -> int {
    ip => TrackedSince(limits, attempts, ip)
  }

  /** The keys of the table stand in the order in which they were brought in. */
  lemma {:induction false} OrderIsByAge(limits: Limits, attempts: seq<Attempt>)
    ensures Aged(After(limits, attempts).order, AgeIn(limits, attempts))
    ensures forall ip :: ip in After(limits, attempts).hits ==> TrackedSince(limits, attempts, ip) < |attempts|
    decreases |attempts|
  {
    if |attempts| > 0 {
      var before, a := attempts[..|attempts| - 1], attempts[|attempts| - 1];
      OrderIsByAge(limits, before);
      TableIsBounded(limits, before);
      AgedNext(After(limits, before), limits, a, AgeIn(limits, before), AgeIn(limits, attempts), |before|);
    }
  }

  lemma AgedNext(t: Table, limits: Limits, a: Attempt, age: string -> int, age': string -> int, n: nat)
    requires Sound(t) && Aged(t.order, age) && forall ip :: ip in t.hits ==> age(ip) < n
    requires forall ip ::
      age'(ip) == if ip in t.hits && (a.ip == ip ==> Current(t, limits, ip, a.checkedAt)) then age(ip) else n
    ensures Aged(Next(t, limits, a).order, age')
    ensures forall ip :: ip in Next(t, limits, a).hits ==> age'(ip) <= n
  {
    var checked := Checked(t, limits, a.ip, a.checkedAt);
    DeletedSound(t, a.ip);
    CheckedAged(t, limits, a, age);
    AgedAlike(checked.order, age, age');
    WithoutAged(checked.order, a.ip, age');
    if !Blocked(t, limits, a.ip, a.checkedAt) && !a.correct {
      RecordedAged(checked, limits, a.ip, a.recordedAt, age');
    }
  }

  lemma RecordedAged(t: Table, limits: Limits, ip: string, now: int, age: string -> int)
    requires Sound(t) && Aged(t.order, age) && (ip !in t.hits ==> forall x :: x in t.order ==> age(x) < age(ip))
    ensures Aged(Recorded(t, limits, ip, now).order, age)
  {
    if ip !in t.hits {
      var oldest := Evicted(t, ip);
      if oldest.Some? {
        WithoutAged(t.order, oldest.value, age);
        assert oldest.value in t.hits;
        AppendAged(Without(t.order, oldest.value), ip, age);
      } else {
        AppendAged(t.order, ip, age);
      }
    }
  }

  lemma PushedOut(t: Table, limits: Limits, a: Attempt, ip: string)
    requires Sound(t) && ip in t.hits && ip !in Next(t, limits, a).hits && a.ip != ip
    ensures var checked := Checked(t, limits, a.ip, a.checkedAt);
      && !a.correct && Evicted(checked, a.ip) == Some(ip) && checked.hits.Keys == t.hits.Keys - {a.ip}
      && |checked.hits| == 10_000
  {
    DeletedSound(t, a.ip);
    var checked := Checked(t, limits, a.ip, a.checkedAt);
    assert ip in checked.hits;
    assert a.ip !in checked.hits;
  }

  lemma FirstIsOldest(order: seq<string>, age: string -> int, x: string)
    requires Aged(order, age) && x in order && x != order[0]
    ensures age(order[0]) < age(x)
  {
    var k :| 0 <= k < |order| && order[k] == x;
  }

  /** An address is pushed out only by a failure of one that is not tracked, when 10 000 are, and only the
      one that has been tracked longest. */
  lemma OldestIsEvicted(limits: Limits, attempts: seq<Attempt>, a: Attempt, ip: string)
    requires ip in After(limits, attempts).hits && ip !in After(limits, attempts + [a]).hits && a.ip != ip
    ensures !a.correct && |After(limits, attempts).hits.Keys - {a.ip}| == 10_000
    ensures forall x :: x in After(limits, attempts).hits && x != a.ip && x != ip ==>
      TrackedSince(limits, attempts, ip) < TrackedSince(limits, attempts, x)
  {
    var t, age := After(limits, attempts), AgeIn(limits, attempts);
    assert After(limits, attempts + [a]) == Next(t, limits, a) by {
      assert (attempts + [a])[..|attempts|] == attempts;
    }
    TableIsBounded(limits, attempts);
    PushedOut(t, limits, a, ip);
    var checked := Checked(t, limits, a.ip, a.checkedAt);
    assert |checked.hits| == |checked.hits.Keys|;
    OrderIsByAge(limits, attempts);
    CheckedAged(t, limits, a, age);
    forall x | x in t.hits && x != a.ip && x != ip ensures age(ip) < age(x) {
      FirstIsOldest(checked.order, age, x);
    }
  }

  lemma CheckedAged(t: Table, limits: Limits, a: Attempt, age: string -> int)
    requires Sound(t) && Aged(t.order, age)
    ensures var checked := Checked(t, limits, a.ip, a.checkedAt);
      Aged(checked.order, age) && forall x :: x in checked.order <==> x in checked.hits
  {
    DeletedSound(t, a.ip);
    WithoutAged(t.order, a.ip, age);
  }

  // ---- when nothing is evicted ----

  function Addresses(attempts: seq<Attempt>): set<string> {
    set i | 0 <= i < |attempts| :: attempts[i].ip
  }

  lemma {:induction false} OnlySeenAreTracked(limits: Limits, attempts: seq<Attempt>)
    ensures After(limits, attempts).hits.Keys <= Addresses(attempts)
    decreases |attempts|
  {
    if |attempts| > 0 {
      var n := |attempts| - 1;
      OnlySeenAreTracked(limits, attempts[..n]);
      assert forall i | 0 <= i < n :: attempts[..n][i] == attempts[i];
      assert attempts[n].ip in Addresses(attempts);
      assert Addresses(attempts[..n]) <= Addresses(attempts);
    }
  }

  /** Up to 10 000 addresses, nothing is ever evicted: an address is spared as long as it does not log in. */
  lemma FewAddressesAreSpared(limits: Limits, attempts: seq<Attempt>, ip: string)
    requires |Addresses(attempts)| <= 10_000
    requires forall i | 0 <= i < |attempts| :: attempts[i].ip == ip ==> !attempts[i].correct
    ensures AllSpare(limits, attempts, ip)
  {
    forall i | 0 <= i < |attempts| ensures Spares(After(limits, attempts[..i]), limits, attempts[i], ip) {
      var t, a := After(limits, attempts[..i]), attempts[i];
      var checked := Checked(t, limits, a.ip, a.checkedAt);
      OnlySeenAreTracked(limits, attempts[..i]);
      assert forall j | 0 <= j < i :: attempts[..i][j] == attempts[j];
      assert Addresses(attempts[..i]) <= Addresses(attempts);
      if a.ip !in checked.hits {
        assert a.ip in Addresses(attempts);
        assert checked.hits.Keys <= Addresses(attempts) - {a.ip};
        CountSubset(checked.hits.Keys, Addresses(attempts) - {a.ip});
        assert |checked.hits| == |checked.hits.Keys|;
      }
    }
  }

  lemma CountSubset(a: set<string>, b: set<string>)
    requires a <= b
    ensures |a| <= |b|
  {
    assert b == a + (b - a);
  }
}
