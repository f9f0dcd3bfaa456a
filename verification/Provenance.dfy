/** Where raw messages and transactions come from, under every interleaving of ingests. */
module Provenance {
  import opened Prelude
  import opened Tables
  import opened Ledger

  /** The raw message a call inserted. */
  function Owner(c: Call): Option<nat> {
    if c.VerifyCall? then None
    else match c.at
      case InsertRaw => None
      case InsertTx(raw) => Some(raw)
      case Lookup(raw) => Some(raw)
      case Mark(raw, _, _) => Some(raw)
      case Done(_, stored) => stored
  }

  predicate Owns(c: Call, raw: nat) {
    Owner(c) == Some(raw)
  }

  predicate Describes(m: RawMessage, job: Job) {
    m.clientId == job.clientId && m.device == job.device && m.business == job.business
    && m.sender == job.sender && m.body == job.body
  }

  /** A message is only ever marked with what was decided for it; a parsed one links to the
      transaction with its provider and TrxID. */
  predicate StatusOk(points: seq<Point>, decision: Decision, status: ParseStatus) {
    match status
    case Unparsed => true
    case Parsed(provider, pattern, t) =>
      && decision.Inserts? && provider == decision.draft.provider && pattern == decision.pattern
      && t < |points| && IsTransaction(points[t], provider, decision.draft.trxId)
    case Unmatched => decision.NoProvider?
    case ParseError => decision.ParseFails?
    case Skipped => decision.Rejects?
  }

  ghost predicate IngestOk(db: Db, c: Call) {
    c.IngestCall? && Owner(c).Some? ==>
      var raw := Owner(c).value;
      && raw < |db.raws| && Describes(db.raws[raw], c.job)
      && StatusOk(db.points, c.job.decision, db.raws[raw].status)
      && (c.at.InsertTx? || c.at.Lookup? ==> c.job.decision.Inserts?)
      && (c.at.Mark? ==> StatusOk(db.points, c.job.decision, c.at.status))
  }

  /** Transaction `t` is what the call that stored its message drafted from it. */
  ghost predicate MadeBy(db: Db, t: nat, c: Call)
    requires t < |db.points| && db.points[t].Tx?
  {
    && c.IngestCall? && Owns(c, db.points[t].tx.raw) && !c.at.InsertTx?
    && c.job.decision.Inserts?
    && db.points[t] == Drafted(c.job, db.points[t].tx.raw, db.points[t].tx.receivedAt)
  }

  ghost predicate Stored(calls: seq<Call>, r: nat) {
    exists c :: 0 <= c < |calls| && Owns(calls[c], r)
  }

  ghost predicate Made(db: Db, t: nat, calls: seq<Call>)
    requires t < |db.points| && db.points[t].Tx?
  {
    exists c :: 0 <= c < |calls| && MadeBy(db, t, calls[c])
  }

  ghost predicate Traced(sys: System) {
    var db, calls := sys.db, sys.calls;
    && (forall r: nat :: r < |db.raws| ==> Stored(calls, r))
    && (forall c, d, r: nat :: 0 <= c < d < |calls| && Owns(calls[c], r) ==> !Owns(calls[d], r))
    && (forall c :: 0 <= c < |calls| ==> IngestOk(db, calls[c]))
    && (forall t :: 0 <= t < |db.points| && db.points[t].Tx? ==> Made(db, t, calls))
    && (forall t, u :: 0 <= t < u < |db.points| && db.points[t].Tx? && db.points[u].Tx? ==>
         && db.points[t].tx.raw != db.points[u].tx.raw
         && !IsTransaction(db.points[u], db.points[t].tx.provider, db.points[t].tx.trxId))
    && (forall r, q :: 0 <= r < q < |db.raws| ==> !IsRaw(db.raws[q], db.raws[r].device, db.raws[r].clientId))
  }

  // ---- steps ----

  /** Steps that write neither messages nor transactions, and change no owner. */
  lemma QuietStepTraced(sys: System, sys': System)
    requires Traced(sys)
    requires sys'.db.raws == sys.db.raws
    requires |sys.db.points| <= |sys'.db.points| && sys'.db.points[..|sys.db.points|] == sys.db.points
    requires forall t :: |sys.db.points| <= t < |sys'.db.points| ==> sys'.db.points[t].Calibration?
    requires |sys.calls| <= |sys'.calls|
    requires forall c :: 0 <= c < |sys.calls| ==>
        sys'.calls[c] == sys.calls[c] || (sys.calls[c].VerifyCall? && sys'.calls[c].VerifyCall?)
    requires forall c :: |sys.calls| <= c < |sys'.calls| ==> Owner(sys'.calls[c]).None?
    ensures Traced(sys')
  {
    var db, db', calls, calls' := sys.db, sys'.db, sys.calls, sys'.calls;
    assert forall t :: 0 <= t < |db.points| ==> db'.points[t] == db'.points[..|db.points|][t];
    assert forall c, r: nat :: 0 <= c < |calls| ==> (Owns(calls'[c], r) <==> Owns(calls[c], r));
    forall r: nat | r < |db'.raws| ensures Stored(calls', r) {
      assert Stored(calls, r);
      var c :| 0 <= c < |calls| && Owns(calls[c], r);
      assert Owns(calls'[c], r);
    }
    forall c | 0 <= c < |calls'| ensures IngestOk(db', calls'[c]) {
      if c < |calls| {
        assert IngestOk(db, calls[c]);
      }
    }
    forall t | 0 <= t < |db'.points| && db'.points[t].Tx? ensures Made(db', t, calls') {
      var c :| 0 <= c < |calls| && MadeBy(db, t, calls[c]);
      assert MadeBy(db', t, calls'[c]);
    }
  }

  /** How one ingest step may change the tables, seen by the others. */
  ghost predicate Appends(db: Db, db': Db, raw: nat) {
    && |db.points| <= |db'.points| && db'.points[..|db.points|] == db.points
    && |db.raws| <= |db'.raws|
    && (forall r :: 0 <= r < |db.raws| && r != raw ==> db'.raws[r] == db.raws[r])
  }

  lemma OthersStayOk(db: Db, db': Db, raw: nat, c: Call)
    requires Appends(db, db', raw) && IngestOk(db, c) && !Owns(c, raw)
    ensures IngestOk(db', c)
  {
    assert forall t :: 0 <= t < |db.points| ==> db'.points[t] == db'.points[..|db.points|][t];
  }

  /** A step of the owner of `raw`, from which owners of all messages can be read off. */
  lemma OwnStepTraced(sys: System, c: nat, db': Db, at': IngestPc, raw: nat)
    requires Traced(sys) && c < |sys.calls| && sys.calls[c].IngestCall?
    requires Appends(sys.db, db', raw)
    requires var owned := Owner(sys.calls[c]);
      || (owned == Some(raw) && |db'.raws| == |sys.db.raws| && raw < |db'.raws|
          && IsRaw(db'.raws[raw], sys.db.raws[raw].device, sys.db.raws[raw].clientId))
      || (owned.None? && raw == |sys.db.raws| && |db'.raws| == raw + 1
          && forall r :: 0 <= r < raw ==> !IsRaw(db'.raws[raw], sys.db.raws[r].device, sys.db.raws[r].clientId))
    requires var call' := IngestCall(sys.calls[c].job, at'); Owns(call', raw) && IngestOk(db', call')
    requires at'.InsertTx? ==> Owner(sys.calls[c]).None?
    requires
      || db'.points == sys.db.points
      || (sys.calls[c].at.InsertTx? && sys.calls[c].job.decision.Inserts?
          && db'.points == sys.db.points + [Drafted(sys.calls[c].job, raw, sys.db.now)]
          && FindTx(sys.db.points, sys.calls[c].job.decision.draft.provider,
              sys.calls[c].job.decision.draft.trxId).None?)
    ensures Traced(System(db', sys.calls[c := IngestCall(sys.calls[c].job, at')]))
  {
    var db, calls, calls' := sys.db, sys.calls, sys.calls[c := IngestCall(sys.calls[c].job, at')];
    assert forall t :: 0 <= t < |db.points| ==> db'.points[t] == db'.points[..|db.points|][t];
    forall d, r: nat | 0 <= d < |calls| && d != c && Owns(calls[d], r) ensures r != raw {
      assert IngestOk(db, calls[d]);
    }
    forall d | 0 <= d < |calls'| ensures IngestOk(db', calls'[d]) {
      if d != c {
        OthersStayOk(db, db', raw, calls[d]);
      }
    }
    forall r: nat | r < |db'.raws| ensures Stored(calls', r) {
      if r == raw {
        assert Owns(calls'[c], r);
      } else {
        assert Stored(calls, r);
        var d :| 0 <= d < |calls| && Owns(calls[d], r);
        assert Owns(calls'[d], r);
      }
    }
    forall t | 0 <= t < |db'.points| && db'.points[t].Tx? ensures Made(db', t, calls') {
      if t < |db.points| {
        var d :| 0 <= d < |calls| && MadeBy(db, t, calls[d]);
        assert MadeBy(db', t, calls'[d]);
      } else {
        assert MadeBy(db', t, calls'[c]);
      }
    }
    if db'.points != db.points {
      forall t | 0 <= t < |db.points| && db.points[t].Tx? ensures db.points[t].tx.raw != raw {
        var d :| 0 <= d < |calls| && MadeBy(db, t, calls[d]);
      }
    }
  }

  lemma IngestTraced(sys: System, c: nat, pick: nat, fault: Fault)
    requires Traced(sys) && c < |sys.calls| && sys.calls[c].IngestCall?
    ensures Traced(Apply(sys, Advance(c, pick, fault)))
  {
    var db, job, at := sys.db, sys.calls[c].job, sys.calls[c].at;
    var s := IngestStep(db, job, at, fault);
    assert IngestOk(db, sys.calls[c]);
    if at.InsertRaw? && s.db == db {
      QuietOwnStep(sys, c, s.pc);
    } else if !at.Done? {
      var raw := if at.InsertRaw? then |db.raws| else Owner(sys.calls[c]).value;
      OwnStepTraced(sys, c, s.db, s.pc, raw);
    } else {
      assert Apply(sys, Advance(c, pick, fault)) == sys;
    }
  }

  /** An insert that stored nothing. */
  lemma QuietOwnStep(sys: System, c: nat, at': IngestPc)
    requires Traced(sys) && c < |sys.calls| && sys.calls[c].IngestCall? && sys.calls[c].at.InsertRaw?
    requires at'.Done? && at'.stored.None?
    ensures Traced(System(sys.db, sys.calls[c := IngestCall(sys.calls[c].job, at')]))
  {
    var db, calls, calls' := sys.db, sys.calls, sys.calls[c := IngestCall(sys.calls[c].job, at')];
    assert forall d, r: nat :: 0 <= d < |calls| ==> (Owns(calls'[d], r) <==> Owns(calls[d], r));
    forall r: nat | r < |db.raws| ensures Stored(calls', r) {
      assert Stored(calls, r);
      var d :| 0 <= d < |calls| && Owns(calls[d], r);
      assert Owns(calls'[d], r);
    }
    forall t | 0 <= t < |db.points| && db.points[t].Tx? ensures Made(db, t, calls') {
      var d :| 0 <= d < |calls| && MadeBy(db, t, calls[d]);
      assert MadeBy(db, t, calls'[d]);
    }
  }

  lemma StepTraced(sys: System, a: Action)
    requires Traced(sys)
    ensures Traced(Apply(sys, a))
  {
    if a.Advance? && a.call < |sys.calls| && sys.calls[a.call].IngestCall? {
      IngestTraced(sys, a.call, a.pick, a.fault);
    } else {
      QuietStepTraced(sys, Apply(sys, a));
    }
  }

  lemma {:induction false} ReachableTraced(now: int, actions: seq<Action>)
    ensures Traced(Run(Initial(now), actions))
    decreases |actions|
  {
    if |actions| > 0 {
      ReachableTraced(now, actions[..|actions| - 1]);
      StepTraced(Run(Initial(now), actions[..|actions| - 1]), actions[|actions| - 1]);
    }
  }

  lemma ReachableIsTraced(sys: System)
    requires Reachable(sys)
    ensures Traced(sys)
  {
    var now, actions :| sys == Run(Initial(now), actions);
    ReachableTraced(now, actions);
  }

  // ---- main results ----

  /** Every transaction was drafted, field by field, from one stored message by the one call that
      stored it; no other transaction comes from that message or has its provider and TrxID. */
  lemma TransactionComesFromOneMessage(sys: System, t: nat) returns (c: nat)
    requires Reachable(sys) && t < |sys.db.points| && sys.db.points[t].Tx?
    ensures var tx := sys.db.points[t].tx;
      && c < |sys.calls| && sys.calls[c].IngestCall? && sys.calls[c].job.decision.Inserts?
      && sys.db.points[t] == Drafted(sys.calls[c].job, tx.raw, tx.receivedAt)
      && tx.raw < |sys.db.raws| && Describes(sys.db.raws[tx.raw], sys.calls[c].job)
      && (forall d :: 0 <= d < |sys.calls| && Owns(sys.calls[d], tx.raw) ==> d == c)
      && (forall u :: 0 <= u < |sys.db.points| && sys.db.points[u].Tx? && u != t ==>
           && sys.db.points[u].tx.raw != tx.raw
           && !IsTransaction(sys.db.points[u], tx.provider, tx.trxId))
  {
    ReachableIsTraced(sys);
    assert Made(sys.db, t, sys.calls);
    c :| 0 <= c < |sys.calls| && MadeBy(sys.db, t, sys.calls[c]);
    assert IngestOk(sys.db, sys.calls[c]);
  }

  /** A parsed message links to the transaction with the provider and TrxID decided for it, which is
      the only one, though another message may have been the first to report it. */
  lemma ParsedMessageLinks(sys: System, r: nat) returns (c: nat)
    requires Reachable(sys) && r < |sys.db.raws| && sys.db.raws[r].status.Parsed?
    ensures var status, points := sys.db.raws[r].status, sys.db.points;
      && c < |sys.calls| && Owns(sys.calls[c], r) && sys.calls[c].job.decision.Inserts?
      && Describes(sys.db.raws[r], sys.calls[c].job)
      && status.provider == sys.calls[c].job.decision.draft.provider
      && forall t :: 0 <= t < |points| ==>
           (t == status.transaction
            <==> IsTransaction(points[t], status.provider, sys.calls[c].job.decision.draft.trxId))
  {
    ReachableIsTraced(sys);
    assert Stored(sys.calls, r);
    c :| 0 <= c < |sys.calls| && Owns(sys.calls[c], r);
    assert IngestOk(sys.db, sys.calls[c]);
  }

  // ---- answers ----

  /** A call that stored nothing and yet answers without an error found the message stored. */
  ghost predicate AnswerOk(db: Db, c: Call) {
    c.IngestCall? && c.at.Done? && c.at.stored.None? && !c.at.result.MsgError? ==>
      HasRaw(db.raws, c.job.device, c.job.clientId)
  }

  ghost predicate AnswersOk(sys: System) {
    forall c :: 0 <= c < |sys.calls| ==> AnswerOk(sys.db, sys.calls[c])
  }

  lemma {:induction false} ReachableAnswersOk(now: int, actions: seq<Action>)
    ensures AnswersOk(Run(Initial(now), actions))
    decreases |actions|
  {
    if |actions| > 0 {
      var n := |actions| - 1;
      var before, a := Run(Initial(now), actions[..n]), actions[n];
      ReachableAnswersOk(now, actions[..n]);
      ReachableTraced(now, actions[..n]);
      forall c | 0 <= c < |Apply(before, a).calls| ensures AnswerOk(Apply(before, a).db, Apply(before, a).calls[c]) {
        AnswerStaysOk(before, a, c);
      }
    }
  }

  lemma AnswerStaysOk(before: System, a: Action, c: nat)
    requires Traced(before) && c < |Apply(before, a).calls|
    requires c < |before.calls| ==> AnswerOk(before.db, before.calls[c])
    ensures AnswerOk(Apply(before, a).db, Apply(before, a).calls[c])
  {
    var call := Apply(before, a).calls[c];
    if c < |before.calls| && AnswerOk(before.db, call) {
      if call.IngestCall? && HasRaw(before.db.raws, call.job.device, call.job.clientId) {
        var actions := [a];
        assert actions[..0] == [];
        assert Run(before, actions) == Apply(before, a);
        RawStays(before, actions, call.job.device, call.job.clientId);
      }
    } else if c < |before.calls| {
      assert IngestOk(before.db, before.calls[c]);
    }
  }

  predicate StoredOnce(raws: seq<RawMessage>, device: nat, clientId: nat) {
    exists r | 0 <= r < |raws| ::
      IsRaw(raws[r], device, clientId) && forall q | 0 <= q < |raws| :: IsRaw(raws[q], device, clientId) ==> q == r
  }

  lemma AtMostOnce(sys: System, device: nat, clientId: nat)
    requires Traced(sys) && HasRaw(sys.db.raws, device, clientId)
    ensures StoredOnce(sys.db.raws, device, clientId)
  {
    var raws := sys.db.raws;
    var r :| 0 <= r < |raws| && IsRaw(raws[r], device, clientId);
    forall q | 0 <= q < |raws| && IsRaw(raws[q], device, clientId) ensures q == r {
      if q != r {
        assert false;
      }
    }
  }

  /** Every message answered without an error is stored, exactly once. */
  lemma AnsweredMessageIsStored(sys: System, c: nat)
    requires Reachable(sys) && c < |sys.calls|
    requires sys.calls[c].IngestCall? && sys.calls[c].at.Done? && !sys.calls[c].at.result.MsgError?
    ensures StoredOnce(sys.db.raws, sys.calls[c].job.device, sys.calls[c].job.clientId)
  {
    var call := sys.calls[c];
    assert HasRaw(sys.db.raws, call.job.device, call.job.clientId) by {
      var now, actions :| sys == Run(Initial(now), actions);
      ReachableAnswersOk(now, actions);
      ReachableTraced(now, actions);
      assert AnswerOk(sys.db, call) && IngestOk(sys.db, call);
      if call.at.stored.Some? {
        assert IsRaw(sys.db.raws[call.at.stored.value], call.job.device, call.job.clientId);
      }
    }
    ReachableIsTraced(sys);
    AtMostOnce(sys, call.job.device, call.job.clientId);
  }

  // ---- replay ----

  /** A stored message stays stored. */
  lemma {:induction false} RawStays(sys: System, actions: seq<Action>, device: nat, clientId: nat)
    requires HasRaw(sys.db.raws, device, clientId)
    ensures HasRaw(Run(sys, actions).db.raws, device, clientId)
    decreases |actions|
  {
    if |actions| > 0 {
      var before := Run(sys, actions[..|actions| - 1]);
      RawStays(sys, actions[..|actions| - 1], device, clientId);
      var k :| 0 <= k < |before.db.raws| && IsRaw(before.db.raws[k], device, clientId);
      assert IsRaw(Run(sys, actions).db.raws[k], device, clientId);
    }
  }

  /** Ingesting messages that are stored already: begin one, or advance one begun in the replay. */
  predicate Replays(sys: System, a: Action) {
    match a
    case BeginIngest(job) => HasRaw(sys.db.raws, job.device, job.clientId)
    case Advance(c, _, _) => c >= |sys.calls|
    case _ => false
  }

  predicate Faultless(a: Action) {
    a.Advance? ==> a.fault.NoFault?
  }

  predicate AnsweredDuplicate(c: Call, faultless: bool) {
    && c.IngestCall?
    && (c.at.InsertRaw? || (c.at.Done? && c.at.stored.None?))
    && (c.at.Done? ==> c.at.result.MsgDuplicate? || (!faultless && c.at.result.MsgError?))
  }

  /** Since `sys` only calls were added, each about a stored message and answered `duplicate`. */
  ghost predicate OnlyDuplicates(sys: System, sys': System, faultless: bool) {
    && sys'.db == sys.db
    && |sys.calls| <= |sys'.calls| && sys'.calls[..|sys.calls|] == sys.calls
    && forall c | |sys.calls| <= c < |sys'.calls| ::
         AnsweredDuplicate(sys'.calls[c], faultless)
         && HasRaw(sys.db.raws, sys'.calls[c].job.device, sys'.calls[c].job.clientId)
  }

  lemma ReplayStep(sys: System, before: System, a: Action, faultless: bool)
    requires OnlyDuplicates(sys, before, faultless) && Replays(sys, a) && (faultless ==> Faultless(a))
    ensures OnlyDuplicates(sys, Apply(before, a), faultless)
  {
    if a.Advance? && a.call < |before.calls| {
      assert AnsweredDuplicate(before.calls[a.call], faultless);
    }
  }

  /** Replay: however the repeated messages are batched, ordered and interleaved, and whatever the
      providers now make of them, no row changes, and every one is answered `duplicate` unless its
      insert itself fails. */
  lemma {:induction false} ReplayChangesNothing(sys: System, actions: seq<Action>, faultless: bool)
    requires forall k :: 0 <= k < |actions| ==> Replays(sys, actions[k])
    requires faultless ==> forall k :: 0 <= k < |actions| ==> Faultless(actions[k])
    ensures OnlyDuplicates(sys, Run(sys, actions), faultless)
    decreases |actions|
  {
    if |actions| > 0 {
      var n := |actions| - 1;
      ReplayChangesNothing(sys, actions[..n], faultless);
      ReplayStep(sys, Run(sys, actions[..n]), actions[n], faultless);
    }
  }
}
