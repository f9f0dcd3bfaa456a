/** From the text of a payment message to a paid order: the results of the parts together. */
module EndToEnd {
  import opened Prelude
  import opened Tables
  import opened BalanceTrail
  import opened Ledger
  import opened LedgerSafety
  import LedgerTheorems
  import opened AtomicIngest
  import opened AtomicVerify
  import SmsText
  import Server
  import opened SmsTemplate
  import opened SmsAmount
  import opened SmsMatch
  import opened SmsCompiler
  import opened Ingest

  // ---- from the text to the decision ----

  /** What a message states, as text, and what the provider's script sets on it. */
  datatype Report = Report(amount: string, trxId: string, balance: Option<string>, script: ScriptOutput)

  function TokensOf(p: Provider): seq<Token>
    requires Compiled(p.smsTemplate).Ok?
  {
    Compiled(p.smsTemplate).value.tokens
  }

  /** The template's text with these values, and the fields they make. */
  function FieldsStated(r: Report, sender: string): Fields {
    Fields(NumeralValue(r.amount), sender, r.trxId,
           if r.balance.Some? then Some(NumeralValue(r.balance.value)) else None)
  }

  /** The values state this report; the script, if there is one, accepts the message and sets the rest. */
  predicate States(p: Provider, vals: seq<string>, body: string, r: Report)
    requires Compiled(p.smsTemplate).Ok?
  {
    var tokens := TokensOf(p);
    var sender := ValueOf(tokens, vals, Sender);
    && ValueOf(tokens, vals, Amount) == Some(r.amount) && ValueOf(tokens, vals, TrxId) == Some(r.trxId)
    && ValueOf(tokens, vals, Balance) == r.balance
    && if p.script.None? then r.script == NOTHING_SET
       else p.script.value(body, FieldsStated(r, if sender.Some? then sender.value else "")) == ScriptOk(r.script)
  }

  /** Provider `p` uses its template as it is, and the message is the template with these values, in
      whatever layout; at no value does a longer text let the rest of the template match. */
  ghost predicate Wrote(p: Provider, vals: seq<string>, body: string, r: Report) {
    && !p.regexMode
    && Compiled(p.smsTemplate).Ok? && Compiled(p.smsTemplate).value.pattern == p.compiledPattern
    && var tokens := TokensOf(p);
       && FitsAll(tokens, vals) && NothingLonger(tokens, vals, Render(tokens, vals), 0)
       && SmsText.Words(body) == SmsText.Words(Render(tokens, vals))
       && States(p, vals, body, r)
  }

  /** The transaction it asks for: amounts to the nearest hundredth, and TrxID and balance those of the
      message unless the script sets others. */
  function DraftFrom(p: Provider, r: Report): Draft {
    Draft(p.id,
          if r.script.trxId.Some? then r.script.trxId.value else r.trxId,
          Hundredths(NumeralValue(r.amount)),
          if r.script.balance.Some? then Some(Hundredths(r.script.balance.value))
          else if r.balance.Some? then Some(Hundredths(NumeralValue(r.balance.value))) else None,
          p.direction,
          if r.script.effective.Some? then Some(Hundredths(r.script.effective.value)) else None)
  }

  /** Message `msg` was written by provider `i` to state `r`, and none before it in the list answers. */
  ghost predicate Sent(engine: RegexEngine, providers: seq<Provider>, i: nat, msg: Message, vals: seq<string>,
                       r: Report) {
    && i < |providers| && Wrote(providers[i], vals, msg.body, r) && SenderGate(providers[i], msg.sender)
    && forall j | 0 <= j < i :: !Answers(engine, providers[j], msg.sender, msg.body)
  }

  /** The fields are read back as they were written. */
  lemma FieldsAreRead(p: Provider, vals: seq<string>, body: string, r: Report)
    requires Wrote(p, vals, body, r)
    ensures var t := Compiled(p.smsTemplate).value;
      var sender := ValueOf(t.tokens, vals, Sender);
      Matched(t, body) == Found(FieldsStated(r, if sender.Some? then sender.value else ""))
  {
    var t := Compiled(p.smsTemplate).value;
    ReadsBackExactly(p.smsTemplate, vals);
    MatchIgnoresLayout(t, body, Render(t.tokens, vals));
  }

  lemma TemplateAnswers(engine: RegexEngine, p: Provider, sender: string, vals: seq<string>, body: string, r: Report)
    requires Wrote(p, vals, body, r) && SenderGate(p, sender)
    ensures Answers(engine, p, sender, body)
    ensures AnswerOf(engine, p, sender, body) == Inserts(DraftFrom(p, r), p.compiledPattern)
  {
    FieldsAreRead(p, vals, body, r);
    var m := MatcherOf(engine, p);
    assert m.value.match_(body) == Matched(Compiled(p.smsTemplate).value, body);
  }

  /** A message written by a provider's template leads to the draft of what it states. */
  lemma MessageIsUnderstood(engine: RegexEngine, providers: seq<Provider>, i: nat, msg: Message, vals: seq<string>,
                            r: Report)
    requires Sent(engine, providers, i, msg, vals, r)
    ensures Decide(engine, providers, msg.sender, msg.body)
            == Inserts(DraftFrom(providers[i], r), providers[i].compiledPattern)
  {
    TemplateAnswers(engine, providers[i], msg.sender, vals, msg.body, r);
    assert FirstToAnswer(engine, providers, i, msg.sender, msg.body);
    FirstAnswerDecides(engine, providers, msg.sender, msg.body);
  }

  // ---- from the decision to the row ----

  /** The row a report becomes. */
  function RowOf(p: Provider, r: Report, business: nat, device: nat, raw: nat, now: int): Point {
    var d := DraftFrom(p, r);
    Tx(Transaction(p.id, d.trxId, business, device, raw, d.amount, d.balanceAfter, p.direction, d.effective, now))
  }

  /** NUMERIC(12,2), with CHECK (> 0) where it is an amount. */
  predicate FitsColumns(d: Draft) {
    && 0 < d.amount < 1_000_000_000_000
    && (d.balanceAfter.Some? ==> -1_000_000_000_000 < d.balanceAfter.value < 1_000_000_000_000)
    && (d.effective.Some? ==> 0 < d.effective.value < 1_000_000_000_000)
  }

  /** The device has sent a message under this identifier before. */
  predicate Known(db: Db, device: nat, clientId: nat) {
    exists k | 0 <= k < |db.raws| :: db.raws[k].device == device && db.raws[k].clientId == clientId
  }

  /** The message is new, its figures fit the columns, and no transaction of its provider has its TrxID. */
  predicate IsNews(db: Db, p: Provider, r: Report, device: nat, clientId: nat) {
    && !Known(db, device, clientId) && FitsColumns(DraftFrom(p, r))
    && forall k | 0 <= k < |db.points| && db.points[k].Tx? ::
         db.points[k].tx.provider != p.id || db.points[k].tx.trxId != DraftFrom(p, r).trxId
  }

  lemma NewsIsRecordable(db: Db, p: Provider, r: Report, device: nat, clientId: nat)
    ensures HasRaw(db.raws, device, clientId) <==> Known(db, device, clientId)
    ensures Acceptable(DraftFrom(p, r)) <==> FitsColumns(DraftFrom(p, r))
    ensures IsNews(db, p, r, device, clientId) <==>
      !HasRaw(db.raws, device, clientId) && Acceptable(DraftFrom(p, r))
      && FindTx(db.points, p.id, DraftFrom(p, r).trxId).None?
  {
    assert HasRaw(db.raws, device, clientId) <==> exists k | 0 <= k < |db.raws| :: IsRaw(db.raws[k], device, clientId);
    var found := FindTx(db.points, p.id, DraftFrom(p, r).trxId);
    if found.None? {
      assert forall k | 0 <= k < |db.points| :: !IsTransaction(db.points[k], p.id, DraftFrom(p, r).trxId);
    }
  }

  lemma AtOnceRecords(sys: System, job: Job, msg: Message, p: Provider, r: Report)
    requires job.decision == Inserts(DraftFrom(p, r), p.compiledPattern)
    requires job.clientId == msg.clientId && job.sender == msg.sender && job.body == msg.body
    ensures RecordedBy(sys, AfterIngest(sys, job, 4), job.device, job.business, msg, p, r)
  {
    ServerIngests(sys, job, 4);
    UninterruptedIngestIsAtomic(sys.db, job, 4);
    NewsIsRecordable(sys.db, p, r, job.device, job.clientId);
    var s := AtOnce(sys.db, job);
    assert s.db.points == sys.db.points
      + if IsNews(sys.db, p, r, job.device, job.clientId)
        then [RowOf(p, r, job.business, job.device, |sys.db.raws|, sys.db.now)] else [];
  }

  /** The row that the message states is appended exactly when it is news, and otherwise no row; the message
      itself is stored unless it is known already; no order changes. The answer says whether the message was
      known, and whether its figures fit. */
  ghost predicate RecordedBy(sys: System, after: System, device: nat, business: nat, msg: Message, p: Provider,
                             r: Report) {
    && after.db.points == sys.db.points
         + (if IsNews(sys.db, p, r, device, msg.clientId)
            then [RowOf(p, r, business, device, |sys.db.raws|, sys.db.now)] else [])
    && after.db.raws == sys.db.raws
         + (if Known(sys.db, device, msg.clientId) then []
            else [RawMessage(msg.clientId, device, business, msg.sender, msg.body, StatusFor(sys.db, p, r))])
    && after.db.orders == sys.db.orders && after.db.now == sys.db.now
    && |after.calls| == |sys.calls| + 1 && after.calls[|sys.calls|].IngestCall? && after.calls[|sys.calls|].at.Done?
    && after.calls[|sys.calls|].at.result
       == (if Known(sys.db, device, msg.clientId) then MsgDuplicate
           else if FitsColumns(DraftFrom(p, r)) then MsgParsed else MsgError)
  }

  /** A message whose figures fit is linked to the transaction with its TrxID, new or not. */
  function StatusFor(db: Db, p: Provider, r: Report): ParseStatus {
    var existing := FindTx(db.points, p.id, DraftFrom(p, r).trxId);
    if !FitsColumns(DraftFrom(p, r)) then Unparsed
    else Parsed(p.id, p.compiledPattern, if existing.Some? then existing.value else |db.points|)
  }

  /** An uninterrupted ingest of a message written by a provider's template records what it states. */
  lemma MessageIsRecorded(sys: System, engine: RegexEngine, providers: seq<Provider>, i: nat, device: nat,
                          business: nat, msg: Message, vals: seq<string>, r: Report)
    requires Sent(engine, providers, i, msg, vals, r)
    ensures var job := JobOf(engine, Some(providers), device, business, msg);
      RecordedBy(sys, AfterIngest(sys, job, 4), device, business, msg, providers[i], r)
  {
    MessageIsUnderstood(engine, providers, i, msg, vals, r);
    AtOnceRecords(sys, JobOf(engine, Some(providers), device, business, msg), msg, providers[i], r);
  }

  /** When the providers cannot be read, a new message is stored all the same, for a later attempt, and answered
      `error`; nothing else changes. */
  lemma UnreadProvidersKeepTheMessage(sys: System, engine: RegexEngine, device: nat, business: nat, msg: Message)
    ensures var after := AfterIngest(sys, JobOf(engine, None, device, business, msg), 4);
      && after.db.points == sys.db.points && after.db.orders == sys.db.orders
      && after.db.raws == sys.db.raws
           + (if Known(sys.db, device, msg.clientId) then []
              else [RawMessage(msg.clientId, device, business, msg.sender, msg.body, Unparsed)])
      && |after.calls| == |sys.calls| + 1 && after.calls[|sys.calls|].IngestCall? && after.calls[|sys.calls|].at.Done?
      && after.calls[|sys.calls|].at.result == if Known(sys.db, device, msg.clientId) then MsgDuplicate else MsgError
  {
    var job := JobOf(engine, None, device, business, msg);
    ServerIngests(sys, job, 4);
    UninterruptedIngestIsAtomic(sys.db, job, 4);
    assert HasRaw(sys.db.raws, device, msg.clientId)
      <==> exists k | 0 <= k < |sys.db.raws| :: IsRaw(sys.db.raws[k], device, msg.clientId);
  }

  /** The grammar of amounts allows zero, and the column refuses it. */
  lemma ZeroIsRefused(p: Provider, r: Report)
    requires r.amount == "0"
    ensures Fits(Amount, r.amount) && !FitsColumns(DraftFrom(p, r))
  {
    AsciiNumeralFits(r.amount);
    ZeroRoundsToZero();
  }

  lemma ZeroRoundsToZero()
    ensures Hundredths(NumeralValue("0")) == 0
  {
    assert "0"[..0] == "" && Read("") == Reader(0, 0, false);
    assert NumeralValue("0") == Decimal(0, 0);
    assert Pow10(0) == 1;
  }

  // ---- from the row to the paid order ----

  /** Order `o` of the request is open, and transaction `t` is the one latest with the submitted TrxID, is
      a credit of the expected amount, and pays no order yet. */
  ghost predicate Payable(db: Db, req: Request, o: nat, t: nat) {
    && FindOrder(db.orders, req.business, req.externalId) == Some(o)
    && db.orders[o].status.Pending? && !Stale(db.orders[o], db.now)
    && LatestCandidate(db.points, req.business, req.trxId, t)
    && (forall k :: LatestCandidate(db.points, req.business, req.trxId, k) ==> k == t)
    && db.points[t].tx.direction.Credit? && db.points[t].tx.Effective() == db.orders[o].expected
    && !Taken(db.orders, t)
  }

  /** The account of the transaction is honest and regular, or the transaction states no balance to check. */
  ghost predicate Trusted(points: seq<Point>, t: nat)
    requires t < |points| && points[t].Tx?
  {
    points[t].tx.balanceAfter.None?
    || (Regular(points, points[t].Device(), points[t].Provider())
        && exists opening :: Honest(points, points[t].Device(), points[t].Provider(), opening))
  }

  /** The answer is `success`, and the orders are as before but for `o`, which `t` has paid. */
  ghost predicate Accepted(db: Db, s: VerifyState, o: nat, t: nat)
    requires o < |db.orders|
  {
    && s.pc.Returned? && s.pc.outcome.code.Success? && s.pc.outcome.order == Some(o) && s.pc.outcome.tx == Some(t)
    && s.db.orders == db.orders[o := Claimed(db.orders[o], t, db.now)]
  }

  /** An honest payment of the right amount is accepted: whichever rows its queries pick, the
      uninterrupted verification returns `success` and pays exactly that order with it. */
  lemma HonestPaymentIsAccepted(sys: System, req: Request, o: nat, t: nat, picks: seq<nat>)
    requires Reachable(sys) && Payable(sys.db, req, o, t) && Trusted(sys.db.points, t)
    requires Alone(sys.db, req, picks).pc.Returned?
    ensures Accepted(sys.db, Alone(sys.db, req, picks), o, t)
  {
    var db, points := sys.db, sys.db.points;
    var out := Alone(db, req, picks).pc.outcome;
    LedgerTheorems.ReachableIsSafe(sys);
    UninterruptedVerifyIsAtomic(db, req, picks);
    assert HasCandidate(points, req.business, req.trxId);
    var u: nat :| LatestCandidate(points, req.business, req.trxId, u) && DecisionFor(db, o, u, out);
    assert u == t;
    var v :| BalanceVerdict(points, t, v) && out == Verdicted(db, Snapshot(o, db.orders[o], db.now), t, v);
    if points[t].tx.balanceAfter.Some? {
      var opening :| Honest(points, points[t].Device(), points[t].Provider(), opening);
      HonestNeverRejected(points, t, opening);
    }
  }

  /** And some picks make it return. */
  lemma PaymentReturns(sys: System, req: Request, o: nat, t: nat) returns (picks: seq<nat>)
    requires Reachable(sys) && Payable(sys.db, req, o, t)
    ensures Alone(sys.db, req, picks).pc.Returned?
  {
    var db, points := sys.db, sys.db.points;
    LedgerTheorems.ReachableIsSafe(sys);
    var v := None;
    if points[t].tx.balanceAfter.Some? {
      v := SomeVerdict(points, t);
    }
    var out := Verdicted(db, Snapshot(o, db.orders[o], db.now), t, v);
    assert HasCandidate(points, req.business, req.trxId);
    assert DecisionFor(db, o, t, out);
    picks := EveryDecisionIsReached(db, req, out);
  }

  // ---- from the text to the paid order ----

  lemma {:induction false} PointsStay(sys: System, actions: seq<Action>)
    ensures var points := Run(sys, actions).db.points;
      |sys.db.points| <= |points| && points[..|sys.db.points|] == sys.db.points
    decreases |actions|
  {
    if |actions| > 0 {
      var before := Run(sys, actions[..|actions| - 1]);
      PointsStay(sys, actions[..|actions| - 1]);
      StepEvolves(before, actions[|actions| - 1]);
      var points := Run(sys, actions).db.points;
      assert points[..|before.db.points|][..|sys.db.points|] == points[..|sys.db.points|];
    }
  }

  lemma ReachableOn(sys: System, actions: seq<Action>)
    requires Reachable(sys)
    ensures Reachable(Run(sys, actions))
  {
    var now, first :| sys == Run(Initial(now), first);
    Server.RunAppends(Initial(now), first, actions);
  }

  /** What the payment counts for: the amount that the script set, or else the message's. */
  function Worth(r: Report): Money {
    if r.script.effective.Some? then Hundredths(r.script.effective.value) else Hundredths(NumeralValue(r.amount))
  }

  /** Order `o` waits for the payment that `r` reports, and that payment, transaction `t` of time `at`,
      is still free and not outdated by another with its TrxID. */
  ghost predicate Awaits(db: Db, req: Request, o: nat, p: Provider, r: Report, t: nat, at: int) {
    && FindOrder(db.orders, req.business, req.externalId) == Some(o)
    && db.orders[o].status.Pending? && !Stale(db.orders[o], db.now)
    && db.orders[o].expected == Worth(r) && req.trxId == DraftFrom(p, r).trxId
    && !Taken(db.orders, t)
    && forall k | 0 <= k < |db.points| && IsCandidate(db.points, req.business, req.trxId, k) && k != t ::
         db.points[k].At() < at
  }

  /** A recorded credit pays the order that awaits it. */
  lemma NewsIsPayable(sys: System, after: System, later: System, device: nat, msg: Message, p: Provider, r: Report,
                      req: Request, o: nat)
    requires RecordedBy(sys, after, device, req.business, msg, p, r) && IsNews(sys.db, p, r, device, msg.clientId)
    requires |after.db.points| <= |later.db.points| && later.db.points[..|after.db.points|] == after.db.points
    requires p.direction.Credit? && Awaits(later.db, req, o, p, r, |sys.db.points|, sys.db.now)
    ensures Payable(later.db, req, o, |sys.db.points|)
  {
    var t := |sys.db.points|;
    assert later.db.points[t] == after.db.points[t] == RowOf(p, r, req.business, device, |sys.db.raws|, sys.db.now);
    assert IsCandidate(later.db.points, req.business, req.trxId, t);
  }

  /** The state after a message was ingested without interruption, and some actions more. */
  function Later(sys: System, engine: RegexEngine, providers: seq<Provider>, device: nat, business: nat, msg: Message,
                 meanwhile: seq<Action>): System {
    Run(AfterIngest(sys, JobOf(engine, Some(providers), device, business, msg), 4), meanwhile)
  }

  lemma LaterIsPayable(sys: System, engine: RegexEngine, providers: seq<Provider>, i: nat, device: nat, msg: Message,
                       vals: seq<string>, r: Report, meanwhile: seq<Action>, req: Request, o: nat)
    requires Reachable(sys) && Sent(engine, providers, i, msg, vals, r)
    requires providers[i].direction.Credit? && IsNews(sys.db, providers[i], r, device, msg.clientId)
    requires var later := Later(sys, engine, providers, device, req.business, msg, meanwhile);
      Awaits(later.db, req, o, providers[i], r, |sys.db.points|, sys.db.now)
    ensures var later := Later(sys, engine, providers, device, req.business, msg, meanwhile);
      Reachable(later) && Payable(later.db, req, o, |sys.db.points|)
  {
    var job := JobOf(engine, Some(providers), device, req.business, msg);
    var after := AfterIngest(sys, job, 4);
    MessageIsRecorded(sys, engine, providers, i, device, req.business, msg, vals, r);
    PointsStay(after, meanwhile);
    NewsIsPayable(sys, after, Run(after, meanwhile), device, msg, providers[i], r, req, o);
    ReachableOn(sys, AloneActions(sys, job, 4));
    ReachableOn(after, meanwhile);
  }

  /** The transaction at `t`, if it is there, is trusted. */
  ghost predicate TrustedRow(points: seq<Point>, t: nat) {
    t < |points| && points[t].Tx? ==> Trusted(points, t)
  }

  /** A message that a provider wrote about an incoming payment, and that is news, pays the order that
      awaits it: once it is ingested, and whatever else happens meanwhile, an uninterrupted verification
      of its TrxID can return, and always returns `success` and pays that order with it. */
  lemma MessagePaysTheOrder(sys: System, engine: RegexEngine, providers: seq<Provider>, i: nat, device: nat,
                            msg: Message, vals: seq<string>, r: Report, meanwhile: seq<Action>, req: Request, o: nat)
    requires Reachable(sys) && Sent(engine, providers, i, msg, vals, r)
    requires providers[i].direction.Credit? && IsNews(sys.db, providers[i], r, device, msg.clientId)
    requires var later := Later(sys, engine, providers, device, req.business, msg, meanwhile);
      && Awaits(later.db, req, o, providers[i], r, |sys.db.points|, sys.db.now)
      && TrustedRow(later.db.points, |sys.db.points|)
    ensures var t, later := |sys.db.points|, Later(sys, engine, providers, device, req.business, msg, meanwhile);
      && (exists picks: seq<nat> :: Alone(later.db, req, picks).pc.Returned?)
      && forall picks: seq<nat> | Alone(later.db, req, picks).pc.Returned? ::
           Accepted(later.db, Alone(later.db, req, picks), o, t)
  {
    var t, later := |sys.db.points|, Later(sys, engine, providers, device, req.business, msg, meanwhile);
    LaterIsPayable(sys, engine, providers, i, device, msg, vals, r, meanwhile, req, o);
    var some := PaymentReturns(later, req, o, t);
    forall picks: seq<nat> | Alone(later.db, req, picks).pc.Returned?
      ensures Accepted(later.db, Alone(later.db, req, picks), o, t)
    {
      HonestPaymentIsAccepted(later, req, o, t, picks);
    }
  }
}
