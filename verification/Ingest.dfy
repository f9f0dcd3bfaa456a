/** `IngestService`: what becomes of a message, and the statements that record it. */
module Ingest {
  import opened Prelude
  import opened Tables
  import opened Ledger
  import opened Server
  import opened VerifyService
  import SmsText
  import opened SmsAmount
  import opened SmsCompiler

  // ---- providers ----

  /** A compiled pattern: its text, and what it makes of a body. */
  datatype Matcher = Matcher(pattern: string, match_: string -> MatchResult)

  /** What a script that accepts a message may set; TrxID and balance only where overrides are allowed. */
  datatype ScriptOutput = ScriptOutput(effective: Option<Decimal>, trxId: Option<string>, balance: Option<Decimal>)

  datatype ScriptResult = ScriptFails | ScriptRejects | ScriptOk(output: ScriptOutput)

  const NOTHING_SET := ScriptOutput(None, None, None)

  datatype Provider = Provider(
    id: nat, senderId: Option<string>, regexMode: bool, smsTemplate: string, compiledPattern: string,
    direction: Direction, script: Option<(string, Fields) -> ScriptResult>)

  /** `CompileRegex`, as an arbitrary function. */
  type RegexEngine = string -> Option<Matcher>

  predicate SenderGate(p: Provider, sender: string) {
    if p.senderId.None? || p.senderId.value == "" then true
    else if sender == "" then false
    else SmsText.FoldEq(sender, p.senderId.value)
  }

  function MatcherOf(engine: RegexEngine, p: Provider): Option<Matcher> {
    if p.regexMode then engine(p.smsTemplate)
    else match Compiled(p.smsTemplate)
      case Err(_) => None
      case Ok(t) => Some(Matcher(t.pattern, body => Matched(t, body)))
  }

  // ---- amounts as the columns store them ----

  function Pow10(n: nat): (r: nat)
    ensures r > 0
  {
    if n == 0 then 1 else 10 * Pow10(n - 1)
  }

  /** Rounding to hundredths, halves away from zero. */
  function Hundredths(d: Decimal): Money {
    if d.coef >= 0 then (200 * d.coef + Pow10(d.scale)) / (2 * Pow10(d.scale))
    else -((-200 * d.coef + Pow10(d.scale)) / (2 * Pow10(d.scale)))
  }

  function OptionalHundredths(d: Option<Decimal>): Option<Money> {
    if d.Some? then Some(Hundredths(d.value)) else None
  }

  /** `m` is nearest to `a` divided by `p`, of two equally near ones the one farther from zero. */
  predicate Near(a: int, p: int, m: int) {
    if a >= 0 then -p < 2 * (m * p - a) <= p else -p <= 2 * (m * p - a) < p
  }

  lemma RoundsToNearest(a: nat, p: int)
    requires p > 0
    ensures Near(a, p, (2 * a + p) / (2 * p))
  {
    var q := 2 * p;
    var n := 2 * a + p;
    assert n == q * (n / q) + n % q;
  }

  lemma RoundsUpwards(a: int, p: int)
    requires p > 0 && a < 0
    ensures Near(a, p, -((-2 * a + p) / (2 * p)))
  {
    RoundsToNearest(-a, p);
    var m := (-2 * a + p) / (2 * p);
    assert (-m) * p == -(m * p);
  }

  lemma {:induction false} Multiples(p: int, d: nat)
    requires p > 0 && d > 0
    ensures d * p >= p
  {
    if d > 1 {
      Multiples(p, d - 1);
      assert d * p == (d - 1) * p + p;
    }
  }

  lemma StepsApart(p: int, m: int, k: int)
    requires p > 0 && m > k
    ensures m * p >= k * p + p
  {
    Multiples(p, m - k);
    assert (m - k) * p == m * p - k * p;
  }

  lemma OneIsNear(a: int, p: int, m: int, k: int)
    requires p > 0 && Near(a, p, m) && Near(a, p, k)
    ensures m == k
  {
    if m > k {
      StepsApart(p, m, k);
    } else if m < k {
      StepsApart(p, k, m);
    }
  }

  /** `m` hundredths are nearest to `d`. */
  ghost predicate Nearest(d: Decimal, m: Money) {
    Near(100 * d.coef, Pow10(d.scale), m)
  }

  /** The stored amount is the hundredth nearest to the one in the message, and no other. */
  lemma StoredAmountIsNearest(d: Decimal, m: Money)
    ensures m == Hundredths(d) <==> Nearest(d, m)
  {
    var p := Pow10(d.scale);
    if d.coef >= 0 {
      RoundsToNearest(100 * d.coef, p);
    } else {
      RoundsUpwards(100 * d.coef, p);
    }
    if Nearest(d, m) {
      OneIsNear(100 * d.coef, p, m, Hundredths(d));
    }
  }

  /** Two decimal places are stored as they are, fewer are filled up, and a zero at the end adds nothing. */
  lemma HundredthsAreExact(c: nat, scale: nat)
    ensures Hundredths(Decimal(c, 2)) == c && Hundredths(Decimal(c, 1)) == 10 * c
    ensures Hundredths(Decimal(c, 0)) == 100 * c
    ensures Hundredths(Decimal(10 * c, scale + 1)) == Hundredths(Decimal(c, scale))
  {
    assert Pow10(0) == 1 && Pow10(1) == 10 && Pow10(2) == 100;
    StoredAmountIsNearest(Decimal(c, 2), c);
    StoredAmountIsNearest(Decimal(c, 1), 10 * c);
    StoredAmountIsNearest(Decimal(c, 0), 100 * c);
    ZeroAddsNothing(c, scale);
  }

  lemma ScalesNear(a: nat, p: int, m: int)
    requires p > 0 && Near(a, p, m)
    ensures Near(10 * a, 10 * p, m)
  {
    assert m * (10 * p) == 10 * (m * p);
  }

  lemma ZeroAddsNothing(c: nat, scale: nat)
    ensures Hundredths(Decimal(10 * c, scale + 1)) == Hundredths(Decimal(c, scale))
  {
    var h, p := Hundredths(Decimal(c, scale)), Pow10(scale);
    StoredAmountIsNearest(Decimal(c, scale), h);
    assert Pow10(scale + 1) == 10 * p;
    ScalesNear(100 * c, p, h);
    StoredAmountIsNearest(Decimal(10 * c, scale + 1), h);
  }

  // ---- the decision ----

  /** A provider answers for a message when its gate opens, its stored pattern is the one its
      template compiles to, and the pattern matches, or fails on a match. */
  predicate Answers(engine: RegexEngine, p: Provider, sender: string, body: string) {
    SenderGate(p, sender)
    && var m := MatcherOf(engine, p);
       m.Some? && m.value.pattern == p.compiledPattern && !m.value.match_(body).NoMatch?
  }

  function DraftOf(p: Provider, fields: Fields, output: ScriptOutput): Decision {
    var trxId := if output.trxId.Some? then output.trxId.value else fields.trxId;
    var balance := if output.balance.Some? then output.balance else fields.balance;
    Inserts(Draft(p.id, trxId, Hundredths(fields.amount), OptionalHundredths(balance), p.direction,
                  OptionalHundredths(output.effective)), p.compiledPattern)
  }

  /** What an answering provider decides. */
  function AnswerOf(engine: RegexEngine, p: Provider, sender: string, body: string): Decision
    requires Answers(engine, p, sender, body)
  {
    match MatcherOf(engine, p).value.match_(body)
    case MatchFails => ParseFails
    case Found(fields) =>
      if p.script.None? then DraftOf(p, fields, NOTHING_SET)
      else match p.script.value(body, fields)
        case ScriptFails => ParseFails
        case ScriptRejects => Rejects
        case ScriptOk(output) => DraftOf(p, fields, output)
  }

  /** The first answering provider decides. */
  function Decide(engine: RegexEngine, providers: seq<Provider>, sender: string, body: string): Decision {
    if |providers| == 0 then NoProvider
    else if Answers(engine, providers[0], sender, body) then AnswerOf(engine, providers[0], sender, body)
    else Decide(engine, providers[1..], sender, body)
  }

  ghost predicate FirstToAnswer(engine: RegexEngine, providers: seq<Provider>, i: int, sender: string, body: string)
    requires 0 <= i < |providers|
  {
    Answers(engine, providers[i], sender, body)
    && forall j :: 0 <= j < i ==> !Answers(engine, providers[j], sender, body)
  }

  /** The outcome is that of provider `i` exactly when `i` is the first in list order that answers,
      also when it fails or rejects; it is `unmatched` exactly when none answers. */
  lemma {:induction false} FirstAnswerDecides(engine: RegexEngine, providers: seq<Provider>, sender: string,
                                              body: string)
    ensures forall i :: 0 <= i < |providers| && FirstToAnswer(engine, providers, i, sender, body) ==>
              Decide(engine, providers, sender, body) == AnswerOf(engine, providers[i], sender, body)
    ensures Decide(engine, providers, sender, body).NoProvider?
            <==> forall i :: 0 <= i < |providers| ==> !Answers(engine, providers[i], sender, body)
  {
    if |providers| > 0 && !Answers(engine, providers[0], sender, body) {
      var tail := providers[1..];
      FirstAnswerDecides(engine, tail, sender, body);
      assert forall i :: 0 <= i < |tail| ==> tail[i] == providers[i + 1];
      forall i | 0 <= i < |providers| && FirstToAnswer(engine, providers, i, sender, body)
        ensures Decide(engine, providers, sender, body) == AnswerOf(engine, providers[i], sender, body)
      {
        assert tail[i - 1] == providers[i];
        assert FirstToAnswer(engine, tail, i - 1, sender, body);
      }
      if forall i :: 0 <= i < |tail| ==> !Answers(engine, tail[i], sender, body) {
        forall i | 0 <= i < |providers| ensures !Answers(engine, providers[i], sender, body) {
          assert i > 0 ==> providers[i] == tail[i - 1];
        }
      }
    }
  }

  /** No amount, or the hundredth nearest to it. */
  ghost predicate OptionalNearest(d: Option<Decimal>, m: Option<Money>) {
    if d.None? then m.None? else m.Some? && Nearest(d.value, m.value)
  }

  /** The row that a match asks for: the message's TrxID and balance unless a script set others, the
      message's own amount always, and the amount that the script set beside it, to the nearest hundredth. */
  ghost predicate AsksFor(p: Provider, fields: Fields, output: ScriptOutput, d: Draft) {
    && d.provider == p.id && d.direction == p.direction
    && (output.trxId.None? ==> d.trxId == fields.trxId)
    && (output.trxId.Some? ==> d.trxId == output.trxId.value)
    && Nearest(fields.amount, d.amount)
    && (output.balance.None? ==> OptionalNearest(fields.balance, d.balanceAfter))
    && (output.balance.Some? ==> OptionalNearest(output.balance, d.balanceAfter))
    && OptionalNearest(output.effective, d.effective)
  }

  lemma DraftIsAskedFor(p: Provider, fields: Fields, output: ScriptOutput)
    ensures var decision := DraftOf(p, fields, output);
      decision.Inserts? && decision.pattern == p.compiledPattern && AsksFor(p, fields, output, decision.draft)
  {
    forall d: Decimal ensures Nearest(d, Hundredths(d)) {
      StoredAmountIsNearest(d, Hundredths(d));
    }
  }

  /** What a provider makes of the fields of a message: nothing if it is for another sender or its stored
      pattern is not the one in force, and otherwise what the pattern in force finds, which is the engine's in
      regular expression mode and the compiled template's if not. */
  function Finds(engine: RegexEngine, p: Provider, sender: string, body: string): MatchResult {
    if p.senderId.Some? && p.senderId.value != "" && !SmsText.FoldEq(sender, p.senderId.value) then NoMatch
    else if p.regexMode then
      var m := engine(p.smsTemplate);
      if m.Some? && m.value.pattern == p.compiledPattern then m.value.match_(body) else NoMatch
    else
      var t := Compiled(p.smsTemplate);
      if t.Ok? && t.value.pattern == p.compiledPattern then Matched(t.value, body) else NoMatch
  }

  lemma AnswersWhatItFinds(engine: RegexEngine, p: Provider, sender: string, body: string)
    ensures Answers(engine, p, sender, body) <==> Finds(engine, p, sender, body) != NoMatch
    ensures Answers(engine, p, sender, body) ==>
      MatcherOf(engine, p).value.match_(body) == Finds(engine, p, sender, body)
  {
  }

  /** A message is `unmatched` exactly when no provider finds anything; otherwise the first that does decides,
      by what its pattern and its script come to. */
  lemma DecisionOfFirst(engine: RegexEngine, providers: seq<Provider>, sender: string, body: string)
    ensures Decide(engine, providers, sender, body) == NoProvider
            <==> forall i | 0 <= i < |providers| :: Finds(engine, providers[i], sender, body) == NoMatch
    ensures forall i | 0 <= i < |providers| && FindsFirst(engine, providers, i, sender, body) ::
      DecidedBy(engine, providers[i], sender, body, Decide(engine, providers, sender, body))
  {
    FirstAnswerDecides(engine, providers, sender, body);
    forall i | 0 <= i < |providers|
      ensures Answers(engine, providers[i], sender, body) <==> Finds(engine, providers[i], sender, body) != NoMatch
    {
      AnswersWhatItFinds(engine, providers[i], sender, body);
    }
    forall i | 0 <= i < |providers| && FindsFirst(engine, providers, i, sender, body)
      ensures DecidedBy(engine, providers[i], sender, body, Decide(engine, providers, sender, body))
    {
      assert FirstToAnswer(engine, providers, i, sender, body);
      AnswerIsDecided(engine, providers[i], sender, body);
    }
  }

  ghost predicate FindsFirst(engine: RegexEngine, providers: seq<Provider>, i: int, sender: string, body: string)
    requires 0 <= i < |providers|
  {
    Finds(engine, providers[i], sender, body) != NoMatch
    && forall j | 0 <= j < i :: Finds(engine, providers[j], sender, body) == NoMatch
  }

  /** The decision on what a provider found. */
  ghost predicate DecidedBy(engine: RegexEngine, p: Provider, sender: string, body: string, decision: Decision) {
    match Finds(engine, p, sender, body)
    case NoMatch => false
    case MatchFails => decision == ParseFails
    case Found(fields) => DecidedOn(p, body, fields, decision)
  }

  /** A script fails or rejects the message, or sets what it wants to; without one nothing is set. */
  ghost predicate DecidedOn(p: Provider, body: string, fields: Fields, decision: Decision) {
    match (if p.script.Some? then p.script.value(body, fields) else ScriptOk(NOTHING_SET))
    case ScriptFails => decision == ParseFails
    case ScriptRejects => decision == Rejects
    case ScriptOk(output) =>
      decision.Inserts? && decision.pattern == p.compiledPattern && AsksFor(p, fields, output, decision.draft)
  }

  lemma FoundIsDecided(p: Provider, body: string, fields: Fields, output: ScriptOutput)
    requires (if p.script.Some? then p.script.value(body, fields) else ScriptOk(NOTHING_SET)) == ScriptOk(output)
    ensures DecidedOn(p, body, fields, DraftOf(p, fields, output))
  {
    DraftIsAskedFor(p, fields, output);
  }

  lemma AnswerIsDecided(engine: RegexEngine, p: Provider, sender: string, body: string)
    requires Answers(engine, p, sender, body)
    ensures DecidedBy(engine, p, sender, body, AnswerOf(engine, p, sender, body))
  {
    AnswersWhatItFinds(engine, p, sender, body);
    var found := Finds(engine, p, sender, body);
    if found.Found? {
      var says := if p.script.Some? then p.script.value(body, found.fields) else ScriptOk(NOTHING_SET);
      if says.ScriptOk? {
        FoundIsDecided(p, body, found.fields, says.output);
      }
    }
  }

  /** The provider list read at the start of the batch, or its failure. */
  function Decided(engine: RegexEngine, providers: Option<seq<Provider>>, sender: string, body: string): Decision {
    if providers.None? then ProvidersUnavailable else Decide(engine, providers.value, sender, body)
  }

  // ---- statements ----

  /** INSERT ... ON CONFLICT DO NOTHING. */
  method InsertRawMessage(db: Database, job: Job) returns (inserted: bool)
    modifies db`raws
    ensures inserted == !HasRaw(old(db.raws), job.device, job.clientId)
    ensures db.raws == old(db.raws)
              + if inserted then [RawMessage(job.clientId, job.device, job.business, job.sender, job.body, Unparsed)]
                else []
  {
    inserted := true;
    for i := 0 to |db.raws|
      invariant db.raws == old(db.raws)
      invariant inserted <==> forall k :: 0 <= k < i ==> !IsRaw(db.raws[k], job.device, job.clientId)
    {
      if IsRaw(db.raws[i], job.device, job.clientId) {
        inserted := false;
      }
    }
    if inserted {
      db.raws := db.raws + [RawMessage(job.clientId, job.device, job.business, job.sender, job.body, Unparsed)];
    }
  }

  method GetTransactionByProviderAndTrxID(db: Database, provider: nat, trxId: string) returns (r: Option<nat>)
    ensures r == FindTx(db.points, provider, trxId)
  {
    var i := 0;
    while i < |db.points|
      invariant 0 <= i <= |db.points|
      invariant FindTx(db.points[..i], provider, trxId).None?
    {
      assert db.points[..i + 1][..i] == db.points[..i];
      if IsTransaction(db.points[i], provider, trxId) {
        FirstTxIsFound(db.points, provider, trxId, i, |db.points|);
        assert db.points[..|db.points|] == db.points;
        return Some(i);
      }
      i := i + 1;
    }
    assert db.points[..i] == db.points;
    return None;
  }

  lemma {:induction false} FirstTxIsFound(points: seq<Point>, provider: nat, trxId: string, i: nat, n: nat)
    requires i < n <= |points|
    requires FindTx(points[..i], provider, trxId).None? && IsTransaction(points[i], provider, trxId)
    ensures FindTx(points[..n], provider, trxId) == Some(i)
    decreases n
  {
    assert points[..n][..n - 1] == points[..n - 1];
    if i < n - 1 {
      FirstTxIsFound(points, provider, trxId, i, n - 1);
    }
  }

  // ---- one message ----

  predicate Ingesting(calls: seq<Call>, me: nat, job: Job, at: IngestPc) {
    me < |calls| && calls[me] == IngestCall(job, at)
  }

  /** The next statement for a stored message. */
  method Dispatch(decision: Decision, raw: nat) returns (at: IngestPc)
    ensures at == AfterRaw(decision, raw)
  {
    match decision {
      case ProvidersUnavailable => at := Done(MsgError, Some(raw));
      case NoProvider => at := Mark(raw, Unmatched, MsgUnmatched);
      case ParseFails => at := Mark(raw, ParseError, MsgError);
      case Rejects => at := Mark(raw, Skipped, MsgSkipped);
      case Inserts(_, _) => at := InsertTx(raw);
    }
  }

  /** The statement that stores the message, and where `ingestOne` stands after it. */
  method StoreRaw(db: Database, job: Job, fault: Fault) returns (at: IngestPc)
    modifies db`raws
    ensures IngestState(db.Tables(), at) == IngestStep(old(db.Tables()), job, InsertRaw, fault)
  {
    if fault.Lost? {
      return Done(MsgError, None);
    }
    var raw := |db.raws|;
    var inserted := InsertRawMessage(db, job);
    if !inserted {
      at := Done(if fault.NoFault? then MsgDuplicate else MsgError, None);
    } else if fault.LostReply? {
      at := Done(MsgError, Some(raw));
    } else {
      at := Dispatch(job.decision, raw);
    }
  }

  method InsertRawStep(db: Database, me: nat, job: Job, turn: Turn) returns (at: IngestPc)
    requires Ingesting(db.calls, me, job, InsertRaw) && AllForeign(turn.others, me)
    modifies db
    ensures db.State() == Run(old(db.State()), TurnActions(turn, me, 0)) && Ingesting(db.calls, me, job, at)
    ensures at.InsertTx? ==> job.decision.Inserts?
    ensures !at.InsertRaw? && !at.Lookup?
  {
    db.Interfere(turn.others, me);
    ghost var before := db.State();
    at := StoreRaw(db, job, turn.fault);
    db.calls := db.calls[me := IngestCall(job, at)];
    TurnRuns(old(db.State()), before, db.State(), me, turn, 0);
  }

  method InsertTxStep(db: Database, me: nat, job: Job, raw: nat, turn: Turn) returns (at: IngestPc)
    requires Ingesting(db.calls, me, job, InsertTx(raw)) && job.decision.Inserts? && AllForeign(turn.others, me)
    modifies db
    ensures db.State() == Run(old(db.State()), TurnActions(turn, me, 0)) && Ingesting(db.calls, me, job, at)
    ensures at == Lookup(raw) || at.Mark? || at.Done?
  {
    db.Interfere(turn.others, me);
    ghost var before := db.State();
    var draft := job.decision.draft;
    if turn.fault.Lost? || !Acceptable(draft) {
      at := Done(MsgError, Some(raw));
    } else {
      var existing := GetTransactionByProviderAndTrxID(db, draft.provider, draft.trxId);
      if existing.Some? {
        at := if turn.fault.NoFault? then Lookup(raw) else Done(MsgError, Some(raw));
      } else {
        var tx := |db.points|;
        db.points := db.points + [Drafted(job, raw, db.now)];
        at := if turn.fault.NoFault? then LinkTo(job, raw, tx) else Done(MsgError, Some(raw));
      }
    }
    db.calls := db.calls[me := IngestCall(job, at)];
    TurnRuns(old(db.State()), before, db.State(), me, turn, 0);
  }

  method LookupStep(db: Database, me: nat, job: Job, raw: nat, turn: Turn) returns (at: IngestPc)
    requires Ingesting(db.calls, me, job, Lookup(raw)) && job.decision.Inserts? && AllForeign(turn.others, me)
    modifies db
    ensures db.State() == Run(old(db.State()), TurnActions(turn, me, 0)) && Ingesting(db.calls, me, job, at)
    ensures at.Mark? || at.Done?
  {
    db.Interfere(turn.others, me);
    ghost var before := db.State();
    var found := GetTransactionByProviderAndTrxID(db, job.decision.draft.provider, job.decision.draft.trxId);
    if turn.fault.NoFault? && found.Some? {
      at := LinkTo(job, raw, found.value);
    } else {
      at := Done(MsgError, Some(raw));
    }
    db.calls := db.calls[me := IngestCall(job, at)];
    TurnRuns(old(db.State()), before, db.State(), me, turn, 0);
  }

  /** The `Mark...` statements: an update whose error is ignored. */
  method MarkStep(db: Database, me: nat, job: Job, mark: IngestPc, turn: Turn) returns (at: IngestPc)
    requires mark.Mark? && Ingesting(db.calls, me, job, mark) && AllForeign(turn.others, me)
    modifies db
    ensures db.State() == Run(old(db.State()), TurnActions(turn, me, 0)) && Ingesting(db.calls, me, job, at)
    ensures at == Done(mark.result, Some(mark.raw))
  {
    db.Interfere(turn.others, me);
    ghost var before := db.State();
    if !turn.fault.Lost? && mark.raw < |db.raws| {
      db.raws := db.raws[mark.raw := db.raws[mark.raw].(status := mark.status)];
    }
    at := Done(mark.result, Some(mark.raw));
    db.calls := db.calls[me := IngestCall(job, at)];
    TurnRuns(old(db.State()), before, db.State(), me, turn, 0);
  }

  /** The insert of the transaction, and the lookup when it exists already. */
  method RecordTransaction(db: Database, me: nat, job: Job, raw: nat, turns: nat -> Turn)
    returns (at: IngestPc, ghost run: seq<Action>)
    requires Ingesting(db.calls, me, job, InsertTx(raw)) && job.decision.Inserts?
    requires forall k :: AllForeign(turns(k).others, me)
    modifies db
    ensures db.State() == Run(old(db.State()), run) && Interleaved(run, me, turns)
    ensures Ingesting(db.calls, me, job, at) && (at.Mark? || at.Done?)
  {
    ghost var start := db.State();
    at := InsertTxStep(db, me, job, raw, turns(1));
    run := TurnActions(turns(1), me, 0);
    InterleavedTurn(me, turns, 1, 0);
    if at.Lookup? {
      at := LookupStep(db, me, job, at.raw, turns(2));
      run := Extended(start, run, turns, 2, me, 0);
    }
  }

  /** `ingestOne`, statement by statement, interleaved with whatever the others do. */
  method IngestOne(db: Database, me: nat, job: Job, turns: nat -> Turn)
    returns (result: MessageStatus, ghost run: seq<Action>)
    requires Ingesting(db.calls, me, job, InsertRaw)
    requires forall k :: AllForeign(turns(k).others, me)
    modifies db
    ensures db.State() == Run(old(db.State()), run) && Interleaved(run, me, turns)
    ensures me < |db.calls| && db.calls[me].IngestCall? && db.calls[me].job == job
    ensures db.calls[me].at.Done? && db.calls[me].at.result == result
  {
    ghost var start := db.State();
    var at := InsertRawStep(db, me, job, turns(0));
    run := TurnActions(turns(0), me, 0);
    InterleavedTurn(me, turns, 0, 0);
    if at.InsertTx? {
      ghost var seg;
      at, seg := RecordTransaction(db, me, job, at.raw, turns);
      RunAppends(start, run, seg);
      run := run + seg;
    }
    if at.Mark? {
      at := MarkStep(db, me, job, at, turns(3));
      run := Extended(start, run, turns, 3, me, 0);
    }
    result := at.result;
  }

  // ---- a batch ----

  datatype Message = Message(clientId: nat, sender: string, body: string)

  function JobOf(engine: RegexEngine, providers: Option<seq<Provider>>, device: nat, business: nat, m: Message): Job {
    Job(device, business, m.clientId, m.sender, m.body, Decided(engine, providers, m.sender, m.body))
  }

  /** Finds what the providers decide, in the order the loop of `ingestOne` tries them. */
  method ProviderLoop(engine: RegexEngine, providers: seq<Provider>, sender: string, body: string) returns (d: Decision)
    ensures d == Decide(engine, providers, sender, body)
  {
    var i := 0;
    while i < |providers|
      invariant 0 <= i <= |providers|
      invariant Decide(engine, providers, sender, body) == Decide(engine, providers[i..], sender, body)
    {
      var provider := providers[i];
      assert providers[i..][1..] == providers[i + 1..];
      i := i + 1;
      if !SenderGate(provider, sender) {
        continue;
      }
      var tpl := MatcherOf(engine, provider);
      if tpl.None? || tpl.value.pattern != provider.compiledPattern {
        continue;
      }
      match tpl.value.match_(body) {
        case NoMatch => continue;
        case MatchFails => return ParseFails;
        case Found(fields) =>
          if provider.script.None? {
            return DraftOf(provider, fields, NOTHING_SET);
          }
          match provider.script.value(body, fields) {
            case ScriptFails => return ParseFails;
            case ScriptRejects => return Rejects;
            case ScriptOk(output) => return DraftOf(provider, fields, output);
          }
      }
    }
    return NoProvider;
  }

  /** The call that ingested a message, finished with its result. */
  predicate Finished(c: Call, job: Job, result: MessageStatus) {
    c.IngestCall? && c.job == job && c.at.Done? && c.at.result == result
  }

  /** A finished call stays finished with its result, whatever happens next. */
  lemma {:induction false} FinishedStays(sys: System, run: seq<Action>, c: nat, job: Job, result: MessageStatus)
    requires c < |sys.calls| && Finished(sys.calls[c], job, result)
    ensures c < |Run(sys, run).calls| && Finished(Run(sys, run).calls[c], job, result)
    decreases |run|
  {
    if |run| > 0 {
      FinishedStays(sys, run[..|run| - 1], c, job, result);
    }
  }

  /** What the others do before statement `k` of message `i` when its call is `me`, and how it fares. */
  type BatchTurns = (nat, nat, nat) -> Turn

  ghost predicate Polite(turns: BatchTurns) {
    forall i, me, k :: AllForeign(turns(i, me, k).others, me)
  }

  /** The turns of one message. */
  function TurnsOf(turns: BatchTurns, i: nat, me: nat): nat -> Turn {
    (k: nat) => turns(i, me, k)
  }

  /** One message after the other: begun, then ingested by the given steps. */
  ghost function BatchRun(jobs: seq<Job>, steps: seq<seq<Action>>): seq<Action>
    requires |steps| == |jobs|
  {
    if |jobs| == 0 then []
    else
      var n := |jobs| - 1;
      BatchRun(jobs[..n], steps[..n]) + ([BeginIngest(jobs[n])] + steps[n])
  }

  lemma BatchRunExtends(jobs: seq<Job>, steps: seq<seq<Action>>, n: nat, more: seq<Action>)
    requires n < |jobs| && |steps| == n
    ensures BatchRun(jobs[..n + 1], steps + [more]) == BatchRun(jobs[..n], steps) + ([BeginIngest(jobs[n])] + more)
  {
    assert jobs[..n + 1][..n] == jobs[..n] && (steps + [more])[..n] == steps;
  }

  /** Message `k` was ingested by call `owner`, which has answered with the result. */
  ghost predicate Ingested(calls: seq<Call>, owner: nat, job: Job, result: MessageStatus, steps: seq<Action>,
                           turns: BatchTurns, k: nat) {
    owner < |calls| && Finished(calls[owner], job, result) && Interleaved(steps, owner, TurnsOf(turns, k, owner))
  }

  function JobsOf(engine: RegexEngine, providers: Option<seq<Provider>>, device: nat, business: nat,
                  msgs: seq<Message>): seq<Job> {
    seq(|msgs|, k requires 0 <= k < |msgs| => JobOf(engine, providers, device, business, msgs[k]))
  }

  /** One message of a batch: its job, the call that ingests it, and its result. */
  method IngestMessage(db: Database, engine: RegexEngine, providers: Option<seq<Provider>>, device: nat, business: nat,
                       msg: Message, i: nat, turns: BatchTurns)
    returns (result: MessageStatus, ghost steps: seq<Action>)
    requires Polite(turns)
    modifies db
    ensures var me, job := |old(db.calls)|, JobOf(engine, providers, device, business, msg);
      && db.State() == Run(old(db.State()), [BeginIngest(job)] + steps)
      && Ingested(db.calls, me, job, result, steps, turns, i)
  {
    var decision := ProvidersUnavailable;
    if providers.Some? {
      decision := ProviderLoop(engine, providers.value, msg.sender, msg.body);
    }
    var job := Job(device, business, msg.clientId, msg.sender, msg.body, decision);
    var me := |db.calls|;
    ghost var before := db.State();
    db.calls := db.calls + [IngestCall(job, InsertRaw)];
    ghost var begun := [BeginIngest(job)];
    assert Run(before, begun) == db.State() by {
      assert begun[..0] == [];
    }
    result, steps := IngestOne(db, me, job, TurnsOf(turns, i, me));
    RunAppends(before, begun, steps);
  }

  lemma IngestedStays(sys: System, run: seq<Action>, owner: nat, job: Job, result: MessageStatus,
                      steps: seq<Action>, turns: BatchTurns, k: nat)
    requires Ingested(sys.calls, owner, job, result, steps, turns, k)
    ensures Ingested(Run(sys, run).calls, owner, job, result, steps, turns, k)
  {
    FinishedStays(sys, run, owner, job, result);
  }

  /** The state after the first messages of a batch, one for each of the given lists of steps. */
  ghost function BatchEnd(start: System, jobs: seq<Job>, steps: seq<seq<Action>>): System
    requires |steps| <= |jobs|
  {
    Run(start, BatchRun(jobs[..|steps|], steps))
  }

  lemma BatchEndExtends(start: System, jobs: seq<Job>, steps: seq<seq<Action>>, more: seq<Action>)
    requires |steps| < |jobs|
    ensures BatchEnd(start, jobs, steps + [more])
            == Run(BatchEnd(start, jobs, steps), [BeginIngest(jobs[|steps|])] + more)
  {
    var n := |steps|;
    RunAppends(start, BatchRun(jobs[..n], steps), [BeginIngest(jobs[n])] + more);
    BatchRunExtends(jobs, steps, n, more);
  }

  /** The first messages of a batch are ingested, in order. */
  ghost predicate AllIngested(calls: seq<Call>, jobs: seq<Job>, results: seq<MessageStatus>,
                              owners: seq<nat>, steps: seq<seq<Action>>, turns: BatchTurns)
    requires |owners| == |steps| == |results| <= |jobs|
  {
    forall k | 0 <= k < |results| :: Ingested(calls, owners[k], jobs[k], results[k], steps[k], turns, k)
  }

  lemma AllIngestedStay(sys: System, run: seq<Action>, jobs: seq<Job>, results: seq<MessageStatus>,
                        owners: seq<nat>, steps: seq<seq<Action>>, turns: BatchTurns)
    requires |owners| == |steps| == |results| <= |jobs| && AllIngested(sys.calls, jobs, results, owners, steps, turns)
    ensures AllIngested(Run(sys, run).calls, jobs, results, owners, steps, turns)
  {
    forall k | 0 <= k < |results|
      ensures Ingested(Run(sys, run).calls, owners[k], jobs[k], results[k], steps[k], turns, k)
    {
      IngestedStays(sys, run, owners[k], jobs[k], results[k], steps[k], turns, k);
    }
  }

  lemma OneMoreIngested(calls: seq<Call>, jobs: seq<Job>, results: seq<MessageStatus>, owners: seq<nat>,
                        steps: seq<seq<Action>>, turns: BatchTurns,
                        result: MessageStatus, owner: nat, more: seq<Action>)
    requires |owners| == |steps| == |results| < |jobs| && AllIngested(calls, jobs, results, owners, steps, turns)
    requires Ingested(calls, owner, jobs[|results|], result, more, turns, |results|)
    ensures AllIngested(calls, jobs, results + [result], owners + [owner], steps + [more], turns)
  {
  }

  /** The messages so far are ingested; `sys` is the state they and the others led to. */
  ghost predicate Batched(start: System, sys: System, jobs: seq<Job>, results: seq<MessageStatus>,
                          owners: seq<nat>, steps: seq<seq<Action>>, turns: BatchTurns) {
    && |owners| == |steps| == |results| <= |jobs|
    && sys == BatchEnd(start, jobs, steps)
    && AllIngested(sys.calls, jobs, results, owners, steps, turns)
  }

  /** The calls after one message more. */
  lemma CallsNext(before: System, sys: System, jobs: seq<Job>, results: seq<MessageStatus>, owners: seq<nat>,
                  steps: seq<seq<Action>>, turns: BatchTurns, result: MessageStatus, more: seq<Action>)
    requires |owners| == |steps| == |results| < |jobs|
    requires AllIngested(before.calls, jobs, results, owners, steps, turns)
    requires sys == Run(before, [BeginIngest(jobs[|results|])] + more)
    requires Ingested(sys.calls, |before.calls|, jobs[|results|], result, more, turns, |results|)
    ensures AllIngested(sys.calls, jobs, results + [result], owners + [|before.calls|], steps + [more], turns)
  {
    AllIngestedStay(before, [BeginIngest(jobs[|results|])] + more, jobs, results, owners, steps, turns);
    OneMoreIngested(sys.calls, jobs, results, owners, steps, turns, result, |before.calls|, more);
  }

  lemma BatchedNext(start: System, before: System, sys: System, jobs: seq<Job>, results: seq<MessageStatus>,
                    owners: seq<nat>, steps: seq<seq<Action>>, turns: BatchTurns,
                    result: MessageStatus, more: seq<Action>)
    requires Batched(start, before, jobs, results, owners, steps, turns) && |results| < |jobs|
    requires sys == Run(before, [BeginIngest(jobs[|results|])] + more)
    requires Ingested(sys.calls, |before.calls|, jobs[|results|], result, more, turns, |results|)
    ensures Batched(start, sys, jobs, results + [result], owners + [|before.calls|], steps + [more], turns)
  {
    BatchEndExtends(start, jobs, steps, more);
    CallsNext(before, sys, jobs, results, owners, steps, turns, result, more);
  }

  /** `IngestBatch`: one message after the other, results in order, whatever the others do meanwhile. */
  method IngestBatch(db: Database, engine: RegexEngine, providers: Option<seq<Provider>>, device: nat, business: nat,
                     msgs: seq<Message>, turns: BatchTurns)
    returns (results: seq<MessageStatus>, ghost owners: seq<nat>, ghost steps: seq<seq<Action>>)
    requires Polite(turns)
    modifies db
    ensures |results| == |msgs|
    ensures var jobs := JobsOf(engine, providers, device, business, msgs);
      Batched(old(db.State()), db.State(), jobs, results, owners, steps, turns)
  {
    results, owners, steps := [], [], [];
    ghost var start := db.State();
    ghost var jobs := JobsOf(engine, providers, device, business, msgs);
    for i := 0 to |msgs|
      invariant |results| == i
      invariant Batched(start, db.State(), jobs, results, owners, steps, turns)
    {
      ghost var before := db.State();
      var result: MessageStatus;
      ghost var taken;
      result, taken := IngestMessage(db, engine, providers, device, business, msgs[i], i, turns);
      BatchedNext(start, before, db.State(), jobs, results, owners, steps, turns, result, taken);
      steps := steps + [taken];
      owners := owners + [|before.calls|];
      results := results + [result];
    }
  }
}
