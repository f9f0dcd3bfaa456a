/** The payment ledger as a state machine: the tables, the requests in flight, and one atomic step
    per SQL statement. No SQL transaction joins the statements of a request, so between two of them
    anything may happen: other verifications and ingests, new and cancelled orders, calibrations,
    the expiry sweeper.

    A step takes what the program does not determine as input: which of several rows with equal
    times a query returns (`pick`), and whether the statement fails (`Fault`). */
module Ledger {
  import opened Prelude
  import opened Tables
  import opened BalanceTrail

  // ---- the database and its statements ----

  datatype Db = Db(now: int, points: seq<Point>, orders: seq<Order>, raws: seq<RawMessage>, attempts: seq<Attempt>)

  datatype Code =
    | Success | NotFound | AlreadyUsed | AmountMismatch
    | OrderExpired | OrderNotPending | BalanceMismatch | WrongDirection

  datatype Attempt = Attempt(
    business: nat, order: Option<nat>, trxId: string, code: Code,
    matched: Option<nat>, submitted: Option<Money>, balance: Option<bool>)

  const MONEY_LIMIT: Money := 1_000_000_000_000

  /** NUMERIC(12,2) holds at most ten digits before the point. */
  predicate Storable(m: Money) {
    -MONEY_LIMIT < m < MONEY_LIMIT
  }

  predicate HasKey(o: Order, business: nat, externalId: string) {
    o.business == business && o.externalId == externalId
  }

  /** GetOrderByExternalID. */
  function FindOrder(orders: seq<Order>, business: nat, externalId: string): (r: Option<nat>)
    ensures r.Some? ==> r.value < |orders| && HasKey(orders[r.value], business, externalId)
    ensures r.None? ==> forall k :: 0 <= k < |orders| ==> !HasKey(orders[k], business, externalId)
  {
    if |orders| == 0 then None
    else
      var n := |orders| - 1;
      var earlier := FindOrder(orders[..n], business, externalId);
      if earlier.Some? then earlier
      else if HasKey(orders[n], business, externalId) then Some(n)
      else None
  }

  predicate Orderable(orders: seq<Order>, business: nat, externalId: string, expected: Money) {
    0 < expected && Storable(expected) && FindOrder(orders, business, externalId).None?
  }

  predicate Stale(o: Order, now: int) {
    o.status.Pending? && o.expiresAt.Some? && o.expiresAt.value < now
  }

  /** ExpireStaleOrders. */
  function Swept(orders: seq<Order>, now: int): seq<Order> {
    seq(|orders|, i requires 0 <= i < |orders| =>
      if Stale(orders[i], now) then orders[i].(status := Expired) else orders[i])
  }

  predicate PendingRow(orders: seq<Order>, order: nat, business: nat) {
    order < |orders| && orders[order].business == business && orders[order].status.Pending?
  }

  /** Rows FindTransactionByTrxIDForBusiness ranges over. */
  predicate IsCandidate(points: seq<Point>, business: nat, trxId: string, i: int) {
    0 <= i < |points| && points[i].Tx? && points[i].tx.trxId == trxId && points[i].tx.business == business
  }

  predicate LatestCandidate(points: seq<Point>, business: nat, trxId: string, i: int) {
    IsCandidate(points, business, trxId, i)
    && forall k | 0 <= k < |points| && IsCandidate(points, business, trxId, k) :: points[k].At() <= points[i].At()
  }

  predicate HasCandidate(points: seq<Point>, business: nat, trxId: string) {
    exists i | 0 <= i < |points| :: IsCandidate(points, business, trxId, i)
  }

  /** Rows the claim's WHERE clause selects, and the unique index on matched transactions. */
  predicate Claimable(orders: seq<Order>, order: nat, business: nat) {
    PendingRow(orders, order, business) && orders[order].matched.None?
  }

  predicate Taken(orders: seq<Order>, tx: nat) {
    exists k | 0 <= k < |orders| :: orders[k].matched == Some(tx)
  }

  function Claimed(o: Order, tx: nat, now: int): Order {
    o.(matched := Some(tx), status := Paid, paidAt := Some(now))
  }

  predicate IsRaw(m: RawMessage, device: nat, clientId: nat) {
    m.device == device && m.clientId == clientId
  }

  predicate HasRaw(raws: seq<RawMessage>, device: nat, clientId: nat) {
    exists k | 0 <= k < |raws| :: IsRaw(raws[k], device, clientId)
  }

  /** What ingest wants to insert into `transactions`. */
  datatype Draft = Draft(
    provider: nat, trxId: string, amount: Money, balanceAfter: Option<Money>,
    direction: Direction, effective: Option<Money>)

  /** The CHECK constraints and the column types. */
  predicate Acceptable(d: Draft) {
    && 0 < d.amount && Storable(d.amount)
    && (d.balanceAfter.Some? ==> Storable(d.balanceAfter.value))
    && (d.effective.Some? ==> 0 < d.effective.value && Storable(d.effective.value))
  }

  predicate IsTransaction(p: Point, provider: nat, trxId: string) {
    p.Tx? && p.tx.provider == provider && p.tx.trxId == trxId
  }

  /** GetTransactionByProviderAndTrxID. */
  function FindTx(points: seq<Point>, provider: nat, trxId: string): (r: Option<nat>)
    ensures r.Some? ==> r.value < |points| && IsTransaction(points[r.value], provider, trxId)
    ensures r.None? ==> forall k :: 0 <= k < |points| ==> !IsTransaction(points[k], provider, trxId)
  {
    if |points| == 0 then None
    else
      var n := |points| - 1;
      var earlier := FindTx(points[..n], provider, trxId);
      if earlier.Some? then earlier
      else if IsTransaction(points[n], provider, trxId) then Some(n)
      else None
  }

  // ---- one verification ----

  datatype Fault = NoFault | Lost | LostReply

  datatype Request = Request(business: nat, externalId: string, trxId: string)

  /** The order row as the first query returned it, and when. */
  datatype Snapshot = Snapshot(id: nat, row: Order, readAt: int)

  datatype Outcome = Outcome(code: Code, order: Option<nat>, tx: Option<nat>, balance: Option<bool>)

  /** A claim that took effect. */
  datatype Win = Win(order: nat, tx: nat, readAt: int)

  /** Where a verification stands: the statement it executes next, and its local variables. `seen`
      and `counted` record how many rows existed when calibrations and later transactions were read;
      `win` records its claim. They are history only, no step depends on them. */
  datatype Pc =
    | ReadOrder
    | FindTransaction(snap: Snapshot)
    | ReadCalibration(snap: Snapshot, tx: nat)
    | CountLater(snap: Snapshot, tx: nat, calibrated: Option<Money>, seen: nat)
    | ReadPrevious(snap: Snapshot, tx: nat, calibrated: Option<Money>, seen: nat, counted: nat)
    | Claim(snap: Snapshot, tx: nat, balance: Option<bool>)
    | Reread(snap: Snapshot)
    | LogAttempt(outcome: Outcome, attempt: Attempt, win: Option<Win>)
    | Returned(outcome: Outcome, win: Option<Win>)
    | Failed(win: Option<Win>)

  /** A rejection that names no transaction. */
  function Reject(req: Request, code: Code, order: Option<nat>): Pc {
    LogAttempt(Outcome(code, order, None, None),
               Attempt(req.business, order, req.trxId, code, None, None, None), None)
  }

  function RejectTx(req: Request, code: Code, snap: Snapshot, tx: nat, submitted: Option<Money>,
                    balance: Option<bool>): Pc {
    LogAttempt(Outcome(code, Some(snap.id), Some(tx), balance),
               Attempt(req.business, Some(snap.id), req.trxId, code, Some(tx), submitted, balance), None)
  }

  function AfterOrder(db: Db, req: Request): Pc {
    match FindOrder(db.orders, req.business, req.externalId)
    case None => Reject(req, NotFound, None)
    case Some(o) =>
      if Stale(db.orders[o], db.now) then Reject(req, OrderExpired, Some(o))
      else if !db.orders[o].status.Pending? then Reject(req, OrderNotPending, Some(o))
      else FindTransaction(Snapshot(o, db.orders[o], db.now))
  }

  function AfterTransaction(req: Request, snap: Snapshot, id: nat, tx: Transaction): Pc {
    if tx.direction.Debit? then RejectTx(req, WrongDirection, snap, id, None, None)
    else if tx.Effective() != snap.row.expected then RejectTx(req, AmountMismatch, snap, id, Some(tx.Effective()), None)
    else if tx.balanceAfter.None? then Claim(snap, id, None)
    else ReadCalibration(snap, id)
  }

  function AfterVerdict(req: Request, snap: Snapshot, tx: nat, balance: Option<bool>): Pc {
    if balance == Some(false) then RejectTx(req, BalanceMismatch, snap, tx, None, balance)
    else Claim(snap, tx, balance)
  }

  function AfterReread(db: Db, req: Request): Pc {
    match FindOrder(db.orders, req.business, req.externalId)
    case None => Failed(None)
    case Some(o) =>
      Reject(req, if db.orders[o].status.Paid? then AlreadyUsed else OrderNotPending, Some(o))
  }

  datatype VerifyState = VerifyState(db: Db, pc: Pc)

  /** The claim: no row selected, the unique index violated, or the order paid. */
  function ClaimStep(db: Db, req: Request, pc: Pc, fault: Fault): VerifyState
    requires pc.Claim?
  {
    var snap, tx := pc.snap, pc.tx;
    if fault.Lost? then VerifyState(db, Failed(None))
    else if !Claimable(db.orders, snap.id, req.business) then
      VerifyState(db, if fault.NoFault? then Reread(snap) else Failed(None))
    else if Taken(db.orders, tx) then
      VerifyState(db, if fault.NoFault? then Reject(req, AlreadyUsed, Some(snap.id)) else Failed(None))
    else
      var db' := db.(orders := db.orders[snap.id := Claimed(db.orders[snap.id], tx, db.now)]);
      var win := Some(Win(snap.id, tx, snap.readAt));
      if fault.LostReply? then VerifyState(db', Failed(win))
      else VerifyState(db', LogAttempt(
        Outcome(Success, Some(snap.id), Some(tx), pc.balance),
        Attempt(req.business, Some(snap.id), req.trxId, Success, Some(tx), None, pc.balance), win))
  }

  /** Steps that only read. A pick the query cannot return leaves the call where it is. */
  function ReadStep(db: Db, req: Request, pc: Pc, pick: nat): Pc {
    match pc
    case ReadOrder => AfterOrder(db, req)
    case FindTransaction(snap) =>
      if !HasCandidate(db.points, req.business, req.trxId) then Reject(req, NotFound, Some(snap.id))
      else if !LatestCandidate(db.points, req.business, req.trxId, pick) then pc
      else AfterTransaction(req, snap, pick, db.points[pick].tx)
    case ReadCalibration(snap, tx) =>
      if tx >= |db.points| then pc
      else if !HasLaterCalibration(db.points, tx) then CountLater(snap, tx, None, |db.points|)
      else if !LatestCalibration(db.points, tx, pick) then pc
      else CountLater(snap, tx, Some(db.points[pick].balance), |db.points|)
    case CountLater(snap, tx, calibrated, seen) =>
      if !Judged(db.points, tx) then pc
      else if calibrated.Some? && !HasLaterTransaction(db.points, tx) then
        AfterVerdict(req, snap, tx, ByCalibration(db.points[tx].tx, calibrated.value))
      else ReadPrevious(snap, tx, calibrated, seen, |db.points|)
    case ReadPrevious(snap, tx, _, _, _) =>
      if !Judged(db.points, tx) then pc
      else if !HasPrevious(db.points, tx) then AfterVerdict(req, snap, tx, None)
      else if !LatestPrevious(db.points, tx, pick) then pc
      else AfterVerdict(req, snap, tx, ByPrevious(db.points[tx].tx, db.points[pick].Stated()))
    case Reread(_) => AfterReread(db, req)
    case _ => pc
  }

  function VerifyStep(db: Db, req: Request, pc: Pc, pick: nat, fault: Fault): VerifyState {
    match pc
    case Returned(_, _) => VerifyState(db, pc)
    case Failed(_) => VerifyState(db, pc)
    case LogAttempt(outcome, attempt, win) =>
      VerifyState(if fault.Lost? then db else db.(attempts := db.attempts + [attempt]), Returned(outcome, win))
    case Claim(_, _, _) => ClaimStep(db, req, pc, fault)
    case _ => VerifyState(db, if fault.NoFault? then ReadStep(db, req, pc, pick) else Failed(None))
  }

  // ---- one ingested message ----

  datatype MessageStatus = MsgParsed | MsgDuplicate | MsgUnmatched | MsgError | MsgSkipped

  /** What the providers make of a message; computed without the database. */
  datatype Decision =
    | ProvidersUnavailable
    | NoProvider
    | ParseFails
    | Rejects
    | Inserts(draft: Draft, pattern: string)

  datatype Job = Job(device: nat, business: nat, clientId: nat, sender: string, body: string, decision: Decision)

  /** Where an ingest stands; `stored` records which raw message it inserted. */
  datatype IngestPc =
    | InsertRaw
    | InsertTx(raw: nat)
    | Lookup(raw: nat)
    | Mark(raw: nat, status: ParseStatus, result: MessageStatus)
    | Done(result: MessageStatus, stored: Option<nat>)

  function AfterRaw(decision: Decision, raw: nat): IngestPc {
    match decision
    case ProvidersUnavailable => Done(MsgError, Some(raw))
    case NoProvider => Mark(raw, Unmatched, MsgUnmatched)
    case ParseFails => Mark(raw, ParseError, MsgError)
    case Rejects => Mark(raw, Skipped, MsgSkipped)
    case Inserts(_, _) => InsertTx(raw)
  }

  function Drafted(job: Job, raw: nat, now: int): Point
    requires job.decision.Inserts?
  {
    var d := job.decision.draft;
    Tx(Transaction(d.provider, d.trxId, job.business, job.device, raw,
                   d.amount, d.balanceAfter, d.direction, d.effective, now))
  }

  function LinkTo(job: Job, raw: nat, tx: nat): IngestPc
    requires job.decision.Inserts?
  {
    Mark(raw, Parsed(job.decision.draft.provider, job.decision.pattern, tx), MsgParsed)
  }

  datatype IngestState = IngestState(db: Db, pc: IngestPc)

  function IngestStep(db: Db, job: Job, pc: IngestPc, fault: Fault): IngestState {
    match pc
    case InsertRaw =>
      if fault.Lost? then IngestState(db, Done(MsgError, None))
      else if HasRaw(db.raws, job.device, job.clientId) then
        IngestState(db, Done(if fault.NoFault? then MsgDuplicate else MsgError, None))
      else
        var raw := RawMessage(job.clientId, job.device, job.business, job.sender, job.body, Unparsed);
        IngestState(db.(raws := db.raws + [raw]),
                    if fault.NoFault? then AfterRaw(job.decision, |db.raws|) else Done(MsgError, Some(|db.raws|)))
    case InsertTx(raw) =>
      if !job.decision.Inserts? then IngestState(db, pc)
      else if fault.Lost? || !Acceptable(job.decision.draft) then IngestState(db, Done(MsgError, Some(raw)))
      else if FindTx(db.points, job.decision.draft.provider, job.decision.draft.trxId).Some? then
        IngestState(db, if fault.NoFault? then Lookup(raw) else Done(MsgError, Some(raw)))
      else
        IngestState(db.(points := db.points + [Drafted(job, raw, db.now)]),
                    if fault.NoFault? then LinkTo(job, raw, |db.points|) else Done(MsgError, Some(raw)))
    case Lookup(raw) =>
      if !job.decision.Inserts? then IngestState(db, pc)
      else
        var found := FindTx(db.points, job.decision.draft.provider, job.decision.draft.trxId);
        IngestState(db, if fault.NoFault? && found.Some? then LinkTo(job, raw, found.value)
                        else Done(MsgError, Some(raw)))
    case Mark(raw, status, result) =>
      IngestState(if fault.Lost? || raw >= |db.raws| then db
                  else db.(raws := db.raws[raw := db.raws[raw].(status := status)]),
                  Done(result, Some(raw)))
    case Done(_, _) => IngestState(db, pc)
  }

  // ---- the whole server ----

  datatype Call = VerifyCall(req: Request, pc: Pc) | IngestCall(job: Job, at: IngestPc)

  datatype System = System(db: Db, calls: seq<Call>)

  datatype Action =
    | Tick(dt: nat)
    | InsertOrder(business: nat, externalId: string, expected: Money, expiresAt: Option<int>)
    | CancelOrder(order: nat, business: nat)
    | ExpireStaleOrders
    | Calibrate(device: nat, provider: nat, balance: Money)
    | BeginVerify(req: Request)
    | BeginIngest(job: Job)
    | Advance(call: nat, pick: nat, fault: Fault)

  function DbAction(db: Db, a: Action): Db {
    match a
    case Tick(dt) => db.(now := db.now + dt)
    case InsertOrder(b, x, expected, expiresAt) =>
      if Orderable(db.orders, b, x, expected)
      then db.(orders := db.orders + [Order(b, x, expected, Pending, None, expiresAt, None)]) else db
    case CancelOrder(o, b) =>
      if PendingRow(db.orders, o, b) then db.(orders := db.orders[o := db.orders[o].(status := Cancelled)]) else db
    case ExpireStaleOrders => db.(orders := Swept(db.orders, db.now))
    case Calibrate(d, p, balance) =>
      if 0 <= balance && Storable(balance) then db.(points := db.points + [Calibration(d, p, balance, db.now)]) else db
    case _ => db
  }

  function Apply(sys: System, a: Action): System {
    match a
    case BeginVerify(req) => sys.(calls := sys.calls + [VerifyCall(req, ReadOrder)])
    case BeginIngest(job) => sys.(calls := sys.calls + [IngestCall(job, InsertRaw)])
    case Advance(c, pick, fault) =>
      if c >= |sys.calls| then sys
      else (match sys.calls[c]
            case VerifyCall(req, pc) =>
              var s := VerifyStep(sys.db, req, pc, pick, fault);
              System(s.db, sys.calls[c := VerifyCall(req, s.pc)])
            case IngestCall(job, at) =>
              var s := IngestStep(sys.db, job, at, fault);
              System(s.db, sys.calls[c := IngestCall(job, s.pc)]))
    case _ => sys.(db := DbAction(sys.db, a))
  }

  /** The state after a run of actions. */
  function Run(sys: System, actions: seq<Action>): System {
    if |actions| == 0 then sys
    else Apply(Run(sys, actions[..|actions| - 1]), actions[|actions| - 1])
  }

  /** A server with empty tables. */
  function Initial(now: int): System {
    System(Db(now, [], [], [], []), [])
  }

  ghost predicate Reachable(sys: System) {
    exists now, actions :: sys == Run(Initial(now), actions)
  }
}
