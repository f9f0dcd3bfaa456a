/** What holds of the ledger in every reachable state, under every interleaving. */
module LedgerSafety {
  import opened Prelude
  import opened Tables
  import opened BalanceTrail
  import opened Ledger

  // ---- how the tables may change ----

  ghost predicate SameTerms(o: Order, o': Order) {
    o.business == o'.business && o.externalId == o'.externalId && o.expected == o'.expected
    && o.expiresAt == o'.expiresAt
  }

  /** Orders keep their terms, and never leave a final status. */
  ghost predicate OrderEvolves(o: Order, o': Order) {
    SameTerms(o, o') && (!o.status.Pending? ==> o' == o)
  }

  /** Transactions and calibrations are only appended. */
  ghost predicate Evolves(db: Db, db': Db) {
    && db.now <= db'.now
    && |db.points| <= |db'.points| && db'.points[..|db.points|] == db.points
    && |db.orders| <= |db'.orders|
    && (forall o :: 0 <= o < |db.orders| ==> OrderEvolves(db.orders[o], db'.orders[o]))
  }

  lemma StepEvolves(sys: System, a: Action)
    ensures Evolves(sys.db, Apply(sys, a).db)
  {
  }

  // ---- the invariant ----

  /** The transaction a paid order was matched with is the payment the order asked for. */
  ghost predicate Pays(points: seq<Point>, t: nat, o: Order) {
    && t < |points| && points[t].Tx?
    && points[t].tx.business == o.business
    && points[t].tx.direction.Credit?
    && points[t].tx.Effective() == o.expected
  }

  ghost predicate OrderOk(points: seq<Point>, o: Order) {
    && (o.status.Paid? <==> o.matched.Some?)
    && (o.matched.Some? ==> Pays(points, o.matched.value, o))
  }

  ghost predicate OrdersOk(db: Db) {
    && (forall o :: 0 <= o < |db.orders| ==> OrderOk(db.points, db.orders[o]))
    && (forall o, p :: 0 <= o < p < |db.orders| && db.orders[o].matched.Some? ==>
          db.orders[o].matched != db.orders[p].matched)
    && (forall o, p :: 0 <= o < p < |db.orders| ==>
          !HasKey(db.orders[p], db.orders[o].business, db.orders[o].externalId))
  }

  ghost predicate PointsOk(db: Db) {
    && Chronological(db.points)
    && (forall i :: 0 <= i < |db.points| ==> db.points[i].At() <= db.now)
    && (forall i :: 0 <= i < |db.points| && db.points[i].Tx? ==>
          0 < db.points[i].tx.amount && 0 < db.points[i].tx.Effective())
  }

  /** The order a call read is still the order it read, up to its status. */
  ghost predicate SnapOk(db: Db, req: Request, snap: Snapshot) {
    && snap.id < |db.orders|
    && SameTerms(snap.row, db.orders[snap.id])
    && HasKey(snap.row, req.business, req.externalId)
    && (snap.row.expiresAt.Some? ==> snap.readAt <= snap.row.expiresAt.value)
  }

  ghost predicate Carries(points: seq<Point>, req: Request, t: nat) {
    t < |points| && points[t].Tx? && points[t].tx.business == req.business && points[t].tx.trxId == req.trxId
  }

  /** The submitted transaction passed the direction and amount checks. */
  ghost predicate Eligible(db: Db, req: Request, snap: Snapshot, t: nat) {
    && Carries(db.points, req, t)
    && db.points[t].tx.direction.Credit?
    && db.points[t].tx.Effective() == snap.row.expected
  }

  /** The verdict is one the balance check gives at some single moment of the past. */
  ghost predicate VerdictSeen(points: seq<Point>, t: nat, v: Option<bool>)
    requires t < |points| && points[t].Tx?
  {
    if points[t].tx.balanceAfter.None? then v == None
    else exists m: nat :: JudgedAt(points, m, t, v)
  }

  ghost predicate JudgedAt(points: seq<Point>, m: nat, t: nat, v: Option<bool>) {
    m <= |points| && Judged(points[..m], t) && CanJudge(points[..m], t, v)
  }

  /** A claim that took effect: its order is paid with its transaction, which carries the submitted
      TrxID, and the order had not expired when the call read it. */
  ghost predicate WinOk(db: Db, req: Request, w: Win) {
    && w.order < |db.orders|
    && db.orders[w.order].matched == Some(w.tx)
    && HasKey(db.orders[w.order], req.business, req.externalId)
    && Carries(db.points, req, w.tx)
    && (db.orders[w.order].expiresAt.Some? ==> w.readAt <= db.orders[w.order].expiresAt.value)
  }

  /** Some other order holds a transaction with the submitted TrxID. */
  ghost predicate HeldElsewhere(db: Db, req: Request, order: nat, p: int, t: nat) {
    0 <= p < |db.orders| && p != order && db.orders[p].matched == Some(t) && Carries(db.points, req, t)
  }

  ghost predicate OutcomeOk(db: Db, req: Request, out: Outcome, win: Option<Win>) {
    && (win.Some? ==> WinOk(db, req, win.value))
    && (out.code.Success? <==> win.Some?)
    && (out.code.Success? ==> out.order == Some(win.value.order) && out.tx == Some(win.value.tx))
    && (out.code.AlreadyUsed? ==>
         && out.order.Some? && out.order.value < |db.orders|
         && (db.orders[out.order.value].status.Paid? || exists p, t :: HeldElsewhere(db, req, out.order.value, p, t)))
    && (out.code.BalanceMismatch? ==>
         && out.tx.Some? && Carries(db.points, req, out.tx.value)
         && db.points[out.tx.value].tx.balanceAfter.Some?
         && VerdictSeen(db.points, out.tx.value, Some(false)))
  }

  ghost predicate VerifyOk(db: Db, req: Request, pc: Pc) {
    match pc
    case ReadOrder => true
    case FindTransaction(snap) => SnapOk(db, req, snap)
    case ReadCalibration(snap, t) =>
      SnapOk(db, req, snap) && Eligible(db, req, snap, t) && Judged(db.points, t)
    case CountLater(snap, t, calibrated, seen) =>
      && SnapOk(db, req, snap) && Eligible(db, req, snap, t) && seen <= |db.points|
      && Judged(db.points[..seen], t) && ReadsCalibration(db.points[..seen], t, calibrated)
    case ReadPrevious(snap, t, calibrated, seen, counted) =>
      && SnapOk(db, req, snap) && Eligible(db, req, snap, t) && seen <= counted <= |db.points|
      && Judged(db.points[..seen], t) && ReadsCalibration(db.points[..seen], t, calibrated)
      && (calibrated.None? || HasLaterTransaction(db.points[..counted], t))
    case Claim(snap, t, balance) =>
      SnapOk(db, req, snap) && Eligible(db, req, snap, t) && VerdictSeen(db.points, t, balance)
      && balance != Some(false)
    case Reread(snap) => SnapOk(db, req, snap)
    case LogAttempt(outcome, _, win) => OutcomeOk(db, req, outcome, win)
    case Returned(outcome, win) => OutcomeOk(db, req, outcome, win)
    case Failed(win) => win.Some? ==> WinOk(db, req, win.value)
  }

  ghost predicate CallOk(db: Db, c: Call) {
    c.VerifyCall? ==> VerifyOk(db, c.req, c.pc)
  }

  /** The claim a call made, if any. */
  function WinOf(c: Call): Option<Win> {
    if c.VerifyCall? && (c.pc.LogAttempt? || c.pc.Returned? || c.pc.Failed?) then c.pc.win else None
  }

  predicate Won(c: Call, order: nat) {
    WinOf(c).Some? && WinOf(c).value.order == order
  }

  /** Every paid order was won by a call, and no order by two. */
  ghost predicate WinnersOk(sys: System) {
    && (forall o: nat :: o < |sys.db.orders| && sys.db.orders[o].status.Paid? ==>
           exists c :: 0 <= c < |sys.calls| && Won(sys.calls[c], o))
    && (forall c, d, o: nat :: 0 <= c < d < |sys.calls| && Won(sys.calls[c], o) ==> !Won(sys.calls[d], o))
  }

  ghost predicate Safe(sys: System) {
    && OrdersOk(sys.db) && PointsOk(sys.db)
    && (forall c :: 0 <= c < |sys.calls| ==> CallOk(sys.db, sys.calls[c]))
    && WinnersOk(sys)
  }

  // ---- what others do does not disturb a call ----

  lemma VerdictSeenLater(db: Db, db': Db, t: nat, v: Option<bool>)
    requires Evolves(db, db') && t < |db.points| && db.points[t].Tx? && VerdictSeen(db.points, t, v)
    ensures VerdictSeen(db'.points, t, v)
  {
    assert db'.points[t] == db'.points[..|db.points|][t];
    if db.points[t].tx.balanceAfter.Some? {
      var m: nat :| JudgedAt(db.points, m, t, v);
      assert db'.points[..m] == db.points[..m];
      assert JudgedAt(db'.points, m, t, v);
    }
  }

  lemma OutcomeStaysOk(db: Db, db': Db, req: Request, out: Outcome, win: Option<Win>)
    requires OrdersOk(db) && Evolves(db, db') && OutcomeOk(db, req, out, win)
    ensures OutcomeOk(db', req, out, win)
  {
    assert forall t :: 0 <= t < |db.points| ==> db'.points[t] == db'.points[..|db.points|][t];
    if out.code.BalanceMismatch? {
      VerdictSeenLater(db, db', out.tx.value, Some(false));
    }
    if out.code.AlreadyUsed? && !db.orders[out.order.value].status.Paid? {
      var p, t :| HeldElsewhere(db, req, out.order.value, p, t);
      assert HeldElsewhere(db', req, out.order.value, p, t);
    }
  }

  lemma CallStaysOk(db: Db, db': Db, c: Call)
    requires OrdersOk(db) && Evolves(db, db') && CallOk(db, c)
    ensures CallOk(db', c)
  {
    assert forall t :: 0 <= t < |db.points| ==> db'.points[t] == db'.points[..|db.points|][t];
    if c.VerifyCall? {
      match c.pc
      case CountLater(_, _, _, seen) =>
        assert db'.points[..seen] == db.points[..seen];
      case ReadPrevious(_, _, _, seen, counted) =>
        assert db'.points[..seen] == db.points[..seen];
        assert db'.points[..counted] == db.points[..counted];
      case Claim(_, t, balance) => VerdictSeenLater(db, db', t, balance);
      case LogAttempt(out, _, win) => OutcomeStaysOk(db, db', c.req, out, win);
      case Returned(out, win) => OutcomeStaysOk(db, db', c.req, out, win);
      case _ =>
    }
  }

  // ---- a call's own steps ----

  lemma AfterOrderOk(db: Db, req: Request)
    requires OrdersOk(db) && PointsOk(db)
    ensures VerifyOk(db, req, AfterOrder(db, req))
  {
  }

  lemma AfterRereadOk(db: Db, req: Request)
    requires OrdersOk(db) && PointsOk(db)
    ensures VerifyOk(db, req, AfterReread(db, req))
  {
  }

  lemma AfterTransactionOk(db: Db, req: Request, snap: Snapshot, t: nat)
    requires SnapOk(db, req, snap) && Carries(db.points, req, t)
    ensures VerifyOk(db, req, AfterTransaction(req, snap, t, db.points[t].tx))
  {
  }

  lemma ReadStepOk(db: Db, req: Request, pc: Pc, pick: nat)
    requires OrdersOk(db) && PointsOk(db) && VerifyOk(db, req, pc)
    requires pc.ReadOrder? || pc.FindTransaction? || pc.Reread?
    ensures VerifyOk(db, req, ReadStep(db, req, pc, pick))
  {
    match pc
    case ReadOrder => AfterOrderOk(db, req);
    case Reread(_) => AfterRereadOk(db, req);
    case FindTransaction(snap) =>
      if LatestCandidate(db.points, req.business, req.trxId, pick) {
        AfterTransactionOk(db, req, snap, pick);
      }
  }

  lemma CalibrationStepOk(db: Db, req: Request, pc: Pc, pick: nat)
    requires VerifyOk(db, req, pc) && pc.ReadCalibration?
    ensures VerifyOk(db, req, ReadStep(db, req, pc, pick))
  {
    assert db.points[..|db.points|] == db.points;
    if LatestCalibration(db.points, pc.tx, pick) {
      assert ReadsCalibration(db.points, pc.tx, Some(db.points[pick].balance));
    }
  }

  /** What follows from a verdict reached in the past. */
  lemma AfterVerdictOk(db: Db, req: Request, snap: Snapshot, t: nat, v: Option<bool>)
    requires SnapOk(db, req, snap) && Eligible(db, req, snap, t) && Judged(db.points, t) && VerdictSeen(db.points, t, v)
    ensures VerifyOk(db, req, AfterVerdict(req, snap, t, v))
  {
  }

  lemma CountStepOk(db: Db, req: Request, pc: Pc, pick: nat)
    requires PointsOk(db) && VerifyOk(db, req, pc) && pc.CountLater?
    ensures VerifyOk(db, req, ReadStep(db, req, pc, pick))
  {
    var points, t := db.points, pc.tx;
    assert points[..|points|] == points;
    if pc.calibrated.Some? && !HasLaterTransaction(points, t) {
      var v := ByCalibration(points[t].tx, pc.calibrated.value);
      VerdictReached(points, pc.seen, |points|, t, pc.calibrated, None, v);
      AfterVerdictOk(db, req, pc.snap, t, v);
    }
  }

  lemma PreviousStepOk(db: Db, req: Request, pc: Pc, pick: nat)
    requires PointsOk(db) && VerifyOk(db, req, pc) && pc.ReadPrevious?
    ensures VerifyOk(db, req, ReadStep(db, req, pc, pick))
  {
    var points, t := db.points, pc.tx;
    if !HasPrevious(points, t) {
      VerdictReached(points, pc.seen, pc.counted, t, pc.calibrated, None, None);
      AfterVerdictOk(db, req, pc.snap, t, None);
    } else if LatestPrevious(points, t, pick) {
      var previous := points[pick].Stated();
      var v := ByPrevious(points[t].tx, previous);
      assert ReadsPrevious(points, t, previous);
      VerdictReached(points, pc.seen, pc.counted, t, pc.calibrated, previous, v);
      AfterVerdictOk(db, req, pc.snap, t, v);
    }
  }

  lemma BalanceStepOk(db: Db, req: Request, pc: Pc, pick: nat)
    requires OrdersOk(db) && PointsOk(db) && VerifyOk(db, req, pc)
    requires pc.ReadCalibration? || pc.CountLater? || pc.ReadPrevious?
    ensures VerifyOk(db, req, ReadStep(db, req, pc, pick))
  {
    match pc
    case ReadCalibration(_, _) => CalibrationStepOk(db, req, pc, pick);
    case CountLater(_, _, _, _) => CountStepOk(db, req, pc, pick);
    case ReadPrevious(_, _, _, _, _) => PreviousStepOk(db, req, pc, pick);
  }

  lemma VerdictReached(points: seq<Point>, m1: nat, m2: nat, t: nat,
                       calibrated: Option<Money>, previous: Option<Money>, v: Option<bool>)
    requires Chronological(points) && m1 <= m2 <= |points|
    requires Judged(points[..m1], t)
    requires ReadsCalibration(points[..m1], t, calibrated)
    requires
      if calibrated.Some? && !HasLaterTransaction(points[..m2], t)
      then v == ByCalibration(points[t].tx, calibrated.value)
      else ReadsPrevious(points, t, previous) && v == ByPrevious(points[t].tx, previous)
    ensures VerdictSeen(points, t, v)
  {
    VerdictLinearizes(points, m1, m2, t, calibrated, previous, v);
    assert JudgedAt(points, m1, t, v) || JudgedAt(points, m2, t, v);
  }

  /** A claim that takes effect leaves every order consistent, and no transaction with two. */
  lemma ClaimedOrdersOk(db: Db, id: nat, tx: nat)
    requires OrdersOk(db) && id < |db.orders| && db.orders[id].matched.None? && !Taken(db.orders, tx)
    requires Pays(db.points, tx, db.orders[id])
    ensures OrdersOk(db.(orders := db.orders[id := Claimed(db.orders[id], tx, db.now)]))
  {
  }

  /** The conditional update keeps the tables and the call consistent. */
  lemma ClaimStepOk(db: Db, req: Request, pc: Pc, fault: Fault)
    requires OrdersOk(db) && PointsOk(db) && pc.Claim? && VerifyOk(db, req, pc)
    ensures var s := ClaimStep(db, req, pc, fault);
            OrdersOk(s.db) && PointsOk(s.db) && VerifyOk(s.db, req, s.pc)
  {
    if Claimable(db.orders, pc.snap.id, req.business) {
      if Taken(db.orders, pc.tx) {
        var p :| 0 <= p < |db.orders| && db.orders[p].matched == Some(pc.tx);
        assert HeldElsewhere(db, req, pc.snap.id, p, pc.tx);
      } else {
        ClaimedOrdersOk(db, pc.snap.id, pc.tx);
      }
    }
  }

  // ---- every step keeps the invariant ----

  lemma CallsStayOk(sys: System, a: Action)
    requires Safe(sys)
    ensures forall c :: 0 <= c < |sys.calls| ==> CallOk(Apply(sys, a).db, sys.calls[c])
  {
    StepEvolves(sys, a);
    forall c | 0 <= c < |sys.calls| ensures CallOk(Apply(sys, a).db, sys.calls[c]) {
      CallStaysOk(sys.db, Apply(sys, a).db, sys.calls[c]);
    }
  }

  lemma DbActionKeepsTables(db: Db, a: Action)
    requires OrdersOk(db) && PointsOk(db)
    ensures OrdersOk(DbAction(db, a)) && PointsOk(DbAction(db, a))
  {
  }

  /** Nothing but a claim makes an order paid, or a paid order anything else. */
  lemma DbActionPaysNothing(db: Db, a: Action, o: nat)
    requires o < |DbAction(db, a).orders|
    ensures DbAction(db, a).orders[o].status.Paid? <==> o < |db.orders| && db.orders[o].status.Paid?
  {
  }

  lemma DbActionSafe(sys: System, a: Action)
    requires Safe(sys) && !a.Advance?
    ensures Safe(Apply(sys, a))
  {
    CallsStayOk(sys, a);
    DbActionKeepsTables(sys.db, a);
    var sys' := Apply(sys, a);
    assert sys'.calls[..|sys.calls|] == sys.calls;
    forall o: nat | o < |sys'.db.orders| && sys'.db.orders[o].status.Paid?
      ensures exists c :: 0 <= c < |sys'.calls| && Won(sys'.calls[c], o)
    {
      DbActionPaysNothing(sys.db, a, o);
      var c :| 0 <= c < |sys.calls| && Won(sys.calls[c], o);
      assert Won(sys'.calls[..|sys.calls|][c], o);
    }
  }

  lemma IngestKeepsTables(db: Db, job: Job, at: IngestPc, fault: Fault)
    requires OrdersOk(db) && PointsOk(db)
    ensures OrdersOk(IngestStep(db, job, at, fault).db) && PointsOk(IngestStep(db, job, at, fault).db)
    ensures IngestStep(db, job, at, fault).db.orders == db.orders
  {
  }

  lemma IngestSafe(sys: System, c: nat, fault: Fault)
    requires Safe(sys) && c < |sys.calls| && sys.calls[c].IngestCall?
    ensures Safe(Apply(sys, Advance(c, 0, fault)))
  {
    var a := Advance(c, 0, fault);
    var sys' := Apply(sys, a);
    CallsStayOk(sys, a);
    IngestKeepsTables(sys.db, sys.calls[c].job, sys.calls[c].at, fault);
    assert forall k :: 0 <= k < |sys.calls| ==> WinOf(sys'.calls[k]) == WinOf(sys.calls[k]);
    WinnersCarryOver(sys, sys');
  }

  lemma WinnersCarryOver(sys: System, sys': System)
    requires WinnersOk(sys) && |sys'.calls| == |sys.calls| && |sys'.db.orders| == |sys.db.orders|
    requires forall k :: 0 <= k < |sys.calls| ==> WinOf(sys'.calls[k]) == WinOf(sys.calls[k])
    requires forall o :: 0 <= o < |sys.db.orders| ==>
        (sys'.db.orders[o].status.Paid? <==> sys.db.orders[o].status.Paid?)
    ensures WinnersOk(sys')
  {
    forall o: nat | o < |sys'.db.orders| && sys'.db.orders[o].status.Paid?
      ensures exists c :: 0 <= c < |sys'.calls| && Won(sys'.calls[c], o)
    {
      var c :| 0 <= c < |sys.calls| && Won(sys.calls[c], o);
      assert Won(sys'.calls[c], o);
    }
    forall c, d, o: nat | 0 <= c < d < |sys'.calls| && Won(sys'.calls[c], o) ensures !Won(sys'.calls[d], o) {
      assert Won(sys.calls[c], o);
    }
  }

  /** A step of a verification that leaves orders, points and wins alone. */
  lemma QuietStepSafe(sys: System, c: nat, db': Db, pc': Pc)
    requires Safe(sys) && c < |sys.calls| && sys.calls[c].VerifyCall?
    requires db'.orders == sys.db.orders && db'.points == sys.db.points && db'.now == sys.db.now
    requires VerifyOk(db', sys.calls[c].req, pc')
    requires WinOf(VerifyCall(sys.calls[c].req, pc')) == WinOf(sys.calls[c])
    ensures Safe(System(db', sys.calls[c := VerifyCall(sys.calls[c].req, pc')]))
  {
    var sys' := System(db', sys.calls[c := VerifyCall(sys.calls[c].req, pc')]);
    forall k | 0 <= k < |sys.calls| && k != c ensures CallOk(db', sys.calls[k]) {
      CallStaysOk(sys.db, db', sys.calls[k]);
    }
    WinnersCarryOver(sys, sys');
  }

  lemma ReadingMakesNoWin(db: Db, req: Request, pc: Pc, pick: nat)
    requires !pc.LogAttempt? && !pc.Returned? && !pc.Failed?
    ensures WinOf(VerifyCall(req, ReadStep(db, req, pc, pick))).None?
  {
  }

  /** A step other than a claim keeps the call's invariant, and neither makes nor loses a win. */
  lemma UnclaimedStepOk(db: Db, req: Request, pc: Pc, pick: nat, fault: Fault)
    requires OrdersOk(db) && PointsOk(db) && VerifyOk(db, req, pc) && !pc.Claim?
    ensures var s := VerifyStep(db, req, pc, pick, fault);
      VerifyOk(s.db, req, s.pc) && WinOf(VerifyCall(req, s.pc)) == WinOf(VerifyCall(req, pc))
  {
    var s := VerifyStep(db, req, pc, pick, fault);
    if pc.LogAttempt? || pc.Returned? {
      OutcomeStaysOk(db, s.db, req, pc.outcome, pc.win);
    } else if !pc.Failed? {
      ReadingMakesNoWin(db, req, pc, pick);
      if pc.ReadOrder? || pc.FindTransaction? || pc.Reread? {
        ReadStepOk(db, req, pc, pick);
      } else {
        BalanceStepOk(db, req, pc, pick);
      }
    }
  }

  lemma UnclaimedStepReads(db: Db, req: Request, pc: Pc, pick: nat, fault: Fault)
    requires !pc.Claim?
    ensures var db' := VerifyStep(db, req, pc, pick, fault).db;
      db'.orders == db.orders && db'.points == db.points && db'.now == db.now
  {
  }

  lemma ApplyVerify(sys: System, c: nat, pick: nat, fault: Fault)
    requires c < |sys.calls| && sys.calls[c].VerifyCall?
    ensures var s := VerifyStep(sys.db, sys.calls[c].req, sys.calls[c].pc, pick, fault);
      Apply(sys, Advance(c, pick, fault)) == System(s.db, sys.calls[c := VerifyCall(sys.calls[c].req, s.pc)])
  {
  }

  lemma UnclaimedSafe(sys: System, c: nat, pick: nat, fault: Fault)
    requires Safe(sys) && c < |sys.calls| && sys.calls[c].VerifyCall? && !sys.calls[c].pc.Claim?
    ensures Safe(Apply(sys, Advance(c, pick, fault)))
  {
    var db, req, pc := sys.db, sys.calls[c].req, sys.calls[c].pc;
    assert CallOk(db, sys.calls[c]);
    UnclaimedStepOk(db, req, pc, pick, fault);
    UnclaimedStepReads(db, req, pc, pick, fault);
    var s := VerifyStep(db, req, pc, pick, fault);
    QuietStepSafe(sys, c, s.db, s.pc);
    ApplyVerify(sys, c, pick, fault);
  }

  /** A new state whose tables, calls and winners are consistent. */
  lemma SafeFrom(sys: System, c: nat, db': Db, call': Call)
    requires c < |sys.calls| && OrdersOk(db') && PointsOk(db') && CallOk(db', call')
    requires forall k :: 0 <= k < |sys.calls| ==> CallOk(db', sys.calls[k])
    requires WinnersOk(System(db', sys.calls[c := call']))
    ensures Safe(System(db', sys.calls[c := call']))
  {
  }

  lemma ClaimSafe(sys: System, c: nat, pick: nat, fault: Fault)
    requires Safe(sys) && c < |sys.calls| && sys.calls[c].VerifyCall? && sys.calls[c].pc.Claim?
    ensures Safe(Apply(sys, Advance(c, pick, fault)))
  {
    var db, req, pc := sys.db, sys.calls[c].req, sys.calls[c].pc;
    assert CallOk(db, sys.calls[c]);
    var s := ClaimStep(db, req, pc, fault);
    CallsStayOk(sys, Advance(c, pick, fault));
    ClaimStepOk(db, req, pc, fault);
    ClaimWinners(sys, c, pick, fault);
    ApplyVerify(sys, c, pick, fault);
    SafeFrom(sys, c, s.db, VerifyCall(req, s.pc));
  }

  lemma VerifySafe(sys: System, c: nat, pick: nat, fault: Fault)
    requires Safe(sys) && c < |sys.calls| && sys.calls[c].VerifyCall?
    ensures Safe(Apply(sys, Advance(c, pick, fault)))
  {
    if sys.calls[c].pc.Claim? {
      ClaimSafe(sys, c, pick, fault);
    } else {
      UnclaimedSafe(sys, c, pick, fault);
    }
  }

  lemma ClaimWinners(sys: System, c: nat, pick: nat, fault: Fault)
    requires Safe(sys) && c < |sys.calls| && sys.calls[c].VerifyCall? && sys.calls[c].pc.Claim?
    ensures WinnersOk(Apply(sys, Advance(c, pick, fault)))
  {
    var sys' := Apply(sys, Advance(c, pick, fault));
    var order := sys.calls[c].pc.snap.id;
    if WinOf(sys'.calls[c]).None? {
      WinnersCarryOver(sys, sys');
    } else {
      assert Won(sys'.calls[c], order);
      forall d, o: nat | 0 <= d < |sys.calls| && Won(sys.calls[d], o) ensures o != order {
        assert CallOk(sys.db, sys.calls[d]);
        assert WinOk(sys.db, sys.calls[d].req, WinOf(sys.calls[d]).value);
      }
      forall o: nat | o < |sys'.db.orders| && sys'.db.orders[o].status.Paid?
        ensures exists d :: 0 <= d < |sys'.calls| && Won(sys'.calls[d], o)
      {
        if o != order {
          var d :| 0 <= d < |sys.calls| && Won(sys.calls[d], o);
          assert Won(sys'.calls[d], o);
        }
      }
      forall d, e, o: nat | 0 <= d < e < |sys'.calls| && Won(sys'.calls[d], o) ensures !Won(sys'.calls[e], o) {
        if d == c || e == c {
          assert d == c ==> o == order;
        } else {
          assert Won(sys.calls[d], o);
        }
      }
    }
  }

  lemma StepSafe(sys: System, a: Action)
    requires Safe(sys)
    ensures Safe(Apply(sys, a))
  {
    if a.Advance? {
      if a.call < |sys.calls| {
        if sys.calls[a.call].VerifyCall? {
          VerifySafe(sys, a.call, a.pick, a.fault);
        } else {
          IngestSafe(sys, a.call, a.fault);
          assert Apply(sys, a) == Apply(sys, Advance(a.call, 0, a.fault));
        }
      }
    } else {
      DbActionSafe(sys, a);
    }
  }

  /** The invariant holds after every run of a server that started with empty tables. */
  lemma {:induction false} ReachableSafe(now: int, actions: seq<Action>)
    ensures Safe(Run(Initial(now), actions))
    decreases |actions|
  {
    if |actions| > 0 {
      ReachableSafe(now, actions[..|actions| - 1]);
      StepSafe(Run(Initial(now), actions[..|actions| - 1]), actions[|actions| - 1]);
    }
  }
}
