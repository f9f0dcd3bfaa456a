/** A verification that nothing interrupts: its seven statements refine one atomic decision. */
module AtomicVerify {
  import opened Prelude
  import opened Tables
  import opened BalanceTrail
  import opened Ledger
  import opened LedgerSafety

  /** The decision in one piece: what the answer to a request is, on one state of the tables. */
  ghost predicate Decision(db: Db, req: Request, out: Outcome) {
    match FindOrder(db.orders, req.business, req.externalId)
    case None => out == Outcome(NotFound, None, None, None)
    case Some(o) =>
      var row := db.orders[o];
      if row.status.Pending? && row.expiresAt.Some? && row.expiresAt.value < db.now then
        out == Outcome(OrderExpired, Some(o), None, None)
      else if !row.status.Pending? then
        out == Outcome(OrderNotPending, Some(o), None, None)
      else if !HasCandidate(db.points, req.business, req.trxId) then
        out == Outcome(NotFound, Some(o), None, None)
      else
        exists t: nat :: LatestCandidate(db.points, req.business, req.trxId, t) && DecisionFor(db, o, t, out)
  }

  ghost predicate DecisionFor(db: Db, o: nat, t: nat, out: Outcome)
    requires o < |db.orders| && t < |db.points| && db.points[t].Tx?
  {
    var tx := db.points[t].tx;
    if tx.direction.Debit? then
      out == Outcome(WrongDirection, Some(o), Some(t), None)
    else if tx.Effective() != db.orders[o].expected then
      out == Outcome(AmountMismatch, Some(o), Some(t), None)
    else exists v ::
      && BalanceVerdict(db.points, t, v)
      && out == (if v == Some(false) then Outcome(BalanceMismatch, Some(o), Some(t), v)
                 else if Taken(db.orders, t) then Outcome(AlreadyUsed, Some(o), None, None)
                 else Outcome(Success, Some(o), Some(t), v))
  }

  ghost predicate BalanceVerdict(points: seq<Point>, t: nat, v: Option<bool>)
    requires t < |points| && points[t].Tx?
  {
    if points[t].tx.balanceAfter.None? then v == None else CanJudge(points, t, v)
  }

  /** The orders afterwards: the one order paid on success, nothing changed otherwise. */
  ghost predicate Settled(db: Db, out: Outcome, orders: seq<Order>) {
    if out.code.Success? then
      && out.order.Some? && out.order.value < |db.orders| && out.tx.Some?
      && orders == db.orders[out.order.value := Claimed(db.orders[out.order.value], out.tx.value, db.now)]
    else orders == db.orders
  }

  ghost predicate Undecided(db: Db, req: Request, snap: Snapshot) {
    && FindOrder(db.orders, req.business, req.externalId) == Some(snap.id)
    && snap == Snapshot(snap.id, db.orders[snap.id], db.now)
    && snap.row.status.Pending? && !Stale(snap.row, db.now)
  }

  ghost predicate Payment(db: Db, req: Request, snap: Snapshot, t: nat) {
    && LatestCandidate(db.points, req.business, req.trxId, t)
    && db.points[t].tx.direction.Credit?
    && db.points[t].tx.Effective() == snap.row.expected
  }

  /** How far an uninterrupted call has come, relative to the tables it started on. */
  ghost predicate Progress(start: Db, db: Db, req: Request, pc: Pc) {
    && db.points == start.points && db.now == start.now
    && match pc
       case ReadOrder => db.orders == start.orders
       case FindTransaction(snap) => db.orders == start.orders && Undecided(start, req, snap)
       case ReadCalibration(snap, t) =>
         db.orders == start.orders && Undecided(start, req, snap) && Payment(start, req, snap, t)
         && Judged(start.points, t)
       case CountLater(snap, t, calibrated, _) =>
         && db.orders == start.orders && Undecided(start, req, snap) && Payment(start, req, snap, t)
         && Judged(start.points, t)
         && ReadsCalibration(start.points, t, calibrated)
       case ReadPrevious(snap, t, calibrated, _, _) =>
         && db.orders == start.orders && Undecided(start, req, snap) && Payment(start, req, snap, t)
         && Judged(start.points, t)
         && ReadsCalibration(start.points, t, calibrated)
         && (calibrated.None? || HasLaterTransaction(start.points, t))
       case Claim(snap, t, v) =>
         && db.orders == start.orders && Undecided(start, req, snap) && Payment(start, req, snap, t)
         && BalanceVerdict(start.points, t, v) && v != Some(false)
       case Reread(_) => false
       case LogAttempt(out, _, _) => Decision(start, req, out) && Settled(start, out, db.orders)
       case Returned(out, _) => Decision(start, req, out) && Settled(start, out, db.orders)
       case Failed(_) => false
  }

  lemma TransactionProgress(start: Db, db: Db, req: Request, snap: Snapshot, t: nat)
    requires Progress(start, db, req, FindTransaction(snap)) && LatestCandidate(db.points, req.business, req.trxId, t)
    ensures Progress(start, db, req, AfterTransaction(req, snap, t, db.points[t].tx))
  {
    var pc := AfterTransaction(req, snap, t, db.points[t].tx);
    if pc.LogAttempt? {
      assert DecisionFor(start, snap.id, t, pc.outcome);
    }
  }

  lemma VerdictProgress(start: Db, db: Db, req: Request, snap: Snapshot, t: nat, v: Option<bool>)
    requires db.points == start.points && db.now == start.now && db.orders == start.orders
    requires Undecided(start, req, snap) && Payment(start, req, snap, t) && BalanceVerdict(start.points, t, v)
    ensures Progress(start, db, req, AfterVerdict(req, snap, t, v))
  {
    var pc := AfterVerdict(req, snap, t, v);
    if pc.LogAttempt? {
      assert DecisionFor(start, snap.id, t, pc.outcome);
    }
  }

  lemma BalanceProgress(start: Db, db: Db, req: Request, pc: Pc, pick: nat)
    requires Progress(start, db, req, pc) && (pc.ReadCalibration? || pc.CountLater? || pc.ReadPrevious?)
    ensures Progress(start, db, req, ReadStep(db, req, pc, pick))
  {
    var points, t := start.points, pc.tx;
    match pc
    case ReadCalibration(_, _) =>
      if LatestCalibration(points, t, pick) {
        assert ReadsCalibration(points, t, Some(points[pick].balance));
      }
    case CountLater(snap, _, calibrated, _) =>
      if calibrated.Some? && !HasLaterTransaction(points, t) {
        var c :| 0 <= c < |points| && LatestCalibration(points, t, c);
        VerdictProgress(start, db, req, snap, t, ByCalibration(points[t].tx, calibrated.value));
      }
    case ReadPrevious(snap, _, calibrated, _, _) =>
      if calibrated.Some? {
        var c :| 0 <= c < |points| && LatestCalibration(points, t, c);
      }
      if !HasPrevious(points, t) {
        assert ReadsPrevious(points, t, None);
        VerdictProgress(start, db, req, snap, t, None);
      } else if LatestPrevious(points, t, pick) {
        assert ReadsPrevious(points, t, points[pick].Stated());
        VerdictProgress(start, db, req, snap, t, ByPrevious(points[t].tx, points[pick].Stated()));
      }
  }

  lemma ClaimProgress(start: Db, db: Db, req: Request, pc: Pc)
    requires OrdersOk(start) && Progress(start, db, req, pc) && pc.Claim?
    ensures var s := ClaimStep(db, req, pc, NoFault); Progress(start, s.db, req, s.pc)
  {
    assert OrderOk(start.points, start.orders[pc.snap.id]);
    var s := ClaimStep(db, req, pc, NoFault);
    assert DecisionFor(start, pc.snap.id, pc.tx, s.pc.outcome);
  }

  lemma StepProgress(start: Db, db: Db, req: Request, pc: Pc, pick: nat)
    requires OrdersOk(start) && Progress(start, db, req, pc)
    ensures var s := VerifyStep(db, req, pc, pick, NoFault); Progress(start, s.db, req, s.pc)
  {
    match pc
    case FindTransaction(snap) =>
      if LatestCandidate(db.points, req.business, req.trxId, pick) {
        TransactionProgress(start, db, req, snap, pick);
      }
    case Claim(_, _, _) => ClaimProgress(start, db, req, pc);
    case ReadCalibration(_, _) => BalanceProgress(start, db, req, pc, pick);
    case CountLater(_, _, _, _) => BalanceProgress(start, db, req, pc, pick);
    case ReadPrevious(_, _, _, _, _) => BalanceProgress(start, db, req, pc, pick);
    case _ =>
  }

  /** The state after a call has taken the given steps, with nothing in between and no failure. */
  function Alone(db: Db, req: Request, picks: seq<nat>): VerifyState {
    if |picks| == 0 then VerifyState(db, ReadOrder)
    else
      var s := Alone(db, req, picks[..|picks| - 1]);
      VerifyStep(s.db, req, s.pc, picks[|picks| - 1], NoFault)
  }

  /** An uninterrupted verification decides as the atomic decision does, whichever rows its queries
      pick, and leaves the orders as that decision says. */
  lemma {:induction false} UninterruptedVerifyIsAtomic(db: Db, req: Request, picks: seq<nat>)
    requires OrdersOk(db)
    ensures var s := Alone(db, req, picks);
      && Progress(db, s.db, req, s.pc)
      && (s.pc.Returned? ==> Decision(db, req, s.pc.outcome) && Settled(db, s.pc.outcome, s.db.orders))
    decreases |picks|
  {
    if |picks| > 0 {
      var s := Alone(db, req, picks[..|picks| - 1]);
      UninterruptedVerifyIsAtomic(db, req, picks[..|picks| - 1]);
      StepProgress(db, s.db, req, s.pc, picks[|picks| - 1]);
    }
  }

  // ---- the converse: every atomic decision is reached ----

  /** From this state the call can return `out` in `n` steps, for suitable picks. */
  ghost predicate Reaches(s: VerifyState, req: Request, out: Outcome, n: nat)
    decreases n
  {
    if n == 0 then s.pc.Returned? && s.pc.outcome == out
    else exists pick: nat :: Reaches(VerifyStep(s.db, req, s.pc, pick, NoFault), req, out, n - 1)
  }

  lemma StepReaches(s: VerifyState, req: Request, out: Outcome, n: nat, pick: nat)
    requires Reaches(VerifyStep(s.db, req, s.pc, pick, NoFault), req, out, n)
    ensures Reaches(s, req, out, n + 1)
  {
  }

  lemma LogReaches(s: VerifyState, req: Request)
    requires s.pc.LogAttempt?
    ensures Reaches(s, req, s.pc.outcome, 1)
  {
    var next := VerifyStep(s.db, req, s.pc, 0, NoFault);
    assert Reaches(next, req, s.pc.outcome, 0);
    StepReaches(s, req, s.pc.outcome, 0, 0);
  }

  /** A step to a logged outcome. */
  lemma LogsNext(s: VerifyState, req: Request, pick: nat)
    requires VerifyStep(s.db, req, s.pc, pick, NoFault).pc.LogAttempt?
    ensures Reaches(s, req, VerifyStep(s.db, req, s.pc, pick, NoFault).pc.outcome, 2)
  {
    var next := VerifyStep(s.db, req, s.pc, pick, NoFault);
    LogReaches(next, req);
    StepReaches(s, req, next.pc.outcome, 1, pick);
  }

  /** What follows from a verdict. */
  function Verdicted(db: Db, snap: Snapshot, t: nat, v: Option<bool>): Outcome {
    if v == Some(false) then Outcome(BalanceMismatch, Some(snap.id), Some(t), v)
    else if Taken(db.orders, t) then Outcome(AlreadyUsed, Some(snap.id), None, None)
    else Outcome(Success, Some(snap.id), Some(t), v)
  }

  lemma VerdictReaches(s: VerifyState, req: Request, snap: Snapshot, t: nat, v: Option<bool>)
    requires s.pc == AfterVerdict(req, snap, t, v) && Undecided(s.db, req, snap) && OrdersOk(s.db)
    ensures Reaches(s, req, Verdicted(s.db, snap, t, v), if v == Some(false) then 1 else 2)
  {
    if v == Some(false) {
      LogReaches(s, req);
    } else {
      assert OrderOk(s.db.points, s.db.orders[snap.id]);
      LogsNext(s, req, 0);
    }
  }

  lemma PreviousReaches(s: VerifyState, req: Request, snap: Snapshot, t: nat, calibrated: Option<Money>,
                        v: Option<bool>) returns (n: nat)
    requires s.pc.ReadPrevious? && s.pc.snap == snap && s.pc.tx == t
    requires Undecided(s.db, req, snap) && OrdersOk(s.db) && Judged(s.db.points, t)
        && CanJudgeByPrevious(s.db.points, t, v)
    ensures Reaches(s, req, Verdicted(s.db, snap, t, v), n)
  {
    var r :| ReadsPrevious(s.db.points, t, r) && v == ByPrevious(s.db.points[t].tx, r);
    var pick: nat := 0;
    if r.Some? {
      pick :| LatestPrevious(s.db.points, t, pick) && s.db.points[pick].Stated() == r;
      assert HasPrevious(s.db.points, t);
    }
    var next := VerifyStep(s.db, req, s.pc, pick, NoFault);
    VerdictReaches(next, req, snap, t, v);
    n := if v == Some(false) then 1 else 2;
    StepReaches(s, req, Verdicted(s.db, snap, t, v), n, pick);
    n := n + 1;
  }

  lemma CountReaches(s: VerifyState, req: Request, snap: Snapshot, t: nat, v: Option<bool>) returns (n: nat)
    requires s.pc.CountLater? && s.pc.snap == snap && s.pc.tx == t
    requires Undecided(s.db, req, snap) && OrdersOk(s.db) && Judged(s.db.points, t)
    requires
      if s.pc.calibrated.Some? && !HasLaterTransaction(s.db.points, t)
      then v == ByCalibration(s.db.points[t].tx, s.pc.calibrated.value)
      else CanJudgeByPrevious(s.db.points, t, v)
    ensures Reaches(s, req, Verdicted(s.db, snap, t, v), n)
  {
    var next := VerifyStep(s.db, req, s.pc, 0, NoFault);
    if s.pc.calibrated.Some? && !HasLaterTransaction(s.db.points, t) {
      VerdictReaches(next, req, snap, t, v);
      n := if v == Some(false) then 1 else 2;
    } else {
      n := PreviousReaches(next, req, snap, t, s.pc.calibrated, v);
    }
    StepReaches(s, req, Verdicted(s.db, snap, t, v), n, 0);
    n := n + 1;
  }

  lemma BalanceReaches(s: VerifyState, req: Request, snap: Snapshot, t: nat, v: Option<bool>) returns (n: nat)
    requires s.pc == ReadCalibration(snap, t)
    requires Undecided(s.db, req, snap) && OrdersOk(s.db) && Judged(s.db.points, t) && CanJudge(s.db.points, t, v)
    ensures Reaches(s, req, Verdicted(s.db, snap, t, v), n)
  {
    var points := s.db.points;
    var pick: nat := 0;
    if HasLaterCalibration(points, t) {
      if !HasLaterTransaction(points, t) {
        var b :| ReadsCalibration(points, t, Some(b)) && v == ByCalibration(points[t].tx, b);
        pick :| LatestCalibration(points, t, pick) && points[pick].balance == b;
      } else {
        pick := SomeCalibration(points, t);
      }
    }
    var next := VerifyStep(s.db, req, s.pc, pick, NoFault);
    n := CountReaches(next, req, snap, t, v);
    StepReaches(s, req, Verdicted(s.db, snap, t, v), n, pick);
    n := n + 1;
  }

  lemma SomeCalibration(points: seq<Point>, t: nat) returns (pick: nat)
    requires t < |points| && HasLaterCalibration(points, t)
    ensures LatestCalibration(points, t, pick)
  {
    pick := LatestCalibrationExists(points, t, |points|);
  }

  lemma TransactionReaches(s: VerifyState, req: Request, snap: Snapshot, t: nat, out: Outcome) returns (n: nat)
    requires s.pc == FindTransaction(snap) && Undecided(s.db, req, snap) && OrdersOk(s.db)
    requires LatestCandidate(s.db.points, req.business, req.trxId, t) && DecisionFor(s.db, snap.id, t, out)
    ensures Reaches(s, req, out, n)
  {
    var tx := s.db.points[t].tx;
    assert HasCandidate(s.db.points, req.business, req.trxId);
    var next := VerifyStep(s.db, req, s.pc, t, NoFault);
    assert next == VerifyState(s.db, AfterTransaction(req, snap, t, tx));
    if tx.direction.Debit? || tx.Effective() != snap.row.expected {
      LogsNext(s, req, t);
      n := 2;
    } else {
      var v :| BalanceVerdict(s.db.points, t, v) && out == Verdicted(s.db, snap, t, v);
      if tx.balanceAfter.None? {
        VerdictReaches(next, req, snap, t, v);
        n := 2;
      } else {
        n := BalanceReaches(next, req, snap, t, v);
      }
      StepReaches(s, req, out, n, t);
      n := n + 1;
    }
  }

  lemma DecisionReaches(db: Db, req: Request, out: Outcome) returns (n: nat)
    requires OrdersOk(db) && Decision(db, req, out)
    ensures Reaches(VerifyState(db, ReadOrder), req, out, n)
  {
    var s := VerifyState(db, ReadOrder);
    var next := VerifyStep(db, req, ReadOrder, 0, NoFault);
    if next.pc.LogAttempt? {
      LogsNext(s, req, 0);
      n := 2;
    } else {
      var snap := next.pc.snap;
      if !HasCandidate(db.points, req.business, req.trxId) {
        LogsNext(next, req, 0);
        n := 2;
      } else {
        var t: nat :| LatestCandidate(db.points, req.business, req.trxId, t) && DecisionFor(db, snap.id, t, out);
        n := TransactionReaches(next, req, snap, t, out);
      }
      StepReaches(s, req, out, n, 0);
      n := n + 1;
    }
  }

  lemma {:induction false} ReachesByPicks(db: Db, req: Request, picks: seq<nat>, out: Outcome, n: nat)
    returns (all: seq<nat>)
    requires Reaches(Alone(db, req, picks), req, out, n)
    ensures Alone(db, req, all).pc.Returned? && Alone(db, req, all).pc.outcome == out
    decreases n
  {
    if n == 0 {
      all := picks;
    } else {
      var s := Alone(db, req, picks);
      var pick: nat :| Reaches(VerifyStep(s.db, req, s.pc, pick, NoFault), req, out, n - 1);
      var more := picks + [pick];
      assert more[..|picks|] == picks && more[|picks|] == pick;
      all := ReachesByPicks(db, req, more, out, n - 1);
    }
  }

  /** Whatever the atomic decision allows, some choice among rows of equal time makes the uninterrupted
      verification return. */
  lemma EveryDecisionIsReached(db: Db, req: Request, out: Outcome) returns (picks: seq<nat>)
    requires OrdersOk(db) && Decision(db, req, out)
    ensures Alone(db, req, picks).pc.Returned? && Alone(db, req, picks).pc.outcome == out
  {
    var n := DecisionReaches(db, req, out);
    assert Alone(db, req, []) == VerifyState(db, ReadOrder);
    picks := ReachesByPicks(db, req, [], out, n);
  }
}
