/** The main results about payments, for every run of the server. */
module LedgerTheorems {
  import opened Prelude
  import opened Tables
  import opened BalanceTrail
  import opened Ledger
  import opened LedgerSafety

  lemma ReachableIsSafe(sys: System)
    requires Reachable(sys)
    ensures Safe(sys)
  {
    var now, actions :| sys == Run(Initial(now), actions);
    ReachableSafe(now, actions);
  }

  // ---- a paid order was paid ----

  /** A paid order has exactly one winning verification; the transaction it claimed is a credit of
      the same business for exactly the expected amount and carries the TrxID that was submitted for
      this order, and the order had not expired when the winner read it. */
  lemma PaidOrdersWerePaid(sys: System, o: nat) returns (c: nat, w: Win)
    requires Reachable(sys) && o < |sys.db.orders| && sys.db.orders[o].status.Paid?
    ensures c < |sys.calls| && WinOf(sys.calls[c]) == Some(w) && w.order == o
    ensures forall d :: 0 <= d < |sys.calls| && Won(sys.calls[d], o) ==> d == c
    ensures sys.db.orders[o].matched == Some(w.tx)
    ensures Pays(sys.db.points, w.tx, sys.db.orders[o])
    ensures sys.db.points[w.tx].tx.trxId == sys.calls[c].req.trxId
    ensures HasKey(sys.db.orders[o], sys.calls[c].req.business, sys.calls[c].req.externalId)
    ensures sys.db.orders[o].expiresAt.Some? ==> w.readAt <= sys.db.orders[o].expiresAt.value
  {
    ReachableIsSafe(sys);
    c :| 0 <= c < |sys.calls| && Won(sys.calls[c], o);
    w := WinOf(sys.calls[c]).value;
    assert CallOk(sys.db, sys.calls[c]);
    assert OrderOk(sys.db.points, sys.db.orders[o]);
  }

  /** An order is paid exactly when it has a match, and no transaction pays two orders. */
  lemma PaidExactlyWhenMatched(sys: System, o: nat, p: nat)
    requires Reachable(sys) && o < |sys.db.orders| && p < |sys.db.orders|
    ensures sys.db.orders[o].status.Paid? <==> sys.db.orders[o].matched.Some?
    ensures sys.db.orders[o].matched.Some? && sys.db.orders[o].matched == sys.db.orders[p].matched ==> o == p
  {
    ReachableIsSafe(sys);
    assert OrderOk(sys.db.points, sys.db.orders[o]);
  }

  /** Paid, expired and cancelled are final: such a row is never written again. */
  lemma {:induction false} FinalOrdersStay(sys: System, actions: seq<Action>, o: nat)
    requires o < |sys.db.orders| && !sys.db.orders[o].status.Pending?
    ensures o < |Run(sys, actions).db.orders| && Run(sys, actions).db.orders[o] == sys.db.orders[o]
    decreases |actions|
  {
    if |actions| > 0 {
      FinalOrdersStay(sys, actions[..|actions| - 1], o);
      StepEvolves(Run(sys, actions[..|actions| - 1]), actions[|actions| - 1]);
    }
  }

  // ---- who wins ----

  function Winners(calls: seq<Call>): set<nat> {
    set c: nat | c < |calls| && WinOf(calls[c]).Some?
  }

  function PaidOrders(orders: seq<Order>): set<nat> {
    set o: nat | o < |orders| && orders[o].status.Paid?
  }

  /** Success accounting: there are as many claims that took effect as paid orders. */
  lemma SuccessAccounting(sys: System)
    requires Reachable(sys)
    ensures |Winners(sys.calls)| == |PaidOrders(sys.db.orders)|
  {
    ReachableIsSafe(sys);
    var wins := Winners(sys.calls);
    forall c: nat | c in wins ensures WinOf(sys.calls[c]).value.order in PaidOrders(sys.db.orders) {
      assert CallOk(sys.db, sys.calls[c]);
    }
    forall c: nat, d: nat | c in wins && d in wins && c != d
      ensures WinOf(sys.calls[c]).value.order != WinOf(sys.calls[d]).value.order
    {
      assert Won(sys.calls[c], WinOf(sys.calls[c]).value.order);
      assert Won(sys.calls[d], WinOf(sys.calls[d]).value.order);
    }
    WinsCount(sys.calls, wins);
    assert PaidOrders(sys.db.orders) == WonOrders(sys.calls, wins);
  }

  ghost function WonOrders(calls: seq<Call>, wins: set<nat>): set<nat>
    requires wins <= Winners(calls)
  {
    set c | c in wins :: WinOf(calls[c]).value.order
  }

  lemma {:induction false} WinsCount(calls: seq<Call>, wins: set<nat>)
    requires wins <= Winners(calls)
    requires forall c: nat, d: nat :: c in wins && d in wins && c != d ==>
      WinOf(calls[c]).value.order != WinOf(calls[d]).value.order
    ensures |WonOrders(calls, wins)| == |wins|
    decreases wins
  {
    if wins != {} {
      var c :| c in wins;
      WinsCount(calls, wins - {c});
      assert WonOrders(calls, wins) == WonOrders(calls, wins - {c}) + {WinOf(calls[c]).value.order};
    }
  }

  /** While no statement of a claim loses its reply, the claims that took effect are exactly the
      verifications that returned `success` or are about to. */
  lemma WinnersSucceed(sys: System, c: nat)
    requires Reachable(sys) && c < |sys.calls| && sys.calls[c].VerifyCall?
    requires !(sys.calls[c].pc.Failed? && sys.calls[c].pc.win.Some?)
    ensures c in Winners(sys.calls) <==>
      (sys.calls[c].pc.LogAttempt? || sys.calls[c].pc.Returned?) && sys.calls[c].pc.outcome.code.Success?
  {
    ReachableIsSafe(sys);
    assert CallOk(sys.db, sys.calls[c]);
  }

  /** `already_used` is returned only when the order is paid, or another order holds a transaction
      with the submitted TrxID. */
  lemma AlreadyUsedIsTrue(sys: System, c: nat)
    requires Reachable(sys) && c < |sys.calls| && sys.calls[c].VerifyCall? && sys.calls[c].pc.Returned?
    requires sys.calls[c].pc.outcome.code.AlreadyUsed?
    ensures var out := sys.calls[c].pc.outcome;
      && out.order.Some? && out.order.value < |sys.db.orders|
      && (sys.db.orders[out.order.value].status.Paid?
          || exists p, t :: HeldElsewhere(sys.db, sys.calls[c].req, out.order.value, p, t))
  {
    ReachableIsSafe(sys);
    assert CallOk(sys.db, sys.calls[c]);
  }

  /** An order that loses on the unique index stays claimable: its call answers `already_used`, no
      table changes, and a claim of it with any transaction that is still free succeeds next. */
  lemma LoserStaysClaimable(sys: System, c: nat, d: nat)
    requires Reachable(sys) && c < |sys.calls| && d < |sys.calls| && c != d
    requires sys.calls[c].VerifyCall? && sys.calls[c].pc.Claim? && sys.calls[d].VerifyCall? && sys.calls[d].pc.Claim?
    requires sys.calls[c].pc.snap.id == sys.calls[d].pc.snap.id
    requires Claimable(sys.db.orders, sys.calls[c].pc.snap.id, sys.calls[c].req.business)
    requires Taken(sys.db.orders, sys.calls[c].pc.tx) && !Taken(sys.db.orders, sys.calls[d].pc.tx)
    ensures var lost := Apply(sys, Advance(c, 0, NoFault));
      && lost.db == sys.db
      && lost.calls[c].pc.LogAttempt? && lost.calls[c].pc.outcome.code.AlreadyUsed?
      && var won := Apply(lost, Advance(d, 0, NoFault));
         && won.calls[d].pc.LogAttempt? && won.calls[d].pc.outcome.code.Success?
         && won.db.orders[sys.calls[c].pc.snap.id].matched == Some(sys.calls[d].pc.tx)
  {
    ReachableIsSafe(sys);
    assert CallOk(sys.db, sys.calls[c]);
    assert CallOk(sys.db, sys.calls[d]);
  }

  /** A claim that selects no row reads the order again, and answers `already_used` if it is paid by then
      and `order_not_pending` if it is not. */
  lemma RereadExactly(sys: System, c: nat, pick: nat)
    requires Reachable(sys) && c < |sys.calls| && sys.calls[c].VerifyCall? && sys.calls[c].pc.Reread?
    ensures var o, after := sys.calls[c].pc.snap.id, Apply(sys, Advance(c, pick, NoFault));
      && o < |sys.db.orders| && after.db == sys.db && after.calls[c].pc.LogAttempt?
      && after.calls[c].pc.outcome
         == Outcome(if sys.db.orders[o].status == Paid then AlreadyUsed else OrderNotPending, Some(o), None, None)
  {
    ReachableIsSafe(sys);
    assert CallOk(sys.db, sys.calls[c]);
    var req := sys.calls[c].req;
    var found := FindOrder(sys.db.orders, req.business, req.externalId);
    assert HasKey(sys.db.orders[sys.calls[c].pc.snap.id], req.business, req.externalId);
    assert found == Some(sys.calls[c].pc.snap.id);
  }

  /** A claim is answered in one of three ways: it pays, its order is no longer open and is read again, or
      another order holds the transaction. */
  lemma ClaimAnswers(sys: System, c: nat, pick: nat)
    requires Reachable(sys) && c < |sys.calls| && sys.calls[c].VerifyCall? && sys.calls[c].pc.Claim?
    ensures var pc, after := sys.calls[c].pc, Apply(sys, Advance(c, pick, NoFault));
      && pc.snap.id < |sys.db.orders|
      && var held := exists p | 0 <= p < |sys.db.orders| :: sys.db.orders[p].matched == Some(pc.tx);
      if sys.db.orders[pc.snap.id].status != Pending then
        after.db == sys.db && after.calls[c].pc == Reread(pc.snap)
      else if held then
        after.db == sys.db && after.calls[c].pc.LogAttempt?
        && after.calls[c].pc.outcome == Outcome(AlreadyUsed, Some(pc.snap.id), None, None)
      else
        after.db.orders[pc.snap.id].matched == Some(pc.tx) && after.calls[c].pc.LogAttempt?
        && after.calls[c].pc.outcome == Outcome(Success, Some(pc.snap.id), Some(pc.tx), pc.balance)
  {
    ReachableIsSafe(sys);
    assert CallOk(sys.db, sys.calls[c]);
    assert OrderOk(sys.db.points, sys.db.orders[sys.calls[c].pc.snap.id]);
  }

  /** A statement of a verification that fails, or whose reply is lost, ends it with an error, whatever it did
      to the tables; only the log may fail without changing the answer. */
  lemma FailureEndsVerification(sys: System, c: nat, pick: nat, fault: Fault)
    requires c < |sys.calls| && sys.calls[c].VerifyCall? && fault != NoFault
    ensures var pc, after := sys.calls[c].pc, Apply(sys, Advance(c, pick, fault));
      match pc
      case Returned(_, _) => after == sys
      case Failed(_) => after == sys
      case LogAttempt(out, attempt, _) =>
        && after.calls[c].pc.Returned? && after.calls[c].pc.outcome == out
        && after.db == sys.db.(attempts := if fault == Lost then sys.db.attempts else sys.db.attempts + [attempt])
      case Claim(_, _, _) => after.calls[c].pc.Failed? && (fault == Lost ==> after.db == sys.db)
      case _ => after.calls[c].pc.Failed? && after.db == sys.db
  {
  }

  /** A statement of an ingest that fails, or whose reply is lost, ends it with the answer `error`; only marking
      the message may fail without changing the answer. */
  lemma FailureEndsIngest(sys: System, c: nat, pick: nat, fault: Fault)
    requires c < |sys.calls| && sys.calls[c].IngestCall? && fault != NoFault
    requires sys.calls[c].at.InsertTx? || sys.calls[c].at.Lookup? ==> sys.calls[c].job.decision.Inserts?
    ensures var at, after := sys.calls[c].at, Apply(sys, Advance(c, pick, fault));
      && after.calls[c].at.Done?
      && after.calls[c].at.result == (if at.Done? || at.Mark? then at.result else MsgError)
      && (fault == Lost ==> after.db == sys.db)
  {
  }

  // ---- balances ----

  /** A calibration is recorded now, with its balance, on the trail of its device and provider. It decides
      about the last transaction of that trail, unless another calibration is as new, and changes no
      verdict on any other. */
  lemma CalibrationLands(sys: System, device: nat, provider: nat, balance: Money, i: nat, v: Option<bool>)
    requires Reachable(sys) && 0 <= balance < 1_000_000_000_000 && Judged(sys.db.points, i)
    ensures var tx, points := sys.db.points[i].tx, Apply(sys, Calibrate(device, provider, balance)).db.points;
      && points == sys.db.points + [Calibration(device, provider, balance, sys.db.now)]
      && (tx.device == device && tx.provider == provider && !HasLaterTransaction(sys.db.points, i)
          && (forall k :: IsLaterCalibration(sys.db.points, i, k) ==> sys.db.points[k].At() < sys.db.now)
          ==> (CanJudge(points, i, v) <==> v == Some(balance == tx.balanceAfter.value)))
      && (tx.device != device || tx.provider != provider
          ==> (CanJudge(points, i, v) <==> CanJudge(sys.db.points, i, v)))
  {
    ReachableIsSafe(sys);
    var tx, calibration := sys.db.points[i].tx, Calibration(device, provider, balance, sys.db.now);
    if tx.device == device && tx.provider == provider {
      if !HasLaterTransaction(sys.db.points, i)
         && forall k :: IsLaterCalibration(sys.db.points, i, k) ==> sys.db.points[k].At() < sys.db.now {
        CalibrationDecides(sys.db.points, i, calibration, v);
      }
    } else {
      VerdictIgnoresOtherTrails(sys.db.points, [calibration], i, v);
    }
  }

  lemma {:induction false} NetOfPrefix(points: seq<Point>, m: nat, device: nat, provider: nat, hi: nat)
    requires hi <= m <= |points|
    ensures Net(points[..m], device, provider, 0, hi) == Net(points, device, provider, 0, hi)
    decreases hi
  {
    if hi > 0 {
      NetOfPrefix(points, m, device, provider, hi - 1);
    }
  }

  /** A trail that is honest now was honest at every earlier moment. */
  lemma HonestPrefix(points: seq<Point>, m: nat, device: nat, provider: nat, opening: Money)
    requires m <= |points| && Honest(points, device, provider, opening)
    ensures Honest(points[..m], device, provider, opening)
  {
    var earlier := points[..m];
    forall k | 0 <= k < m && OnTrail(earlier[k], device, provider) && earlier[k].Stated().Some?
      ensures earlier[k].Stated().value == opening + Net(earlier, device, provider, 0, k + 1)
    {
      assert earlier[k] == points[k];
      NetOfPrefix(points, m, device, provider, k + 1);
    }
  }

  lemma RegularPrefix(points: seq<Point>, m: nat, device: nat, provider: nat)
    requires m <= |points| && Regular(points, device, provider)
    ensures Regular(points[..m], device, provider)
  {
    var earlier := points[..m];
    assert forall k | 0 <= k < m :: earlier[k] == points[k];
  }

  /** A trail that is honest now was honest at every earlier moment, and did not reject if all its rows
      state their balances at distinct times. */
  lemma HonestThen(points: seq<Point>, m: nat, t: nat, opening: Money)
    requires Chronological(points) && m <= |points| && Judged(points[..m], t)
    requires Honest(points, points[t].Device(), points[t].Provider(), opening)
    ensures Honest(points[..m], points[t].Device(), points[t].Provider(), opening)
    ensures Regular(points, points[t].Device(), points[t].Provider()) ==> !CanJudge(points[..m], t, Some(false))
  {
    var device, provider := points[t].Device(), points[t].Provider();
    HonestPrefix(points, m, device, provider, opening);
    if Regular(points, device, provider) {
      RegularPrefix(points, m, device, provider);
      HonestNeverRejected(points[..m], t, opening);
    }
  }

  /** No verification of a transaction on an honest trail, all of whose rows state their balances at
      distinct times, is ever rejected for its balance, wherever its queries fall among the inserts and
      calibrations of other requests. */
  lemma HonestPaymentsAreNotRejected(sys: System, c: nat, t: nat, opening: Money)
    requires Reachable(sys) && c < |sys.calls| && sys.calls[c].VerifyCall? && sys.calls[c].pc.Returned?
    requires sys.calls[c].pc.outcome.tx == Some(t) && t < |sys.db.points|
    requires Honest(sys.db.points, sys.db.points[t].Device(), sys.db.points[t].Provider(), opening)
    requires Regular(sys.db.points, sys.db.points[t].Device(), sys.db.points[t].Provider())
    ensures !sys.calls[c].pc.outcome.code.BalanceMismatch?
  {
    ReachableIsSafe(sys);
    assert CallOk(sys.db, sys.calls[c]);
    if sys.calls[c].pc.outcome.code.BalanceMismatch? {
      var m: nat :| JudgedAt(sys.db.points, m, t, Some(false));
      HonestThen(sys.db.points, m, t, opening);
    }
  }

  /** On an honest trail a verification is rejected for its balance only if at some moment a query
      could pick a row with a nonzero net movement between it and the transaction. */
  lemma MismatchHasCause(sys: System, c: nat, t: nat, opening: Money) returns (m: nat, j: nat)
    requires Reachable(sys) && c < |sys.calls| && sys.calls[c].VerifyCall? && sys.calls[c].pc.Returned?
    requires sys.calls[c].pc.outcome.code.BalanceMismatch?
    requires sys.calls[c].pc.outcome.tx == Some(t) && t < |sys.db.points|
    requires Honest(sys.db.points, sys.db.points[t].Device(), sys.db.points[t].Provider(), opening)
    ensures m <= |sys.db.points| && Judged(sys.db.points[..m], t) && Misleads(sys.db.points[..m], t, j)
  {
    var points := sys.db.points;
    ReachableIsSafe(sys);
    assert CallOk(sys.db, sys.calls[c]);
    m :| 0 <= m && JudgedAt(points, m, t, Some(false));
    HonestPrefix(points, m, points[t].Device(), points[t].Provider(), opening);
    HonestRejectionExact(points[..m], t, opening);
    j :| Misleads(points[..m], t, j);
  }

  // ---- conservation of money ----

  predicate PaysFor(o: Order, business: nat) {
    o.business == business && o.status.Paid?
  }

  /** What a business was paid, by its orders. */
  function Receipts(orders: seq<Order>, business: nat, n: nat): Money
    requires n <= |orders|
  {
    if n == 0 then 0
    else Receipts(orders, business, n - 1) + if PaysFor(orders[n - 1], business) then orders[n - 1].expected else 0
  }

  /** The transactions matched by the first `n` orders of a business. */
  ghost function Matched(orders: seq<Order>, business: nat, n: nat): set<nat>
    requires n <= |orders|
  {
    set o: nat | o < n && PaysFor(orders[o], business) && orders[o].matched.Some? :: orders[o].matched.value
  }

  /** The effective amounts of the chosen transactions. */
  ghost function Total(points: seq<Point>, chosen: set<nat>, n: nat): Money
    requires n <= |points|
  {
    if n == 0 then 0
    else Total(points, chosen, n - 1) + if n - 1 in chosen && points[n - 1].Tx? then points[n - 1].tx.Effective() else 0
  }

  ghost function Credits(points: seq<Point>, business: nat): set<nat> {
    set t: nat | t < |points| && points[t].Tx? && points[t].tx.business == business && points[t].tx.direction.Credit?
  }

  lemma {:induction false} TotalAdds(points: seq<Point>, chosen: set<nat>, t: nat, n: nat)
    requires n <= |points| && t !in chosen && t < |points| && points[t].Tx?
    ensures Total(points, chosen + {t}, n)
            == Total(points, chosen, n) + if t < n then points[t].tx.Effective() else 0
  {
    if n > 0 {
      TotalAdds(points, chosen, t, n - 1);
    }
  }

  lemma {:induction false} TotalGrows(points: seq<Point>, some: set<nat>, all: set<nat>, n: nat)
    requires n <= |points| && some <= all
    requires forall t :: 0 <= t < |points| && points[t].Tx? ==> 0 < points[t].tx.Effective()
    ensures Total(points, some, n) <= Total(points, all, n)
  {
    if n > 0 {
      TotalGrows(points, some, all, n - 1);
    }
  }

  lemma {:induction false} NothingChosen(points: seq<Point>, n: nat)
    requires n <= |points|
    ensures Total(points, {}, n) == 0
  {
    if n > 0 {
      NothingChosen(points, n - 1);
    }
  }

  lemma {:induction false} ReceiptsAreMatched(db: Db, business: nat, n: nat)
    requires OrdersOk(db) && n <= |db.orders|
    ensures Receipts(db.orders, business, n) == Total(db.points, Matched(db.orders, business, n), |db.points|)
  {
    if n == 0 {
      NothingChosen(db.points, |db.points|);
      assert Matched(db.orders, business, 0) == {};
    } else {
      ReceiptsAreMatched(db, business, n - 1);
      var o := db.orders[n - 1];
      var before := Matched(db.orders, business, n - 1);
      assert OrderOk(db.points, o);
      if PaysFor(o, business) {
        TotalAdds(db.points, before, o.matched.value, |db.points|);
        assert Matched(db.orders, business, n) == before + {o.matched.value};
      } else {
        assert Matched(db.orders, business, n) == before;
      }
    }
  }

  /** Conservation of money: in every reachable state the expected amounts of the paid orders of a
      business add up to the effective amounts of the transactions matched to them, which are all
      credits it recorded; so it never counts as paid more than it received. */
  lemma MoneyIsConserved(sys: System, business: nat)
    requires Reachable(sys)
    ensures var db := sys.db; var matched := Matched(db.orders, business, |db.orders|);
      && matched <= Credits(db.points, business)
      && Receipts(db.orders, business, |db.orders|) == Total(db.points, matched, |db.points|)
      && Receipts(db.orders, business, |db.orders|) <= Total(db.points, Credits(db.points, business), |db.points|)
  {
    ReachableIsSafe(sys);
    var db := sys.db;
    var matched := Matched(db.orders, business, |db.orders|);
    assert forall o :: 0 <= o < |db.orders| ==> OrderOk(db.points, db.orders[o]);
    ReceiptsAreMatched(db, business, |db.orders|);
    TotalGrows(db.points, matched, Credits(db.points, business), |db.points|);
  }
}
