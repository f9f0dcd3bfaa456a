/** The log of verification attempts: every entry is true, and belongs to one finished verification. */
module AuditLog {
  import opened Prelude
  import opened Tables
  import opened Ledger
  import opened LedgerSafety
  import opened LedgerTheorems

  /** The amount an attempt reports: that of the transaction, when it differs from the order's. */
  ghost predicate ReportsAmount(points: seq<Point>, out: Outcome, submitted: Option<Money>) {
    if out.code.AmountMismatch? then
      && out.tx.Some? && out.tx.value < |points| && points[out.tx.value].Tx?
      && submitted == Some(points[out.tx.value].tx.Effective())
    else submitted == None
  }

  /** The entry states the request and its outcome. */
  ghost predicate States(db: Db, req: Request, out: Outcome, a: Attempt) {
    && a == Attempt(req.business, out.order, req.trxId, out.code, out.tx, a.submitted, out.balance)
    && ReportsAmount(db.points, out, a.submitted)
  }

  ghost predicate ReadyToLog(db: Db, c: Call) {
    c.VerifyCall? && c.pc.LogAttempt? ==> States(db, c.req, c.pc.outcome, c.pc.attempt)
  }

  ghost predicate AllReady(sys: System) {
    forall c :: 0 <= c < |sys.calls| ==> ReadyToLog(sys.db, sys.calls[c])
  }

  ghost predicate LoggedBy(db: Db, c: Call, a: Attempt) {
    c.VerifyCall? && c.pc.Returned? && States(db, c.req, c.pc.outcome, a)
  }

  /** The verifications that made the entries, in order, no two the same. */
  ghost predicate Logged(sys: System, owners: seq<nat>) {
    && |owners| == |sys.db.attempts|
    && (forall i, j :: 0 <= i < j < |owners| ==> owners[i] != owners[j])
    && (forall i :: 0 <= i < |owners| ==>
          owners[i] < |sys.calls| && LoggedBy(sys.db, sys.calls[owners[i]], sys.db.attempts[i]))
  }

  lemma StatesLater(db: Db, db': Db, req: Request, out: Outcome, a: Attempt)
    requires Evolves(db, db') && States(db, req, out, a)
    ensures States(db', req, out, a)
  {
    if out.code.AmountMismatch? {
      assert db'.points[..|db.points|][out.tx.value] == db.points[out.tx.value];
    }
  }

  lemma ReadStates(db: Db, req: Request, pc: Pc, pick: nat)
    requires !pc.LogAttempt? && ReadStep(db, req, pc, pick).LogAttempt?
    ensures States(db, req, ReadStep(db, req, pc, pick).outcome, ReadStep(db, req, pc, pick).attempt)
  {
  }

  lemma VerifyStates(db: Db, req: Request, pc: Pc, pick: nat, fault: Fault)
    requires !pc.LogAttempt?
    ensures var s := VerifyStep(db, req, pc, pick, fault);
      s.pc.LogAttempt? ==> States(s.db, req, s.pc.outcome, s.pc.attempt)
  {
    if !pc.Claim? && VerifyStep(db, req, pc, pick, fault).pc.LogAttempt? {
      ReadStates(db, req, pc, pick);
    }
  }

  lemma StepReady(sys: System, a: Action)
    requires AllReady(sys)
    ensures AllReady(Apply(sys, a))
  {
    var sys' := Apply(sys, a);
    StepEvolves(sys, a);
    forall c | 0 <= c < |sys'.calls| ensures ReadyToLog(sys'.db, sys'.calls[c]) {
      if c < |sys.calls| && sys.calls[c].VerifyCall? {
        assert ReadyToLog(sys.db, sys.calls[c]);
        if sys.calls[c].pc.LogAttempt? {
          StatesLater(sys.db, sys'.db, sys.calls[c].req, sys.calls[c].pc.outcome, sys.calls[c].pc.attempt);
        } else if a.Advance? && a.call == c {
          VerifyStates(sys.db, sys.calls[c].req, sys.calls[c].pc, a.pick, a.fault);
        }
      }
    }
  }

  /** The log grows only by the entry of a call that is ready to log. */
  ghost predicate LogsOne(sys: System, a: Action) {
    a.Advance? && a.call < |sys.calls| && sys.calls[a.call].VerifyCall? && sys.calls[a.call].pc.LogAttempt?
    && !a.fault.Lost?
  }

  lemma LogGrows(sys: System, a: Action)
    ensures Apply(sys, a).db.attempts
            == sys.db.attempts + if LogsOne(sys, a) then [sys.calls[a.call].pc.attempt] else []
  {
  }

  lemma ReturnedStays(sys: System, a: Action, c: nat)
    requires c < |sys.calls| && sys.calls[c].VerifyCall? && sys.calls[c].pc.Returned?
    ensures c < |Apply(sys, a).calls| && Apply(sys, a).calls[c] == sys.calls[c]
  {
  }

  lemma OwnersStay(sys: System, a: Action, owners: seq<nat>)
    requires Logged(sys, owners)
    ensures forall i :: 0 <= i < |owners| ==>
      owners[i] < |Apply(sys, a).calls|
      && LoggedBy(Apply(sys, a).db, Apply(sys, a).calls[owners[i]], sys.db.attempts[i])
  {
    StepEvolves(sys, a);
    forall i | 0 <= i < |owners|
      ensures owners[i] < |Apply(sys, a).calls|
          && LoggedBy(Apply(sys, a).db, Apply(sys, a).calls[owners[i]], sys.db.attempts[i])
    {
      var c := owners[i];
      assert LoggedBy(sys.db, sys.calls[c], sys.db.attempts[i]);
      ReturnedStays(sys, a, c);
      StatesLater(sys.db, Apply(sys, a).db, sys.calls[c].req, sys.calls[c].pc.outcome, sys.db.attempts[i]);
    }
  }

  lemma StepLogged(sys: System, a: Action, owners: seq<nat>) returns (owners': seq<nat>)
    requires AllReady(sys) && Logged(sys, owners)
    ensures Logged(Apply(sys, a), owners')
  {
    var sys' := Apply(sys, a);
    LogGrows(sys, a);
    OwnersStay(sys, a, owners);
    if LogsOne(sys, a) {
      assert ReadyToLog(sys.db, sys.calls[a.call]);
      assert LoggedBy(sys'.db, sys'.calls[a.call], sys.calls[a.call].pc.attempt);
      forall i | 0 <= i < |owners| ensures owners[i] != a.call {
        assert LoggedBy(sys.db, sys.calls[owners[i]], sys.db.attempts[i]);
      }
      owners' := owners + [a.call];
    } else {
      assert sys'.db.attempts == sys.db.attempts;
      owners' := owners;
    }
  }

  lemma {:induction false} RunLogged(now: int, actions: seq<Action>) returns (owners: seq<nat>)
    ensures var sys := Run(Initial(now), actions); AllReady(sys) && Logged(sys, owners)
    decreases |actions|
  {
    owners := [];
    if |actions| > 0 {
      var before := Run(Initial(now), actions[..|actions| - 1]);
      owners := RunLogged(now, actions[..|actions| - 1]);
      StepReady(before, actions[|actions| - 1]);
      owners := StepLogged(before, actions[|actions| - 1], owners);
    }
  }

  /** Every entry of the log was made by its own finished verification, and states that request and
      its outcome; no verification made two. */
  lemma LogIsTrue(sys: System) returns (owners: seq<nat>)
    requires Reachable(sys)
    ensures Logged(sys, owners)
  {
    var now, actions :| sys == Run(Initial(now), actions);
    owners := RunLogged(now, actions);
  }

  /** An entry that says `success` names an order that is paid, with the transaction it names; no other
      entry says so of that order. */
  lemma SuccessIsLoggedOnce(sys: System, i: nat)
    requires Reachable(sys) && i < |sys.db.attempts| && sys.db.attempts[i].code.Success?
    ensures var a := sys.db.attempts[i];
      && a.order.Some? && a.order.value < |sys.db.orders|
      && sys.db.orders[a.order.value].status.Paid? && a.matched.Some?
      && sys.db.orders[a.order.value].matched == a.matched
      && forall j | 0 <= j < |sys.db.attempts| ::
           sys.db.attempts[j].code.Success? && sys.db.attempts[j].order == a.order ==> j == i
  {
    var owners := LogIsTrue(sys);
    ReachableIsSafe(sys);
    SuccessfulOwner(sys, owners, i);
    assert OrderOk(sys.db.points, sys.db.orders[sys.db.attempts[i].order.value]);
    forall j: nat | j < |sys.db.attempts| && sys.db.attempts[j].code.Success?
        && sys.db.attempts[j].order == sys.db.attempts[i].order
      ensures j == i
    {
      SuccessfulOwner(sys, owners, j);
    }
  }

  lemma SuccessfulOwner(sys: System, owners: seq<nat>, i: nat)
    requires Safe(sys) && Logged(sys, owners) && i < |owners| && sys.db.attempts[i].code.Success?
    ensures var a := sys.db.attempts[i];
      && a.order.Some? && a.order.value < |sys.db.orders| && owners[i] < |sys.calls|
      && Won(sys.calls[owners[i]], a.order.value)
      && a.matched.Some? && sys.db.orders[a.order.value].matched == a.matched
  {
    assert LoggedBy(sys.db, sys.calls[owners[i]], sys.db.attempts[i]);
    assert CallOk(sys.db, sys.calls[owners[i]]);
  }
}
