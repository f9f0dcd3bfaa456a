/** Payment after expiry: the claim does not look at the expiry again. A run on which an order is paid
    late, and the exact condition. */
module Expiry {
  import opened Prelude
  import opened Tables
  import opened Ledger
  import opened LedgerSafety

  predicate PaidLate(o: Order) {
    o.status.Paid? && o.expiresAt.Some? && o.paidAt.Some? && o.expiresAt.value < o.paidAt.value
  }

  /** The action is the claim that pays order `o`. */
  predicate ClaimPays(sys: System, a: Action, o: nat) {
    && a.Advance? && a.call < |sys.calls| && sys.calls[a.call].VerifyCall? && sys.calls[a.call].pc.Claim?
    && !a.fault.Lost?
    && sys.calls[a.call].pc.snap.id == o && Claimable(sys.db.orders, o, sys.calls[a.call].req.business)
    && !Taken(sys.db.orders, sys.calls[a.call].pc.tx)
  }

  /** A claim stamps the order with its own time, so it pays late exactly when the order is stale then. */
  lemma ClaimStampsNow(sys: System, a: Action, o: nat)
    requires ClaimPays(sys, a, o)
    ensures var after := Apply(sys, a).db.orders;
      && o < |after| && after[o] == Claimed(sys.db.orders[o], sys.calls[a.call].pc.tx, sys.db.now)
      && (PaidLate(after[o]) <==> Stale(sys.db.orders[o], sys.db.now))
      && a.call < |Apply(sys, a).calls| && Won(Apply(sys, a).calls[a.call], o)
  {
  }

  lemma OnlyClaimsPay(sys: System, a: Action, o: nat)
    requires o < |Apply(sys, a).db.orders| && Apply(sys, a).db.orders[o].status.Paid?
    requires o < |sys.db.orders| ==> !sys.db.orders[o].status.Paid?
    ensures ClaimPays(sys, a, o)
  {
    if !a.Advance? {
      DbActionPaysNothing(sys.db, a, o);
    } else if a.call < |sys.calls| && sys.calls[a.call].VerifyCall? && !sys.calls[a.call].pc.Claim? {
      UnclaimedStepReads(sys.db, sys.calls[a.call].req, sys.calls[a.call].pc, a.pick, a.fault);
    }
  }

  lemma WonStays(sys: System, a: Action, c: nat, o: nat)
    requires c < |sys.calls| && Won(sys.calls[c], o)
    ensures c < |Apply(sys, a).calls| && Won(Apply(sys, a).calls[c], o)
  {
  }

  /** Every paid order was paid by one claim of the run, whose call is the winner and whose effect on the
      row still stands; and it was paid late if and only if it was stale when that claim ran. */
  lemma {:induction false} PaidLateExactly(now: int, actions: seq<Action>, o: nat) returns (k: nat)
    requires o < |Run(Initial(now), actions).db.orders| && Run(Initial(now), actions).db.orders[o].status.Paid?
    ensures k < |actions| && ClaimPays(Run(Initial(now), actions[..k]), actions[k], o)
    ensures var sys, claim := Run(Initial(now), actions), Run(Initial(now), actions[..k]);
      && sys.db.orders[o] == Claimed(claim.db.orders[o], claim.calls[actions[k].call].pc.tx, claim.db.now)
      && (PaidLate(sys.db.orders[o]) <==> Stale(claim.db.orders[o], claim.db.now))
      && actions[k].call < |sys.calls| && Won(sys.calls[actions[k].call], o)
    decreases |actions|
  {
    var n := |actions| - 1;
    var before, last := Run(Initial(now), actions[..n]), actions[n];
    if o < |before.db.orders| && before.db.orders[o].status.Paid? {
      k := PaidLateExactly(now, actions[..n], o);
      assert actions[..n][..k] == actions[..k];
      StepEvolves(before, last);
      WonStays(before, last, actions[k].call, o);
    } else {
      k := n;
      OnlyClaimsPay(before, last, o);
      ClaimStampsNow(before, last, o);
    }
  }

  // ---- a late payment ----

  function LateJob(): Job {
    Job(1, 1, 7, "bKash", "x", Inserts(Draft(1, "T1", 100, None, Credit, None), "p"))
  }

  const LATE_REQUEST := Request(1, "o", "T1")

  /** A payment is recorded and an order placed that expires at 5; the verification reads the order at 0
      and claims it at 6. */
  function LateSchedule(): seq<Action> {
    [BeginIngest(LateJob()), Advance(0, 0, NoFault), Advance(0, 0, NoFault), InsertOrder(1, "o", 100, Some(5)),
     BeginVerify(LATE_REQUEST), Advance(1, 0, NoFault), Advance(1, 0, NoFault), Tick(6), Advance(1, 0, NoFault)]
  }

  lemma PrefixRun(sys: System, actions: seq<Action>, k: nat)
    requires k < |actions|
    ensures Run(sys, actions[..k + 1]) == Apply(Run(sys, actions[..k]), actions[k])
  {
    assert actions[..k + 1][..k] == actions[..k];
  }

  /** After the ingest: one transaction, no order. */
  ghost predicate Recorded(sys: System) {
    && sys.db.now == 0 && sys.db.orders == [] && sys.db.points == [Drafted(LateJob(), 0, 0)]
    && |sys.calls| == 1
  }

  lemma LateIngest()
    ensures Recorded(Run(Initial(0), LateSchedule()[..3]))
  {
    var actions := LateSchedule();
    assert Run(Initial(0), actions[..0]) == Initial(0);
    PrefixRun(Initial(0), actions, 0);
    PrefixRun(Initial(0), actions, 1);
    PrefixRun(Initial(0), actions, 2);
    var s1 := Run(Initial(0), actions[..1]);
    assert s1.calls == [IngestCall(LateJob(), InsertRaw)] && s1.db == Initial(0).db;
    var s2 := Run(Initial(0), actions[..2]);
    assert s2.calls == [IngestCall(LateJob(), InsertTx(0))] && s2.db.points == [];
  }

  /** The order is placed and read, and the claim comes next. */
  ghost predicate AboutToClaim(sys: System, now: int) {
    && sys.db.now == now && sys.db.orders == [Order(1, "o", 100, Pending, None, Some(5), None)]
    && |sys.calls| == 2 && sys.calls[1] == VerifyCall(LATE_REQUEST, Claim(Snapshot(0, sys.db.orders[0], 0), 0, None))
  }

  lemma LateRead(s3: System)
    requires Recorded(s3)
    ensures var s4 := Apply(s3, InsertOrder(1, "o", 100, Some(5)));
      var s5 := Apply(s4, BeginVerify(LATE_REQUEST));
      AboutToClaim(Apply(Apply(s5, Advance(1, 0, NoFault)), Advance(1, 0, NoFault)), 0)
  {
    var order := Order(1, "o", 100, Pending, None, Some(5), None);
    var s4 := Apply(s3, InsertOrder(1, "o", 100, Some(5)));
    assert s4.db.orders == [order];
    var s5 := Apply(s4, BeginVerify(LATE_REQUEST));
    assert s5.calls[1] == VerifyCall(LATE_REQUEST, ReadOrder);
    var s6 := Apply(s5, Advance(1, 0, NoFault));
    assert FindOrder([order], 1, "o") == Some(0);
    assert s6.calls[1] == VerifyCall(LATE_REQUEST, FindTransaction(Snapshot(0, order, 0)));
    assert IsCandidate(s6.db.points, 1, "T1", 0);
    assert LatestCandidate(s6.db.points, 1, "T1", 0);
  }

  lemma LateClaim(sys: System)
    requires AboutToClaim(sys, 6)
    ensures var o := Apply(sys, Advance(1, 0, NoFault)).db.orders;
      |o| == 1 && o[0].status.Paid? && o[0].expiresAt == Some(5) && o[0].paidAt == Some(6)
  {
  }

  /** An order is paid after its expiry. */
  lemma OrderIsPaidLate()
    ensures var sys := Run(Initial(0), LateSchedule());
      Reachable(sys) && |sys.db.orders| == 1 && sys.db.orders[0].expiresAt == Some(5)
      && sys.db.orders[0].paidAt == Some(6)
      && PaidLate(sys.db.orders[0])
  {
    var actions := LateSchedule();
    LateIngest();
    var s3 := Run(Initial(0), actions[..3]);
    PrefixRun(Initial(0), actions, 3);
    PrefixRun(Initial(0), actions, 4);
    PrefixRun(Initial(0), actions, 5);
    PrefixRun(Initial(0), actions, 6);
    LateRead(s3);
    PrefixRun(Initial(0), actions, 7);
    PrefixRun(Initial(0), actions, 8);
    LateClaim(Run(Initial(0), actions[..8]));
    assert actions[..9] == actions;
  }
}
