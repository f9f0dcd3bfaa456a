/** The life of an order row: exactly what changes it and how, for one action and over whole runs. */
module OrderLife {
  import opened Prelude
  import opened Tables
  import opened Ledger
  import opened LedgerSafety

  /** The sweep takes pending orders whose expiry has passed. */
  predicate Sweeps(row: Order, now: int) {
    row.status == Pending && row.expiresAt.Some? && row.expiresAt.value < now
  }

  /** The cancellation of this order by its business. */
  predicate Cancels(a: Action, o: nat, row: Order) {
    a.CancelOrder? && a.order == o && a.business == row.business && row.status == Pending
  }

  /** The claim of this order by a verification of its business, with a transaction that no order has. */
  predicate Wins(sys: System, a: Action, o: nat)
    requires o < |sys.db.orders|
  {
    && a.Advance? && a.fault != Lost && a.call < |sys.calls| && sys.calls[a.call].VerifyCall?
    && sys.calls[a.call].pc.Claim? && sys.calls[a.call].pc.snap.id == o
    && sys.db.orders[o].business == sys.calls[a.call].req.business
    && sys.db.orders[o].status == Pending && sys.db.orders[o].matched == None
    && forall p | 0 <= p < |sys.db.orders| :: sys.db.orders[p].matched != Some(sys.calls[a.call].pc.tx)
  }

  /** What one action makes of a row. */
  function ChangedRow(sys: System, a: Action, o: nat): Order
    requires o < |sys.db.orders|
  {
    var row := sys.db.orders[o];
    if a == ExpireStaleOrders && Sweeps(row, sys.db.now) then row.(status := Expired)
    else if Cancels(a, o, row) then row.(status := Cancelled)
    else if Wins(sys, a, o) then
      row.(status := Paid, matched := Some(sys.calls[a.call].pc.tx), paidAt := Some(sys.db.now))
    else row
  }

  /** A row changes exactly by the sweep once its expiry has passed, by the cancellation of its business
      and by a claim that wins, in each case while it is pending; by nothing else, and in nothing else. */
  lemma RowChangesExactly(sys: System, a: Action, o: nat)
    requires o < |sys.db.orders|
    ensures o < |Apply(sys, a).db.orders| && Apply(sys, a).db.orders[o] == ChangedRow(sys, a, o)
  {
    match a
    case Advance(c, pick, fault) =>
      if c < |sys.calls| && sys.calls[c].VerifyCall? {
        var call := sys.calls[c];
        if call.pc.Claim? {
          ClaimChanges(sys, a, o);
        } else {
          UnclaimedStepReads(sys.db, call.req, call.pc, pick, fault);
        }
      }
    case _ =>
  }

  lemma ClaimChanges(sys: System, a: Action, o: nat)
    requires o < |sys.db.orders| && a.Advance? && a.call < |sys.calls|
    requires sys.calls[a.call].VerifyCall? && sys.calls[a.call].pc.Claim?
    ensures o < |Apply(sys, a).db.orders| && Apply(sys, a).db.orders[o] == ChangedRow(sys, a, o)
  {
    var pc := sys.calls[a.call].pc;
    var orders := sys.db.orders;
    assert Taken(orders, pc.tx) <==> exists p | 0 <= p < |orders| :: orders[p].matched == Some(pc.tx);
  }

  /** A row is added exactly by an order of a positive amount that the column can hold, under a key that is
      free, and starts as such an order does. */
  lemma RowsAddedExactly(sys: System, a: Action)
    ensures var orders, after := sys.db.orders, Apply(sys, a).db.orders;
      if a.InsertOrder? && 0 < a.expected < 1_000_000_000_000
         && forall p | 0 <= p < |orders| :: orders[p].business != a.business || orders[p].externalId != a.externalId
      then
        && |after| == |orders| + 1
        && after[|orders|] == Order(a.business, a.externalId, a.expected, Pending, None, a.expiresAt, None)
      else |after| == |orders|
  {
    match a
    case InsertOrder(business, externalId, expected, _) =>
      var found := FindOrder(sys.db.orders, business, externalId);
      assert found.Some? ==> HasKey(sys.db.orders[found.value], business, externalId);
      assert found.None? ==> forall p | 0 <= p < |sys.db.orders| :: !HasKey(sys.db.orders[p], business, externalId);
    case Advance(c, pick, fault) =>
      if c < |sys.calls| && sys.calls[c].VerifyCall? && !sys.calls[c].pc.Claim? {
        UnclaimedStepReads(sys.db, sys.calls[c].req, sys.calls[c].pc, pick, fault);
      }
    case _ =>
  }

  // ---- over runs ----

  /** The action by which order `o` got the status it has now. */
  ghost predicate SettledBy(before: System, a: Action, o: nat, row: Order) {
    && o < |before.db.orders| && before.db.orders[o].status == Pending
    && match row.status
       case Pending => false
       case Paid => Wins(before, a, o)
       case Expired => a == ExpireStaleOrders && Sweeps(before.db.orders[o], before.db.now)
       case Cancelled => a == CancelOrder(o, row.business)
  }

  /** Every order that is not pending was settled by one action of the run: a paid one by a winning claim,
      an expired one by a sweep after its expiry, a cancelled one by its business. */
  lemma {:induction false} SettledOnce(now: int, actions: seq<Action>, o: nat) returns (k: nat)
    requires o < |Run(Initial(now), actions).db.orders| && Run(Initial(now), actions).db.orders[o].status != Pending
    ensures k < |actions|
    ensures SettledBy(Run(Initial(now), actions[..k]), actions[k], o, Run(Initial(now), actions).db.orders[o])
    decreases |actions|
  {
    var n := |actions| - 1;
    var before, last := Run(Initial(now), actions[..n]), actions[n];
    if o < |before.db.orders| {
      RowChangesExactly(before, last, o);
      if before.db.orders[o].status != Pending {
        k := SettledOnce(now, actions[..n], o);
        assert actions[..n][..k] == actions[..k];
      } else {
        k := n;
      }
    } else {
      RowsAddedExactly(before, last);
    }
  }

  lemma {:induction false} ClockGoesOn(sys: System, actions: seq<Action>)
    ensures sys.db.now <= Run(sys, actions).db.now
    decreases |actions|
  {
    if |actions| > 0 {
      ClockGoesOn(sys, actions[..|actions| - 1]);
      StepEvolves(Run(sys, actions[..|actions| - 1]), actions[|actions| - 1]);
    }
  }

  /** An expired order has an expiry, and it has passed. */
  lemma {:induction false} ExpiredIsPast(now: int, actions: seq<Action>, o: nat)
    requires o < |Run(Initial(now), actions).db.orders| && Run(Initial(now), actions).db.orders[o].status == Expired
    ensures var sys := Run(Initial(now), actions);
      sys.db.orders[o].expiresAt.Some? && sys.db.orders[o].expiresAt.value < sys.db.now
    decreases |actions|
  {
    var n := |actions| - 1;
    var before, last := Run(Initial(now), actions[..n]), actions[n];
    StepEvolves(before, last);
    if o < |before.db.orders| {
      RowChangesExactly(before, last, o);
      if before.db.orders[o].status == Expired {
        ExpiredIsPast(now, actions[..n], o);
      }
    } else {
      RowsAddedExactly(before, last);
    }
  }
}
