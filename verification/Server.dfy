/** The database server: the tables as fields, one method per SQL statement. Between two statements
    of a request the rest of the world acts; `Interfere` lets a given list of actions happen. */
module Server {
  import opened Prelude
  import opened Tables
  import opened BalanceTrail
  import opened Ledger

  /** What happens before a statement of a request, and whether the statement fails. */
  datatype Turn = Turn(others: seq<Action>, fault: Fault)

  predicate Foreign(a: Action, me: nat) {
    a.Advance? ==> a.call != me
  }

  predicate AllForeign(actions: seq<Action>, me: nat) {
    forall k | 0 <= k < |actions| :: Foreign(actions[k], me)
  }

  lemma {:induction false} RunAppends(sys: System, first: seq<Action>, second: seq<Action>)
    ensures Run(sys, first + second) == Run(Run(sys, first), second)
    decreases |second|
  {
    if |second| == 0 {
      assert first + second == first;
    } else {
      RunAppends(sys, first, second[..|second| - 1]);
      assert (first + second)[..|first + second| - 1] == first + second[..|second| - 1];
    }
  }

  class Database {
    var now: int
    var points: seq<Point>
    var orders: seq<Order>
    var raws: seq<RawMessage>
    var attempts: seq<Attempt>
    var calls: seq<Call>

    function Tables(): Db
      reads this
    {
      Db(now, points, orders, raws, attempts)
    }

    function State(): System
      reads this
    {
      System(Tables(), calls)
    }

    constructor (clock: int)
      ensures State() == Initial(clock)
    {
      now, points, orders, raws, attempts, calls := clock, [], [], [], [], [];
    }

    method Become(next: System)
      modifies this
      ensures State() == next
    {
      now, points, orders := next.db.now, next.db.points, next.db.orders;
      raws, attempts, calls := next.db.raws, next.db.attempts, next.calls;
    }

    /** The actions of everyone else, in the given order. */
    method Interfere(others: seq<Action>, me: nat)
      requires me < |calls| && AllForeign(others, me)
      modifies this
      ensures State() == Run(old(State()), others)
      ensures me < |calls| && calls[me] == old(calls[me])
    {
      var i := 0;
      while i < |others|
        invariant 0 <= i <= |others|
        invariant State() == Run(old(State()), others[..i])
        invariant me < |calls| && calls[me] == old(calls[me])
      {
        assert Foreign(others[i], me);
        assert others[..i + 1][..i] == others[..i];
        Become(Apply(State(), others[i]));
        i := i + 1;
      }
      assert others[..i] == others;
    }

    method GetOrderByExternalID(business: nat, externalId: string) returns (r: Option<nat>)
      ensures r == FindOrder(orders, business, externalId)
    {
      var i := 0;
      while i < |orders|
        invariant 0 <= i <= |orders|
        invariant FindOrder(orders[..i], business, externalId).None?
      {
        assert orders[..i + 1][..i] == orders[..i];
        if HasKey(orders[i], business, externalId) {
          FirstKeyIsFound(orders, business, externalId, i, |orders|);
          assert orders[..|orders|] == orders;
          return Some(i);
        }
        i := i + 1;
      }
      assert orders[..i] == orders;
      return None;
    }

    /** ORDER BY received_at DESC LIMIT 1 over the transactions of a business with a TrxID. */
    method FindTransactionByTrxIDForBusiness(business: nat, trxId: string) returns (r: Option<nat>)
      ensures r.None? <==> !HasCandidate(points, business, trxId)
      ensures r.Some? ==> LatestCandidate(points, business, trxId, r.value)
    {
      r := None;
      for i := 0 to |points|
        invariant r.Some? ==> r.value < i && IsCandidate(points, business, trxId, r.value)
        invariant forall k :: 0 <= k < i && IsCandidate(points, business, trxId, k) ==>
          r.Some? && points[k].At() <= points[r.value].At()
      {
        if IsCandidate(points, business, trxId, i) && (r.None? || points[r.value].At() <= points[i].At()) {
          r := Some(i);
        }
      }
    }

    method GetLatestCalibrationAfter(tx: nat) returns (r: Option<nat>)
      requires tx < |points|
      ensures r.None? <==> !HasLaterCalibration(points, tx)
      ensures r.Some? ==> LatestCalibration(points, tx, r.value)
    {
      r := None;
      for i := 0 to |points|
        invariant r.Some? ==> r.value < i && IsLaterCalibration(points, tx, r.value)
        invariant forall k :: 0 <= k < i && IsLaterCalibration(points, tx, k) ==>
          r.Some? && points[k].At() <= points[r.value].At()
      {
        if IsLaterCalibration(points, tx, i) && (r.None? || points[r.value].At() <= points[i].At()) {
          r := Some(i);
        }
      }
    }

    method GetPreviousBalance(tx: nat) returns (r: Option<nat>)
      requires tx < |points|
      ensures r.None? <==> !HasPrevious(points, tx)
      ensures r.Some? ==> LatestPrevious(points, tx, r.value)
    {
      r := None;
      for i := 0 to |points|
        invariant r.Some? ==> r.value < i && IsPrevious(points, tx, r.value)
        invariant forall k :: 0 <= k < i && IsPrevious(points, tx, k) ==>
          r.Some? && points[k].At() <= points[r.value].At()
      {
        if IsPrevious(points, tx, i) && (r.None? || points[r.value].At() <= points[i].At()) {
          r := Some(i);
        }
      }
    }

    method CountTransactionsAfter(tx: nat) returns (n: nat)
      requires tx < |points|
      ensures n == |set k: nat | k < |points| && IsLaterTransaction(points, tx, k)|
      ensures n == 0 <==> !HasLaterTransaction(points, tx)
    {
      n := 0;
      ghost var counted: set<nat> := {};
      for i := 0 to |points|
        invariant counted == set k: nat | k < i && IsLaterTransaction(points, tx, k)
        invariant n == |counted|
      {
        if IsLaterTransaction(points, tx, i) {
          n := n + 1;
          counted := counted + {i};
        }
      }
      if k: nat :| k < |points| && IsLaterTransaction(points, tx, k) {
        assert k in counted;
      }
    }

    /** The conditional update: whether a row was selected, and whether the index refused it. */
    method ClaimTransactionForOrder(order: nat, tx: nat, business: nat) returns (selected: bool, refused: bool)
      modifies this`orders
      ensures selected == Claimable(old(orders), order, business)
      ensures refused == (selected && Taken(old(orders), tx))
      ensures orders == if selected && !refused then old(orders)[order := Claimed(old(orders)[order], tx, now)]
                        else old(orders)
    {
      selected := Claimable(orders, order, business);
      refused := false;
      if selected {
        for i := 0 to |orders|
          invariant orders == old(orders)
          invariant refused <==> exists k | 0 <= k < i :: orders[k].matched == Some(tx)
        {
          if orders[i].matched == Some(tx) {
            refused := true;
          }
        }
        if !refused {
          orders := orders[order := Claimed(orders[order], tx, now)];
        }
      }
    }
  }

  lemma {:induction false} FirstKeyIsFound(orders: seq<Order>, business: nat, externalId: string, i: nat, n: nat)
    requires i < n <= |orders|
    requires FindOrder(orders[..i], business, externalId).None?
    requires HasKey(orders[i], business, externalId)
    ensures FindOrder(orders[..n], business, externalId) == Some(i)
    decreases n
  {
    assert orders[..n][..n - 1] == orders[..n - 1];
    if i < n - 1 {
      FirstKeyIsFound(orders, business, externalId, i, n - 1);
    }
  }
}
