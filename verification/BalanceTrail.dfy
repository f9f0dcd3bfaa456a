/** The balance check of `Verify`: which verdicts the three balance queries can give for a
    transaction, when the verdict is settled, and what it says about an honest account.

    ORDER BY ... LIMIT 1 does not say which of two rows with the same time comes first, so every
    query is a relation, and every statement below holds whichever row the database picks. */
module BalanceTrail {
  import opened Prelude
  import opened Tables

  // ---- the queries ----

  /** Rows GetPreviousBalance ranges over for transaction `i`. */
  predicate IsPrevious(points: seq<Point>, i: nat, j: int)
    requires i < |points|
  {
    && 0 <= j < |points|
    && j != i
    && SameTrail(points[i], points[j])
    && points[j].Stated().Some?
    && points[j].At() < points[i].At()
  }

  predicate LatestPrevious(points: seq<Point>, i: nat, j: int)
    requires i < |points|
  {
    IsPrevious(points, i, j)
    && forall k | 0 <= k < |points| && IsPrevious(points, i, k) :: points[k].At() <= points[j].At()
  }

  /** Rows GetLatestCalibrationAfter ranges over: calibrations at the transaction's time or later. */
  predicate IsLaterCalibration(points: seq<Point>, i: nat, c: int)
    requires i < |points|
  {
    && 0 <= c < |points|
    && points[c].Calibration?
    && SameTrail(points[i], points[c])
    && points[i].At() <= points[c].At()
  }

  predicate LatestCalibration(points: seq<Point>, i: nat, c: int)
    requires i < |points|
  {
    IsLaterCalibration(points, i, c)
    && forall k | 0 <= k < |points| && IsLaterCalibration(points, i, k) :: points[k].At() <= points[c].At()
  }

  /** Rows CountTransactionsAfter counts. */
  predicate IsLaterTransaction(points: seq<Point>, i: nat, k: int)
    requires i < |points|
  {
    && 0 <= k < |points|
    && k != i
    && points[k].Tx?
    && SameTrail(points[i], points[k])
    && points[i].At() <= points[k].At()
  }

  predicate HasPrevious(points: seq<Point>, i: nat)
    requires i < |points|
  {
    exists j | 0 <= j < |points| :: IsPrevious(points, i, j)
  }

  predicate HasLaterCalibration(points: seq<Point>, i: nat)
    requires i < |points|
  {
    exists c | 0 <= c < |points| :: IsLaterCalibration(points, i, c)
  }

  predicate HasLaterTransaction(points: seq<Point>, i: nat)
    requires i < |points|
  {
    exists k | 0 <= k < |points| :: IsLaterTransaction(points, i, k)
  }

  /** What the latest-calibration query may return. */
  ghost predicate ReadsCalibration(points: seq<Point>, i: nat, r: Option<Money>)
    requires i < |points|
  {
    if r.Some? then exists c :: LatestCalibration(points, i, c) && points[c].balance == r.value
    else !HasLaterCalibration(points, i)
  }

  /** What the previous-balance query may return. */
  ghost predicate ReadsPrevious(points: seq<Point>, i: nat, r: Option<Money>)
    requires i < |points|
  {
    if r.Some? then exists j :: LatestPrevious(points, i, j) && points[j].Stated() == r
    else !HasPrevious(points, i)
  }

  // ---- the verdict ----

  predicate Judged(points: seq<Point>, i: nat) {
    i < |points| && points[i].Tx? && points[i].tx.balanceAfter.Some?
  }

  /** Comparison with a calibration, and with the previous balance moved by the amount. */
  function ByCalibration(tx: Transaction, calibrated: Money): Option<bool>
    requires tx.balanceAfter.Some?
  {
    Some(calibrated == tx.balanceAfter.value)
  }

  function ByPrevious(tx: Transaction, previous: Option<Money>): Option<bool>
    requires tx.balanceAfter.Some?
  {
    if previous.Some? then Some(previous.value + tx.Delta() == tx.balanceAfter.value) else None
  }

  /** The verdicts the check can reach when nothing happens between its queries. */
  ghost predicate CanJudge(points: seq<Point>, i: nat, v: Option<bool>)
    requires Judged(points, i)
  {
    if HasLaterCalibration(points, i) && !HasLaterTransaction(points, i) then
      exists b :: ReadsCalibration(points, i, Some(b)) && v == ByCalibration(points[i].tx, b)
    else
      CanJudgeByPrevious(points, i, v)
  }

  ghost predicate CanJudgeByPrevious(points: seq<Point>, i: nat, v: Option<bool>)
    requires Judged(points, i)
  {
    exists r :: ReadsPrevious(points, i, r) && v == ByPrevious(points[i].tx, r)
  }

  // ---- the queries always answer ----

  lemma LatestPreviousExists(points: seq<Point>, i: nat, n: nat) returns (j: nat)
    requires i < |points| && n <= |points|
    requires exists k: nat :: k < n && IsPrevious(points, i, k)
    ensures j < n && IsPrevious(points, i, j)
    ensures forall k: nat :: k < n && IsPrevious(points, i, k) ==> points[k].At() <= points[j].At()
  {
    if exists k: nat :: k < n && k != n - 1 && IsPrevious(points, i, k) {
      j := LatestPreviousExists(points, i, n - 1);
      if IsPrevious(points, i, n - 1) && points[j].At() < points[n - 1].At() {
        j := n - 1;
      }
    } else {
      j := n - 1;
    }
  }

  lemma LatestCalibrationExists(points: seq<Point>, i: nat, n: nat) returns (c: nat)
    requires i < |points| && n <= |points|
    requires exists k: nat :: k < n && IsLaterCalibration(points, i, k)
    ensures c < n && IsLaterCalibration(points, i, c)
    ensures forall k: nat :: k < n && IsLaterCalibration(points, i, k) ==> points[k].At() <= points[c].At()
  {
    if exists k: nat :: k < n && k != n - 1 && IsLaterCalibration(points, i, k) {
      c := LatestCalibrationExists(points, i, n - 1);
      if IsLaterCalibration(points, i, n - 1) && points[c].At() < points[n - 1].At() {
        c := n - 1;
      }
    } else {
      c := n - 1;
    }
  }

  /** Every transaction with a stated balance gets some verdict. */
  lemma SomeVerdict(points: seq<Point>, i: nat) returns (v: Option<bool>)
    requires Judged(points, i)
    ensures CanJudge(points, i, v)
  {
    if HasLaterCalibration(points, i) && !HasLaterTransaction(points, i) {
      var c := LatestCalibrationExists(points, i, |points|);
      assert LatestCalibration(points, i, c);
      assert ReadsCalibration(points, i, Some(points[c].balance));
      v := ByCalibration(points[i].tx, points[c].balance);
    } else if HasPrevious(points, i) {
      var j := LatestPreviousExists(points, i, |points|);
      assert LatestPrevious(points, i, j);
      assert ReadsPrevious(points, i, points[j].Stated());
      v := ByPrevious(points[i].tx, points[j].Stated());
    } else {
      assert ReadsPrevious(points, i, None);
      v := None;
    }
  }

  // ---- finality ----

  /** The previous balance of a recorded transaction is fixed: rows inserted later, on whatever
      trail, never change what the query may return for it. */
  lemma PreviousIsFixed(points: seq<Point>, more: seq<Point>, i: nat, r: Option<Money>)
    requires i < |points|
    requires Chronological(points + more)
    ensures ReadsPrevious(points + more, i, r) <==> ReadsPrevious(points, i, r)
  {
    var all := points + more;
    forall k ensures IsPrevious(all, i, k) <==> IsPrevious(points, i, k) {
      if |points| <= k < |all| {
        assert all[i].At() <= all[k].At();
      }
    }
    forall k ensures LatestPrevious(all, i, k) <==> LatestPrevious(points, i, k) {}
  }

  /** Once a later transaction stands on the trail, the verdict never changes again. */
  lemma VerdictIsFinal(points: seq<Point>, more: seq<Point>, i: nat, v: Option<bool>)
    requires Judged(points, i) && Chronological(points + more)
    requires HasLaterTransaction(points, i)
    ensures CanJudge(points + more, i, v) <==> CanJudge(points, i, v)
  {
    var all := points + more;
    var k :| 0 <= k < |points| && IsLaterTransaction(points, i, k);
    assert IsLaterTransaction(all, i, k);
    forall r ensures ReadsPrevious(all, i, r) <==> ReadsPrevious(points, i, r) {
      PreviousIsFixed(points, more, i, r);
    }
  }

  /** Before that, only a row of the same trail can change it. */
  lemma VerdictIgnoresOtherTrails(points: seq<Point>, more: seq<Point>, i: nat, v: Option<bool>)
    requires Judged(points, i)
    requires forall k :: 0 <= k < |more| ==> !SameTrail(points[i], more[k])
    ensures CanJudge(points + more, i, v) <==> CanJudge(points, i, v)
  {
    var all := points + more;
    forall k
      ensures IsPrevious(all, i, k) <==> IsPrevious(points, i, k)
      ensures IsLaterCalibration(all, i, k) <==> IsLaterCalibration(points, i, k)
      ensures IsLaterTransaction(all, i, k) <==> IsLaterTransaction(points, i, k)
    {}
    forall k
      ensures LatestPrevious(all, i, k) <==> LatestPrevious(points, i, k)
      ensures LatestCalibration(all, i, k) <==> LatestCalibration(points, i, k)
    {}
    forall r
      ensures ReadsPrevious(all, i, r) <==> ReadsPrevious(points, i, r)
      ensures ReadsCalibration(all, i, r) <==> ReadsCalibration(points, i, r)
    {}
  }

  lemma LaterTransactionStays(points: seq<Point>, m1: nat, m2: nat, i: nat)
    requires i < m1 <= m2 <= |points|
    ensures HasLaterTransaction(points[..m1], i) ==> HasLaterTransaction(points[..m2], i)
  {
    forall k | 0 <= k < m1 && IsLaterTransaction(points[..m1], i, k) ensures IsLaterTransaction(points[..m2], i, k) {}
  }

  /** The three queries of one Verify run at three moments, with anything inserted in between. The
      verdict is still one that the check could have reached at a single moment: that of the first
      query, or that of the second. */
  lemma VerdictLinearizes(points: seq<Point>, m1: nat, m2: nat, i: nat,
                          calibrated: Option<Money>, previous: Option<Money>, v: Option<bool>)
    requires Chronological(points) && m1 <= m2 <= |points|
    requires Judged(points[..m1], i)
    requires ReadsCalibration(points[..m1], i, calibrated)
    requires
      if calibrated.Some? && !HasLaterTransaction(points[..m2], i)
      then v == ByCalibration(points[i].tx, calibrated.value)
      else ReadsPrevious(points, i, previous) && v == ByPrevious(points[i].tx, previous)
    ensures CanJudge(points[..m1], i, v) || CanJudge(points[..m2], i, v)
  {
    var first, second := points[..m1], points[..m2];
    LaterTransactionStays(points, m1, m2, i);
    if !(calibrated.Some? && !HasLaterTransaction(second, i)) {
      assert first + points[m1..] == points == second + points[m2..];
      PreviousIsFixed(first, points[m1..], i, previous);
      PreviousIsFixed(second, points[m2..], i, previous);
    }
  }

  /** A stuck transaction, with none recorded after it, is rescued by a calibration that confirms
      the balance it states, and rejected by one that does not. */
  lemma CalibrationDecides(points: seq<Point>, i: nat, calibration: Point, v: Option<bool>)
    requires Judged(points, i) && Chronological(points + [calibration])
    requires calibration.Calibration? && SameTrail(points[i], calibration)
    requires !HasLaterTransaction(points, i)
    requires forall k :: IsLaterCalibration(points, i, k) ==> points[k].At() < calibration.at
    ensures CanJudge(points + [calibration], i, v)
            <==> v == Some(calibration.balance == points[i].tx.balanceAfter.value)
  {
    var all := points + [calibration];
    var c := |points|;
    assert all[i].At() <= all[c].At();
    assert IsLaterCalibration(all, i, c);
    forall k | IsLaterCalibration(all, i, k) ensures k == c || all[k].At() < all[c].At() {
      if k < c {
        assert IsLaterCalibration(points, i, k);
      }
    }
    assert LatestCalibration(all, i, c);
    forall k ensures IsLaterTransaction(all, i, k) <==> IsLaterTransaction(points, i, k) {}
    assert ReadsCalibration(all, i, Some(calibration.balance));
  }

  /** The verdicts, by rows and raw amounts. With a calibration after a transaction that is the last of its
      trail, the newest calibrations decide by equality; otherwise the newest earlier balances do, moved
      by the raw amount, up for a credit and down for a debit; with none of them there is no verdict. */
  lemma VerdictExactly(points: seq<Point>, i: nat, v: Option<bool>)
    requires Judged(points, i)
    ensures var tx := points[i].tx;
      var after := tx.balanceAfter.value;
      var raw := if tx.direction.Credit? then tx.amount else 0 - tx.amount;
      CanJudge(points, i, v) <==>
        if HasLaterCalibration(points, i) && !HasLaterTransaction(points, i) then
          exists c :: LatestCalibration(points, i, c) && v == Some(points[c].balance == after)
        else if HasPrevious(points, i) then
          exists j :: LatestPrevious(points, i, j) && v == Some(after == points[j].Stated().value + raw)
        else v == None
  {
    if HasLaterCalibration(points, i) && !HasLaterTransaction(points, i) {
      forall c | LatestCalibration(points, i, c) ensures ReadsCalibration(points, i, Some(points[c].balance)) {}
    } else if HasPrevious(points, i) {
      forall j | LatestPrevious(points, i, j) ensures ReadsPrevious(points, i, points[j].Stated()) {}
    } else {
      assert ReadsPrevious(points, i, None);
    }
  }

  /** The same row but for the amount that a script set. */
  predicate SameButScript(p: Point, q: Point) {
    if p.Tx? then q.Tx? && q.tx == p.tx.(effective := q.tx.effective) else q == p
  }

  /** What scripts say about amounts has no part in any verdict. */
  lemma ScriptsDoNotMatter(points: seq<Point>, points': seq<Point>, i: nat, v: Option<bool>)
    requires Judged(points, i) && |points'| == |points|
    requires forall k :: 0 <= k < |points| ==> SameButScript(points[k], points'[k])
    ensures Judged(points', i) && (CanJudge(points, i, v) <==> CanJudge(points', i, v))
  {
    assert SameButScript(points[i], points'[i]);
    forall j ensures IsPrevious(points, i, j) <==> IsPrevious(points', i, j) {}
    forall j ensures IsLaterCalibration(points, i, j) <==> IsLaterCalibration(points', i, j) {}
    forall j ensures IsLaterTransaction(points, i, j) <==> IsLaterTransaction(points', i, j) {}
    forall j ensures LatestPrevious(points, i, j) <==> LatestPrevious(points', i, j) {}
    forall j ensures LatestCalibration(points, i, j) <==> LatestCalibration(points', i, j) {}
    VerdictExactly(points, i, v);
    VerdictExactly(points', i, v);
  }

  // ---- honest accounts ----

  predicate OnTrail(p: Point, device: nat, provider: nat) {
    p.Device() == device && p.Provider() == provider
  }

  /** What a row does to the account: its raw amount in or out; a calibration does nothing. */
  function Movement(p: Point): Money {
    match p
    case Calibration(_, _, _, _) => 0
    case Tx(tx) => if tx.direction.Credit? then tx.amount else 0 - tx.amount
  }

  /** Net movement recorded on a trail by the rows at positions `lo` to `hi - 1`. */
  function Net(points: seq<Point>, device: nat, provider: nat, lo: nat, hi: nat): Money
    requires lo <= hi <= |points|
    decreases hi
  {
    if lo == hi then 0
    else Net(points, device, provider, lo, hi - 1)
         + if OnTrail(points[hi - 1], device, provider) then Movement(points[hi - 1]) else 0
  }

  /** The account opened with `opening`; every movement was recorded, in order, with its raw amount;
      and every balance that a movement or a calibration states is the one that the movements recorded
      so far led to, so no calibration falls between a movement and its recording. */
  ghost predicate Honest(points: seq<Point>, device: nat, provider: nat, opening: Money) {
    forall k :: 0 <= k < |points| && OnTrail(points[k], device, provider) && points[k].Stated().Some? ==>
      points[k].Stated().value == opening + Net(points, device, provider, 0, k + 1)
  }

  /** No row of the trail leaves its balance out. */
  ghost predicate AllStated(points: seq<Point>, device: nat, provider: nat) {
    forall k :: 0 <= k < |points| && OnTrail(points[k], device, provider) ==> points[k].Stated().Some?
  }

  lemma {:induction false} NetSplits(points: seq<Point>, device: nat, provider: nat, lo: nat, mid: nat, hi: nat)
    requires lo <= mid <= hi <= |points|
    ensures Net(points, device, provider, lo, hi)
            == Net(points, device, provider, lo, mid) + Net(points, device, provider, mid, hi)
    decreases hi
  {
    if mid < hi {
      NetSplits(points, device, provider, lo, mid, hi - 1);
    }
  }

  /** Row `j` is the reason an honest transaction `i` can be rejected: it is what a balance query
      picks, yet movements lie between it and the transaction, or the transaction itself does. */
  ghost predicate Misleads(points: seq<Point>, i: nat, j: nat)
    requires Judged(points, i)
  {
    var d, p := points[i].Device(), points[i].Provider();
    if HasLaterCalibration(points, i) && !HasLaterTransaction(points, i) then
      LatestCalibration(points, i, j) && j < i && Net(points, d, p, j + 1, i + 1) != 0
    else
      LatestPrevious(points, i, j) && j < i && Net(points, d, p, j + 1, i) != 0
  }

  lemma HonestByCalibration(points: seq<Point>, i: nat, c: nat, opening: Money)
    requires Judged(points, i) && Chronological(points)
    requires Honest(points, points[i].Device(), points[i].Provider(), opening)
    requires LatestCalibration(points, i, c) && !HasLaterTransaction(points, i)
    ensures points[c].balance != points[i].tx.balanceAfter.value
            <==> c < i && Net(points, points[i].Device(), points[i].Provider(), c + 1, i + 1) != 0
  {
    var d, p := points[i].Device(), points[i].Provider();
    if c < i {
      NetSplits(points, d, p, 0, c + 1, i + 1);
    } else {
      NothingRecordedAfter(points, i, c + 1);
      NetSplits(points, d, p, 0, i + 1, c + 1);
    }
  }

  lemma HonestByPrevious(points: seq<Point>, i: nat, j: nat, opening: Money)
    requires Judged(points, i) && Chronological(points)
    requires Honest(points, points[i].Device(), points[i].Provider(), opening)
    requires LatestPrevious(points, i, j)
    ensures j < i
    ensures points[j].Stated().value + Movement(points[i]) != points[i].tx.balanceAfter.value
            <==> Net(points, points[i].Device(), points[i].Provider(), j + 1, i) != 0
  {
    NetSplits(points, points[i].Device(), points[i].Provider(), 0, j + 1, i);
  }

  /** On an honest account a transaction can be rejected exactly when a query picks a row with a
      nonzero net movement between it and the transaction. */
  lemma HonestRejectionExact(points: seq<Point>, i: nat, opening: Money)
    requires Judged(points, i) && Chronological(points)
    requires Honest(points, points[i].Device(), points[i].Provider(), opening)
    ensures CanJudge(points, i, Some(false)) <==> exists j: nat :: Misleads(points, i, j)
  {
    if HasLaterCalibration(points, i) && !HasLaterTransaction(points, i) {
      forall c: nat | LatestCalibration(points, i, c)
        ensures points[c].balance != points[i].tx.balanceAfter.value <==> Misleads(points, i, c)
      {
        HonestByCalibration(points, i, c, opening);
      }
    } else {
      forall j: nat | LatestPrevious(points, i, j)
        ensures points[j].Stated().value + Movement(points[i]) != points[i].tx.balanceAfter.value
            <==> Misleads(points, i, j)
        ensures ReadsPrevious(points, i, points[j].Stated())
      {
        HonestByPrevious(points, i, j, opening);
      }
      if CanJudgeByPrevious(points, i, Some(false)) {
        var r :| ReadsPrevious(points, i, r) && Some(false) == ByPrevious(points[i].tx, r);
        var j: nat :| LatestPrevious(points, i, j) && points[j].Stated() == r;
        assert Misleads(points, i, j);
      }
      forall j: nat | Misleads(points, i, j) ensures CanJudgeByPrevious(points, i, Some(false)) {
        assert Some(false) == ByPrevious(points[i].tx, points[j].Stated());
      }
    }
  }

  lemma {:induction false} NothingRecordedAfter(points: seq<Point>, i: nat, hi: nat)
    requires Judged(points, i) && Chronological(points) && i < hi <= |points|
    requires !HasLaterTransaction(points, i)
    ensures Net(points, points[i].Device(), points[i].Provider(), i + 1, hi) == 0
    decreases hi
  {
    if i + 1 < hi {
      NothingRecordedAfter(points, i, hi - 1);
      assert points[i].At() <= points[hi - 1].At();
      assert !IsLaterTransaction(points, i, hi - 1);
    }
  }

  /** No two rows of the trail share a time. */
  ghost predicate DistinctTimes(points: seq<Point>, device: nat, provider: nat) {
    forall j, k |
      0 <= j < k < |points| && OnTrail(points[j], device, provider) && OnTrail(points[k], device, provider) ::
      points[j].At() < points[k].At()
  }

  /** All movements of the trail state their balances, at distinct times. */
  ghost predicate Regular(points: seq<Point>, device: nat, provider: nat) {
    AllStated(points, device, provider) && DistinctTimes(points, device, provider)
  }

  /** Honest trails without silent rows and equal times are never rejected: whatever else is in the
      tables, however credits, debits and calibrations are mixed, and whenever the check runs. */
  lemma HonestNeverRejected(points: seq<Point>, i: nat, opening: Money)
    requires Judged(points, i) && Chronological(points)
    requires Honest(points, points[i].Device(), points[i].Provider(), opening)
    requires Regular(points, points[i].Device(), points[i].Provider())
    ensures !CanJudge(points, i, Some(false))
  {
    var d, p := points[i].Device(), points[i].Provider();
    HonestRejectionExact(points, i, opening);
    forall j: nat ensures !Misleads(points, i, j) {
      if LatestPrevious(points, i, j) && j < i {
        QuietBetween(points, i, j, i);
      }
    }
  }

  lemma {:induction false} QuietBetween(points: seq<Point>, i: nat, j: nat, hi: nat)
    requires i < |points| && LatestPrevious(points, i, j) && j < hi <= i
    requires DistinctTimes(points, points[i].Device(), points[i].Provider())
    requires AllStated(points, points[i].Device(), points[i].Provider())
    ensures Net(points, points[i].Device(), points[i].Provider(), j + 1, hi) == 0
    decreases hi
  {
    if j + 1 < hi {
      QuietBetween(points, i, j, hi - 1);
      assert !IsPrevious(points, i, hi - 1);
    }
  }

  function Deposit(amount: Money, after: Money, at: int): Point {
    Tx(Transaction(0, "TRX", 0, 0, 0, amount, Some(after), Credit, None, at))
  }

  /** Three deposits of 1.00, the last two recorded at the same instant. */
  function SameInstant(): seq<Point> {
    [Deposit(100, 100, 1), Deposit(100, 200, 2), Deposit(100, 300, 2)]
  }

  /** Two honest movements recorded at the same instant: the second is rejected, because the
      previous-balance query only looks strictly earlier. */
  lemma SameInstantRejects()
    ensures Judged(SameInstant(), 2) && Chronological(SameInstant()) && Honest(SameInstant(), 0, 0, 0)
    ensures CanJudge(SameInstant(), 2, Some(false))
  {
    var points := SameInstant();
    assert Net(points, 0, 0, 0, 1) == 100;
    assert Net(points, 0, 0, 0, 2) == 200;
    assert Net(points, 0, 0, 0, 3) == 300;
    assert LatestPrevious(points, 2, 0);
    assert ReadsPrevious(points, 2, Some(100));
    forall c: nat ensures !IsLaterCalibration(points, 2, c) {}
    assert CanJudgeByPrevious(points, 2, Some(false));
  }

  /** Three deposits at distinct times; the message about the second states no balance. */
  function SilentMovement(): seq<Point> {
    var silent := Tx(Transaction(0, "TRX", 0, 0, 0, 100, None, Credit, None, 2));
    [Deposit(100, 100, 1), silent, Deposit(100, 300, 3)]
  }

  /** After an honest movement that states no balance, the next that states one is rejected: the
      previous-balance query passes over the silent row. */
  lemma SilentMovementRejects()
    ensures Judged(SilentMovement(), 2) && Chronological(SilentMovement()) && Honest(SilentMovement(), 0, 0, 0)
    ensures DistinctTimes(SilentMovement(), 0, 0)
    ensures CanJudge(SilentMovement(), 2, Some(false))
  {
    var points := SilentMovement();
    assert Net(points, 0, 0, 0, 1) == 100;
    assert Net(points, 0, 0, 0, 2) == 200;
    assert Net(points, 0, 0, 0, 3) == 300;
    assert LatestPrevious(points, 2, 0);
    assert ReadsPrevious(points, 2, Some(100));
    forall c: nat ensures !IsLaterCalibration(points, 2, c) {}
    assert CanJudgeByPrevious(points, 2, Some(false));
  }

  /** Every transaction of the stretch states a balance, confirmed by the one before; no calibration
      lies in it. */
  ghost predicate Confirmed(points: seq<Point>, anchor: nat, last: nat)
    requires anchor <= last < |points|
  {
    forall k :: anchor < k <= last && SameTrail(points[anchor], points[k]) ==>
      Judged(points, k) && CanJudgeByPrevious(points, k, Some(true))
  }

  /** Telescoping: along a stretch of a trail without calibrations where every transaction states a
      balance and every previous-balance verdict is `true`, the last stated balance is the anchor
      plus all credits minus all debits. */
  lemma {:induction false} Telescopes(points: seq<Point>, anchor: nat, last: nat)
    requires anchor <= last < |points| && SameTrail(points[anchor], points[last])
    requires points[anchor].Stated().Some?
    requires DistinctTimes(points, points[anchor].Device(), points[anchor].Provider())
    requires Confirmed(points, anchor, last)
    ensures points[last].Stated()
            == Some(points[anchor].Stated().value
                    + Net(points, points[anchor].Device(), points[anchor].Provider(), anchor + 1, last + 1))
    decreases last
  {
    if anchor < last {
      var j := StepBack(points, anchor, last);
      ConfirmedAreJudged(points, anchor, last);
      Telescopes(points, anchor, j);
      TelescopeStep(points, anchor, last, j);
    }
  }

  /** No calibration lies in the stretch, and no transaction without a balance. */
  ghost predicate AllJudged(points: seq<Point>, anchor: nat, last: nat)
    requires anchor <= last < |points|
  {
    forall k: nat :: anchor < k <= last && SameTrail(points[last], points[k]) ==> Judged(points, k)
  }

  lemma ConfirmedAreJudged(points: seq<Point>, anchor: nat, last: nat)
    requires anchor <= last < |points| && SameTrail(points[anchor], points[last]) && Confirmed(points, anchor, last)
    ensures AllJudged(points, anchor, last)
  {
  }

  lemma StepBack(points: seq<Point>, anchor: nat, last: nat) returns (j: nat)
    requires anchor < last < |points| && SameTrail(points[anchor], points[last])
    requires points[anchor].Stated().Some?
    requires DistinctTimes(points, points[anchor].Device(), points[anchor].Provider())
    requires Confirmed(points, anchor, last)
    ensures anchor <= j < last && SameTrail(points[anchor], points[j]) && Confirmed(points, anchor, j)
    ensures LatestPrevious(points, last, j) && points[last].Stated().Some?
    ensures points[j].Stated().value + Movement(points[last]) == points[last].Stated().value
  {
    assert Judged(points, last) && CanJudgeByPrevious(points, last, Some(true));
    j := ConfirmingRow(points, last);
    assert OnTrail(points[last], points[anchor].Device(), points[anchor].Provider());
    assert IsPrevious(points, last, anchor);
    assert OnTrail(points[j], points[anchor].Device(), points[anchor].Provider());
  }

  lemma TelescopeStep(points: seq<Point>, anchor: nat, last: nat, j: nat)
    requires anchor <= j < last < |points| && SameTrail(points[anchor], points[last])
    requires DistinctTimes(points, points[anchor].Device(), points[anchor].Provider())
    requires AllJudged(points, anchor, last) && LatestPrevious(points, last, j) && points[last].Stated().Some?
    requires points[j].Stated().value + Movement(points[last]) == points[last].Stated().value
    ensures points[last].Stated().value
            == points[j].Stated().value
               + Net(points, points[anchor].Device(), points[anchor].Provider(), anchor + 1, last + 1)
               - Net(points, points[anchor].Device(), points[anchor].Provider(), anchor + 1, j + 1)
  {
    assert points[last].Device() == points[anchor].Device() && points[last].Provider() == points[anchor].Provider();
    NetSplits(points, points[anchor].Device(), points[anchor].Provider(), anchor + 1, j + 1, last);
    StretchIsQuiet(points, anchor, last, j, last);
  }

  /** The row a `true` previous-balance verdict rests on. */
  lemma ConfirmingRow(points: seq<Point>, i: nat) returns (j: nat)
    requires Judged(points, i) && CanJudgeByPrevious(points, i, Some(true))
    ensures LatestPrevious(points, i, j)
    ensures points[j].Stated().value + Movement(points[i]) == points[i].Stated().value
  {
    var r :| ReadsPrevious(points, i, r) && Some(true) == ByPrevious(points[i].tx, r);
    j :| 0 <= j < |points| && LatestPrevious(points, i, j) && points[j].Stated() == r;
  }

  lemma {:induction false} StretchIsQuiet(points: seq<Point>, anchor: nat, last: nat, j: nat, hi: nat)
    requires anchor <= j < hi <= last < |points|
    requires LatestPrevious(points, last, j)
    requires DistinctTimes(points, points[last].Device(), points[last].Provider())
    requires AllJudged(points, anchor, last)
    ensures Net(points, points[last].Device(), points[last].Provider(), j + 1, hi) == 0
    decreases hi
  {
    if j + 1 < hi {
      StretchIsQuiet(points, anchor, last, j, hi - 1);
      assert !IsPrevious(points, last, hi - 1);
    }
  }
}
