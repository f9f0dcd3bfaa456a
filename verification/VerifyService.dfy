/** `VerifyService.Verify`, statement by statement, against the state machine: whatever the others
    do before each statement, and whichever statement fails, the method performs exactly a run of
    steps of its own call, interleaved with theirs. */
module VerifyService {
  import opened Prelude
  import opened BalanceTrail
  import opened Ledger
  import opened Server

  /** The others' actions and this call's step, in order. */
  function TurnActions(turn: Turn, me: nat, pick: nat): seq<Action> {
    turn.others + [Advance(me, pick, turn.fault)]
  }

  lemma TurnRuns(sys: System, before: System, after: System, me: nat, turn: Turn, pick: nat)
    requires before == Run(sys, turn.others)
    requires after == Apply(before, Advance(me, pick, turn.fault))
    ensures after == Run(sys, TurnActions(turn, me, pick))
  {
    RunAppends(sys, turn.others, [Advance(me, pick, turn.fault)]);
    assert Run(before, [Advance(me, pick, turn.fault)]) == after by {
      assert [Advance(me, pick, turn.fault)][..0] == [];
    }
  }

  /** A run made up of this call's own steps and of what the others did at its turns. */
  ghost predicate Interleaved(run: seq<Action>, me: nat, turns: nat -> Turn) {
    forall k | 0 <= k < |run| :: (run[k].Advance? && run[k].call == me) || exists j: nat :: run[k] in turns(j).others
  }

  lemma InterleavedTurn(me: nat, turns: nat -> Turn, j: nat, pick: nat)
    ensures Interleaved(TurnActions(turns(j), me, pick), me, turns)
  {
    var turn, run := turns(j), TurnActions(turns(j), me, pick);
    forall k | 0 <= k < |run|
      ensures (run[k].Advance? && run[k].call == me) || exists j: nat :: run[k] in turns(j).others
    {
      if k < |turn.others| {
        assert run[k] == turn.others[k];
      }
    }
  }

  /** This call is in flight, with the given request, before the given statement. */
  predicate At(calls: seq<Call>, me: nat, req: Request, pc: Pc) {
    me < |calls| && calls[me] == VerifyCall(req, pc)
  }

  method ReadOrderStep(db: Database, me: nat, req: Request, turn: Turn) returns (pc: Pc)
    requires At(db.calls, me, req, ReadOrder) && AllForeign(turn.others, me)
    modifies db
    ensures db.State() == Run(old(db.State()), TurnActions(turn, me, 0)) && At(db.calls, me, req, pc)
    ensures pc.FindTransaction? || pc.LogAttempt? || pc.Failed?
  {
    db.Interfere(turn.others, me);
    ghost var before := db.State();
    if !turn.fault.NoFault? {
      pc := Failed(None);
    } else {
      var order := db.GetOrderByExternalID(req.business, req.externalId);
      if order.None? {
        pc := Reject(req, NotFound, None);
      } else {
        var row := db.orders[order.value];
        if row.status.Pending? && row.expiresAt.Some? && row.expiresAt.value < db.now {
          pc := Reject(req, OrderExpired, order);
        } else if !row.status.Pending? {
          pc := Reject(req, OrderNotPending, order);
        } else {
          pc := FindTransaction(Snapshot(order.value, row, db.now));
        }
      }
    }
    db.calls := db.calls[me := VerifyCall(req, pc)];
    TurnRuns(old(db.State()), before, db.State(), me, turn, 0);
  }

  method FindTransactionStep(db: Database, me: nat, req: Request, snap: Snapshot, turn: Turn)
    returns (pc: Pc, pick: nat)
    requires At(db.calls, me, req, FindTransaction(snap)) && AllForeign(turn.others, me)
    modifies db
    ensures db.State() == Run(old(db.State()), TurnActions(turn, me, pick)) && At(db.calls, me, req, pc)
    ensures pc.ReadCalibration? ==> Judged(db.points, pc.tx)
    ensures pc.ReadCalibration? || pc.Claim? || pc.LogAttempt? || pc.Failed?
  {
    db.Interfere(turn.others, me);
    ghost var before := db.State();
    pick := 0;
    if !turn.fault.NoFault? {
      pc := Failed(None);
    } else {
      var found := db.FindTransactionByTrxIDForBusiness(req.business, req.trxId);
      if found.None? {
        pc := Reject(req, NotFound, Some(snap.id));
      } else {
        pick := found.value;
        var tx := db.points[pick].tx;
        if tx.direction.Debit? {
          pc := RejectTx(req, WrongDirection, snap, pick, None, None);
        } else {
          var effectiveAmount := tx.amount;
          if tx.effective.Some? {
            effectiveAmount := tx.effective.value;
          }
          if effectiveAmount != snap.row.expected {
            pc := RejectTx(req, AmountMismatch, snap, pick, Some(effectiveAmount), None);
          } else if tx.balanceAfter.Some? {
            pc := ReadCalibration(snap, pick);
          } else {
            pc := Claim(snap, pick, None);
          }
        }
      }
    }
    db.calls := db.calls[me := VerifyCall(req, pc)];
    TurnRuns(old(db.State()), before, db.State(), me, turn, pick);
  }

  method ReadCalibrationStep(db: Database, me: nat, req: Request, snap: Snapshot, tx: nat, turn: Turn)
    returns (pc: Pc, pick: nat)
    requires At(db.calls, me, req, ReadCalibration(snap, tx)) && Judged(db.points, tx) && AllForeign(turn.others, me)
    modifies db
    ensures db.State() == Run(old(db.State()), TurnActions(turn, me, pick)) && At(db.calls, me, req, pc)
    ensures (pc.CountLater? && pc.snap == snap && pc.tx == tx && Judged(db.points, tx)) || pc.Failed?
  {
    db.Interfere(turn.others, me);
    RowsStay(old(db.State()), turn.others, tx);
    ghost var before := db.State();
    pick := 0;
    if !turn.fault.NoFault? {
      pc := Failed(None);
    } else {
      var laterCalib := db.GetLatestCalibrationAfter(tx);
      if laterCalib.Some? {
        pick := laterCalib.value;
        pc := CountLater(snap, tx, Some(db.points[pick].balance), |db.points|);
      } else {
        pc := CountLater(snap, tx, None, |db.points|);
      }
    }
    db.calls := db.calls[me := VerifyCall(req, pc)];
    TurnRuns(old(db.State()), before, db.State(), me, turn, pick);
  }

  method CountLaterStep(db: Database, me: nat, req: Request, at: Pc, turn: Turn) returns (pc: Pc)
    requires at.CountLater? && At(db.calls, me, req, at) && Judged(db.points, at.tx) && AllForeign(turn.others, me)
    modifies db
    ensures db.State() == Run(old(db.State()), TurnActions(turn, me, 0)) && At(db.calls, me, req, pc)
    ensures pc.ReadPrevious? ==> pc.snap == at.snap && pc.tx == at.tx && Judged(db.points, at.tx)
    ensures pc.ReadPrevious? || pc.Claim? || pc.LogAttempt? || pc.Failed?
  {
    db.Interfere(turn.others, me);
    RowsStay(old(db.State()), turn.others, at.tx);
    ghost var before := db.State();
    if !turn.fault.NoFault? {
      pc := Failed(None);
    } else {
      var laterCount := db.CountTransactionsAfter(at.tx);
      var hasLaterCalib := at.calibrated.Some?;
      if hasLaterCalib && laterCount == 0 {
        var consistent := at.calibrated.value == db.points[at.tx].tx.balanceAfter.value;
        if consistent {
          pc := Claim(at.snap, at.tx, Some(true));
        } else {
          pc := RejectTx(req, BalanceMismatch, at.snap, at.tx, None, Some(false));
        }
      } else {
        pc := ReadPrevious(at.snap, at.tx, at.calibrated, at.seen, |db.points|);
      }
    }
    db.calls := db.calls[me := VerifyCall(req, pc)];
    TurnRuns(old(db.State()), before, db.State(), me, turn, 0);
  }

  method ReadPreviousStep(db: Database, me: nat, req: Request, at: Pc, turn: Turn) returns (pc: Pc, pick: nat)
    requires at.ReadPrevious? && At(db.calls, me, req, at) && Judged(db.points, at.tx) && AllForeign(turn.others, me)
    modifies db
    ensures db.State() == Run(old(db.State()), TurnActions(turn, me, pick)) && At(db.calls, me, req, pc)
    ensures pc.Claim? || pc.LogAttempt? || pc.Failed?
  {
    db.Interfere(turn.others, me);
    RowsStay(old(db.State()), turn.others, at.tx);
    ghost var before := db.State();
    pick := 0;
    if !turn.fault.NoFault? {
      pc := Failed(None);
    } else {
      var tx := db.points[at.tx].tx;
      var balanceConsistent: Option<bool> := None;
      var prev := db.GetPreviousBalance(at.tx);
      if prev.Some? {
        pick := prev.value;
        var balance := db.points[pick].Stated().value;
        var expected := if tx.direction.Debit? then balance - tx.amount else balance + tx.amount;
        balanceConsistent := Some(expected == tx.balanceAfter.value);
      }
      if balanceConsistent.Some? && !balanceConsistent.value {
        pc := RejectTx(req, BalanceMismatch, at.snap, at.tx, None, balanceConsistent);
      } else {
        pc := Claim(at.snap, at.tx, balanceConsistent);
      }
    }
    db.calls := db.calls[me := VerifyCall(req, pc)];
    TurnRuns(old(db.State()), before, db.State(), me, turn, pick);
  }

  method ClaimingStep(db: Database, me: nat, req: Request, at: Pc, turn: Turn) returns (pc: Pc)
    requires at.Claim? && At(db.calls, me, req, at) && AllForeign(turn.others, me)
    modifies db
    ensures db.State() == Run(old(db.State()), TurnActions(turn, me, 0)) && At(db.calls, me, req, pc)
    ensures pc.Reread? || pc.LogAttempt? || pc.Failed?
  {
    db.Interfere(turn.others, me);
    ghost var before := db.State();
    if turn.fault.Lost? {
      pc := Failed(None);
    } else {
      var selected, refused := db.ClaimTransactionForOrder(at.snap.id, at.tx, req.business);
      var win := if selected && !refused then Some(Win(at.snap.id, at.tx, at.snap.readAt)) else None;
      if turn.fault.LostReply? {
        pc := Failed(win);
      } else if selected && !refused {
        pc := LogAttempt(Outcome(Success, Some(at.snap.id), Some(at.tx), at.balance),
                         Attempt(req.business, Some(at.snap.id), req.trxId, Success, Some(at.tx), None, at.balance),
                         win);
      } else if !selected {
        pc := Reread(at.snap);
      } else {
        pc := Reject(req, AlreadyUsed, Some(at.snap.id));
      }
    }
    db.calls := db.calls[me := VerifyCall(req, pc)];
    TurnRuns(old(db.State()), before, db.State(), me, turn, 0);
  }

  method RereadStep(db: Database, me: nat, req: Request, snap: Snapshot, turn: Turn) returns (pc: Pc)
    requires At(db.calls, me, req, Reread(snap)) && AllForeign(turn.others, me)
    modifies db
    ensures db.State() == Run(old(db.State()), TurnActions(turn, me, 0)) && At(db.calls, me, req, pc)
    ensures pc.LogAttempt? || pc.Failed?
  {
    db.Interfere(turn.others, me);
    ghost var before := db.State();
    pc := Failed(None);
    if turn.fault.NoFault? {
      var reread := db.GetOrderByExternalID(req.business, req.externalId);
      if reread.Some? {
        var result := OrderNotPending;
        if db.orders[reread.value].status.Paid? {
          result := AlreadyUsed;
        }
        pc := Reject(req, result, reread);
      }
    }
    db.calls := db.calls[me := VerifyCall(req, pc)];
    TurnRuns(old(db.State()), before, db.State(), me, turn, 0);
  }

  /** `logAttempt`: the insert's error is ignored. */
  method LogAttemptStep(db: Database, me: nat, req: Request, at: Pc, turn: Turn) returns (pc: Pc)
    requires at.LogAttempt? && At(db.calls, me, req, at) && AllForeign(turn.others, me)
    modifies db
    ensures db.State() == Run(old(db.State()), TurnActions(turn, me, 0)) && At(db.calls, me, req, pc)
    ensures pc == Returned(at.outcome, at.win)
  {
    db.Interfere(turn.others, me);
    ghost var before := db.State();
    if !turn.fault.Lost? {
      db.attempts := db.attempts + [at.attempt];
    }
    pc := Returned(at.outcome, at.win);
    db.calls := db.calls[me := VerifyCall(req, pc)];
    TurnRuns(old(db.State()), before, db.State(), me, turn, 0);
  }

  lemma {:induction false} RowsStay(sys: System, actions: seq<Action>, i: nat)
    requires i < |sys.db.points|
    ensures i < |Run(sys, actions).db.points| && Run(sys, actions).db.points[i] == sys.db.points[i]
    decreases |actions|
  {
    if |actions| > 0 {
      RowsStay(sys, actions[..|actions| - 1], i);
    }
  }

  ghost function Extended(start: System, run: seq<Action>, turns: nat -> Turn, j: nat, me: nat,
                          pick: nat): (all: seq<Action>)
    requires Interleaved(run, me, turns)
    ensures Run(start, all) == Run(Run(start, run), TurnActions(turns(j), me, pick))
    ensures Interleaved(all, me, turns)
  {
    RunAppends(start, run, TurnActions(turns(j), me, pick));
    InterleavedTurn(me, turns, j, pick);
    run + TurnActions(turns(j), me, pick)
  }

  method CheckBalance(db: Database, me: nat, req: Request, at: Pc, turns: nat -> Turn)
    returns (pc: Pc, ghost run: seq<Action>)
    requires at.ReadCalibration? && At(db.calls, me, req, at) && Judged(db.points, at.tx)
    requires forall k :: AllForeign(turns(k).others, me)
    modifies db
    ensures db.State() == Run(old(db.State()), run) && At(db.calls, me, req, pc) && Interleaved(run, me, turns)
    ensures pc.Claim? || pc.LogAttempt? || pc.Failed?
  {
    ghost var start := db.State();
    ghost var pick;
    pc, pick := ReadCalibrationStep(db, me, req, at.snap, at.tx, turns(2));
    run := TurnActions(turns(2), me, pick);
    InterleavedTurn(me, turns, 2, pick);
    if pc.CountLater? {
      pc := CountLaterStep(db, me, req, pc, turns(3));
      run := Extended(start, run, turns, 3, me, 0);
      if pc.ReadPrevious? {
        pc, pick := ReadPreviousStep(db, me, req, pc, turns(4));
        run := Extended(start, run, turns, 4, me, pick);
      }
    }
  }

  /** The reads, up to the decision to claim. */
  method Deliberate(db: Database, me: nat, req: Request, turns: nat -> Turn) returns (pc: Pc, ghost run: seq<Action>)
    requires At(db.calls, me, req, ReadOrder)
    requires forall k :: AllForeign(turns(k).others, me)
    modifies db
    ensures db.State() == Run(old(db.State()), run) && At(db.calls, me, req, pc) && Interleaved(run, me, turns)
    ensures pc.Claim? || pc.LogAttempt? || pc.Failed?
  {
    ghost var start := db.State();
    ghost var pick := 0;
    pc := ReadOrderStep(db, me, req, turns(0));
    run := TurnActions(turns(0), me, 0);
    InterleavedTurn(me, turns, 0, 0);
    if pc.FindTransaction? {
      pc, pick := FindTransactionStep(db, me, req, pc.snap, turns(1));
      run := Extended(start, run, turns, 1, me, pick);
      if pc.ReadCalibration? {
        ghost var seg;
        pc, seg := CheckBalance(db, me, req, pc, turns);
        RunAppends(start, run, seg);
        run := run + seg;
      }
    }
  }

  /** Verify a request. The outcome is `None` when a statement failed. */
  method Verify(db: Database, me: nat, req: Request, turns: nat -> Turn)
    returns (out: Option<Outcome>, ghost run: seq<Action>)
    requires At(db.calls, me, req, ReadOrder)
    requires forall k :: AllForeign(turns(k).others, me)
    modifies db
    ensures db.State() == Run(old(db.State()), run) && Interleaved(run, me, turns)
    ensures me < |db.calls| && db.calls[me].VerifyCall? && db.calls[me].req == req
    ensures out.Some? ==> db.calls[me].pc.Returned? && db.calls[me].pc.outcome == out.value
    ensures out.None? ==> db.calls[me].pc.Failed?
  {
    ghost var start := db.State();
    var pc;
    pc, run := Deliberate(db, me, req, turns);
    if pc.Claim? {
      pc := ClaimingStep(db, me, req, pc, turns(5));
      run := Extended(start, run, turns, 5, me, 0);
    }
    if pc.Reread? {
      pc := RereadStep(db, me, req, pc.snap, turns(6));
      run := Extended(start, run, turns, 6, me, 0);
    }
    if pc.Failed? {
      return None, run;
    }
    pc := LogAttemptStep(db, me, req, pc, turns(7));
    run := Extended(start, run, turns, 7, me, 0);
    return Some(pc.outcome), run;
  }
}
