/** An ingest that nothing interrupts: its statements refine one atomic insert. */
module AtomicIngest {
  import opened Prelude
  import opened Tables
  import opened Ledger

  /** The message as it is stored in the end. */
  function Kept(job: Job, status: ParseStatus): RawMessage {
    RawMessage(job.clientId, job.device, job.business, job.sender, job.body, status)
  }

  /** The message leads to a new transaction. */
  predicate Records(db: Db, job: Job) {
    && !HasRaw(db.raws, job.device, job.clientId)
    && job.decision.Inserts? && Acceptable(job.decision.draft)
    && FindTx(db.points, job.decision.draft.provider, job.decision.draft.trxId).None?
  }

  /** The status a new message ends with, and its answer. */
  function Filed(db: Db, job: Job): (ParseStatus, MessageStatus) {
    match job.decision
    case ProvidersUnavailable => (Unparsed, MsgError)
    case NoProvider => (Unmatched, MsgUnmatched)
    case ParseFails => (ParseError, MsgError)
    case Rejects => (Skipped, MsgSkipped)
    case Inserts(draft, pattern) =>
      if !Acceptable(draft) then (Unparsed, MsgError)
      else
        var existing := FindTx(db.points, draft.provider, draft.trxId);
        (Parsed(draft.provider, pattern, if existing.Some? then existing.value else |db.points|), MsgParsed)
  }

  /** The ingest in one piece: a message that is stored already changes nothing; a new one is stored
      with its status, and with its transaction if it leads to one. */
  function AtOnce(db: Db, job: Job): IngestState {
    if HasRaw(db.raws, job.device, job.clientId) then IngestState(db, Done(MsgDuplicate, None))
    else
      var filed := Filed(db, job);
      IngestState(db.(raws := db.raws + [Kept(job, filed.0)],
                      points := db.points + if Records(db, job) then [Drafted(job, |db.raws|, db.now)] else []),
                  Done(filed.1, Some(|db.raws|)))
  }

  /** The state after so many steps of the ingest, with nothing in between and no failure. */
  function IngestAlone(db: Db, job: Job, steps: nat): IngestState {
    if steps == 0 then IngestState(db, InsertRaw)
    else
      var s := IngestAlone(db, job, steps - 1);
      IngestStep(s.db, job, s.pc, NoFault)
  }

  /** The first statement and what follows from it. */
  lemma Opening(db: Db, job: Job)
    ensures IngestAlone(db, job, 1) == IngestStep(db, job, InsertRaw, NoFault)
    ensures IngestAlone(db, job, 2).pc.Done? || IngestAlone(db, job, 2).pc.Mark? || IngestAlone(db, job, 2).pc.Lookup?
  {
    assert IngestAlone(db, job, 0) == IngestState(db, InsertRaw);
    assert IngestAlone(db, job, 1) == IngestStep(db, job, InsertRaw, NoFault);
  }

  /** A message that leads to an insert of a transaction. */
  lemma Inserting(db: Db, job: Job)
    requires !HasRaw(db.raws, job.device, job.clientId) && job.decision.Inserts?
    ensures IngestAlone(db, job, 4) == AtOnce(db, job)
  {
    Opening(db, job);
    var raws := db.raws + [Kept(job, Unparsed)];
    assert IngestAlone(db, job, 1) == IngestState(db.(raws := raws), InsertTx(|db.raws|));
    assert IngestAlone(db, job, 4) == AtOnce(db, job) by {
      var filed := Filed(db, job);
      assert raws[|db.raws| := raws[|db.raws|].(status := filed.0)] == db.raws + [Kept(job, filed.0)];
      assert IngestAlone(db, job, 3)
          == IngestStep(IngestAlone(db, job, 2).db, job, IngestAlone(db, job, 2).pc, NoFault);
    }
  }

  lemma NotInserting(db: Db, job: Job)
    requires HasRaw(db.raws, job.device, job.clientId) || !job.decision.Inserts?
    ensures IngestAlone(db, job, 4) == AtOnce(db, job)
  {
    Opening(db, job);
    if !HasRaw(db.raws, job.device, job.clientId) {
      var raws, filed := db.raws + [Kept(job, Unparsed)], Filed(db, job);
      assert raws[|db.raws| := raws[|db.raws|].(status := filed.0)] == db.raws + [Kept(job, filed.0)];
    }
    assert IngestAlone(db, job, 3) == IngestStep(IngestAlone(db, job, 2).db, job, IngestAlone(db, job, 2).pc, NoFault);
  }

  /** An uninterrupted ingest has ended after four statements at most, and has done what the atomic one
      does. */
  lemma {:induction false} UninterruptedIngestIsAtomic(db: Db, job: Job, steps: nat)
    ensures IngestAlone(db, job, steps).pc.Done? ==> IngestAlone(db, job, steps) == AtOnce(db, job)
    ensures steps >= 4 ==> IngestAlone(db, job, steps) == AtOnce(db, job)
    decreases if steps >= 4 then steps else 8 - steps
  {
    if steps > 4 {
      UninterruptedIngestIsAtomic(db, job, steps - 1);
    } else if steps < 4 {
      UninterruptedIngestIsAtomic(db, job, steps + 1);
    } else if job.decision.Inserts? && !HasRaw(db.raws, job.device, job.clientId) {
      Inserting(db, job);
    } else {
      NotInserting(db, job);
    }
  }

  // ---- within the whole server ----

  /** A call begun and then advanced so often. */
  function AloneActions(sys: System, job: Job, steps: nat): seq<Action> {
    if steps == 0 then [BeginIngest(job)]
    else AloneActions(sys, job, steps - 1) + [Advance(|sys.calls|, 0, NoFault)]
  }

  function AfterIngest(sys: System, job: Job, steps: nat): System {
    Run(sys, AloneActions(sys, job, steps))
  }

  /** The server runs the steps of `IngestAlone`, and touches no other call. */
  lemma {:induction false} ServerIngests(sys: System, job: Job, steps: nat)
    ensures var s := IngestAlone(sys.db, job, steps);
      AfterIngest(sys, job, steps) == System(s.db, sys.calls + [IngestCall(job, s.pc)])
    decreases steps
  {
    var actions := AloneActions(sys, job, steps);
    if steps == 0 {
      assert actions[..0] == [] && Run(sys, actions) == Apply(Run(sys, actions[..0]), BeginIngest(job));
    } else {
      ServerIngests(sys, job, steps - 1);
      assert actions[..|actions| - 1] == AloneActions(sys, job, steps - 1);
    }
  }
}
