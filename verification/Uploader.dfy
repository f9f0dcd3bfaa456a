/** The phone's side of delivery: the capture table, `uploadOnce`, and the worker's drain loop. */
module Uploader {
  import opened Ledger
  import opened Delivery

  const MAX_LOOPS_PER_RUN := 200

  /** What becomes of one request: no connection or an unreadable answer; a status that is not a
      success; any other exception; or the list of results. */
  datatype Reply = Unreachable | Refused | Broken | Answered(results: seq<(nat, MessageStatus)>)

  datatype UploadOutcome = AllCaughtUp | BatchCompleted | RetryableFailure | FatalFailure

  datatype WorkResult = Success | Retry | Failure

  /** `associateBy`: of several results for one message the last counts. */
  function ByClientId(results: seq<(nat, MessageStatus)>): map<nat, MessageStatus> {
    if |results| == 0 then map[]
    else
      var last := results[|results| - 1];
      ByClientId(results[..|results| - 1])[last.0 := last.1]
  }

  function OutcomeOf(reply: Reply): UploadOutcome {
    match reply
    case Unreachable => RetryableFailure
    case Refused => RetryableFailure
    case Broken => FatalFailure
    case Answered(results) => if |results| == 0 then RetryableFailure else BatchCompleted
  }

  /** The answered rows of the batch are SENT, with their answers; all others are as before. */
  function MarkedAll(rows: Rows, batch: seq<nat>, results: map<nat, MessageStatus>): Rows {
    map id | id in rows :: if id in batch && id in results then rows[id].(status := Sent(results[id])) else rows[id]
  }

  function Uploaded(rows: Rows, batch: seq<nat>, reply: Reply): Rows {
    if OutcomeOf(reply).BatchCompleted? then MarkedAll(rows, batch, ByClientId(reply.results)) else rows
  }

  lemma MarkOneMore(rows: Rows, batch: seq<nat>, results: map<nat, MessageStatus>, i: nat)
    requires i < |batch| && Distinct(batch) && forall k | 0 <= k < |batch| :: batch[k] in rows
    ensures var before := MarkedAll(rows, batch[..i], results);
      MarkedAll(rows, batch[..i + 1], results)
      == if batch[i] in results then MarkedSent(before, batch[i], results[batch[i]]) else before
  {
    var before := MarkedAll(rows, batch[..i], results);
    var id := batch[i];
    forall k ensures k in batch[..i + 1] <==> k in batch[..i] || k == id {
      assert batch[..i + 1] == batch[..i] + [id];
    }
    assert id !in batch[..i];
  }

  function MarkNexts(n: nat): seq<Event> {
    seq(n, _ => MarkNext)
  }

  /** In the state machine, the marking steps that follow a response have the same effect. */
  lemma {:induction false} MarkingIsARun(s: State, n: nat)
    requires s.worker.Marking? && s.worker.next == 0 && Distinct(s.worker.batch)
    requires forall k | 0 <= k < |s.worker.batch| :: s.worker.batch[k] in s.rows
    requires n <= |s.worker.batch| && s.worker.batch != []
    ensures var batch, results := s.worker.batch, s.worker.results;
      After(s, MarkNexts(n))
      == s.(rows := MarkedAll(s.rows, batch[..n], results),
            worker := if n == |batch| then Idle else Marking(batch, results, n))
  {
    var batch, results := s.worker.batch, s.worker.results;
    if n == 0 {
      assert MarkedAll(s.rows, batch[..0], results) == s.rows;
    } else {
      var events := MarkNexts(n);
      assert events[..n - 1] == MarkNexts(n - 1);
      MarkingIsARun(s, n - 1);
      MarkOneMore(s.rows, batch, results, n - 1);
    }
  }

  // ---- one reply ----

  /** The answer that counts for a message is the last one about it. */
  predicate LastAnswer(results: seq<(nat, MessageStatus)>, id: nat, k: nat) {
    k < |results| && results[k].0 == id && forall j | k < j < |results| :: results[j].0 != id
  }

  lemma {:induction false} AnswersById(results: seq<(nat, MessageStatus)>, id: nat)
    ensures id in ByClientId(results) <==> exists k: nat :: LastAnswer(results, id, k)
    ensures forall k: nat :: LastAnswer(results, id, k) ==>
      id in ByClientId(results) && ByClientId(results)[id] == results[k].1
    decreases |results|
  {
    if |results| > 0 {
      var n := |results| - 1;
      AnswersById(results[..n], id);
      if results[n].0 == id {
        assert LastAnswer(results, id, n);
      } else {
        assert forall k: nat :: LastAnswer(results, id, k) <==> LastAnswer(results[..n], id, k);
      }
    }
  }

  /** What a reply does to a row: it is SENT with the last answer about it if it was in the batch and the
      reply answers it, and stays as it was in every other case. */
  lemma ReplyMarksExactly(rows: Rows, batch: seq<nat>, reply: Reply, id: nat)
    requires id in rows
    ensures var after := Uploaded(rows, batch, reply);
      && after.Keys == rows.Keys
      && (reply.Answered? && id in batch ==> forall k: nat :: LastAnswer(reply.results, id, k) ==>
            after[id] == rows[id].(status := Sent(reply.results[k].1)))
      && (!reply.Answered? || id !in batch || !(exists k: nat :: LastAnswer(reply.results, id, k)) ==>
            after[id] == rows[id])
  {
    if reply.Answered? {
      AnswersById(reply.results, id);
    }
  }

  /** What one run comes to, by the last reply: unreachable, refused or answered with nothing, it is tried
      again later; anything unforeseen fails it; otherwise it has succeeded. */
  lemma ResultByReply(send: (nat, seq<nat>) -> Reply, sent: seq<seq<nat>>)
    requires sent != []
    ensures var k: nat := |sent| - 1;
      match send(k, sent[k])
      case Unreachable => ResultOf(send, sent) == Retry
      case Refused => ResultOf(send, sent) == Retry
      case Broken => ResultOf(send, sent) == Failure
      case Answered(results) => ResultOf(send, sent) == if results == [] then Retry else WorkResult.Success
  {
  }

  // ---- counting ----

  function Members(batch: seq<nat>): set<nat> {
    set id | id in batch
  }

  lemma {:induction false} DistinctCount(batch: seq<nat>)
    requires Distinct(batch)
    ensures |Members(batch)| == |batch|
  {
    if |batch| == 0 {
      assert Members(batch) == {};
    } else {
      var n := |batch| - 1;
      DistinctCount(batch[..n]);
      assert batch == batch[..n] + [batch[n]];
      assert Members(batch) == Members(batch[..n]) + {batch[n]};
      assert batch[n] !in batch[..n];
    }
  }

  lemma SubsetCount(a: set<nat>, b: set<nat>)
    requires a <= b
    ensures |a| <= |b| && (|a| == |b| ==> a == b) && |b - a| == |b| - |a|
  {
    assert b == a + (b - a);
    if |a| == |b| {
      assert b - a == {};
    }
  }

  /** A batch takes all there is, up to the limit. */
  lemma BatchSize(rows: Rows, batch: seq<nat>, limit: nat)
    requires OldestWaiting(rows, batch, limit)
    ensures |batch| == if |WaitingRows(rows)| < limit then |WaitingRows(rows)| else limit
    ensures Members(batch) <= WaitingRows(rows)
    ensures forall i, j | 0 <= i < j < |batch| :: rows[batch[i]].receivedAt <= rows[batch[j]].receivedAt
    ensures forall i, id | 0 <= i < |batch| && id in WaitingRows(rows) && id !in batch ::
      rows[batch[i]].receivedAt <= rows[id].receivedAt
  {
    DistinctCount(batch);
    SubsetCount(Members(batch), WaitingRows(rows));
    if |batch| < limit {
      assert WaitingRows(rows) == Members(batch);
    }
  }

  predicate AnswersAll(reply: Reply, batch: seq<nat>) {
    reply.Answered? && |reply.results| > 0 && forall k | 0 <= k < |batch| :: batch[k] in ByClientId(reply.results)
  }

  /** An upload that is fully answered leaves that many fewer rows waiting. */
  lemma AnsweredBatchIsGone(rows: Rows, batch: seq<nat>, reply: Reply)
    requires OldestWaiting(rows, batch, MAX_BATCH_SIZE) && AnswersAll(reply, batch)
    ensures WaitingRows(Uploaded(rows, batch, reply)) == WaitingRows(rows) - Members(batch)
    ensures |WaitingRows(Uploaded(rows, batch, reply))|
            == if |WaitingRows(rows)| < MAX_BATCH_SIZE then 0 else |WaitingRows(rows)| - MAX_BATCH_SIZE
  {
    var rows' := Uploaded(rows, batch, reply);
    assert forall id | id in rows :: rows'[id].status.Waiting? <==> rows[id].status.Waiting? && id !in batch;
    assert WaitingRows(rows') == WaitingRows(rows) - Members(batch);
    BatchSize(rows, batch, MAX_BATCH_SIZE);
    DistinctCount(batch);
    SubsetCount(Members(batch), WaitingRows(rows));
  }

  /** Oldest first: what is sent is no younger than what still waits. */
  ghost predicate OldestFirst(rows: Rows, rows': Rows) {
    forall a, b | a in rows && b in rows && a in rows' && b in rows' ::
      rows[a].status.Waiting? && rows'[a].status.Sent? && rows'[b].status.Waiting? ==>
        rows[a].receivedAt <= rows[b].receivedAt
  }

  lemma AnsweredBatchIsOldest(rows0: Rows, rows: Rows, batch: seq<nat>, reply: Reply)
    requires rows0.Keys == rows.Keys && RowsGoOn(rows0, rows) && OldestFirst(rows0, rows)
    requires OldestWaiting(rows, batch, MAX_BATCH_SIZE)
    ensures OldestFirst(rows0, Uploaded(rows, batch, reply)) || !AnswersAll(reply, batch)
  {
    var rows' := Uploaded(rows, batch, reply);
    if AnswersAll(reply, batch) {
      forall a, b |
        a in rows0 && b in rows0 && rows0[a].status.Waiting? && rows'[a].status.Sent? && rows'[b].status.Waiting?
        ensures rows0[a].receivedAt <= rows0[b].receivedAt
      {
        assert rows[b].status.Waiting? && b !in batch;
        if rows[a].status.Waiting? {
          assert a in batch;
          var i :| 0 <= i < |batch| && batch[i] == a;
          assert IsWaiting(rows, b);
          assert rows[batch[i]].receivedAt <= rows[b].receivedAt;
        }
      }
    }
  }

  lemma UploadGoesOn(rows: Rows, batch: seq<nat>, reply: Reply)
    requires forall k | 0 <= k < |batch| :: IsWaiting(rows, batch[k])
    ensures RowsGoOn(rows, Uploaded(rows, batch, reply)) && Uploaded(rows, batch, reply).Keys == rows.Keys
  {
  }

  lemma GoesOnTransitively(a: Rows, b: Rows, c: Rows)
    requires RowsGoOn(a, b) && RowsGoOn(b, c)
    ensures RowsGoOn(a, c)
  {
  }

  // ---- the table and the worker ----

  class CaptureStore {
    var rows: Rows

    constructor ()
      ensures rows == map[]
    {
      rows := map[];
    }

    /** INSERT OR IGNORE; the result says whether a row was inserted. */
    method Insert(id: nat, row: Row) returns (inserted: bool)
      modifies this
      ensures inserted == Insertable(old(rows), id, row) && rows == Captured(old(rows), id, row)
    {
      inserted := id !in rows;
      var keys := rows.Keys;
      while keys != {}
        invariant keys <= rows.Keys && rows == old(rows)
        invariant inserted <==> id !in rows && forall k | k in rows && k !in keys :: rows[k].dedupHash != row.dedupHash
        decreases |keys|
      {
        var key :| key in keys;
        if rows[key].dedupHash == row.dedupHash {
          inserted := false;
        }
        keys := keys - {key};
      }
      if inserted {
        rows := rows[id := row.(status := Waiting)];
      }
    }

    method Oldest(keys: set<nat>) returns (oldest: nat)
      requires keys != {} && keys <= rows.Keys
      ensures oldest in keys && forall k | k in keys :: rows[oldest].receivedAt <= rows[k].receivedAt
    {
      oldest :| oldest in keys;
      var rest := keys;
      while rest != {}
        invariant rest <= keys && oldest in keys
        invariant forall k | k in keys && k !in rest :: rows[oldest].receivedAt <= rows[k].receivedAt
        decreases |rest|
      {
        var key :| key in rest;
        if rows[key].receivedAt < rows[oldest].receivedAt {
          oldest := key;
        }
        rest := rest - {key};
      }
    }

    /** SELECT ... WHERE status = 'PENDING' ORDER BY receivedAtEpoch LIMIT. */
    method PendingOldest(limit: nat) returns (batch: seq<nat>)
      ensures OldestWaiting(rows, batch, limit)
      ensures forall i, j | 0 <= i < j < |batch| :: rows[batch[i]].receivedAt <= rows[batch[j]].receivedAt
    {
      batch := [];
      var keys := WaitingRows(rows);
      while |batch| < limit && keys != {}
        invariant |batch| <= limit && Distinct(batch)
        invariant keys <= rows.Keys
        invariant forall id :: id in keys <==> IsWaiting(rows, id) && id !in batch
        invariant forall i | 0 <= i < |batch| :: IsWaiting(rows, batch[i])
        invariant forall i, j | 0 <= i < j < |batch| :: rows[batch[i]].receivedAt <= rows[batch[j]].receivedAt
        invariant forall i, id | 0 <= i < |batch| && id in keys :: rows[batch[i]].receivedAt <= rows[id].receivedAt
        decreases |keys|
      {
        var oldest := Oldest(keys);
        assert oldest !in batch;
        batch := batch + [oldest];
        keys := keys - {oldest};
      }
    }

    method MarkSent(id: nat, result: MessageStatus)
      modifies this
      ensures rows == MarkedSent(old(rows), id, result)
    {
      if id in rows {
        rows := rows[id := rows[id].(status := Sent(result))];
      }
    }

    /** The loop over the batch once the response is in. */
    method MarkBatch(batch: seq<nat>, results: map<nat, MessageStatus>)
      requires Distinct(batch) && forall k | 0 <= k < |batch| :: batch[k] in rows
      modifies this
      ensures rows == MarkedAll(old(rows), batch, results)
    {
      assert MarkedAll(rows, batch[..0], results) == rows;
      for i := 0 to |batch|
        invariant rows == MarkedAll(old(rows), batch[..i], results)
      {
        MarkOneMore(old(rows), batch, results, i);
        if batch[i] in results {
          MarkSent(batch[i], results[batch[i]]);
        }
      }
      assert batch[..|batch|] == batch;
    }

    /** One upload, the network's part given by `send`. */
    method UploadOnce(send: seq<nat> -> Reply) returns (outcome: UploadOutcome, ghost batch: seq<nat>)
      modifies this
      ensures OldestWaiting(old(rows), batch, MAX_BATCH_SIZE)
      ensures outcome == if batch == [] then AllCaughtUp else OutcomeOf(send(batch))
      ensures rows == if batch == [] then old(rows) else Uploaded(old(rows), batch, send(batch))
    {
      var taken := PendingOldest(MAX_BATCH_SIZE);
      batch := taken;
      if taken == [] {
        return AllCaughtUp, batch;
      }
      match send(taken) {
        case Unreachable => outcome := RetryableFailure;
        case Refused => outcome := RetryableFailure;
        case Broken => outcome := FatalFailure;
        case Answered(results) =>
          if |results| == 0 {
            return RetryableFailure, batch;
          }
          MarkBatch(taken, ByClientId(results));
          outcome := BatchCompleted;
      }
    }
  }

  /** The server answers every message of every request. */
  ghost predicate Responsive(send: (nat, seq<nat>) -> Reply) {
    forall i: nat, batch: seq<nat> :: batch != [] ==> AnswersAll(send(i, batch), batch)
  }

  /** The rows after the given batches were sent, the k-th upload answered by `send(k, _)`. */
  ghost function AfterUploads(rows: Rows, send: (nat, seq<nat>) -> Reply, sent: seq<seq<nat>>): Rows {
    if |sent| == 0 then rows
    else
      var k: nat := |sent| - 1;
      Uploaded(AfterUploads(rows, send, sent[..k]), sent[k], send(k, sent[k]))
  }

  /** What the last upload came to. */
  ghost function LastOutcome(send: (nat, seq<nat>) -> Reply, sent: seq<seq<nat>>): UploadOutcome
    requires sent != []
  {
    var k: nat := |sent| - 1;
    OutcomeOf(send(k, sent[k]))
  }

  /** Each batch holds the oldest rows that wait when it is sent, and only the last upload can fail. */
  ghost predicate Batches(rows: Rows, send: (nat, seq<nat>) -> Reply, sent: seq<seq<nat>>) {
    sent == []
    || (var earlier, batch := sent[..|sent| - 1], sent[|sent| - 1];
        && Batches(rows, send, earlier)
        && (earlier != [] ==> LastOutcome(send, earlier).BatchCompleted?)
        && batch != [] && OldestWaiting(AfterUploads(rows, send, earlier), batch, MAX_BATCH_SIZE))
  }

  /** The upload after the given ones. */
  lemma BatchAdded(rows: Rows, send: (nat, seq<nat>) -> Reply, sent: seq<seq<nat>>, batch: seq<nat>)
    requires Batches(rows, send, sent) && (sent != [] ==> LastOutcome(send, sent).BatchCompleted?)
    requires batch != [] && OldestWaiting(AfterUploads(rows, send, sent), batch, MAX_BATCH_SIZE)
    ensures Batches(rows, send, sent + [batch])
    ensures AfterUploads(rows, send, sent + [batch])
            == Uploaded(AfterUploads(rows, send, sent), batch, send(|sent|, batch))
    ensures LastOutcome(send, sent + [batch]) == OutcomeOf(send(|sent|, batch))
  {
    assert (sent + [batch])[..|sent|] == sent;
  }

  ghost function ResultOf(send: (nat, seq<nat>) -> Reply, sent: seq<seq<nat>>): WorkResult {
    if sent == [] then WorkResult.Success
    else match LastOutcome(send, sent)
      case RetryableFailure => Retry
      case FatalFailure => Failure
      case _ => WorkResult.Success
  }

  /** Rows still waiting after so many full batches. */
  function Left(waiting: nat, batches: nat): nat {
    if waiting < batches * MAX_BATCH_SIZE then 0 else waiting - batches * MAX_BATCH_SIZE
  }

  lemma RoundGoesOn(rows0: Rows, rows: Rows, batch: seq<nat>, send: (nat, seq<nat>) -> Reply, i: nat)
    requires RowsGoOn(rows0, rows) && rows.Keys == rows0.Keys
    requires OldestWaiting(rows, batch, MAX_BATCH_SIZE)
    ensures var rows' := if batch == [] then rows else Uploaded(rows, batch, send(i, batch));
      && RowsGoOn(rows0, rows') && rows'.Keys == rows0.Keys
      && (Responsive(send) && OldestFirst(rows0, rows) ==> OldestFirst(rows0, rows'))
      && (Responsive(send) && batch != [] ==> OutcomeOf(send(i, batch)).BatchCompleted?)
      && (Responsive(send) && batch != [] ==> |WaitingRows(rows')| == Left(|WaitingRows(rows)|, 1))
  {
    if batch != [] {
      var reply := send(i, batch);
      UploadGoesOn(rows, batch, reply);
      GoesOnTransitively(rows0, rows, Uploaded(rows, batch, reply));
      if Responsive(send) {
        assert AnswersAll(send(i, batch), batch);
        AnsweredBatchIsGone(rows, batch, reply);
        if OldestFirst(rows0, rows) {
          AnsweredBatchIsOldest(rows0, rows, batch, reply);
        }
      }
    }
  }

  /** How far a run has come: the batches sent so far and the rows they left. */
  ghost predicate Drained(rows0: Rows, rows: Rows, send: (nat, seq<nat>) -> Reply, sent: seq<seq<nat>>) {
    && Batches(rows0, send, sent) && rows == AfterUploads(rows0, send, sent)
    && RowsGoOn(rows0, rows) && rows.Keys == rows0.Keys
    && (Responsive(send) ==> OldestFirst(rows0, rows) && |WaitingRows(rows)| == Left(|WaitingRows(rows0)|, |sent|))
  }

  lemma NothingWaits(rows: Rows)
    requires OldestWaiting(rows, [], MAX_BATCH_SIZE)
    ensures WaitingRows(rows) == {}
  {
    BatchSize(rows, [], MAX_BATCH_SIZE);
  }

  lemma DrainedNext(rows0: Rows, rows: Rows, send: (nat, seq<nat>) -> Reply, sent: seq<seq<nat>>, batch: seq<nat>)
    requires Drained(rows0, rows, send, sent) && (sent != [] ==> LastOutcome(send, sent).BatchCompleted?)
    requires batch != [] && OldestWaiting(rows, batch, MAX_BATCH_SIZE)
    ensures Drained(rows0, Uploaded(rows, batch, send(|sent|, batch)), send, sent + [batch])
    ensures LastOutcome(send, sent + [batch]) == OutcomeOf(send(|sent|, batch))
    ensures Responsive(send) ==> LastOutcome(send, sent + [batch]).BatchCompleted?
  {
    BatchAdded(rows0, send, sent, batch);
    RoundGoesOn(rows0, rows, batch, send, |sent|);
  }

  lemma RoundEnds(rows0: Rows, before: Rows, send: (nat, seq<nat>) -> Reply, sent: seq<seq<nat>>, batch: seq<nat>,
                  outcome: UploadOutcome)
    requires Drained(rows0, before, send, sent) && (sent != [] ==> LastOutcome(send, sent).BatchCompleted?)
    requires OldestWaiting(before, batch, MAX_BATCH_SIZE)
    requires outcome == if batch == [] then AllCaughtUp else OutcomeOf(send(|sent|, batch))
    ensures var rows := if batch == [] then before else Uploaded(before, batch, send(|sent|, batch));
      var more := if batch == [] then sent else sent + [batch];
      && Drained(rows0, rows, send, more)
      && (outcome.AllCaughtUp? ==> batch == [] && WaitingRows(rows) == {})
      && (!outcome.AllCaughtUp? ==> batch != [] && outcome == LastOutcome(send, more))
      && (Responsive(send) ==> outcome.AllCaughtUp? || outcome.BatchCompleted?)
  {
    if batch == [] {
      NothingWaits(before);
    } else {
      DrainedNext(rows0, before, send, sent, batch);
    }
  }

  /** One pass of the loop, after `i` uploads. */
  method Round(store: CaptureStore, send: (nat, seq<nat>) -> Reply, i: nat, ghost rows0: Rows,
               ghost sent: seq<seq<nat>>)
    returns (outcome: UploadOutcome, ghost more: seq<seq<nat>>)
    requires Drained(rows0, store.rows, send, sent) && |sent| == i < MAX_LOOPS_PER_RUN
    requires sent != [] ==> LastOutcome(send, sent).BatchCompleted?
    modifies store
    ensures Drained(rows0, store.rows, send, more)
    ensures if outcome.AllCaughtUp? then more == sent && WaitingRows(store.rows) == {}
            else |more| == i + 1 && outcome == LastOutcome(send, more)
    ensures Responsive(send) ==> outcome.AllCaughtUp? || outcome.BatchCompleted?
  {
    ghost var before := store.rows;
    ghost var batch;
    outcome, batch := store.UploadOnce(b => send(i, b));
    more := if batch == [] then sent else sent + [batch];
    RoundEnds(rows0, before, send, sent, batch, outcome);
  }

  /** `doWork`. A run sends batch after batch of the oldest waiting rows until nothing waits, an upload
      fails, or 200 batches are sent; how the last upload ended is the result, and the rows are what
      the replies made of them. With a responsive server and no captures meanwhile, one run sends the
      oldest 200 x 50 waiting rows, or all of them if there are fewer, and succeeds. In any case every
      row is kept, and none taken back from SENT. */
  method DoWork(store: CaptureStore, send: (nat, seq<nat>) -> Reply)
    returns (result: WorkResult, ghost sent: seq<seq<nat>>)
    modifies store
    ensures Drained(old(store.rows), store.rows, send, sent) && |sent| <= 200
    ensures result == ResultOf(send, sent)
    ensures result.Success? ==> |sent| == 200 || WaitingRows(store.rows) == {}
    ensures Responsive(send) ==> result.Success?
    ensures var waiting := old(|WaitingRows(store.rows)|);
      Responsive(send) ==> |WaitingRows(store.rows)| == if waiting <= 10_000 then 0 else waiting - 10_000
  {
    var iterations := 0;
    sent := [];
    while iterations < MAX_LOOPS_PER_RUN
      invariant 0 <= iterations <= MAX_LOOPS_PER_RUN && |sent| == iterations
      invariant Drained(old(store.rows), store.rows, send, sent)
      invariant sent != [] ==> LastOutcome(send, sent).BatchCompleted?
    {
      var i := iterations;
      iterations := iterations + 1;
      var outcome;
      outcome, sent := Round(store, send, i, old(store.rows), sent);
      match outcome {
        case AllCaughtUp => return WorkResult.Success, sent;
        case BatchCompleted =>
        case RetryableFailure => return Retry, sent;
        case FatalFailure => return Failure, sent;
      }
    }
    return WorkResult.Success, sent;
  }
}
