/** Delivery of captured messages from the phone to the server, over every schedule: captures, the
    upload worker's steps, lost requests and responses, and the whole server beside them. A request
    the worker has given up on may still be processed, during later requests or after them. */
module Delivery {
  import opened Prelude
  import opened Ledger
  import opened Provenance
  import EntryCodec

  const MAX_BATCH_SIZE := 50

  datatype RowStatus = Waiting | Sent(result: MessageStatus)

  /** A row of `captured_sms`; the map's key is its primary key. */
  datatype Row = Row(sender: string, body: string, receivedAt: int, dedupHash: string, status: RowStatus)

  type Rows = map<nat, Row>

  /** INSERT OR IGNORE: the primary key and the unique index on the hash. */
  predicate Insertable(rows: Rows, id: nat, row: Row) {
    id !in rows && forall k | k in rows :: rows[k].dedupHash != row.dedupHash
  }

  function Captured(rows: Rows, id: nat, row: Row): Rows {
    if Insertable(rows, id, row) then rows[id := row.(status := Waiting)] else rows
  }

  predicate IsWaiting(rows: Rows, id: nat) {
    id in rows && rows[id].status.Waiting?
  }

  function WaitingRows(rows: Rows): set<nat> {
    set id | id in rows && rows[id].status.Waiting?
  }

  predicate Distinct(batch: seq<nat>) {
    forall i, j | 0 <= i < j < |batch| :: batch[i] != batch[j]
  }

  /** A result of `pendingOldest(limit)`; rows of equal age come in any order. */
  predicate OldestWaiting(rows: Rows, batch: seq<nat>, limit: nat) {
    && Distinct(batch)
    && (forall i | 0 <= i < |batch| :: IsWaiting(rows, batch[i]))
    && (forall i, j | 0 <= i < j < |batch| :: rows[batch[i]].receivedAt <= rows[batch[j]].receivedAt)
    && |batch| <= limit
    && (forall id | id in rows :: IsWaiting(rows, id) && id !in batch ==>
          |batch| == limit && forall i | 0 <= i < |batch| :: rows[batch[i]].receivedAt <= rows[id].receivedAt)
  }

  /** `markSent`. */
  function MarkedSent(rows: Rows, id: nat, result: MessageStatus): Rows {
    if id in rows then rows[id := rows[id].(status := Sent(result))] else rows
  }

  /** A blank sender is sent as none, which the server reads as the empty string. */
  function SenderField(sender: string): string {
    if EntryCodec.Blank(sender) then "" else sender
  }

  /** A request to the server; `calls` are the ingests begun for its messages so far, in order. */
  datatype Upload = Upload(messages: seq<nat>, calls: seq<nat>)

  datatype Worker =
    | Idle
    | Sending(batch: seq<nat>, upload: nat)
    | Marking(batch: seq<nat>, results: map<nat, MessageStatus>, next: nat)

  datatype State = State(device: nat, business: nat, rows: Rows, worker: Worker, uploads: seq<Upload>, server: System)

  datatype Event =
    | Capture(id: nat, row: Row)
    | Send(batch: seq<nat>)
    | BeginNext(upload: nat, decision: Decision)
    | ServerStep(action: Ledger.Action)
    | Respond
    | GiveUp
    | MarkNext

  predicate IsDone(server: System, c: nat) {
    c < |server.calls| && server.calls[c].IngestCall? && server.calls[c].at.Done?
  }

  /** The last message begun has been answered, so the handler's loop goes on. */
  predicate Between(server: System, u: Upload) {
    |u.calls| > 0 ==> IsDone(server, u.calls[|u.calls| - 1])
  }

  predicate Finished(server: System, u: Upload) {
    |u.calls| == |u.messages| && forall k | 0 <= k < |u.calls| :: IsDone(server, u.calls[k])
  }

  /** `associateBy` on the response, an answer for each message. */
  function Results(server: System, u: Upload, k: nat): map<nat, MessageStatus>
    requires k <= |u.calls| == |u.messages| && Finished(server, u)
  {
    if k == 0 then map[] else Results(server, u, k - 1)[u.messages[k - 1] := server.calls[u.calls[k - 1]].at.result]
  }

  /** Server actions other than ingests for this device. */
  predicate Foreign(s: State, a: Ledger.Action) {
    a.BeginIngest? ==> a.job.device != s.device
  }

  predicate CanBegin(s: State, u: nat) {
    u < |s.uploads| && |s.uploads[u].calls| < |s.uploads[u].messages|
    && Between(s.server, s.uploads[u]) && s.uploads[u].messages[|s.uploads[u].calls|] in s.rows
  }

  function JobFor(s: State, id: nat, decision: Decision): Job
    requires id in s.rows
  {
    Job(s.device, s.business, id, SenderField(s.rows[id].sender), s.rows[id].body, decision)
  }

  function Begun(s: State, u: nat, decision: Decision): State
    requires CanBegin(s, u)
  {
    var up := s.uploads[u];
    s.(uploads := s.uploads[u := up.(calls := up.calls + [|s.server.calls|])],
       server := Apply(s.server, BeginIngest(JobFor(s, up.messages[|up.calls|], decision))))
  }

  function Marked(s: State): State
    requires s.worker.Marking? && s.worker.next < |s.worker.batch|
  {
    var id := s.worker.batch[s.worker.next];
    var rows := if id in s.worker.results then MarkedSent(s.rows, id, s.worker.results[id]) else s.rows;
    s.(rows := rows,
       worker := if s.worker.next + 1 == |s.worker.batch| then Idle else s.worker.(next := s.worker.next + 1))
  }

  /** One event; an event that cannot happen leaves the state as it is. */
  function Next(s: State, e: Event): State {
    match e
    case Capture(id, row) => s.(rows := Captured(s.rows, id, row))
    case Send(batch) =>
      if s.worker.Idle? && batch != [] && OldestWaiting(s.rows, batch, MAX_BATCH_SIZE)
      then s.(worker := Sending(batch, |s.uploads|), uploads := s.uploads + [Upload(batch, [])]) else s
    case BeginNext(u, decision) => if CanBegin(s, u) then Begun(s, u, decision) else s
    case ServerStep(a) => if Foreign(s, a) then s.(server := Apply(s.server, a)) else s
    case Respond =>
      if s.worker.Sending? && s.worker.upload < |s.uploads| && Finished(s.server, s.uploads[s.worker.upload])
         && s.worker.batch != []
      then
        var u := s.uploads[s.worker.upload];
        s.(worker := Marking(s.worker.batch, Results(s.server, u, |u.calls|), 0))
      else s
    case GiveUp => s.(worker := Idle)
    case MarkNext => if s.worker.Marking? && s.worker.next < |s.worker.batch| then Marked(s) else s
  }

  function After(s: State, events: seq<Event>): State {
    if |events| == 0 then s else Next(After(s, events[..|events| - 1]), events[|events| - 1])
  }

  /** A phone with nothing captured, and a server that has not heard of it. */
  function Start(device: nat, business: nat, now: int): State {
    State(device, business, map[], Idle, [], Ledger.Initial(now))
  }

  // ---- what every event keeps ----

  /** The server answered for row `id` with `result`. */
  ghost predicate Told(s: State, id: nat, result: MessageStatus) {
    exists c: nat :: AnswersWith(s, c, id, result)
  }

  ghost predicate AnswersWith(s: State, c: nat, id: nat, result: MessageStatus) {
    IsDone(s.server, c) && s.server.calls[c].job.device == s.device
    && s.server.calls[c].job.clientId == id && s.server.calls[c].at.result == result
  }

  /** An ingest for this device carries a captured row. */
  ghost predicate CallOk(s: State, c: Call) {
    c.IngestCall? && c.job.device == s.device ==>
      c.job.clientId in s.rows && c.job.sender == SenderField(s.rows[c.job.clientId].sender)
      && c.job.body == s.rows[c.job.clientId].body && c.job.business == s.business
  }

  predicate SamePhone(s: State, s': State) {
    s'.device == s.device && s'.business == s.business
  }

  ghost predicate CallFor(s: State, c: nat, id: nat) {
    c < |s.server.calls| && s.server.calls[c].IngestCall? && s.server.calls[c].job.device == s.device
    && s.server.calls[c].job.clientId == id
  }

  ghost predicate UploadOk(s: State, u: Upload) {
    && |u.calls| <= |u.messages|
    && (forall k | 0 <= k < |u.messages| :: u.messages[k] in s.rows)
    && (forall k | 0 <= k < |u.calls| :: CallFor(s, u.calls[k], u.messages[k]))
    && (forall k | 0 <= k < |u.calls| - 1 :: IsDone(s.server, u.calls[k]))
  }

  ghost predicate RowOk(s: State, id: nat)
    requires id in s.rows
  {
    s.rows[id].status.Sent? ==> Told(s, id, s.rows[id].status.result)
  }

  ghost predicate WorkerOk(s: State) {
    match s.worker
    case Idle => true
    case Sending(batch, u) =>
      && u < |s.uploads| && s.uploads[u].messages == batch && Distinct(batch)
      && (forall i | 0 <= i < |batch| :: IsWaiting(s.rows, batch[i]))
    case Marking(batch, results, next) =>
      && next < |batch| && Distinct(batch)
      && (forall i | next <= i < |batch| :: IsWaiting(s.rows, batch[i]))
      && (forall id | id in results :: Told(s, id, results[id]))
  }

  ghost predicate HashesDiffer(rows: Rows) {
    forall i, j | i in rows && j in rows && i != j :: rows[i].dedupHash != rows[j].dedupHash
  }

  ghost predicate Sound(s: State) {
    && Reachable(s.server)
    && HashesDiffer(s.rows)
    && (forall c | 0 <= c < |s.server.calls| :: CallOk(s, s.server.calls[c]))
    && (forall u | 0 <= u < |s.uploads| :: UploadOk(s, s.uploads[u]))
    && (forall id | id in s.rows :: RowOk(s, id))
    && WorkerOk(s)
  }

  lemma ReachableNext(sys: System, a: Ledger.Action)
    requires Reachable(sys)
    ensures Reachable(Apply(sys, a))
  {
    var now, actions :| sys == Run(Initial(now), actions);
    var more := actions + [a];
    assert more[..|actions|] == actions && more[|actions|] == a;
    assert Apply(sys, a) == Run(Initial(now), more);
  }

  /** The server's calls go on: a call keeps its job, and an answer stays given. */
  ghost predicate Later(sys: System, sys': System) {
    |sys.calls| <= |sys'.calls|
    && forall c | 0 <= c < |sys.calls| ::
         (sys.calls[c].IngestCall? <==> sys'.calls[c].IngestCall?)
         && (sys.calls[c].IngestCall? ==> sys'.calls[c].job == sys.calls[c].job)
         && (sys.calls[c].IngestCall? && sys.calls[c].at.Done? ==> sys'.calls[c] == sys.calls[c])
  }

  lemma StepIsLater(sys: System, a: Ledger.Action)
    ensures Later(sys, Apply(sys, a))
  {
  }

  lemma ToldStays(s: State, s': State, id: nat, result: MessageStatus)
    requires Told(s, id, result) && Later(s.server, s'.server) && SamePhone(s, s')
    ensures Told(s', id, result)
  {
    var c: nat :| AnswersWith(s, c, id, result);
    assert AnswersWith(s', c, id, result);
  }

  /** Rows stay, with their contents; a sent row stays exactly as it is. */
  ghost predicate RowsGoOn(rows: Rows, rows': Rows) {
    forall id | id in rows ::
      id in rows' && rows'[id] == rows[id].(status := rows'[id].status)
      && (rows[id].status.Sent? ==> rows'[id] == rows[id])
  }

  lemma NextGoesOn(s: State, e: Event)
    requires Sound(s)
    ensures RowsGoOn(s.rows, Next(s, e).rows) && Later(s.server, Next(s, e).server) && SamePhone(s, Next(s, e))
  {
    match e {
      case ServerStep(a) => StepIsLater(s.server, a);
      case BeginNext(u, decision) =>
        if CanBegin(s, u) {
          StepIsLater(s.server, BeginIngest(JobFor(s, s.uploads[u].messages[|s.uploads[u].calls|], decision)));
        }
      case _ =>
    }
  }

  lemma CallsStayOk(s: State, s': State)
    requires Sound(s) && SamePhone(s, s') && RowsGoOn(s.rows, s'.rows) && Later(s.server, s'.server)
    ensures forall c | 0 <= c < |s.server.calls| :: CallOk(s', s'.server.calls[c])
  {
    forall c | 0 <= c < |s.server.calls| ensures CallOk(s', s'.server.calls[c]) {
      assert CallOk(s, s.server.calls[c]);
    }
  }

  lemma UploadStaysOk(s: State, s': State, u: Upload)
    requires UploadOk(s, u) && SamePhone(s, s') && RowsGoOn(s.rows, s'.rows) && Later(s.server, s'.server)
    ensures UploadOk(s', u)
  {
    forall k | 0 <= k < |u.calls| ensures CallFor(s', u.calls[k], u.messages[k]) {
      assert CallFor(s, u.calls[k], u.messages[k]);
    }
  }

  lemma WorkerStaysOk(s: State, s': State)
    requires WorkerOk(s) && s'.worker == s.worker && SamePhone(s, s') && Later(s.server, s'.server)
    requires RowsGoOn(s.rows, s'.rows) && forall id | id in s.rows :: s'.rows[id] == s.rows[id]
    requires |s.uploads| <= |s'.uploads|
        && forall u | 0 <= u < |s.uploads| :: s'.uploads[u].messages == s.uploads[u].messages
    ensures WorkerOk(s')
  {
    if s.worker.Marking? {
      forall id | id in s.worker.results ensures Told(s', id, s.worker.results[id]) {
        ToldStays(s, s', id, s.worker.results[id]);
      }
    }
  }

  /** Events that change no existing row. */
  lemma QuietSound(s: State, s': State)
    requires Sound(s) && SamePhone(s, s') && Later(s.server, s'.server) && Reachable(s'.server)
    requires RowsGoOn(s.rows, s'.rows) && forall id | id in s.rows :: s'.rows[id] == s.rows[id]
    requires HashesDiffer(s'.rows) && forall id | id in s'.rows && id !in s.rows :: s'.rows[id].status.Waiting?
    requires |s.uploads| == |s'.uploads|
    requires forall u | 0 <= u < |s.uploads| ::
      s'.uploads[u].messages == s.uploads[u].messages && UploadOk(s', s'.uploads[u])
    requires forall c | |s.server.calls| <= c < |s'.server.calls| :: CallOk(s', s'.server.calls[c])
    requires s'.worker == s.worker || s'.worker == Idle
    ensures Sound(s')
  {
    CallsStayOk(s, s');
    if s'.worker == s.worker {
      WorkerStaysOk(s, s');
    }
    forall id | id in s'.rows ensures RowOk(s', id) {
      if id in s.rows && s.rows[id].status.Sent? {
        assert RowOk(s, id);
        ToldStays(s, s', id, s.rows[id].status.result);
      }
    }
  }

  lemma ServerStepSound(s: State, a: Ledger.Action)
    requires Sound(s) && Foreign(s, a)
    ensures Sound(s.(server := Apply(s.server, a)))
  {
    var s' := s.(server := Apply(s.server, a));
    StepIsLater(s.server, a);
    ReachableNext(s.server, a);
    forall u | 0 <= u < |s.uploads| ensures UploadOk(s', s'.uploads[u]) {
      UploadStaysOk(s, s', s.uploads[u]);
    }
    QuietSound(s, s');
  }

  lemma BegunCall(s: State, u: nat, decision: Decision)
    requires CanBegin(s, u)
    ensures var s', job := Begun(s, u, decision), JobFor(s, s.uploads[u].messages[|s.uploads[u].calls|], decision);
      && s'.server.calls == s.server.calls + [IngestCall(job, InsertRaw)]
      && CallFor(s', |s.server.calls|, s.uploads[u].messages[|s.uploads[u].calls|])
      && CallOk(s', IngestCall(job, InsertRaw))
  {
  }

  /** The upload whose next message has begun. */
  lemma BegunUploadOk(s: State, u: nat, decision: Decision)
    requires CanBegin(s, u) && UploadOk(s, s.uploads[u])
    ensures UploadOk(Begun(s, u, decision), Begun(s, u, decision).uploads[u])
  {
    var s', up := Begun(s, u, decision), s.uploads[u];
    BegunCall(s, u, decision);
    StepIsLater(s.server, BeginIngest(JobFor(s, up.messages[|up.calls|], decision)));
    UploadStaysOk(s, s', up);
    forall k | 0 <= k < |s'.uploads[u].calls| ensures CallFor(s', s'.uploads[u].calls[k], s'.uploads[u].messages[k]) {
      if k < |up.calls| {
        assert CallFor(s', up.calls[k], up.messages[k]);
      }
    }
  }

  lemma BegunSound(s: State, u: nat, decision: Decision)
    requires Sound(s) && CanBegin(s, u)
    ensures Sound(Begun(s, u, decision))
  {
    var s', up := Begun(s, u, decision), s.uploads[u];
    var a := BeginIngest(JobFor(s, up.messages[|up.calls|], decision));
    StepIsLater(s.server, a);
    ReachableNext(s.server, a);
    BegunCall(s, u, decision);
    BegunUploadOk(s, u, decision);
    forall v | 0 <= v < |s.uploads| ensures UploadOk(s', s'.uploads[v]) {
      if v != u {
        UploadStaysOk(s, s', s.uploads[v]);
      }
    }
    QuietSound(s, s');
  }

  lemma CaptureSound(s: State, id: nat, row: Row)
    requires Sound(s)
    ensures Sound(s.(rows := Captured(s.rows, id, row)))
  {
    var s' := s.(rows := Captured(s.rows, id, row));
    forall u | 0 <= u < |s.uploads| ensures UploadOk(s', s'.uploads[u]) {
      UploadStaysOk(s, s', s.uploads[u]);
    }
    QuietSound(s, s');
  }

  lemma SendSound(s: State, batch: seq<nat>)
    requires Sound(s) && s.worker.Idle? && batch != [] && OldestWaiting(s.rows, batch, MAX_BATCH_SIZE)
    ensures Sound(Next(s, Send(batch)))
  {
    var s' := Next(s, Send(batch));
    CallsStayOk(s, s');
    forall u | 0 <= u < |s'.uploads| ensures UploadOk(s', s'.uploads[u]) {
      if u < |s.uploads| {
        UploadStaysOk(s, s', s.uploads[u]);
      } else {
        assert forall i | 0 <= i < |batch| :: IsWaiting(s.rows, batch[i]);
      }
    }
    forall id | id in s'.rows ensures RowOk(s', id) {
      assert RowOk(s, id);
      if s.rows[id].status.Sent? {
        ToldStays(s, s', id, s.rows[id].status.result);
      }
    }
  }

  lemma {:induction false} ResultsAreTold(s: State, u: Upload, k: nat)
    requires UploadOk(s, u) && Finished(s.server, u) && k <= |u.calls|
    ensures forall id | id in Results(s.server, u, k) :: Told(s, id, Results(s.server, u, k)[id])
    ensures forall j | 0 <= j < k :: u.messages[j] in Results(s.server, u, k)
  {
    if k > 0 {
      ResultsAreTold(s, u, k - 1);
      var c := u.calls[k - 1];
      assert CallFor(s, c, u.messages[k - 1]) && IsDone(s.server, c);
      assert AnswersWith(s, c, u.messages[k - 1], s.server.calls[c].at.result);
    }
  }

  lemma RespondSound(s: State)
    requires Sound(s)
    ensures Sound(Next(s, Respond))
  {
    var s' := Next(s, Respond);
    if s' != s {
      var u := s.uploads[s.worker.upload];
      ResultsAreTold(s, u, |u.calls|);
      CallsStayOk(s, s');
      forall v | 0 <= v < |s.uploads| ensures UploadOk(s', s'.uploads[v]) {
        UploadStaysOk(s, s', s.uploads[v]);
      }
      forall id | id in s'.rows ensures RowOk(s', id) {
        assert RowOk(s, id);
        if s.rows[id].status.Sent? {
          ToldStays(s, s', id, s.rows[id].status.result);
        }
      }
      forall id | id in s'.worker.results ensures Told(s', id, s'.worker.results[id]) {
        ToldStays(s, s', id, s'.worker.results[id]);
      }
    }
  }

  lemma MarkedSound(s: State)
    requires Sound(s) && s.worker.Marking? && s.worker.next < |s.worker.batch|
    ensures Sound(Marked(s))
  {
    var s', id := Marked(s), s.worker.batch[s.worker.next];
    CallsStayOk(s, s');
    forall v | 0 <= v < |s.uploads| ensures UploadOk(s', s'.uploads[v]) {
      UploadStaysOk(s, s', s.uploads[v]);
    }
    forall k | k in s'.rows ensures RowOk(s', k) {
      assert RowOk(s, k);
      if s'.rows[k].status.Sent? {
        ToldStays(s, s', k, s'.rows[k].status.result);
      }
    }
    if s'.worker.Marking? {
      forall k | k in s'.worker.results ensures Told(s', k, s'.worker.results[k]) {
        ToldStays(s, s', k, s'.worker.results[k]);
      }
    }
  }

  lemma NextSound(s: State, e: Event)
    requires Sound(s)
    ensures Sound(Next(s, e))
  {
    match e {
      case Capture(id, row) => CaptureSound(s, id, row);
      case Send(batch) => if Next(s, e) != s { SendSound(s, batch); }
      case BeginNext(u, decision) => if CanBegin(s, u) { BegunSound(s, u, decision); }
      case ServerStep(a) => if Foreign(s, a) { ServerStepSound(s, a); }
      case Respond => RespondSound(s);
      case GiveUp => QuietSound(s, Next(s, GiveUp)) by {
        forall u | 0 <= u < |s.uploads| ensures UploadOk(Next(s, GiveUp), s.uploads[u]) {
          UploadStaysOk(s, Next(s, GiveUp), s.uploads[u]);
        }
      }
      case MarkNext => if s.worker.Marking? && s.worker.next < |s.worker.batch| { MarkedSound(s); }
    }
  }

  lemma {:induction false} AfterSound(device: nat, business: nat, now: int, events: seq<Event>)
    ensures Sound(After(Start(device, business, now), events))
    decreases |events|
  {
    var start := Start(device, business, now);
    if |events| == 0 {
      assert start.server == Run(Initial(now), []);
    } else {
      AfterSound(device, business, now, events[..|events| - 1]);
      NextSound(After(start, events[..|events| - 1]), events[|events| - 1]);
    }
  }

  // ---- main results ----

  ghost predicate Possible(s: State) {
    exists device, business, now, events :: s == After(Start(device, business, now), events)
  }

  lemma PossibleIsSound(s: State)
    requires Possible(s)
    ensures Sound(s)
  {
    var device, business, now, events :| s == After(Start(device, business, now), events);
    AfterSound(device, business, now, events);
  }

  /** Every raw message of the device is a captured row's, content and all, a blank sender counting as
      none; no two are the same row's. */
  lemma StoredMessagesAreCaptured(s: State, r: nat)
    requires Possible(s) && r < |s.server.db.raws| && s.server.db.raws[r].device == s.device
    ensures var raws, id := s.server.db.raws, s.server.db.raws[r].clientId;
      && id in s.rows
      && raws[r].body == s.rows[id].body && raws[r].business == s.business
      && raws[r].sender == (if EntryCodec.Blank(s.rows[id].sender) then "" else s.rows[id].sender)
      && forall q | 0 <= q < |raws| :: IsRaw(raws[q], s.device, id) ==> q == r
  {
    PossibleIsSound(s);
    ReachableIsTraced(s.server);
    var raws := s.server.db.raws;
    assert Stored(s.server.calls, r);
    var c :| 0 <= c < |s.server.calls| && Owns(s.server.calls[c], r);
    assert IngestOk(s.server.db, s.server.calls[c]);
    assert CallOk(s, s.server.calls[c]);
    forall q | 0 <= q < |raws| && IsRaw(raws[q], s.device, raws[r].clientId) ensures q == r {
      if q != r {
        assert false;
      }
    }
  }

  /** A row the phone counts as sent, with any answer but `error`, is stored on the server, once. */
  lemma SentIsStoredOnce(s: State, id: nat)
    requires Possible(s) && id in s.rows && s.rows[id].status.Sent? && !s.rows[id].status.result.MsgError?
    ensures StoredOnce(s.server.db.raws, s.device, id)
  {
    PossibleIsSound(s);
    assert RowOk(s, id);
    var c: nat :| AnswersWith(s, c, id, s.rows[id].status.result);
    AnsweredMessageIsStored(s.server, c);
  }

  /** A captured row is on the server if and only if some ingest of it got past its insert; so a row that
      is SENT is missing exactly when none did. */
  lemma StoredExactlyWhenInserted(s: State, id: nat)
    requires Possible(s) && id in s.rows
    ensures HasRaw(s.server.db.raws, s.device, id) <==> exists c: nat :: InsertedBy(s, c, id)
  {
    PossibleIsSound(s);
    ReachableIsTraced(s.server);
    var raws, calls := s.server.db.raws, s.server.calls;
    if HasRaw(raws, s.device, id) {
      var r: nat :| r < |raws| && IsRaw(raws[r], s.device, id);
      assert Stored(calls, r);
      var c: nat :| c < |calls| && Owns(calls[c], r);
      assert IngestOk(s.server.db, calls[c]);
      assert InsertedBy(s, c, id);
    }
    forall c: nat | InsertedBy(s, c, id) ensures HasRaw(raws, s.device, id) {
      assert IngestOk(s.server.db, calls[c]);
      assert IsRaw(raws[Owner(calls[c]).value], s.device, id);
    }
  }

  /** Ingest `c` is of row `id`, and its insert took effect. */
  ghost predicate InsertedBy(s: State, c: nat, id: nat) {
    CallFor(s, c, id) && Owner(s.server.calls[c]).Some?
  }

  /** So a row that is SENT and missing was answered `error`, and every ingest of it failed before or at
      its insert: it is finished without a message of its own, or has yet to insert. */
  lemma MissingExactlyWhenNoneInserted(s: State, id: nat)
    requires Possible(s) && id in s.rows && s.rows[id].status.Sent?
    ensures !HasRaw(s.server.db.raws, s.device, id) <==> forall c: nat :: !InsertedBy(s, c, id)
    ensures !HasRaw(s.server.db.raws, s.device, id) ==> s.rows[id].status.result.MsgError?
  {
    StoredExactlyWhenInserted(s, id);
    if !s.rows[id].status.result.MsgError? {
      SentIsStoredOnce(s, id);
      var raws := s.server.db.raws;
      var r :| 0 <= r < |raws| && IsRaw(raws[r], s.device, id);
      assert HasRaw(raws, s.device, id);
    }
  }

  lemma {:induction false} AfterStaysSound(s: State, events: seq<Event>)
    requires Sound(s)
    ensures Sound(After(s, events))
    decreases |events|
  {
    if |events| > 0 {
      AfterStaysSound(s, events[..|events| - 1]);
      NextSound(After(s, events[..|events| - 1]), events[|events| - 1]);
    }
  }

  /** Whatever happens, no captured row is lost or altered, and none returns from SENT. */
  lemma {:induction false} RowsStay(s: State, events: seq<Event>)
    requires Possible(s)
    ensures RowsGoOn(s.rows, After(s, events).rows)
    decreases |events|
  {
    if |events| > 0 {
      var before, last := events[..|events| - 1], events[|events| - 1];
      RowsStay(s, before);
      PossibleIsSound(s);
      AfterStaysSound(s, before);
      NextGoesOn(After(s, before), last);
    }
  }

  /** A message is captured once: rows differ in their hashes. */
  lemma CapturedOnce(s: State, i: nat, j: nat)
    requires Possible(s) && i in s.rows && j in s.rows && s.rows[i].dedupHash == s.rows[j].dedupHash
    ensures i == j
  {
    PossibleIsSound(s);
  }

  /** The server ingests the messages of a request one after the other, in their order. */
  lemma OneAfterTheOther(s: State, u: nat, k: nat)
    requires Possible(s) && u < |s.uploads| && k < |s.uploads[u].calls|
    ensures var up := s.uploads[u];
      && k < |up.messages| && CallFor(s, up.calls[k], up.messages[k])
      && (k < |up.calls| - 1 ==> s.server.calls[up.calls[k]].at.Done?)
  {
    PossibleIsSound(s);
    assert UploadOk(s, s.uploads[u]);
    if k < |s.uploads[u].calls| - 1 {
      assert IsDone(s.server, s.uploads[u].calls[k]);
    }
  }

  /** When the worker gives up on a request, no row has changed, all of its batch still waits, and the worker is
      free to send again. */
  lemma GivenUpIsSentAgain(s: State, batch: seq<nat>)
    requires Possible(s) && s.worker.Sending?
    requires batch != [] && OldestWaiting(s.rows, batch, 50)
    ensures var after := Next(s, GiveUp);
      && after.rows == s.rows && (forall k | 0 <= k < |s.worker.batch| :: IsWaiting(after.rows, s.worker.batch[k]))
      && Next(after, Send(batch)).worker == Sending(batch, |s.uploads|)
      && Next(after, Send(batch)).uploads == s.uploads + [Upload(batch, [])]
  {
    PossibleIsSound(s);
  }

  // ---- what `error` leaves open ----

  /** A schedule on which the insert fails: the row ends up SENT, so it is never sent again, and the
      server has nothing. */
  function LossySchedule(): seq<Event> {
    [Capture(0, Row("bKash", "x", 0, "h", Waiting)), Send([0]), BeginNext(0, NoProvider),
     ServerStep(Advance(0, 0, Lost)), Respond, MarkNext]
  }

  lemma LossySend(s: State, row: Row)
    requires s.rows == map[0 := row] && row.status.Waiting? && s.worker.Idle? && s.uploads == []
    ensures Next(s, Send([0])) == s.(worker := Sending([0], 0), uploads := [Upload([0], [])])
  {
    assert OldestWaiting(s.rows, [0], MAX_BATCH_SIZE);
  }

  lemma LossyIngest(s: State)
    requires 0 in s.rows && s.uploads == [Upload([0], [])] && s.server.calls == []
    ensures var s' := Next(Next(s, BeginNext(0, NoProvider)), ServerStep(Advance(0, 0, Lost)));
      s' == s.(uploads := [Upload([0], [0])],
               server := System(s.server.db, [IngestCall(JobFor(s, 0, NoProvider), Done(MsgError, None))]))
  {
    var job := JobFor(s, 0, NoProvider);
    var up := s.uploads[0];
    assert CanBegin(s, 0);
    var s1 := Next(s, BeginNext(0, NoProvider));
    assert up.calls + [0] == [0];
    assert s1.server.calls == [IngestCall(job, InsertRaw)];
    assert s1.uploads == [Upload([0], [0])];
    assert IngestStep(s.server.db, job, InsertRaw, Lost) == IngestState(s.server.db, Done(MsgError, None));
    assert Next(s1, ServerStep(Advance(0, 0, Lost))).server.calls == [IngestCall(job, Done(MsgError, None))];
  }

  lemma LossyAnswer(s: State, job: Job, row: Row)
    requires s.worker == Sending([0], 0) && s.uploads == [Upload([0], [0])] && s.rows == map[0 := row]
    requires s.server.calls == [IngestCall(job, Done(MsgError, None))]
    ensures Next(Next(s, Respond), MarkNext).rows == map[0 := row.(status := Sent(MsgError))]
    ensures Next(Next(s, Respond), MarkNext).server == s.server
  {
    var u := s.uploads[0];
    assert Finished(s.server, u);
    assert Results(s.server, u, 0) == map[];
    assert Results(s.server, u, 1) == map[0 := MsgError];
    assert Next(s, Respond).worker == Marking([0], map[0 := MsgError], 0);
  }

  /** The row has been sent; the server knows nothing yet. */
  ghost predicate LossySent(s: State, row: Row) {
    && s.rows == map[0 := row] && s.worker == Sending([0], 0) && s.uploads == [Upload([0], [])]
    && s.server.calls == [] && s.server.db.raws == []
  }

  lemma LossyStart(row: Row)
    requires row.status.Waiting?
    ensures LossySent(Next(Next(Start(1, 1, 0), Capture(0, row)), Send([0])), row)
  {
    var s1 := Next(Start(1, 1, 0), Capture(0, row));
    assert s1.rows == map[0 := row];
    LossySend(s1, row);
  }

  lemma LossyRest(s: State, row: Row)
    requires LossySent(s, row)
    ensures var answered := Next(Next(s, BeginNext(0, NoProvider)), ServerStep(Advance(0, 0, Lost)));
      var s' := Next(Next(answered, Respond), MarkNext);
      s'.rows == map[0 := row.(status := Sent(MsgError))] && s'.server.db.raws == []
  {
    LossyIngest(s);
    var answered := Next(Next(s, BeginNext(0, NoProvider)), ServerStep(Advance(0, 0, Lost)));
    LossyAnswer(answered, JobFor(s, 0, NoProvider), row);
  }

  lemma ErrorMayLoseTheMessage()
    ensures var s := After(Start(1, 1, 0), LossySchedule());
      Possible(s) && 0 in s.rows && s.rows[0].status == Sent(MsgError) && s.server.db.raws == []
  {
    var row := Row("bKash", "x", 0, "h", Waiting);
    var s0 := Start(1, 1, 0);
    var s1 := Next(s0, Capture(0, row));
    var s2 := Next(s1, Send([0]));
    var s3 := Next(s2, BeginNext(0, NoProvider));
    var s4 := Next(s3, ServerStep(Advance(0, 0, Lost)));
    var s5 := Next(s4, Respond);
    LossyStart(row);
    LossyRest(s2, row);
    LossyRun(s0, s1, s2, s3, s4, s5, Next(s5, MarkNext));
  }

  lemma LossyRun(s0: State, s1: State, s2: State, s3: State, s4: State, s5: State, s6: State)
    requires s1 == Next(s0, LossySchedule()[0]) && s2 == Next(s1, LossySchedule()[1])
        && s3 == Next(s2, LossySchedule()[2])
    requires s4 == Next(s3, LossySchedule()[3]) && s5 == Next(s4, LossySchedule()[4])
        && s6 == Next(s5, LossySchedule()[5])
    ensures After(s0, LossySchedule()) == s6
  {
    var events := LossySchedule();
    assert After(s0, events[..0]) == s0;
    PrefixStep(s0, events, 0);
    PrefixStep(s0, events, 1);
    PrefixStep(s0, events, 2);
    PrefixStep(s0, events, 3);
    PrefixStep(s0, events, 4);
    PrefixStep(s0, events, 5);
    assert events[..6] == events;
  }

  lemma PrefixStep(s: State, events: seq<Event>, k: nat)
    requires k < |events|
    ensures After(s, events[..k + 1]) == Next(After(s, events[..k]), events[k])
  {
    assert events[..k + 1][..k] == events[..k];
  }
}
