/** Repeated messages under every interleaving: ingesting a message that is stored already cannot be
    seen by anyone else. */
module Replay {
  import opened Prelude
  import opened Ledger
  import opened Provenance

  /** The call ingests a message that is stored, and has inserted nothing itself. */
  ghost predicate Echo(db: Db, c: Call) {
    && c.IngestCall? && HasRaw(db.raws, c.job.device, c.job.clientId)
    && (c.at.InsertRaw? || (c.at.Done? && c.at.stored.None?))
  }

  ghost predicate Echoes(sys: System, replayed: set<nat>) {
    forall c | c in replayed && c < |sys.calls| :: Echo(sys.db, sys.calls[c])
  }

  /** A call that begins under a number of `replayed` ingests a message stored by then. */
  predicate BeginsEcho(sys: System, a: Action, replayed: set<nat>) {
    |sys.calls| in replayed ==>
      !a.BeginVerify? && (a.BeginIngest? ==> HasRaw(sys.db.raws, a.job.device, a.job.clientId))
  }

  ghost predicate AllBeginEchoes(sys: System, actions: seq<Action>, replayed: set<nat>) {
    forall k | 0 <= k < |actions| :: BeginsEcho(Run(sys, actions[..k]), actions[k], replayed)
  }

  predicate Own(a: Action, replayed: set<nat>) {
    a.Advance? && a.call in replayed
  }

  /** The run without the statements of the replayed calls. */
  function Without(actions: seq<Action>, replayed: set<nat>): seq<Action> {
    if |actions| == 0 then []
    else
      var last := actions[|actions| - 1];
      Without(actions[..|actions| - 1], replayed) + if Own(last, replayed) then [] else [last]
  }

  /** The tables are the same, and so are all calls but the replayed ones. */
  ghost predicate SameBut(sys: System, sys': System, replayed: set<nat>) {
    && sys.db == sys'.db && |sys.calls| == |sys'.calls|
    && forall c | 0 <= c < |sys.calls| && c !in replayed :: sys.calls[c] == sys'.calls[c]
  }

  /** How the first statement of call `c` fared, if it was executed. */
  function FirstFault(sys: System, actions: seq<Action>, c: nat): Option<Fault> {
    if |actions| == 0 then None
    else
      var before, last := actions[..|actions| - 1], actions[|actions| - 1];
      var first := FirstFault(sys, before, c);
      if first.None? && last.Advance? && last.call == c && c < |Run(sys, before).calls| then Some(last.fault) else first
  }

  /** Where a replayed call stands when its first statement fared so. */
  function Answered(first: Option<Fault>): IngestPc {
    if first.None? then InsertRaw else Done(if first.value.NoFault? then MsgDuplicate else MsgError, None)
  }

  // ---- one step ----

  lemma EchoesStay(sys: System, a: Action, replayed: set<nat>)
    requires Echoes(sys, replayed) && BeginsEcho(sys, a, replayed)
    ensures Echoes(Apply(sys, a), replayed)
  {
    var after := Apply(sys, a);
    forall c | c in replayed && c < |after.calls| ensures Echo(after.db, after.calls[c]) {
      KeyStays(sys, a, after.calls[c].job.device, after.calls[c].job.clientId);
      assert c < |sys.calls| ==> Echo(sys.db, sys.calls[c]);
    }
  }

  lemma KeyStays(sys: System, a: Action, device: nat, clientId: nat)
    ensures HasRaw(sys.db.raws, device, clientId) ==> HasRaw(Apply(sys, a).db.raws, device, clientId)
  {
    if HasRaw(sys.db.raws, device, clientId) {
      var actions := [a];
      assert Run(sys, actions[..0]) == sys;
      RawStays(sys, actions, device, clientId);
    }
  }

  /** A statement of a replayed call changes no table and no other call. */
  lemma OwnStep(sys: System, a: Action, replayed: set<nat>)
    requires Echoes(sys, replayed) && Own(a, replayed)
    ensures SameBut(Apply(sys, a), sys, replayed)
  {
    assert a.call < |sys.calls| ==> Echo(sys.db, sys.calls[a.call]);
  }

  lemma OtherStep(sys: System, sys': System, a: Action, replayed: set<nat>)
    requires SameBut(sys, sys', replayed) && !Own(a, replayed)
    ensures SameBut(Apply(sys, a), Apply(sys', a), replayed)
  {
  }

  lemma AnswerStep(sys: System, a: Action, c: nat, first: Option<Fault>)
    requires c < |sys.calls| && Echo(sys.db, sys.calls[c]) && sys.calls[c].at == Answered(first)
    ensures var first' := if first.None? && a.Advance? && a.call == c then Some(a.fault) else first;
      c < |Apply(sys, a).calls| && Apply(sys, a).calls[c].IngestCall? && Apply(sys, a).calls[c].at == Answered(first')
  {
  }

  // ---- whole runs ----

  /** What is known of a run with replayed calls. */
  ghost predicate Replayed(sys: System, actions: seq<Action>, replayed: set<nat>) {
    var full := Run(sys, actions);
    && SameBut(full, Run(sys, Without(actions, replayed)), replayed)
    && Echoes(full, replayed)
    && forall c | c in replayed && c < |full.calls| :: full.calls[c].at == Answered(FirstFault(sys, actions, c))
  }

  lemma WithoutStep(sys: System, before: seq<Action>, last: Action, replayed: set<nat>)
    requires Replayed(sys, before, replayed)
    ensures SameBut(Apply(Run(sys, before), last), Run(sys, Without(before + [last], replayed)), replayed)
  {
    var actions, kept := before + [last], Without(before, replayed);
    assert actions[..|actions| - 1] == before && actions[|actions| - 1] == last;
    if Own(last, replayed) {
      assert Without(actions, replayed) == kept;
      OwnStep(Run(sys, before), last, replayed);
    } else {
      assert (kept + [last])[..|kept|] == kept;
      OtherStep(Run(sys, before), Run(sys, kept), last, replayed);
    }
  }

  lemma NotBegunYet(sys: System, actions: seq<Action>, c: nat)
    requires c >= |Run(sys, actions).calls|
    ensures FirstFault(sys, actions, c).None?
    decreases |actions|
  {
    if |actions| > 0 {
      assert |Run(sys, actions[..|actions| - 1]).calls| <= |Run(sys, actions).calls|;
      NotBegunYet(sys, actions[..|actions| - 1], c);
    }
  }

  lemma AnswersStep(sys: System, before: seq<Action>, last: Action, replayed: set<nat>, c: nat)
    requires Replayed(sys, before, replayed) && BeginsEcho(Run(sys, before), last, replayed)
    requires c in replayed && c < |Apply(Run(sys, before), last).calls|
    ensures Apply(Run(sys, before), last).calls[c].IngestCall?
    ensures Apply(Run(sys, before), last).calls[c].at == Answered(FirstFault(sys, before + [last], c))
  {
    var actions := before + [last];
    assert actions[..|actions| - 1] == before && actions[|actions| - 1] == last;
    var mid := Run(sys, before);
    if c < |mid.calls| {
      AnswerStep(mid, last, c, FirstFault(sys, before, c));
    } else {
      NotBegunYet(sys, before, c);
    }
  }

  lemma ReplayedStep(sys: System, before: seq<Action>, last: Action, replayed: set<nat>)
    requires Replayed(sys, before, replayed) && BeginsEcho(Run(sys, before), last, replayed)
    ensures Replayed(sys, before + [last], replayed)
  {
    var actions, mid := before + [last], Run(sys, before);
    assert Run(sys, actions) == Apply(mid, last) by {
      assert actions[..|actions| - 1] == before;
    }
    WithoutStep(sys, before, last, replayed);
    EchoesStay(mid, last, replayed);
    forall c | c in replayed && c < |Apply(mid, last).calls|
      ensures Apply(mid, last).calls[c].IngestCall?
      ensures Apply(mid, last).calls[c].at == Answered(FirstFault(sys, actions, c))
    {
      AnswersStep(sys, before, last, replayed, c);
    }
  }

  lemma EchoesBefore(sys: System, before: seq<Action>, last: Action, replayed: set<nat>)
    requires AllBeginEchoes(sys, before + [last], replayed)
    ensures AllBeginEchoes(sys, before, replayed) && BeginsEcho(Run(sys, before), last, replayed)
  {
    var actions := before + [last];
    forall k | 0 <= k < |before| ensures BeginsEcho(Run(sys, before[..k]), before[k], replayed) {
      assert actions[k] == before[k] && actions[..k] == before[..k];
    }
    assert actions[|before|] == last && actions[..|before|] == before;
  }

  /** Replay, whatever anyone else does meanwhile: however messages that are stored already are sent
      again, the tables and all other calls are at every moment as if the statements of the repeated
      ingests had not been executed; and each of these ingests is over after its first statement and
      has answered `duplicate`, or `error` when that statement failed. */
  lemma {:induction false} ReplayIsInvisible(sys: System, actions: seq<Action>, replayed: set<nat>)
    requires forall c | c in replayed && c < |sys.calls| :: Echo(sys.db, sys.calls[c]) && sys.calls[c].at.InsertRaw?
    requires AllBeginEchoes(sys, actions, replayed)
    ensures Replayed(sys, actions, replayed)
    decreases |actions|
  {
    if |actions| > 0 {
      var before, last := actions[..|actions| - 1], actions[|actions| - 1];
      assert actions == before + [last];
      EchoesBefore(sys, before, last, replayed);
      ReplayIsInvisible(sys, before, replayed);
      ReplayedStep(sys, before, last, replayed);
    }
  }
}
