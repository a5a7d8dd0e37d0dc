/** Writers and readers agree: which rows the readers accept, and exactly when they would not. */
module Readback {
  import opened EpisodeTypes
  import opened Coordinator
  import opened Invariant
  import opened Runs
  import opened FirstSteps

  // ------------------------------------------------------------------ honest Evidence

  /** Lifecycle and outcome agree, as they do in everything an execution builds. */
  predicate Consistent(e: Evidence)
  {
    && CarriesEvidence(e.lifecycle.current)
    && e.lifecycle.events == EvidencePath(e.lifecycle.current)
    && e.outcome == OutcomeOf(e.lifecycle.current)
  }

  /** The envelope an execution of this request returns. */
  predicate BuiltByRun(p: Platform, request: Request, envelope: Envelope)
  {
    && envelope.apiVersion == API_VERSION && envelope.kind == ENVELOPE_KIND
    && envelope.evidence.Some?
    && var e := envelope.evidence.value;
    && e.apiVersion == API_VERSION && e.kind == EVIDENCE_KIND && e.format == EVIDENCE_FORMAT
    && e.episodeId == request.episodeId && e.bundleDigest == request.bundleDigest
    && e.scenarioPath == request.scenarioPath && e.runtime == request.runtime
    && Consistent(e)
    && envelope.evidenceDigest == p.evidenceDigest(e)
  }

  /** Worker Evidence is consistent; local Evidence was built for the request that completes. */
  predicate Honest(p: Platform, op: Op)
  {
    match op
    case OpComplete(_, _, _, envelope, _, _) => envelope.evidence.Some? ==> Consistent(envelope.evidence.value)
    case OpLocalComplete(request, _, envelope, _) => BuiltByRun(p, request, envelope)
    case _ => true
  }

  /** Digests separate requests and are never empty. */
  ghost predicate SoundDigests(p: Platform)
  {
    && (forall r, r' :: p.requestDigest(r) == p.requestDigest(r') ==> r == r')
    && (forall e :: p.evidenceDigest(e) != "")
  }

  lemma BuiltEvidenceIsAccepted(p: Platform, id: Id, row: EpisodeRow, envelope: Envelope)
    requires BuiltByRun(p, RequestOf(id, row), envelope)
    ensures EnvelopeOk(p, RequestOf(id, row), envelope)
  {
    var es := envelope.evidence.value.lifecycle.events;
    assert Chain(es);
  }

  // ----------------------------------------------------------------- the envelope gap

  /** The last event ends in the claimed status, and the outcome is the one of that status. */
  predicate Fits(e: Evidence)
    requires |e.lifecycle.events| > 0
  {
    LastTo(e.lifecycle.events) == e.lifecycle.current && e.outcome == OutcomeOf(e.lifecycle.current)
  }

  /**
   What completion does not check: an accepted envelope is readable afterwards exactly when its last event ends in the
   claimed status, its outcome is the one of that status, and the clock did not fall behind the creation of the row.
   */
  lemma EnvelopeGap(p: Platform, db: Db, op: Op)
    requires Inv(p, db) && op.OpComplete?
    requires Step(p, db, op).reply == Accepted(op.envelope, false)
    ensures op.id in db.episodes && op.envelope.evidence.Some? && |op.envelope.evidence.value.lifecycle.events| == 6
    ensures Readable(p, Step(p, db, op).db, op.id) <==>
      db.episodes[op.id].createdAt <= op.now && Fits(op.envelope.evidence.value)
  {
    LeaseHolder(p, db, op.id);
    var db' := Step(p, db, op).db;
    assert RequestOf(op.id, db'.episodes[op.id]) == RequestOf(op.id, db.episodes[op.id]);
    var e := op.envelope.evidence.value;
    assert e.lifecycle == Lifecycle(e.lifecycle.current, e.lifecycle.events);
  }

  /** The winning completion sent again at any later time: the stored Evidence under those conditions, and else an error. */
  lemma ReplayOutcome(p: Platform, db: Db, win: Op, between: seq<Op>, again: Op)
    requires Inv(p, db) && win.OpComplete? && again.OpComplete?
    requires Step(p, db, win).reply == Accepted(win.envelope, false)
    requires again.id == win.id && again.aid == win.aid && again.fence == win.fence
    requires again.envelope.evidence.Some? && again.envelope.evidenceDigest == win.envelope.evidenceDigest
    ensures win.id in db.episodes && win.envelope.evidence.Some? && |win.envelope.evidence.value.lifecycle.events| == 6
    ensures var db' := Run(p, Step(p, db, win).db, between);
      Step(p, db', again) ==
        if db.episodes[win.id].createdAt <= win.now && Fits(win.envelope.evidence.value)
        then Result(db', Accepted(win.envelope, true)) else Rejected(db', Corrupt)
  {
    EnvelopeGap(p, db, win);
    ReplayReturnsStored(p, db, win, between, again);
  }

  /** Evidence that claims success while its last event says the assertions failed. */
  function TwoFaced(p: Platform, r: Request): Envelope
  {
    var e := Evidence(API_VERSION, EVIDENCE_KIND, EVIDENCE_FORMAT, r.episodeId, r.bundleDigest, r.scenarioPath, r.runtime,
                      Lifecycle(Succeeded, EvidencePath(AssertionFailed)), OutcomeOf(Succeeded), Report(true, ""));
    Envelope(API_VERSION, ENVELOPE_KIND, Some(e), p.evidenceDigest(e))
  }

  /** For every request there is a run in which completion accepts such Evidence and leaves a row that no reader accepts. */
  lemma AcceptedButUnreadable(p: Platform, r: Request)
    requires p.encodedBytes(TwoFaced(p, r)) <= MAX_REPORT_BYTES
    ensures var db := Run(p, EMPTY, SubmitOps(r, true) + [CLAIM]);
      var op := OpComplete(r.episodeId, AttemptId("0"), 1, TwoFaced(p, r), 0, 0);
      && Step(p, db, op).reply == Accepted(TwoFaced(p, r), false)
      && !Readable(p, Step(p, db, op).db, r.episodeId)
  {
    var submit := SubmitOps(r, true);
    var db0 := Run(p, EMPTY, submit);
    Submitted(p, r, true);
    ClaimedOnly(p, db0, r.episodeId);
    RunAppend(p, EMPTY, submit, CLAIM);
    var db := Run(p, EMPTY, submit + [CLAIM]);
    EmptyInv(p);
    RunInv(p, EMPTY, submit + [CLAIM]);
    TwoFacedAccepted(p, r, db);
    EnvelopeGap(p, db, OpComplete(r.episodeId, AttemptId("0"), 1, TwoFaced(p, r), 0, 0));
  }

  lemma TwoFacedIsOk(p: Platform, r: Request)
    ensures EnvelopeOk(p, r, TwoFaced(p, r)) && TwoFaced(p, r).evidence.Some?
  {
    assert Chain(EvidencePath(AssertionFailed));
  }

  lemma TwoFacedAccepted(p: Platform, r: Request, db: Db)
    requires p.encodedBytes(TwoFaced(p, r)) <= MAX_REPORT_BYTES
    requires Holds(db, r.episodeId, AttemptId("0"), 1) && !db.tasks[r.episodeId].cancel
    requires r.episodeId in db.episodes && RequestOf(r.episodeId, db.episodes[r.episodeId]) == r
    requires db.episodes[r.episodeId].status.Created? && db.episodes[r.episodeId].sequence == 0
    requires AttemptId("0") in db.attempts && db.attempts[AttemptId("0")].state.AttemptLeased? && db.attempts[AttemptId("0")].leaseUntil == 1
    ensures Step(p, db, OpComplete(r.episodeId, AttemptId("0"), 1, TwoFaced(p, r), 0, 0)).reply == Accepted(TwoFaced(p, r), false)
  {
    TwoFacedIsOk(p, r);
    hide TwoFaced, EnvelopeOk, AttemptId, CompletedDb;
  }

  // -------------------------------------------------------------- readers in every run

  predicate EpisodeReads(p: Platform, db: Db, t: Instant, id: Id)
  {
    id in db.episodes ==> Readable(p, db, id) && db.episodes[id].updatedAt <= t
  }

  predicate TaskStamped(db: Db, t: Instant, id: Id)
  {
    id in db.tasks ==> db.tasks[id].createdAt <= db.tasks[id].updatedAt <= t
  }

  predicate AttemptStamped(db: Db, t: Instant, aid: Id)
  {
    aid in db.attempts && db.attempts[aid].episodeId in db.tasks ==>
      db.tasks[db.attempts[aid].episodeId].createdAt <= db.attempts[aid].createdAt <= db.attempts[aid].updatedAt <= t
  }

  ghost predicate ReadInv(p: Platform, db: Db, t: Instant)
  {
    && (forall id {:trigger EpisodeReads(p, db, t, id)} :: EpisodeReads(p, db, t, id))
    && (forall id {:trigger TaskStamped(db, t, id)} :: TaskStamped(db, t, id))
    && (forall aid {:trigger AttemptStamped(db, t, aid)} :: AttemptStamped(db, t, aid))
  }

  lemma ReadFrame(p: Platform, db: Db, db': Db, t: Instant, t': Instant, id0: Id, aid0: Id)
    requires Inv(p, db) && ReadInv(p, db, t) && t <= t' && Touches(db, db', id0, aid0)
    requires EpisodeReads(p, db', t', id0) && TaskStamped(db', t', id0)
    requires id0 in db.tasks ==> id0 in db'.tasks && db'.tasks[id0].createdAt == db.tasks[id0].createdAt
    requires AttemptStamped(db', t', aid0)
    ensures ReadInv(p, db', t')
  {
    forall id ensures EpisodeReads(p, db', t', id) && TaskStamped(db', t', id) {
      if id != id0 {
        assert SameAt(db.episodes, db'.episodes, id) && SameAt(db.events, db'.events, id) && SameAt(db.tasks, db'.tasks, id);
        assert EpisodeReads(p, db, t, id) && TaskStamped(db, t, id);
      }
    }
    forall aid ensures AttemptStamped(db', t', aid) {
      if aid != aid0 && aid in db'.attempts {
        assert SameAt(db.attempts, db'.attempts, aid);
        assert AttemptOk(db, aid) && AttemptStamped(db, t, aid);
        assert db.attempts[aid].episodeId != id0 ==> SameAt(db.tasks, db'.tasks, db.attempts[aid].episodeId);
      }
    }
  }

  lemma LaterReads(p: Platform, db: Db, t: Instant, t': Instant)
    requires ReadInv(p, db, t) && t <= t'
    ensures ReadInv(p, db, t')
  {
    forall id ensures EpisodeReads(p, db, t', id) && TaskStamped(db, t', id) {
      assert EpisodeReads(p, db, t, id) && TaskStamped(db, t, id);
    }
    forall aid ensures AttemptStamped(db, t', aid) {
      assert AttemptStamped(db, t, aid);
    }
  }

  lemma ReserveReads(p: Platform, db: Db, op: Op, t: Instant)
    requires Inv(p, db) && ReadInv(p, db, t) && t <= op.now && op.OpReserve?
    ensures ReadInv(p, Step(p, db, op).db, op.now)
  {
    hide Inv;
    LaterReads(p, db, t, op.now);
    var db' := Step(p, db, op).db;
    var id := op.request.episodeId;
    if Step(p, db, op).reply.Done? {
      NoBlankAttempt(p, db);
      NewcomerHasNoTask(p, db, id);
      assert RequestOf(id, db'.episodes[id]) == op.request;
      ReadFrame(p, db, db', t, op.now, id, "");
    }
  }

  lemma EnqueueReads(p: Platform, db: Db, op: Op, t: Instant)
    requires Inv(p, db) && ReadInv(p, db, t) && t <= op.now && op.OpEnqueue?
    ensures ReadInv(p, Step(p, db, op).db, op.now)
  {
    hide Inv, Readable;
    LaterReads(p, db, t, op.now);
    if Step(p, db, op).reply.Done? {
      NoBlankAttempt(p, db);
      assert EpisodeReads(p, db, op.now, op.id);
      SameRowReads(p, db, Step(p, db, op).db, op.now, op.id);
      ReadFrame(p, db, Step(p, db, op).db, t, op.now, op.id, "");
    }
  }

  lemma SameRowReads(p: Platform, db: Db, db': Db, t: Instant, id: Id)
    requires EpisodeReads(p, db, t, id) && db'.episodes == db.episodes && db'.events == db.events
    ensures EpisodeReads(p, db', t, id)
  {
  }

  lemma LeasedStepReads(p: Platform, db: Db, op: Op, t: Instant)
    requires Inv(p, db) && ReadInv(p, db, t) && t <= op.now && (op.OpHeartbeat? || op.OpFail?)
    ensures ReadInv(p, Step(p, db, op).db, op.now)
  {
    hide Readable, Chain;
    LaterReads(p, db, t, op.now);
    var db' := Step(p, db, op).db;
    if db' != db {
      LeaseStepTouches(p, db, op);
      assert EpisodeReads(p, db, t, op.id) && TaskStamped(db, t, op.id) && AttemptStamped(db, t, op.aid);
      CancelledStillReads(p, db, db', t, op.now, op.id);
      ReadFrame(p, db, db', t, op.now, op.id, op.aid);
    }
  }

  /** Rows are readable when unchanged, or freshly cancelled. */
  lemma CancelledStillReads(p: Platform, db: Db, db': Db, t: Instant, now: Instant, id: Id)
    requires id in db.episodes && id in db'.episodes && id in db.events && id in db'.events
    requires EpisodeReads(p, db, t, id) && t <= now
    requires || (db'.episodes[id] == db.episodes[id] && db'.events[id] == db.events[id])
             || (db'.episodes[id] == CancelledRow(db.episodes[id], now) && db'.events[id] == CancelledEvents(db.episodes[id], db.events[id]))
    ensures EpisodeReads(p, db', now, id)
  {
    var row := db.episodes[id];
    assert RequestOf(id, db'.episodes[id]) == RequestOf(id, row);
    if row.status.Created? && row.sequence == 0 {
      ChainAppend(db.events[id], Event(1, Some(Created), Cancelled));
    }
  }

  lemma CompleteReads(p: Platform, db: Db, op: Op, t: Instant)
    requires Inv(p, db) && ReadInv(p, db, t) && t <= op.now && op.OpComplete? && Honest(p, op)
    ensures ReadInv(p, Step(p, db, op).db, op.now)
  {
    hide Inv, EventsOk, Chain, EnvelopeOk, TaskOk;
    LaterReads(p, db, t, op.now);
    if Step(p, db, op).reply.Accepted? && !Step(p, db, op).reply.reused {
      LeaseStepTouches(p, db, op);
      assert EpisodeReads(p, db, t, op.id) && TaskStamped(db, t, op.id) && AttemptStamped(db, t, op.aid);
      EnvelopeGap(p, db, op);
      ReadFrame(p, db, Step(p, db, op).db, t, op.now, op.id, op.aid);
    }
  }

  lemma CancelReads(p: Platform, db: Db, op: Op, t: Instant)
    requires Inv(p, db) && ReadInv(p, db, t) && t <= op.now && op.OpCancel?
    ensures ReadInv(p, Step(p, db, op).db, op.now)
  {
    hide Readable, Chain, LastAttempt;
    LaterReads(p, db, t, op.now);
    if Step(p, db, op).reply.Done? {
      var db' := Step(p, db, op).db;
      NoBlankAttempt(p, db);
      assert TaskOk(db, op.id) && EpisodeOk(p, db, op.id);
      assert EpisodeReads(p, db, t, op.id) && TaskStamped(db, t, op.id);
      CancelledStillReads(p, db, db', t, op.now, op.id);
      ReadFrame(p, db, db', t, op.now, op.id, "");
    }
  }

  lemma RecoverReads(p: Platform, db: Db, now: Instant, t: Instant)
    requires Inv(p, db) && ReadInv(p, db, t) && t <= now
    ensures ReadInv(p, Recover(p, db, now).db, now)
  {
    LaterReads(p, db, t, now);
    if !Blocked(p, db, now) {
      var db' := Recover(p, db, now).db;
      forall id ensures EpisodeReads(p, db', now, id) && TaskStamped(db', now, id) {
        assert EpisodeReads(p, db, t, id) && TaskStamped(db, t, id);
        if id in db.episodes {
          CancelledStillReads(p, db, db', t, now, id);
        }
      }
      forall aid ensures AttemptStamped(db', now, aid) {
        assert AttemptStamped(db, t, aid);
      }
    }
  }

  lemma LeaseReads(p: Platform, db: Db, id: Id, worker: Id, aid: Id, until: Instant, now: Instant)
    requires Inv(p, db) && ReadInv(p, db, now) && id in db.tasks && db.tasks[id].state.TaskQueued? && aid !in db.attempts
    ensures ReadInv(p, Lease(db, id, worker, aid, until, now), now)
  {
    assert EpisodeReads(p, db, now, id) && TaskStamped(db, now, id);
    ReadFrame(p, db, Lease(db, id, worker, aid, until, now), now, now, id, aid);
  }

  lemma ClaimReads(p: Platform, db: Db, op: Op, t: Instant)
    requires Inv(p, db) && ReadInv(p, db, t) && t <= op.now && op.OpClaim?
    ensures ReadInv(p, Step(p, db, op).db, op.now)
  {
    hide Recover, Inv, ReadInv, Lease, First;
    LaterReads(p, db, t, op.now);
    if Step(p, db, op).reply.Claimed? {
      var mid := Recover(p, db, op.now).db;
      RecoverReads(p, db, op.now, t);
      RecoverInv(p, db, op.now);
      var id := ClaimShape(p, db, op);
      LeaseReads(p, mid, id, op.worker, AttemptId(op.nonce), op.now + op.lease, op.now);
    }
  }

  /** One more allowed event, towards a status without Evidence, leaves a readable row. */
  lemma AdvancedReads(p: Platform, db: Db, id: Id, row: EpisodeRow, e: Event, t: Instant, now: Instant)
    requires id in db.episodes && id in db.events && EpisodeReads(p, db, t, id) && t <= now
    requires row == db.episodes[id].(status := e.to, sequence := e.sequence, updatedAt := now, errorClass := row.errorClass)
    requires e.sequence == db.episodes[id].sequence + 1 && e.from == Some(db.episodes[id].status)
    requires AllowedTransition(db.episodes[id].status, e.to) && !CarriesEvidence(e.to)
    requires row.errorClass == if e.to.RuntimeError? then "RUNTIME_ERROR" else db.episodes[id].errorClass
    requires !IsTerminal(e.to) || e.to.RuntimeError?
    ensures EpisodeReads(p, Advance(db, id, row, e), now, id)
  {
    assert RequestOf(id, row) == RequestOf(id, db.episodes[id]);
    ChainAppend(db.events[id], e);
  }

  /** A local transition or failure, as one more event on the row. */
  lemma LocalStepAdvances(p: Platform, db: Db, op: Op) returns (row: EpisodeRow, e: Event)
    requires (op.OpLocalAppend? || op.OpLocalFail?) && Step(p, db, op).reply.Done?
    ensures var id := op.request.episodeId;
      && id in db.episodes && id in db.events && Step(p, db, op).db == Advance(db, id, row, e)
      && row == db.episodes[id].(status := e.to, sequence := e.sequence, updatedAt := op.now, errorClass := row.errorClass)
      && e.sequence == db.episodes[id].sequence + 1 && e.from == Some(db.episodes[id].status)
      && AllowedTransition(db.episodes[id].status, e.to) && !CarriesEvidence(e.to)
      && row.errorClass == (if e.to.RuntimeError? then "RUNTIME_ERROR" else db.episodes[id].errorClass)
      && (!IsTerminal(e.to) || e.to.RuntimeError?)
  {
    var id := op.request.episodeId;
    row, e := Step(p, db, op).db.episodes[id], Step(p, db, op).db.events[id][|db.events[id]|];
  }

  lemma LocalStepReads(p: Platform, db: Db, op: Op, t: Instant)
    requires Inv(p, db) && ReadInv(p, db, t) && t <= op.now && (op.OpLocalAppend? || op.OpLocalFail?)
    ensures ReadInv(p, Step(p, db, op).db, op.now)
  {
    hide Inv, Readable;
    LaterReads(p, db, t, op.now);
    if Step(p, db, op).reply.Done? {
      var id := op.request.episodeId;
      var row, e := LocalStepAdvances(p, db, op);
      NoBlankAttempt(p, db);
      assert EpisodeReads(p, db, t, id) && TaskStamped(db, t, id);
      AdvancedReads(p, db, id, row, e, t, op.now);
      ReadFrame(p, db, Step(p, db, op).db, t, op.now, id, "");
    }
  }

  lemma EvidencePathIsChain(terminal: Status)
    requires CarriesEvidence(terminal)
    ensures Chain(EvidencePath(terminal)) && |EvidencePath(terminal)| == 6 && LastTo(EvidencePath(terminal)) == terminal
    ensures EvidencePath(terminal)[5] == Event(5, Some(Evaluating), terminal)
  {
  }

  /** Local completion leaves a readable row: the journaled events are those of the Evidence. */
  lemma CompletedLocallyReads(p: Platform, db: Db, op: Op)
    requires op.OpLocalComplete? && Honest(p, op) && SoundDigests(p) && Step(p, db, op).reply.Done?
    requires Readable(p, db, op.request.episodeId) && db.episodes[op.request.episodeId].updatedAt <= op.now
    ensures Readable(p, Step(p, db, op).db, op.request.episodeId)
  {
    hide Chain, EvidencePath;
    var id := op.request.episodeId;
    var db' := Step(p, db, op).db;
    assert RequestOf(id, db.episodes[id]) == op.request == RequestOf(id, db'.episodes[id]);
    var e := op.envelope.evidence.value;
    EvidencePathIsChain(e.lifecycle.current);
    EvaluatingPath(db.events[id], e.lifecycle.current);
    assert e.lifecycle == Lifecycle(e.lifecycle.current, db'.events[id]);
  }

  lemma LocalCompleteReads(p: Platform, db: Db, op: Op, t: Instant)
    requires Inv(p, db) && ReadInv(p, db, t) && t <= op.now && op.OpLocalComplete? && Honest(p, op) && SoundDigests(p)
    ensures ReadInv(p, Step(p, db, op).db, op.now)
  {
    hide Inv, Readable, Honest, SoundDigests;
    LaterReads(p, db, t, op.now);
    if Step(p, db, op).reply.Done? {
      var id := op.request.episodeId;
      NoBlankAttempt(p, db);
      assert EpisodeReads(p, db, t, id) && TaskStamped(db, t, id);
      CompletedLocallyReads(p, db, op);
      ReadFrame(p, db, Step(p, db, op).db, t, op.now, id, "");
    }
  }

  lemma StepReads(p: Platform, db: Db, op: Op, t: Instant)
    requires Inv(p, db) && ReadInv(p, db, t) && t <= op.now && Honest(p, op) && SoundDigests(p)
    ensures ReadInv(p, Step(p, db, op).db, op.now)
  {
    match op
    case OpReserve(_, _) => ReserveReads(p, db, op, t);
    case OpEnqueue(_, _, _, _, _, _) => EnqueueReads(p, db, op, t);
    case OpClaim(_, _, _, _, _) => ClaimReads(p, db, op, t);
    case OpHeartbeat(_, _, _, _, _) => LeasedStepReads(p, db, op, t);
    case OpFail(_, _, _, _, _, _) => LeasedStepReads(p, db, op, t);
    case OpComplete(_, _, _, _, _, _) => CompleteReads(p, db, op, t);
    case OpCancel(_, _) => CancelReads(p, db, op, t);
    case OpRecover(now) => RecoverReads(p, db, now, t);
    case OpLocalComplete(_, _, _, _) => LocalCompleteReads(p, db, op, t);
    case _ => LocalStepReads(p, db, op, t);
  }

  /** The clock never runs backwards from one commit to the next. */
  predicate Ordered(t: Instant, ops: seq<Op>)
    decreases |ops|
  {
    ops == [] || (t <= ops[0].now && Ordered(ops[0].now, ops[1..]))
  }

  function LastTime(t: Instant, ops: seq<Op>): Instant
  {
    if ops == [] then t else ops[|ops| - 1].now
  }

  lemma {:induction false} RunReads(p: Platform, db: Db, ops: seq<Op>, t: Instant)
    requires Inv(p, db) && ReadInv(p, db, t) && SoundDigests(p) && Ordered(t, ops)
    requires forall k :: 0 <= k < |ops| ==> Honest(p, ops[k])
    ensures Inv(p, Run(p, db, ops)) && ReadInv(p, Run(p, db, ops), LastTime(t, ops))
    decreases |ops|
  {
    hide Step, ReadInv, Inv, Honest;
    if ops != [] {
      StepInv(p, db, ops[0]);
      StepReads(p, db, ops[0], t);
      RunReads(p, Step(p, db, ops[0]).db, ops[1..], ops[0].now);
    }
  }

  /**
   Writer and reader agree: in every run of both lanes with honest Evidence, every Episode row is accepted
   by the readers, its events are those of the stored Evidence, and Evidence always shows the one path to success
   or assertion failure.
   */
  lemma EveryRowReads(p: Platform, ops: seq<Op>, t: Instant, id: Id)
    requires SoundDigests(p) && Ordered(t, ops) && (forall k :: 0 <= k < |ops| ==> Honest(p, ops[k]))
    requires id in Run(p, EMPTY, ops).episodes
    ensures var db := Run(p, EMPTY, ops);
      && Readable(p, db, id)
      && (db.episodes[id].evidence.Some? ==>
            && db.events[id] == EvidencePath(db.episodes[id].status)
            && db.episodes[id].evidence.value.evidence.value.lifecycle.events == db.events[id])
  {
    hide Step, Inv;
    var db := Run(p, EMPTY, ops);
    EmptyInv(p);
    assert ReadInv(p, EMPTY, t);
    RunReads(p, EMPTY, ops, t);
    assert EpisodeReads(p, db, LastTime(t, ops), id);
    if db.episodes[id].evidence.Some? {
      EvidenceEndsThePath(db.events[id]);
    }
  }

  /** A history that ends with Evidence is the one path there. */
  lemma EvidenceEndsThePath(es: seq<Event>)
    requires Chain(es) && CarriesEvidence(LastTo(es))
    ensures es == EvidencePath(LastTo(es))
  {
    ChainRank(es, |es| - 1);
    assert AllowedTransition(es[|es| - 2].to, LastTo(es));
    assert Chain(es[..|es| - 1]);
    EvaluatingPath(es[..|es| - 1], LastTo(es));
    ChainRank(es, |es| - 2);
    assert es == es[..|es| - 1] + [es[|es| - 1]];
  }

  // ------------------------------------------------------------------------ GetTask

  /** SELECT ... WHERE episode_id = ? ORDER BY attempt_number, for numbers up to n. */
  ghost function AttemptRows(db: Db, id: Id, n: int): seq<Id>
    decreases n
  {
    if n <= 0 then []
    else AttemptRows(db, id, n - 1) + (if aid :| Is(db, id, n, aid) then [aid] else [])
  }

  /** The checks on a task record read back together with its Episode and attempts. */
  ghost predicate TaskRecordValid(db: Db, id: Id)
    requires id in db.tasks && id in db.episodes
  {
    var t, rows := db.tasks[id], AttemptRows(db, id, MAX_EPISODE_ATTEMPTS);
    && t.createdAt <= t.updatedAt
    && t.attemptCount == |rows| && t.attemptCount <= t.maxAttempts && 1 <= t.maxAttempts <= MAX_EPISODE_ATTEMPTS
    && (forall k :: 0 <= k < |rows| ==>
          && rows[k] in db.attempts
          && var a := db.attempts[rows[k]];
          && a.episodeId == id && a.number == k + 1 && 0 < a.fence <= t.fence
          && t.createdAt <= a.createdAt <= a.updatedAt)
    && match t.state
       case TaskQueued => t.active == "" && t.finalAttempt == "" && t.finalDigest == ""
       case TaskLeased =>
         && t.active != "" && |rows| > 0
         && var last := rows[|rows| - 1];
         && last == t.active && db.attempts[last].state.AttemptLeased? && db.attempts[last].fence == t.fence
       case TaskCompleted =>
         && t.active == "" && t.finalAttempt != "" && t.finalDigest != ""
         && db.episodes[id].evidence.Some? && db.episodes[id].evidenceDigest == t.finalDigest && |rows| > 0
         && var last := rows[|rows| - 1];
         && last == t.finalAttempt && db.attempts[last].state.AttemptCompleted? && db.attempts[last].commit.CommitCommitted?
       case _ => t.active == "" && t.finalAttempt == "" && t.finalDigest == ""
  }

  lemma {:induction false} RowsAreNumbered(p: Platform, db: Db, id: Id, n: int)
    requires Inv(p, db) && id in db.tasks && 0 <= n
    ensures var rows := AttemptRows(db, id, n); var count := db.tasks[id].attemptCount;
      && |rows| == (if n <= count then n else count)
      && (forall k :: 0 <= k < |rows| ==> Is(db, id, k + 1, rows[k]))
    decreases n
  {
    assert TaskOk(db, id) && Numbered(db, id);
    if n > 0 {
      RowsAreNumbered(p, db, id, n - 1);
      if n <= db.tasks[id].attemptCount {
        assert HasNumber(db, id, n);
      } else {
        forall aid ensures !Is(db, id, n, aid) {
          assert aid in db.attempts ==> AttemptOk(db, aid);
        }
      }
    }
  }

  /** Given readable rows and a clock that never ran backwards, every task record validates. */
  lemma TaskRecordsValid(p: Platform, db: Db, t: Instant, id: Id)
    requires Inv(p, db) && ReadInv(p, db, t) && SoundDigests(p) && id in db.tasks
    ensures id in db.episodes && TaskRecordValid(db, id)
  {
    var rows := AttemptRows(db, id, MAX_EPISODE_ATTEMPTS);
    var task := db.tasks[id];
    assert TaskOk(db, id) && Numbered(db, id);
    assert TaskStamped(db, t, id) && EpisodeReads(p, db, t, id);
    RowsAreNumbered(p, db, id, MAX_EPISODE_ATTEMPTS);
    forall k | 0 <= k < |rows| ensures AttemptOk(db, rows[k]) && AttemptStamped(db, t, rows[k]) {
      assert Is(db, id, k + 1, rows[k]);
    }
    if task.state.TaskLeased? || task.state.TaskCompleted? {
      var last := if task.state.TaskLeased? then task.active else task.finalAttempt;
      assert AttemptOk(db, last);
      assert Is(db, id, task.attemptCount, last) && Is(db, id, task.attemptCount, rows[|rows| - 1]);
    }
  }

  /** Every reachable task record validates. */
  lemma EveryTaskReads(p: Platform, ops: seq<Op>, t: Instant, id: Id)
    requires SoundDigests(p) && Ordered(t, ops) && (forall k :: 0 <= k < |ops| ==> Honest(p, ops[k]))
    requires id in Run(p, EMPTY, ops).tasks
    ensures id in Run(p, EMPTY, ops).episodes && TaskRecordValid(Run(p, EMPTY, ops), id)
  {
    EmptyInv(p);
    assert ReadInv(p, EMPTY, t);
    RunReads(p, EMPTY, ops, t);
    TaskRecordsValid(p, Run(p, EMPTY, ops), LastTime(t, ops), id);
  }

  /**
   The clock matters: a claim reads its time before its transaction begins. The record of a task it leases
   validates exactly when that time is not before the task's creation.
   */
  lemma ClaimValidIffClock(p: Platform, db: Db, t: Instant, id: Id, worker: Id, aid: Id, until: Instant, now: Instant)
    requires Inv(p, db) && ReadInv(p, db, t) && SoundDigests(p)
    requires id in db.tasks && db.tasks[id].state.TaskQueued? && aid !in db.attempts && aid != ""
    ensures id in Lease(db, id, worker, aid, until, now).episodes
    ensures TaskRecordValid(Lease(db, id, worker, aid, until, now), id) <==> db.tasks[id].createdAt <= now
  {
    var db' := Lease(db, id, worker, aid, until, now);
    var rows := AttemptRows(db', id, MAX_EPISODE_ATTEMPTS);
    assert TaskOk(db, id);
    LeaseInv(p, db, id, worker, aid, until, now);
    LeaseHolder(p, db', id);
    RowsAreNumbered(p, db', id, MAX_EPISODE_ATTEMPTS);
    assert Is(db', id, |rows|, aid) && Is(db', id, |rows|, rows[|rows| - 1]);
    assert TaskStamped(db, t, id);
    forall k | 0 <= k < |rows| ensures AttemptOk(db', rows[k]) && (rows[k] != aid ==> AttemptStamped(db, t, rows[k])) {
      assert Is(db', id, k + 1, rows[k]);
    }
  }
}
