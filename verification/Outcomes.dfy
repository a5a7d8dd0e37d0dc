/**
 What the coordinator's transactions do, column by column: who is answered how, and which values the rows hold afterwards.
 Everything is stated on the tables, with the values themselves.
 */
module Outcomes {
  import opened EpisodeTypes
  import opened Coordinator
  import opened Invariant
  import opened Runs
  import opened Text

  // ----------------------------------------------------------------------- recovery

  /** The task is leased, and its lease counts as expired. */
  predicate LeaseOver(p: Platform, db: Db, now: Instant, id: Id)
  {
    && id in db.tasks && db.tasks[id].state.TaskLeased? && db.tasks[id].active in db.attempts
    && p.expired(db.attempts[db.tasks[id].active].leaseUntil, now)
  }

  /** Of the task and its attempt only these columns change when a lease ends. */
  predicate LeaseEnds(t: Task, a: Attempt, t': Task, a': Attempt, errorClass: string, now: Instant)
  {
    && t' == t.(state := t'.state, active := "", updatedAt := now)
    && a' == a.(state := a'.state, commit := a'.commit, errorClass := errorClass, updatedAt := now)
  }

  /** A parent that has not moved is cancelled, with the event that says so; one already cancelled stays as it is. */
  predicate ParentStops(db: Db, db': Db, id: Id, now: Instant)
  {
    && id in db.episodes && id in db.events && id in db'.episodes && id in db'.events
    && var row := db.episodes[id];
    && if row.status == Created then
         && db'.episodes[id] == row.(status := Cancelled, sequence := 1, errorClass := "CANCELLED", updatedAt := now)
         && db'.events[id] == [Event(0, None, Created), Event(1, Some(Created), Cancelled)]
       else row.status == Cancelled && db'.episodes[id] == row && db'.events[id] == db.events[id]
  }

  /** This Episode's row and events are as they were. */
  predicate ParentStays(db: Db, db': Db, id: Id)
  {
    && (id in db.episodes <==> id in db'.episodes) && (id in db.episodes ==> db'.episodes[id] == db.episodes[id])
    && (id in db.events <==> id in db'.events) && (id in db.events ==> db'.events[id] == db.events[id])
  }

  lemma CancelledParent(p: Platform, db: Db, ids: set<Id>, id: Id, now: Instant)
    requires EpisodeOk(p, db, id) && id in db.episodes
    ensures id in ids && ParentCancellable(db, id) ==> ParentStops(db, CancelParents(db, ids, now), id, now)
    ensures id !in ids ==> ParentStays(db, CancelParents(db, ids, now), id)
  {
    OneEvent(p, db, id);
    CreatedIsAtZero(p, db, id);
  }

  /** At most this parent is cancelled, and all others stay. */
  ghost predicate OneParent(db: Db, db': Db, id: Id, stops: bool, now: Instant)
  {
    (forall x :: x != id || !stops ==> ParentStays(db, db', x)) && (stops ==> ParentStops(db, db', id, now))
  }

  lemma OneCancelled(p: Platform, db: Db, mid: Db, id: Id, now: Instant)
    requires EpisodeOk(p, db, id) && ParentCancellable(db, id) && mid.episodes == db.episodes && mid.events == db.events
    ensures OneParent(db, CancelParents(mid, {id}, now), id, true, now)
  {
    CancelledParent(p, db, {id}, id, now);
    assert CancelParents(mid, {id}, now).episodes == CancelParents(db, {id}, now).episodes;
    assert CancelParents(mid, {id}, now).events == CancelParents(db, {id}, now).events;
  }

  lemma OneEvent(p: Platform, db: Db, id: Id)
    requires EpisodeOk(p, db, id) && id in db.episodes
    ensures db.episodes[id].sequence == 0 ==> db.events[id] == [Event(0, None, Created)]
  {
  }

  /**
   What recovery makes of each expired lease: an external effect stays in doubt; a hermetic one has had none, and the task
   is cancelled if that was asked for, goes back to the queue while it has attempts left, and fails otherwise.
   */
  lemma RecoveredLease(p: Platform, db: Db, now: Instant, id: Id)
    requires Inv(p, db) && !Recover(p, db, now).reply.Failed? && LeaseOver(p, db, now, id)
    ensures var db' := Recover(p, db, now).db; var t := db.tasks[id];
      && id in db'.tasks && t.active in db'.attempts && db.attempts[t.active].episodeId == id
      && var t', a' := db'.tasks[id], db'.attempts[t.active];
      && LeaseEnds(t, db.attempts[t.active], t', a', "LEASE_EXPIRED", now)
      && (t.profile.External? ==> (t'.state, a'.state, a'.commit) == (TaskCommitUnknown, AttemptCommitUnknown, CommitUnknown))
      && (t.profile.Hermetic? && t.cancel ==>
            && (t'.state, a'.state, a'.commit) == (TaskCancelled, AttemptCancelled, CommitNoEffect)
            && ParentStops(db, db', id, now))
      && (t.profile.Hermetic? && !t.cancel && t.attemptCount < t.maxAttempts ==>
            && (t'.state, a'.state, a'.commit) == (TaskQueued, AttemptExpired, CommitNoEffect)
            && id in Candidates(db', None) && id in Candidates(db', Some(Hermetic)))
      && (t.profile.Hermetic? && !t.cancel && t.attemptCount >= t.maxAttempts ==>
            (t'.state, a'.state, a'.commit) == (TaskFailed, AttemptExpired, CommitNoEffect))
  {
    LeaseHolder(p, db, id);
    assert id in Selection(p, db, now);
    assert ActiveIn(db, Selection(p, db, now), db.tasks[id].active);
    if db.tasks[id].profile.Hermetic? && db.tasks[id].cancel {
      assert id in CancelledIn(db, Selection(p, db, now));
    }
  }

  function LeasesOver(p: Platform, db: Db, now: Instant): set<Id>
  {
    set id | id in db.tasks && LeaseOver(p, db, now, id)
  }

  /** Recovery reports how many leases are over, leaves every other task alone, and every attempt that holds none of them. */
  lemma RecoveredRest(p: Platform, db: Db, now: Instant, id: Id, aid: Id)
    requires Inv(p, db) && !Recover(p, db, now).reply.Failed?
    ensures Recover(p, db, now).reply == Count(|LeasesOver(p, db, now)|)
    ensures var db' := Recover(p, db, now).db;
      && db'.tasks.Keys == db.tasks.Keys && db'.attempts.Keys == db.attempts.Keys && db'.episodes.Keys == db.episodes.Keys
      && (id in db.tasks && !LeaseOver(p, db, now, id) ==> db'.tasks[id] == db.tasks[id])
      && (!(LeaseOver(p, db, now, id) && db.tasks[id].profile.Hermetic? && db.tasks[id].cancel) ==> ParentStays(db, db', id))
      && (aid in db.attempts && !(exists x :: LeaseOver(p, db, now, x) && db.tasks[x].active == aid) ==> db'.attempts[aid] == db.attempts[aid])
  {
    var ids := Selection(p, db, now);
    forall x | x in db.tasks && db.tasks[x].state.TaskLeased? ensures x in ids <==> LeaseOver(p, db, now, x) {
      LeaseHolder(p, db, x);
    }
    assert LeasesOver(p, db, now) == ids;
    if aid in db.attempts && ActiveIn(db, ids, aid) {
      assert LeaseOver(p, db, now, db.attempts[aid].episodeId);
    }
  }

  // ------------------------------------------------------------------------- claims

  /** A letter or digit, then at most 127 letters, digits, dots, underscores and hyphens. */
  predicate WorkerName(s: string)
  {
    && 1 <= |s| <= 128
    && (forall i :: 0 <= i < |s| ==>
          'a' <= s[i] <= 'z' || 'A' <= s[i] <= 'Z' || '0' <= s[i] <= '9' || (i > 0 && s[i] in {'.', '_', '-'}))
  }

  /** At most an hour, in nanoseconds. */
  predicate LeaseLength(lease: int)
  {
    0 < lease <= 3_600_000_000_000
  }

  /** The task waits for a worker of this kind. */
  predicate Waiting(db: Db, want: Option<Effect>, id: Id)
  {
    && id in db.tasks && id in db.episodes && db.tasks[id].state.TaskQueued? && !db.tasks[id].cancel
    && (want.Some? ==> want.value == db.tasks[id].profile)
  }

  /** A claim leases something exactly when its arguments are in order, recovery succeeds, a task waits, and its ID is new. */
  lemma ClaimedIff(p: Platform, db: Db, op: Op)
    requires op.OpClaim?
    ensures var mid := Recover(p, db, op.now).db; var valid := WorkerName(op.worker) && LeaseLength(op.lease);
      var recovers := !Recover(p, db, op.now).reply.Failed?; var waits := exists id :: Waiting(mid, op.want, id);
      && (Step(p, db, op).reply.Claimed? <==> valid && recovers && waits && "att_" + op.nonce !in mid.attempts)
      && (Step(p, db, op).reply == Failed(Invalid) <==> !valid)
      && (Step(p, db, op).reply == Failed(NoClaimable) <==> valid && recovers && !waits)
      && (!Step(p, db, op).reply.Claimed? ==> Step(p, db, op).reply.Failed? && Step(p, db, op).db == db)
  {
    var mid := Recover(p, db, op.now).db;
    var among := Candidates(mid, op.want);
    forall id ensures id in among <==> Waiting(mid, op.want, id) {
    }
    assert among != {} ==> exists id :: id in among;
    RecoveryError(p, db, op.now);
    hide Recover, Candidates, Waiting, First;
  }

  lemma RecoveryError(p: Platform, db: Db, now: Instant)
    ensures Recover(p, db, now).reply.Failed? ==> Recover(p, db, now).reply.error == Conflict
  {
  }

  /**
   What a claim hands out and writes: the least waiting task by creation stamp, then by ID; its submitted bundle and profile with
   the identity of its Episode; the next number, which is also the fence; and a lease that runs from the clock reading.
   */
  lemma ClaimHandsOut(p: Platform, db: Db, op: Op)
    requires op.OpClaim? && Step(p, db, op).reply.Claimed?
    ensures var mid := Recover(p, db, op.now).db; var c := Step(p, db, op).reply.claim; var db' := Step(p, db, op).db;
      && Waiting(mid, op.want, c.episodeId)
      && var t, row := mid.tasks[c.episodeId], mid.episodes[c.episodeId];
      && c == Claim(c.episodeId, "att_" + op.nonce, t.attemptCount + 1, t.fence + 1, op.now + op.lease,
                    t.bundle, row.bundleDigest, row.scenarioPath, row.runtime, t.profile)
      && db'.tasks == mid.tasks[c.episodeId := t.(state := TaskLeased, attemptCount := c.number, fence := c.fence,
                                                  active := c.attemptId, updatedAt := op.now)]
      && db'.attempts == mid.attempts[c.attemptId := Attempt(c.episodeId, c.number, op.worker, c.fence, AttemptLeased,
                                                             CommitNotStarted, op.now + op.lease, "", op.now, op.now)]
      && db'.episodes == mid.episodes && db'.events == mid.events
  {
    hide Recover;
    var id := ClaimShape(p, db, op);
    ClaimIsWanted(p, db, op);
  }

  lemma ClaimIsWanted(p: Platform, db: Db, op: Op)
    requires op.OpClaim? && Step(p, db, op).reply.Claimed?
    ensures var mid := Recover(p, db, op.now).db; var id := Step(p, db, op).reply.claim.episodeId;
      && Waiting(mid, op.want, id)
      && forall other :: Waiting(mid, op.want, other) ==>
           var x, y := p.stamp(mid.tasks[id].createdAt), p.stamp(mid.tasks[other].createdAt);
           if x == y then LexLE(id, other) else LexLE(x, y)
  {
    hide Recover;
    var mid := Recover(p, db, op.now).db;
    var among := Candidates(mid, op.want);
    var id := First(p, mid, among);
    assert Claimable(mid, op.want, id);
    forall other | Waiting(mid, op.want, other) ensures Precedes(p, mid, id, other) {
      assert other in among;
    }
  }

  /** The task of a crashed worker is tried again: after its lease a claim leases it, or one that was submitted earlier. */
  lemma CrashedWorkIsRetried(p: Platform, db: Db, op: Op, id: Id)
    requires Inv(p, db) && op.OpClaim? && LeaseOver(p, db, op.now, id) && !Recover(p, db, op.now).reply.Failed?
    requires var t := db.tasks[id]; t.profile.Hermetic? && !t.cancel && t.attemptCount < t.maxAttempts
    requires WorkerName(op.worker) && LeaseLength(op.lease) && (op.want == None || op.want == Some(Hermetic))
    requires "att_" + op.nonce !in db.attempts
    ensures Step(p, db, op).reply.Claimed?
    ensures var c := Step(p, db, op).reply.claim;
      if c.episodeId == id then c.number == db.tasks[id].attemptCount + 1
      else id in Step(p, db, op).db.tasks && Step(p, db, op).db.tasks[id].state.TaskQueued?
  {
    hide Recover;
    RecoveredLease(p, db, op.now, id);
    RecoveredRest(p, db, op.now, id, "");
    assert Waiting(Recover(p, db, op.now).db, op.want, id);
    ClaimedIff(p, db, op);
    ClaimHandsOut(p, db, op);
  }

  // --------------------------------------------------------------------- heartbeats

  /** The worker still holds its lease, by every column that says so. */
  predicate Holding(db: Db, id: Id, aid: Id, fence: int)
  {
    && id in db.tasks && db.tasks[id].state.TaskLeased? && db.tasks[id].active == aid && db.tasks[id].fence == fence
    && aid in db.attempts && db.attempts[aid].state.AttemptLeased?
  }

  lemma HeartbeatOutcome(p: Platform, db: Db, op: Op)
    requires op.OpHeartbeat?
    ensures var r := Step(p, db, op); var lives := Holding(db, op.id, op.aid, op.fence) && db.attempts[op.aid].leaseUntil > op.now;
      if LeaseLength(op.lease) && lives then
        && r.reply == Beat(op.now + op.lease, db.tasks[op.id].cancel)
        && r.db == db.(attempts := db.attempts[op.aid := db.attempts[op.aid].(leaseUntil := op.now + op.lease, updatedAt := op.now)])
      else r == Result(db, Failed(if LeaseLength(op.lease) then Stale else Invalid))
  {
  }

  // -------------------------------------------------------------------- completions

  /** Evidence of this request with the six events of an execution, a digest that fits, and a claim to have ended with Evidence. */
  predicate WorkerEvidence(p: Platform, request: Request, envelope: Envelope)
  {
    && envelope.apiVersion == "statetwin.dev/v1alpha1" && envelope.kind == "EpisodeEvidenceEnvelope" && envelope.evidence.Some?
    && var e := envelope.evidence.value;
    && e.apiVersion == "statetwin.dev/v1alpha1" && e.kind == "EpisodeEvidence"
    && e.format == "statetwin.dev/episode-evidence/v1alpha1"
    && e.episodeId == request.episodeId && e.bundleDigest == request.bundleDigest && e.scenarioPath == request.scenarioPath
    && e.runtime == request.runtime
    && e.lifecycle.current in {Succeeded, AssertionFailed}
    && (exists last :: last in {Succeeded, AssertionFailed, RuntimeError} && SixSteps(e.lifecycle.events, last))
    && envelope.evidenceDigest == p.evidenceDigest(e)
  }

  predicate SixSteps(es: seq<Event>, last: Status)
  {
    es == [Event(0, None, Created), Event(1, Some(Created), Provisioning), Event(2, Some(Provisioning), Ready),
           Event(3, Some(Ready), Running), Event(4, Some(Running), Evaluating), Event(5, Some(Evaluating), last)]
  }

  lemma SixStepsIff(es: seq<Event>)
    ensures (exists last :: last in {Succeeded, AssertionFailed, RuntimeError} && SixSteps(es, last)) <==> Chain(es) && |es| == 6
  {
    if Chain(es) && |es| == 6 {
      SixEvents(es);
      assert SixSteps(es, LastTo(es));
    }
  }

  lemma WorkerEvidenceIff(p: Platform, request: Request, envelope: Envelope)
    ensures EnvelopeOk(p, request, envelope) <==> WorkerEvidence(p, request, envelope)
  {
    if envelope.evidence.Some? {
      SixStepsIff(envelope.evidence.value.lifecycle.events);
    }
    hide Chain, SixSteps;
  }

  /** The worker holds an uncancelled lease on this task, and sends Evidence of its Episode. */
  predicate Delivers(p: Platform, db: Db, op: Op)
    requires op.OpComplete?
  {
    && Holding(db, op.id, op.aid, op.fence) && !db.tasks[op.id].cancel && op.id in db.episodes
    && WorkerEvidence(p, RequestOf(op.id, db.episodes[op.id]), op.envelope)
  }

  /**
   A first completion is accepted exactly from the holder of an uncancelled lease that has not ended, for Evidence of its Episode
   that fits the size limit, while the Episode has not moved; and this is what is stored.
   */
  lemma FirstAcceptance(p: Platform, db: Db, op: Op)
    requires op.OpComplete?
    ensures Step(p, db, op).reply == Accepted(op.envelope, false) <==>
      (&& Delivers(p, db, op)
       && db.attempts[op.aid].leaseUntil > op.checkedAt
       && p.encodedBytes(op.envelope) <= 33_554_432
       && db.episodes[op.id].status == Created && db.episodes[op.id].sequence == 0)
    ensures Step(p, db, op).reply.Accepted? && !Step(p, db, op).reply.reused ==> Step(p, db, op).reply.envelope == op.envelope
  {
    if op.id in db.episodes {
      WorkerEvidenceIff(p, RequestOf(op.id, db.episodes[op.id]), op.envelope);
    }
    hide EnvelopeOk, WorkerEvidence, CompletedDb, Readable;
  }

  /** A completion of a task that has not completed is refused for the first of these reasons that applies. */
  lemma CompletionRefused(p: Platform, db: Db, op: Op)
    requires op.OpComplete? && op.envelope.evidence.Some? && op.id in db.tasks && op.id in db.episodes && !db.tasks[op.id].state.TaskCompleted?
    requires Inv(p, db)
    ensures var reply := Step(p, db, op).reply; var t := db.tasks[op.id];
      if !Holding(db, op.id, op.aid, op.fence) then reply == Failed(Stale)
      else if t.cancel then reply == Failed(CancelRequested)
      else if !WorkerEvidence(p, RequestOf(op.id, db.episodes[op.id]), op.envelope) then reply == Failed(Invalid)
      else if db.attempts[op.aid].leaseUntil <= op.checkedAt then reply == Failed(Stale)
      else p.encodedBytes(op.envelope) > 33_554_432 ==> reply == Failed(ResourceLimit)
    ensures Step(p, db, op).reply.Failed? ==> Step(p, db, op).db == db
  {
    if db.tasks[op.id].state.TaskLeased? {
      LeaseHolder(p, db, op.id);
    }
    WorkerEvidenceIff(p, RequestOf(op.id, db.episodes[op.id]), op.envelope);
    hide EnvelopeOk, WorkerEvidence, CompletedDb, Readable, Inv;
  }

  lemma AcceptedIsStored(p: Platform, db: Db, op: Op)
    requires op.OpComplete? && Step(p, db, op).reply == Accepted(op.envelope, false)
    ensures op.id in db.tasks && op.id in db.episodes && op.aid in db.attempts && op.envelope.evidence.Some?
    ensures var db' := Step(p, db, op).db; var e := op.envelope.evidence.value;
      && db'.tasks == db.tasks[op.id := db.tasks[op.id].(state := TaskCompleted, active := "", finalAttempt := op.aid,
                                                         finalDigest := op.envelope.evidenceDigest, updatedAt := op.now)]
      && db'.attempts == db.attempts[op.aid := db.attempts[op.aid].(state := AttemptCompleted, commit := CommitCommitted, updatedAt := op.now)]
      && db'.episodes == db.episodes[op.id := db.episodes[op.id].(status := e.lifecycle.current, sequence := 5, outcome := e.outcome,
                                                                  evidence := Some(op.envelope), evidenceDigest := op.envelope.evidenceDigest,
                                                                  updatedAt := op.now)]
      && db'.events == db.events[op.id := e.lifecycle.events]
  {
    CompletionShape(p, db, op.id, op.aid, op.fence, op.envelope, op.checkedAt, op.now);
    hide Complete;
  }

  /** A completion of a completed task is a repeat of the one that won, by attempt, fence and digest, or it is stale. */
  lemma RepeatedCompletion(p: Platform, db: Db, op: Op)
    requires op.OpComplete? && op.id in db.tasks && db.tasks[op.id].state == TaskCompleted
    ensures var r, t := Step(p, db, op), db.tasks[op.id];
      && r.db == db
      && if op.envelope.evidence.None? then r.reply == Failed(Invalid)
         else if t.finalAttempt != op.aid || t.fence != op.fence || t.finalDigest != op.envelope.evidenceDigest then r.reply == Failed(Stale)
         else if op.id in db.episodes && db.episodes[op.id].evidence.Some? && Readable(p, db, op.id)
           then r.reply == Accepted(db.episodes[op.id].evidence.value, true)
         else r.reply == Failed(Corrupt)
  {
    hide Readable, EnvelopeOk, CompletedDb;
    ReadableIsStored(p, db, op.id);
  }

  lemma ReadableIsStored(p: Platform, db: Db, id: Id)
    ensures Readable(p, db, id) ==> id in db.episodes
  {
  }

  // ----------------------------------------------------------------------- failures

  /** A failure report is taken from whoever holds the lease, in time or not, and ends the lease like this. */
  lemma FailureOutcome(p: Platform, db: Db, op: Op)
    requires op.OpFail? && Inv(p, db)
    ensures var r := Step(p, db, op);
      var wellFormed := op.commit in {CommitNoEffect, CommitUnknown} && op.errorClass in {"WORKER_ERROR", "PROVIDER_ERROR", "CANCELLED"};
      if !wellFormed then r == Result(db, Failed(Invalid))
      else if op.id !in db.tasks then r == Result(db, Failed(NotFound))
      else if !Holding(db, op.id, op.aid, op.fence) then r == Result(db, Failed(Stale))
      else if r.reply.Failed? then
        && r == Result(db, Failed(Conflict)) && op.commit.CommitNoEffect? && db.tasks[op.id].cancel
        && op.id in db.episodes && db.episodes[op.id].status !in {Created, Cancelled}
      else
        && r.reply.Done? && op.id in r.db.tasks && op.aid in r.db.attempts
        && r.db.tasks == db.tasks[op.id := r.db.tasks[op.id]] && r.db.attempts == db.attempts[op.aid := r.db.attempts[op.aid]]
        && OneParent(db, r.db, op.id, op.commit == CommitNoEffect && db.tasks[op.id].cancel, op.now)
        && var t, a, t', a' := db.tasks[op.id], db.attempts[op.aid], r.db.tasks[op.id], r.db.attempts[op.aid];
        && LeaseEnds(t, a, t', a', op.errorClass, op.now) && a'.commit == op.commit
        && (op.commit == CommitUnknown ==> (t'.state, a'.state) == (TaskCommitUnknown, AttemptCommitUnknown))
        && (op.commit == CommitNoEffect && t.cancel ==>
              (t'.state, a'.state) == (TaskCancelled, AttemptCancelled))
        && (op.commit == CommitNoEffect && !t.cancel && t.attemptCount < t.maxAttempts ==>
              (t'.state, a'.state) == (TaskQueued, AttemptFailed) && op.id in Candidates(r.db, Some(t.profile)))
        && (op.commit == CommitNoEffect && !t.cancel && t.attemptCount >= t.maxAttempts ==>
              (t'.state, a'.state) == (TaskFailed, AttemptFailed))
  {
    if op.id in db.tasks && db.tasks[op.id].state.TaskLeased? {
      LeaseHolder(p, db, op.id);
      CreatedIsAtZero(p, db, op.id);
      if ParentCancellable(db, op.id) && op.aid in db.attempts {
        OneCancelled(p, db, FailedDb(db, op.id, op.aid, op.commit, op.errorClass, op.now), op.id, op.now);
      }
    }
    hide CancelParents, ParentStops;
  }

  /** An Episode in CREATED has not moved. */
  lemma CreatedIsAtZero(p: Platform, db: Db, id: Id)
    requires EpisodeOk(p, db, id)
    ensures db.episodes[id].status == Created ==> db.episodes[id].sequence == 0
  {
    if db.episodes[id].status == Created {
      ChainRank(db.events[id], |db.events[id]| - 1);
    }
  }

  // ------------------------------------------------------------------- cancellation

  lemma CancelOutcome(p: Platform, db: Db, op: Op)
    requires op.OpCancel? && Inv(p, db)
    ensures var r := Step(p, db, op);
      if op.id !in db.tasks then r == Result(db, Failed(NotFound))
      else
        var t := db.tasks[op.id];
        match t.state
        case TaskCompleted => r == Result(db, Failed(Conflict))
        case TaskLeased => r.reply.Done? && r.db == db.(tasks := db.tasks[op.id := t.(cancel := true, updatedAt := op.now)])
        case TaskQueued =>
          op.id in db.episodes
          && (if db.episodes[op.id].status == Cancelled || (db.episodes[op.id].status == Created && db.episodes[op.id].sequence == 0) then
                && r.reply.Done? && r.db.tasks == db.tasks[op.id := t.(cancel := true, state := TaskCancelled, updatedAt := op.now)]
                && r.db.attempts == db.attempts && OneParent(db, r.db, op.id, true, op.now)
              else r == Result(db, Failed(Conflict)))
        case _ => r == Result(db, Existing)
  {
    if op.id in db.tasks {
      assert TaskOk(db, op.id) && EpisodeOk(p, db, op.id);
      if ParentCancellable(db, op.id) {
        var t := db.tasks[op.id].(cancel := true, state := TaskCancelled, updatedAt := op.now);
        OneCancelled(p, db, db.(tasks := db.tasks[op.id := t]), op.id, op.now);
      }
    }
    hide CancelParents, ParentStops, OneParent;
  }

  // ------------------------------------------------------------------------ submission

  /** Who may reserve an ID, what a reservation writes, and that a later one with the same request finds it. */
  lemma ReserveOutcome(p: Platform, db: Db, op: Op)
    requires op.OpReserve? && Inv(p, db)
    ensures var r, q := Step(p, db, op), op.request; var id := q.episodeId;
      if id in db.episodes then
        && r.db == db
        && (r.reply == Existing <==> Readable(p, db, id) && db.episodes[id].requestDigest == p.requestDigest(q))
        && (Readable(p, db, id) && db.episodes[id].requestDigest != p.requestDigest(q) ==> r.reply == Failed(Conflict))
        && (r.reply == Existing || r.reply == Failed(Conflict) || r.reply == Failed(Corrupt))
      else if |db.episodes| >= 10_000 then r == Result(db, Failed(ResourceLimit))
      else
        r == Result(
          Db(db.episodes[id := EpisodeRow(p.requestDigest(q), q.bundleDigest, q.scenarioPath, q.runtime, Created, 0, "", None, "", "", op.now, op.now)],
             db.events[id := [Event(0, None, Created)]], db.tasks, db.attempts), Done)
  {
  }

  /** A task is attached once, to an Episode that has not moved, and keeps its policy. */
  lemma EnqueueOutcome(p: Platform, db: Db, op: Op)
    requires op.OpEnqueue?
    ensures var r := Step(p, db, op);
      var row := Task(op.bundle, op.profile, op.maxAttempts, TaskQueued, 0, 0, "", false, "", "", op.now, op.now);
      && (r.reply == Done <==>
            && 1 <= op.maxAttempts <= 16 && op.id !in db.tasks && op.id in db.episodes
            && (op.created || (Readable(p, db, op.id) && db.episodes[op.id].sequence == 0 && !IsTerminal(db.episodes[op.id].status))))
      && (r.reply == Existing <==>
            1 <= op.maxAttempts <= 16 && op.id in db.tasks && db.tasks[op.id].profile == op.profile && db.tasks[op.id].maxAttempts == op.maxAttempts)
      && r.db == (if r.reply == Done then db.(tasks := db.tasks[op.id := row]) else db)
      && (r.reply == Done || r.reply == Existing || r.reply.Failed?)
  {
  }

  /** Whatever the tables hold: Evidence that a reader returns is the row's own, by identity, digests, status, outcome and events. */
  lemma ReadEvidence(p: Platform, db: Db, id: Id)
    requires id in db.episodes && Readable(p, db, id) && db.episodes[id].evidence.Some?
    ensures var row, envelope := db.episodes[id], db.episodes[id].evidence.value;
      && envelope.evidence.Some? && id in db.events
      && var e := envelope.evidence.value;
      && p.requestDigest(Request(id, row.bundleDigest, row.scenarioPath, row.runtime)) == row.requestDigest
      && Request(e.episodeId, e.bundleDigest, e.scenarioPath, e.runtime) == Request(id, row.bundleDigest, row.scenarioPath, row.runtime)
      && p.evidenceDigest(e) == envelope.evidenceDigest == row.evidenceDigest
      && e.lifecycle.current == row.status && e.lifecycle.events == db.events[id] && |db.events[id]| == row.sequence + 1
      && ((row.status, e.outcome) == (Succeeded, "succeeded") || (row.status, e.outcome) == (AssertionFailed, "assertion_failed"))
      && e.outcome == row.outcome && row.errorClass == "" && row.createdAt <= row.updatedAt
  {
  }

  // ------------------------------------------------------------------------ local lane

  /** The row this request has reserved. */
  predicate Mine(p: Platform, db: Db, q: Request)
  {
    q.episodeId in db.episodes && db.episodes[q.episodeId].requestDigest == p.requestDigest(q)
  }

  /** The one step from here that is recorded as it happens. */
  function Onward(s: Status): Option<Status>
  {
    match s
    case Created => Some(Provisioning)
    case Provisioning => Some(Ready)
    case Ready => Some(Running)
    case Running => Some(Evaluating)
    case _ => None
  }

  lemma LocalAppendOutcome(p: Platform, db: Db, op: Op)
    requires op.OpLocalAppend? && Inv(p, db)
    ensures var r, e, id := Step(p, db, op), op.event, op.request.episodeId;
      if Mine(p, db, op.request) && db.episodes[id].sequence == op.expected && Onward(db.episodes[id].status).Some?
         && e == Event(op.expected + 1, Some(db.episodes[id].status), Onward(db.episodes[id].status).value)
      then
        && id in db.events && r.reply == Done
        && r.db == db.(episodes := db.episodes[id := db.episodes[id].(status := e.to, sequence := e.sequence, updatedAt := op.now)],
                       events := db.events[id := db.events[id] + [e]])
      else r.reply.Failed? && r.db == db
  {
  }

  /** What the last local transaction has to bring. */
  predicate LocalEvidence(p: Platform, q: Request, expected: int, envelope: Envelope)
  {
    && envelope.evidence.Some?
    && var e := envelope.evidence.value;
    && e.lifecycle.current in {Succeeded, AssertionFailed}
    && e.episodeId == q.episodeId && e.bundleDigest == q.bundleDigest && e.scenarioPath == q.scenarioPath
    && envelope.evidenceDigest == p.evidenceDigest(e) && p.encodedBytes(envelope) <= 33_554_432
    && |e.lifecycle.events| > 0
    && e.lifecycle.events[|e.lifecycle.events| - 1] == Event(expected + 1, Some(Evaluating), e.lifecycle.current)
  }

  lemma LocalCompleteOutcome(p: Platform, db: Db, op: Op)
    requires op.OpLocalComplete? && Inv(p, db)
    ensures var r, id := Step(p, db, op), op.request.episodeId;
      if LocalEvidence(p, op.request, op.expected, op.envelope) && Mine(p, db, op.request)
         && db.episodes[id].status == Evaluating && db.episodes[id].sequence == op.expected
      then
        var e := op.envelope.evidence.value;
        && id in db.events && r.reply == Done
        && r.db == db.(episodes := db.episodes[id := db.episodes[id].(status := e.lifecycle.current, sequence := op.expected + 1,
                                                                      outcome := e.outcome, evidence := Some(op.envelope),
                                                                      evidenceDigest := op.envelope.evidenceDigest, updatedAt := op.now)],
                       events := db.events[id := db.events[id] + [Event(op.expected + 1, Some(Evaluating), e.lifecycle.current)]])
      else r.reply.Failed? && r.db == db
  {
  }

  /** A failed run is recorded from the statuses that can fail, and ignored when the Episode has moved on. */
  lemma LocalFailOutcome(p: Platform, db: Db, op: Op)
    requires op.OpLocalFail? && Inv(p, db)
    ensures var r, id := Step(p, db, op), op.request.episodeId;
      if !Mine(p, db, op.request) then r == Result(db, Failed(NotFound))
      else if db.episodes[id].sequence == op.expected && db.episodes[id].status in {Provisioning, Running, Evaluating} then
        var row := db.episodes[id];
        && id in db.events && r.reply == Done
        && r.db == db.(episodes := db.episodes[id := row.(status := RuntimeError, sequence := op.expected + 1, errorClass := "RUNTIME_ERROR",
                                                          updatedAt := op.now)],
                       events := db.events[id := db.events[id] + [Event(op.expected + 1, Some(row.status), RuntimeError)]])
      else r == Result(db, Existing)
  {
  }

  // -------------------------------------------------------------------------- over runs

  lemma {:induction false} SubmissionStays(p: Platform, db: Db, ops: seq<Op>, id: Id)
    requires Inv(p, db) && id in db.episodes
    ensures var db' := Run(p, db, ops);
      && id in db'.episodes && RequestOf(id, db'.episodes[id]) == RequestOf(id, db.episodes[id])
      && (id in db.tasks ==> id in db'.tasks && (db'.tasks[id].bundle, db'.tasks[id].profile, db'.tasks[id].maxAttempts)
                                                == (db.tasks[id].bundle, db.tasks[id].profile, db.tasks[id].maxAttempts))
    decreases |ops|
  {
    assert EpisodeOk(p, db, id);
    if ops != [] {
      StepMoves(p, db, ops[0]);
      var mid, next := Mid(p, db, ops[0]), Step(p, db, ops[0]).db;
      assert TaskAt(db, mid, id) && TaskAt(mid, next, id) && EpisodeAt(db, mid, id) && EpisodeAt(mid, next, id);
      SubmissionStays(p, next, ops[1..], id);
    }
  }

  /**
   Whatever happens between: a worker that claims an Episode gets the bundle and profile that were submitted and the identity
   that was reserved, under an attempt number within the submitted limit.
   */
  lemma WorkerGetsWhatWasSubmitted(p: Platform, db: Db, reserve: Op, between: seq<Op>, submit: Op, later: seq<Op>, claim: Op)
    requires Inv(p, db) && reserve.OpReserve? && Step(p, db, reserve).reply == Done
    requires submit.OpEnqueue? && submit.id == reserve.request.episodeId
    requires Step(p, Run(p, Step(p, db, reserve).db, between), submit).reply == Done
    requires var last := Run(p, Step(p, Run(p, Step(p, db, reserve).db, between), submit).db, later);
      claim.OpClaim? && Step(p, last, claim).reply.Claimed? && Step(p, last, claim).reply.claim.episodeId == submit.id
    ensures var last := Run(p, Step(p, Run(p, Step(p, db, reserve).db, between), submit).db, later);
      var c := Step(p, last, claim).reply.claim;
      && (c.bundle, c.profile) == (submit.bundle, submit.profile)
      && Request(c.episodeId, c.bundleDigest, c.scenarioPath, c.runtime) == reserve.request
      && 1 <= c.number <= submit.maxAttempts
  {
    hide Step, Run;
    var reserved := Step(p, db, reserve).db;
    var before := Run(p, reserved, between);
    var submitted := Step(p, before, submit).db;
    var last := Run(p, submitted, later);
    StepInv(p, db, reserve);
    ReserveOutcome(p, db, reserve);
    RunInv(p, reserved, between);
    SubmissionStays(p, reserved, between, submit.id);
    StepInv(p, before, submit);
    EnqueueOutcome(p, before, submit);
    SubmissionStays(p, submitted, later, submit.id);
    RunInv(p, submitted, later);
    ClaimedWithin(p, last, claim);
  }

  /** A claim carries the submission as the tables hold it. */
  lemma ClaimedWithin(p: Platform, db: Db, op: Op)
    requires Inv(p, db) && op.OpClaim? && Step(p, db, op).reply.Claimed?
    ensures var c := Step(p, db, op).reply.claim;
      && c.episodeId in db.tasks && c.episodeId in db.episodes
      && (c.bundle, c.profile) == (db.tasks[c.episodeId].bundle, db.tasks[c.episodeId].profile)
      && Request(c.episodeId, c.bundleDigest, c.scenarioPath, c.runtime) == RequestOf(c.episodeId, db.episodes[c.episodeId])
      && 1 <= c.number <= db.tasks[c.episodeId].maxAttempts
  {
    hide Step, Recover;
    var mid := Recover(p, db, op.now).db;
    var id := Step(p, db, op).reply.claim.episodeId;
    ClaimHandsOut(p, db, op);
    RecoverInv(p, db, op.now);
    RecoverMoves(p, db, op.now);
    RecoverKeeps(p, db, op.now);
    assert TaskOk(mid, id) && TaskOk(db, id) && EpisodeOk(p, db, id);
    assert TaskAt(db, mid, id) && EpisodeAt(db, mid, id);
  }

  /** How long a reply lets this attempt work: a lease runs from the clock reading of the claim or heartbeat that grants it. */
  ghost function Granted(p: Platform, db: Db, op: Op, aid: Id, before: Option<Instant>): Option<Instant>
  {
    var reply := Step(p, db, op).reply;
    if op.OpClaim? && reply.Claimed? && reply.claim.attemptId == aid then Some(op.now + op.lease)
    else if op.OpHeartbeat? && op.aid == aid && reply.Beat? then Some(op.now + op.lease)
    else before
  }

  /** The end of the last lease granted to this attempt in a run. */
  ghost function LastGrant(p: Platform, db: Db, ops: seq<Op>, aid: Id, before: Option<Instant>): Option<Instant>
    decreases |ops|
  {
    if ops == [] then before
    else LastGrant(p, Step(p, db, ops[0]).db, ops[1..], aid, Granted(p, db, ops[0], aid, before))
  }

  /** The stored lease of an attempt is the last one granted to it. */
  predicate GrantStored(db: Db, aid: Id, grant: Option<Instant>)
  {
    aid in db.attempts ==> grant == Some(db.attempts[aid].leaseUntil)
  }

  lemma AttemptsKeepLeases(p: Platform, db: Db, op: Op, aid: Id)
    requires Inv(p, db) && !op.OpClaim? && !op.OpHeartbeat?
    ensures var db' := Step(p, db, op).db;
      && db'.attempts.Keys == db.attempts.Keys
      && (aid in db.attempts ==> db'.attempts[aid].leaseUntil == db.attempts[aid].leaseUntil)
  {
    match op
    case OpReserve(_, _) => ReserveOutcome(p, db, op);
    case OpEnqueue(_, _, _, _, _, _) => EnqueueOutcome(p, db, op);
    case OpComplete(_, _, _, _, _, _) =>
    case OpFail(_, _, _, _, _, _) =>
    case OpCancel(_, _) => CancelOutcome(p, db, op);
    case OpRecover(_) =>
    case OpLocalAppend(_, _, _, _) =>
    case OpLocalComplete(_, _, _, _) =>
    case OpLocalFail(_, _, _) =>
  }

  lemma StepStoresGrant(p: Platform, db: Db, op: Op, aid: Id, before: Option<Instant>)
    requires Inv(p, db) && GrantStored(db, aid, before)
    ensures GrantStored(Step(p, db, op).db, aid, Granted(p, db, op, aid, before))
  {
    hide Step, Recover;
    if op.OpClaim? {
      ClaimedIff(p, db, op);
      if Step(p, db, op).reply.Claimed? {
        ClaimHandsOut(p, db, op);
        RecoverKeepsLeases(p, db, op.now, aid);
      }
    } else if op.OpHeartbeat? {
      HeartbeatOutcome(p, db, op);
    } else {
      AttemptsKeepLeases(p, db, op, aid);
    }
  }

  lemma RecoverKeepsLeases(p: Platform, db: Db, now: Instant, aid: Id)
    ensures var mid := Recover(p, db, now).db;
      && mid.attempts.Keys == db.attempts.Keys
      && (aid in db.attempts ==> mid.attempts[aid].leaseUntil == db.attempts[aid].leaseUntil)
  {
  }

  lemma {:induction false} RunStoresGrant(p: Platform, db: Db, ops: seq<Op>, aid: Id, before: Option<Instant>)
    requires Inv(p, db) && GrantStored(db, aid, before)
    ensures Inv(p, Run(p, db, ops)) && GrantStored(Run(p, db, ops), aid, LastGrant(p, db, ops, aid, before))
    decreases |ops|
  {
    hide Step, Inv, GrantStored, Granted;
    if ops != [] {
      StepInv(p, db, ops[0]);
      StepStoresGrant(p, db, ops[0], aid, before);
      RunStoresGrant(p, Step(p, db, ops[0]).db, ops[1..], aid, Granted(p, db, ops[0], aid, before));
    }
  }

  /**
   In every run: no completion is accepted for the first time, and no heartbeat answered, at or after the end of the last lease
   the coordinator granted to that attempt, whether or not recovery has run.
   */
  lemma NothingAfterTheLease(p: Platform, ops: seq<Op>, op: Op)
    requires || (op.OpComplete? && Step(p, Run(p, EMPTY, ops), op).reply == Accepted(op.envelope, false))
             || (op.OpHeartbeat? && Step(p, Run(p, EMPTY, ops), op).reply.Beat?)
    ensures var grant := LastGrant(p, EMPTY, ops, op.aid, None);
      grant.Some? && (if op.OpComplete? then op.checkedAt else op.now) < grant.value
  {
    hide Step, Run;
    var db := Run(p, EMPTY, ops);
    EmptyInv(p);
    RunStoresGrant(p, EMPTY, ops, op.aid, None);
    if op.OpComplete? {
      FirstAcceptance(p, db, op);
    } else {
      HeartbeatOutcome(p, db, op);
    }
  }
}
