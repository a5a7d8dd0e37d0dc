/** Promises about whole runs: fencing, absorbing states, cancellation, bounded retries. */
module Runs {
  import opened EpisodeTypes
  import opened Coordinator
  import opened Invariant

  // -------------------------------------------------------- what one move does to a row

  /** A task row moves along QUEUED, LEASED and the terminal states; its policy never changes. */
  predicate TaskMoves(t: Task, t': Task)
  {
    && t'.bundle == t.bundle && t'.profile == t.profile && t'.maxAttempts == t.maxAttempts && t'.createdAt == t.createdAt
    && (|| t' == t
        || IsClaimMove(t, t')
        || IsEndMove(t, t')
        || IsCancelMove(t, t'))
  }

  predicate IsClaimMove(t: Task, t': Task)
  {
    && t.state.TaskQueued? && t'.state.TaskLeased? && !t.cancel && !t'.cancel
    && t'.attemptCount == t.attemptCount + 1 && t'.fence == t.fence + 1
    && t.attemptCount < t.maxAttempts
  }

  predicate IsEndMove(t: Task, t': Task)
  {
    && t.state.TaskLeased? && !t'.state.TaskLeased? && t'.active == ""
    && t'.attemptCount == t.attemptCount && t'.fence == t.fence && t'.cancel == t.cancel
    && (t'.state.TaskQueued? ==> !t.cancel && t.attemptCount < t.maxAttempts)
    && (t'.state.TaskCompleted? ==> !t.cancel && t'.finalAttempt == t.active)
  }

  predicate IsCancelMove(t: Task, t': Task)
  {
    && !TaskTerminal(t.state) && t'.cancel
    && t'.state == (if t.state.TaskQueued? then TaskCancelled else TaskLeased)
    && t'.attemptCount == t.attemptCount && t'.fence == t.fence && t'.active == t.active
  }

  predicate AttemptMoves(a: Attempt, a': Attempt)
  {
    && a'.episodeId == a.episodeId && a'.number == a.number && a'.fence == a.fence && a'.worker == a.worker
    && (!a.state.AttemptLeased? ==> a' == a)
  }

  predicate EpisodeMoves(row: EpisodeRow, es: seq<Event>, row': EpisodeRow, es': seq<Event>)
  {
    && row'.requestDigest == row.requestDigest && row'.createdAt == row.createdAt
    && row'.bundleDigest == row.bundleDigest && row'.scenarioPath == row.scenarioPath && row'.runtime == row.runtime
    && es <= es'
    && (IsTerminal(row.status) ==> row' == row && es' == es)
  }

  predicate TaskAt(db: Db, db': Db, id: Id)
  {
    id in db.tasks ==> id in db'.tasks && TaskMoves(db.tasks[id], db'.tasks[id])
  }

  predicate AttemptAt(db: Db, db': Db, aid: Id)
  {
    aid in db.attempts ==> aid in db'.attempts && AttemptMoves(db.attempts[aid], db'.attempts[aid])
  }

  predicate EpisodeAt(db: Db, db': Db, id: Id)
  {
    id in db.episodes && id in db.events ==>
      && id in db'.episodes && id in db'.events
      && EpisodeMoves(db.episodes[id], db.events[id], db'.episodes[id], db'.events[id])
  }

  ghost predicate Moves(db: Db, db': Db)
  {
    && (forall id {:trigger TaskAt(db, db', id)} :: TaskAt(db, db', id))
    && (forall aid {:trigger AttemptAt(db, db', aid)} :: AttemptAt(db, db', aid))
    && (forall id {:trigger EpisodeAt(db, db', id)} :: EpisodeAt(db, db', id))
  }

  // --------------------------------------------------------- every transaction is moves

  lemma StillMoves(db: Db)
    ensures Moves(db, db)
  {
  }

  /** Outside the touched rows nothing moves. */
  lemma MovesFrame(db: Db, db': Db, id0: Id, aid0: Id)
    requires Touches(db, db', id0, aid0)
    requires TaskAt(db, db', id0) && AttemptAt(db, db', aid0) && EpisodeAt(db, db', id0)
    ensures Moves(db, db')
  {
    forall id ensures TaskAt(db, db', id) && EpisodeAt(db, db', id) {
      if id != id0 {
        assert SameAt(db.tasks, db'.tasks, id) && SameAt(db.episodes, db'.episodes, id) && SameAt(db.events, db'.events, id);
      }
    }
    forall aid ensures AttemptAt(db, db', aid) {
      if aid != aid0 {
        assert SameAt(db.attempts, db'.attempts, aid);
      }
    }
  }

  lemma ReserveMoves(p: Platform, db: Db, request: Request, now: Instant)
    requires Inv(p, db)
    ensures Moves(db, Reserve(p, db, request, now).db)
  {
    NoBlankAttempt(p, db);
    StillMoves(db);
    if Reserve(p, db, request, now).reply.Done? {
      MovesFrame(db, Reserve(p, db, request, now).db, request.episodeId, "");
    }
  }

  lemma EnqueueMoves(p: Platform, db: Db, id: Id, bundle: string, profile: Effect, maxAttempts: int, created: bool, now: Instant)
    requires Inv(p, db)
    ensures Moves(db, Enqueue(p, db, id, bundle, profile, maxAttempts, created, now).db)
  {
    NoBlankAttempt(p, db);
    StillMoves(db);
    if Enqueue(p, db, id, bundle, profile, maxAttempts, created, now).reply.Done? {
      MovesFrame(db, Enqueue(p, db, id, bundle, profile, maxAttempts, created, now).db, id, "");
    }
  }

  lemma HeartbeatMoves(p: Platform, db: Db, id: Id, aid: Id, fence: int, lease: int, now: Instant)
    requires Inv(p, db)
    ensures Moves(db, Heartbeat(db, id, aid, fence, lease, now).db)
  {
    if Heartbeat(db, id, aid, fence, lease, now).reply.Beat? {
      LeaseHolder(p, db, id);
      MovesFrame(db, Heartbeat(db, id, aid, fence, lease, now).db, id, aid);
    }
  }

  lemma FreshEvents(p: Platform, db: Db, id: Id)
    requires EpisodeOk(p, db, id) && db.episodes[id].sequence == 0
    ensures db.events[id] == [CREATION]
  {
  }

  lemma CompleteMoves(p: Platform, db: Db, id: Id, aid: Id, fence: int, envelope: Envelope, checkedAt: Instant, now: Instant)
    requires Inv(p, db)
    ensures Moves(db, Complete(p, db, id, aid, fence, envelope, checkedAt, now).db)
  {
    hide Moves, Inv, CompletedDb;
    StillMoves(db);
    var result := Complete(p, db, id, aid, fence, envelope, checkedAt, now);
    if result.reply.Accepted? && !result.reply.reused {
      CompletionShape(p, db, id, aid, fence, envelope, checkedAt, now);
      LeaseHolder(p, db, id);
      CompletedMoves(p, db, id, aid, envelope, now);
    }
  }

  lemma CompletedMoves(p: Platform, db: Db, id: Id, aid: Id, envelope: Envelope, now: Instant)
    requires id in db.tasks && id in db.episodes && aid in db.attempts && envelope.evidence.Some?
    requires db.tasks[id].state.TaskLeased? && db.tasks[id].active == aid && !db.tasks[id].cancel
    requires EpisodeOk(p, db, id) && AttemptOk(db, aid) && LastAttempt(db, id, aid, AttemptLeased)
    requires db.episodes[id].status.Created? && db.episodes[id].sequence == 0 && Chain(envelope.evidence.value.lifecycle.events)
    ensures Moves(db, CompletedDb(db, id, aid, envelope, now))
  {
    var db' := CompletedDb(db, id, aid, envelope, now);
    FreshEvents(p, db, id);
    assert [CREATION] <= envelope.evidence.value.lifecycle.events;
    assert IsEndMove(db.tasks[id], db'.tasks[id]);
    MovesFrame(db, db', id, aid);
  }

  lemma FailClaimMoves(p: Platform, db: Db, id: Id, aid: Id, fence: int, commit: CommitState, errorClass: string, now: Instant)
    requires Inv(p, db)
    ensures Moves(db, FailClaim(db, id, aid, fence, commit, errorClass, now).db)
  {
    hide Inv, Chain, Numbered;
    var result := FailClaim(db, id, aid, fence, commit, errorClass, now);
    if result.reply.Done? {
      LeaseHolder(p, db, id);
      assert IsEndMove(db.tasks[id], result.db.tasks[id]);
      MovesFrame(db, result.db, id, aid);
    }
  }

  lemma CancelMoves(p: Platform, db: Db, id: Id, now: Instant)
    requires Inv(p, db)
    ensures Moves(db, Cancel(db, id, now).db)
  {
    var result := Cancel(db, id, now);
    if result.reply.Done? {
      NoBlankAttempt(p, db);
      assert TaskOk(db, id);
      assert IsCancelMove(db.tasks[id], result.db.tasks[id]);
      MovesFrame(db, result.db, id, "");
    }
  }

  lemma RecoverMoves(p: Platform, db: Db, now: Instant)
    requires Inv(p, db)
    ensures Moves(db, Recover(p, db, now).db)
  {
    var db' := Recover(p, db, now).db;
    var ids := Selection(p, db, now);
    if !Blocked(p, db, now) {
      forall aid ensures AttemptAt(db, db', aid) {
        if ActiveIn(db, ids, aid) {
          assert AttemptOk(db, aid);
        }
      }
      forall id ensures TaskAt(db, db', id) {
        if id in ids {
          assert TaskOk(db, id);
          assert IsEndMove(db.tasks[id], db'.tasks[id]);
        }
      }
      forall id ensures EpisodeAt(db, db', id) {
      }
    } else {
      StillMoves(db);
    }
  }

  lemma LeaseMoves(p: Platform, db: Db, id: Id, worker: Id, aid: Id, until: Instant, now: Instant)
    requires Inv(p, db) && id in db.tasks && db.tasks[id].state.TaskQueued? && aid !in db.attempts
    ensures Moves(db, Lease(db, id, worker, aid, until, now))
  {
    assert TaskOk(db, id);
    assert IsClaimMove(db.tasks[id], Lease(db, id, worker, aid, until, now).tasks[id]);
    MovesFrame(db, Lease(db, id, worker, aid, until, now), id, aid);
  }

  lemma AdvanceMoves(p: Platform, db: Db, id: Id, row: EpisodeRow, e: Event)
    requires Inv(p, db) && id in db.episodes && id in db.events && !IsTerminal(db.episodes[id].status)
    requires RequestOf(id, row) == RequestOf(id, db.episodes[id])
    requires row.requestDigest == db.episodes[id].requestDigest && row.createdAt == db.episodes[id].createdAt
    ensures Moves(db, Advance(db, id, row, e))
  {
    NoBlankAttempt(p, db);
    MovesFrame(db, Advance(db, id, row, e), id, "");
  }

  lemma LocalMoves(p: Platform, db: Db, op: Op)
    requires Inv(p, db) && IsLocal(op)
    ensures Moves(db, Step(p, db, op).db)
  {
    hide Inv;
    var id := op.request.episodeId;
    if Step(p, db, op).reply.Done? {
      var db' := Step(p, db, op).db;
      AdvanceMoves(p, db, id, db'.episodes[id], db'.events[id][|db.events[id]|]);
      assert db' == Advance(db, id, db'.episodes[id], db'.events[id][|db.events[id]|]);
    } else {
      StillMoves(db);
    }
  }

  /** A claim is a recovery followed by a lease; every other transaction is one move. */
  ghost function Mid(p: Platform, db: Db, op: Op): Db
  {
    if op.OpClaim? && Step(p, db, op).reply.Claimed? then Recover(p, db, op.now).db else db
  }

  lemma ClaimMoves(p: Platform, db: Db, op: Op)
    requires Inv(p, db) && op.OpClaim? && Step(p, db, op).reply.Claimed?
    ensures Inv(p, Mid(p, db, op)) && Moves(db, Mid(p, db, op)) && Moves(Mid(p, db, op), Step(p, db, op).db)
  {
    hide Step, Recover, Inv, Moves, Lease;
    var mid := Recover(p, db, op.now).db;
    RecoverInv(p, db, op.now);
    RecoverMoves(p, db, op.now);
    var id := ClaimShape(p, db, op);
    LeaseMoves(p, mid, id, op.worker, AttemptId(op.nonce), op.now + op.lease, op.now);
  }

  lemma OtherMoves(p: Platform, db: Db, op: Op)
    requires Inv(p, db) && !op.OpClaim?
    ensures Moves(db, Step(p, db, op).db)
  {
    match op
    case OpReserve(request, now) => ReserveMoves(p, db, request, now);
    case OpEnqueue(id, bundle, profile, maxAttempts, created, now) => EnqueueMoves(p, db, id, bundle, profile, maxAttempts, created, now);
    case OpHeartbeat(id, aid, fence, lease, now) => HeartbeatMoves(p, db, id, aid, fence, lease, now);
    case OpComplete(id, aid, fence, envelope, checkedAt, now) => CompleteMoves(p, db, id, aid, fence, envelope, checkedAt, now);
    case OpFail(id, aid, fence, commit, errorClass, now) => FailClaimMoves(p, db, id, aid, fence, commit, errorClass, now);
    case OpCancel(id, now) => CancelMoves(p, db, id, now);
    case OpRecover(now) => RecoverMoves(p, db, now);
    case _ => LocalMoves(p, db, op);
  }

  lemma StepMoves(p: Platform, db: Db, op: Op)
    requires Inv(p, db)
    ensures Inv(p, Mid(p, db, op)) && Inv(p, Step(p, db, op).db)
    ensures Moves(db, Mid(p, db, op)) && Moves(Mid(p, db, op), Step(p, db, op).db)
  {
    StepInv(p, db, op);
    StillMoves(db);
    if !op.OpClaim? {
      OtherMoves(p, db, op);
    } else if Step(p, db, op).reply.Claimed? {
      ClaimMoves(p, db, op);
    }
  }

  // ---------------------------------------------------------------------- reachable tasks

  /**
   In every reachable journal: the fencing token counts the attempts, attempt k exists once and carries fence k, a queued task has an
   attempt left, the one LEASED attempt of a task is its last and exists exactly while the task is LEASED, and an attempt
   of unknown effect is the last of a task in COMMIT_UNKNOWN.
   */
  lemma ReachableTask(p: Platform, ops: seq<Op>, id: Id)
    requires id in Run(p, EMPTY, ops).tasks
    ensures var db := Run(p, EMPTY, ops); var t := db.tasks[id];
      && t.fence == t.attemptCount <= t.maxAttempts && (t.state.TaskQueued? ==> t.attemptCount < t.maxAttempts)
      && (forall n :: 1 <= n <= t.attemptCount ==> HasNumber(db, id, n))
      && (t.state.TaskLeased? ==> t.active in db.attempts && db.attempts[t.active].episodeId == id
                                  && db.attempts[t.active].state.AttemptLeased?)
      && forall aid :: aid in db.attempts && db.attempts[aid].episodeId == id ==>
           var a := db.attempts[aid];
           && a.fence == a.number && 1 <= a.number <= t.attemptCount
           && (a.state.AttemptLeased? ==> t.state.TaskLeased? && aid == t.active && a.number == t.attemptCount)
           && (a.state.AttemptCommitUnknown? ==> t.state.TaskCommitUnknown? && a.number == t.attemptCount)
           && forall other :: Is(db, id, a.number, other) ==> other == aid
  {
    var db := Run(p, EMPTY, ops);
    EmptyInv(p);
    RunInv(p, EMPTY, ops);
    assert TaskOk(db, id) && Numbered(db, id);
    forall aid | aid in db.attempts && db.attempts[aid].episodeId == id
      ensures AttemptOk(db, aid)
      ensures forall other :: Is(db, id, db.attempts[aid].number, other) ==> other == aid
    {
      assert AttemptOk(db, aid);
      assert Is(db, id, db.attempts[aid].number, aid);
    }
  }

  // ------------------------------------------------------------------ absorbing states

  /** An attempt that is no longer LEASED keeps its row, whatever happens next. */
  lemma {:induction false} EndedAttemptFrozen(p: Platform, db: Db, ops: seq<Op>, aid: Id)
    requires Inv(p, db) && aid in db.attempts && !db.attempts[aid].state.AttemptLeased?
    ensures aid in Run(p, db, ops).attempts && Run(p, db, ops).attempts[aid] == db.attempts[aid]
    decreases |ops|
  {
    if ops != [] {
      StepMoves(p, db, ops[0]);
      assert AttemptAt(db, Mid(p, db, ops[0]), aid) && AttemptAt(Mid(p, db, ops[0]), Step(p, db, ops[0]).db, aid);
      EndedAttemptFrozen(p, Step(p, db, ops[0]).db, ops[1..], aid);
    }
  }

  /** COMPLETED, CANCELLED, FAILED and COMMIT_UNKNOWN are absorbing: the row never changes again. */
  lemma {:induction false} TerminalTaskFrozen(p: Platform, db: Db, ops: seq<Op>, id: Id)
    requires Inv(p, db) && id in db.tasks && TaskTerminal(db.tasks[id].state)
    ensures id in Run(p, db, ops).tasks && Run(p, db, ops).tasks[id] == db.tasks[id]
    decreases |ops|
  {
    if ops != [] {
      StepMoves(p, db, ops[0]);
      assert TaskAt(db, Mid(p, db, ops[0]), id) && TaskAt(Mid(p, db, ops[0]), Step(p, db, ops[0]).db, id);
      TerminalTaskFrozen(p, Step(p, db, ops[0]).db, ops[1..], id);
    }
  }

  /** An Episode becomes terminal once: afterwards its row, its Evidence and its events never change. */
  lemma {:induction false} TerminalEpisodeFrozen(p: Platform, db: Db, ops: seq<Op>, id: Id)
    requires Inv(p, db) && id in db.episodes && IsTerminal(db.episodes[id].status)
    ensures id in Run(p, db, ops).episodes && Run(p, db, ops).episodes[id] == db.episodes[id]
    ensures id in db.events && id in Run(p, db, ops).events && Run(p, db, ops).events[id] == db.events[id]
    decreases |ops|
  {
    assert EpisodeOk(p, db, id);
    if ops != [] {
      StepMoves(p, db, ops[0]);
      assert EpisodeAt(db, Mid(p, db, ops[0]), id) && EpisodeAt(Mid(p, db, ops[0]), Step(p, db, ops[0]).db, id);
      TerminalEpisodeFrozen(p, Step(p, db, ops[0]).db, ops[1..], id);
    }
  }

  /** Stored Evidence is never replaced. */
  lemma EvidenceNeverChanges(p: Platform, db: Db, ops: seq<Op>, id: Id)
    requires Inv(p, db) && id in db.episodes && db.episodes[id].evidence.Some?
    ensures id in Run(p, db, ops).episodes && Run(p, db, ops).episodes[id].evidence == db.episodes[id].evidence
  {
    assert EpisodeOk(p, db, id);
    TerminalEpisodeFrozen(p, db, ops, id);
  }

  /** At any time the event table of an Episode is a gap-free chain with sequence + 1 entries, and only grows at its end. */
  lemma {:induction false} EventsOnlyGrow(p: Platform, db: Db, ops: seq<Op>, id: Id)
    requires Inv(p, db) && id in db.episodes
    ensures var db' := Run(p, db, ops);
      && id in db'.episodes && id in db'.events && id in db.events
      && db.events[id] <= db'.events[id]
      && Chain(db'.events[id]) && |db'.events[id]| == db'.episodes[id].sequence + 1
    decreases |ops|
  {
    assert EpisodeOk(p, db, id);
    if ops != [] {
      StepMoves(p, db, ops[0]);
      assert EpisodeAt(db, Mid(p, db, ops[0]), id) && EpisodeAt(Mid(p, db, ops[0]), Step(p, db, ops[0]).db, id);
      EventsOnlyGrow(p, Step(p, db, ops[0]).db, ops[1..], id);
    }
  }

  // --------------------------------------------------------------------------- fencing

  /** The operation speaks for the given attempt. */
  predicate SpeaksFor(op: Op, aid: Id)
  {
    || (op.OpHeartbeat? && op.aid == aid)
    || (op.OpComplete? && op.aid == aid)
    || (op.OpFail? && op.aid == aid)
  }

  lemma EndedAttemptIsDeaf(p: Platform, db: Db, op: Op, aid: Id)
    requires Inv(p, db) && aid in db.attempts && !db.attempts[aid].state.AttemptLeased?
    requires SpeaksFor(op, aid)
    ensures Step(p, db, op).db == db
    ensures Step(p, db, op).reply.Failed? || Step(p, db, op).reply.Accepted?
    ensures Step(p, db, op).reply.Accepted? ==>
      op.OpComplete? && op.id in db.episodes && db.episodes[op.id].evidence == Some(Step(p, db, op).reply.envelope)
      && db.attempts[aid].state.AttemptCompleted?
  {
    assert AttemptOk(db, aid);
    if op.id in db.tasks {
      assert TaskOk(db, op.id);
      if db.tasks[op.id].state.TaskLeased? && db.tasks[op.id].active == aid {
        LeaseHolder(p, db, op.id);
        assert false;
      }
    }
  }

  /**
   Fencing over whole runs, for any expiry rule: once an attempt is no longer LEASED, whatever
   else happened in between, a later heartbeat, completion or failure naming it changes no row.
   */
  lemma FencedForever(p: Platform, db: Db, between: seq<Op>, late: Op, aid: Id)
    requires Inv(p, db) && aid in db.attempts && !db.attempts[aid].state.AttemptLeased?
    requires SpeaksFor(late, aid)
    ensures var db' := Run(p, db, between); Step(p, db', late).db == db'
  {
    RunInv(p, db, between);
    EndedAttemptFrozen(p, db, between, aid);
    EndedAttemptIsDeaf(p, Run(p, db, between), late, aid);
  }

  /**
   The winning completion, sent again at any later time, changes nothing. It returns the stored Evidence when the row the
   win left is readable, and an error otherwise.
   */
  lemma ReplayReturnsStored(p: Platform, db: Db, win: Op, between: seq<Op>, again: Op)
    requires Inv(p, db) && win.OpComplete? && again.OpComplete?
    requires Step(p, db, win).reply == Accepted(win.envelope, false)
    requires again.id == win.id && again.aid == win.aid && again.fence == win.fence
    requires again.envelope.evidence.Some? && again.envelope.evidenceDigest == win.envelope.evidenceDigest
    ensures var db' := Run(p, Step(p, db, win).db, between);
      Step(p, db', again) ==
        if Readable(p, Step(p, db, win).db, win.id) then Result(db', Accepted(win.envelope, true)) else Rejected(db', Corrupt)
  {
    var won := Step(p, db, win).db;
    StepInv(p, db, win);
    assert won.tasks[win.id].state.TaskCompleted?;
    TerminalTaskFrozen(p, won, between, win.id);
    TerminalEpisodeFrozen(p, won, between, win.id);
  }

  // ---------------------------------------------------------------------- cancellation

  /** Once a cancel is accepted the task is never queued, claimed or completed again. */
  lemma {:induction false} CancelIsFinal(p: Platform, db: Db, ops: seq<Op>, id: Id)
    requires Inv(p, db) && id in db.tasks && db.tasks[id].cancel
    ensures id in Run(p, db, ops).tasks
    ensures var t := Run(p, db, ops).tasks[id];
      && t.cancel && t.attemptCount == db.tasks[id].attemptCount
      && (t.state.TaskLeased? || t.state.TaskCancelled? || t.state.TaskCommitUnknown?)
    decreases |ops|
  {
    assert TaskOk(db, id);
    if ops != [] {
      StepMoves(p, db, ops[0]);
      assert TaskAt(db, Mid(p, db, ops[0]), id) && TaskAt(Mid(p, db, ops[0]), Step(p, db, ops[0]).db, id);
      CancelIsFinal(p, Step(p, db, ops[0]).db, ops[1..], id);
    }
  }

  /** What an accepted cancel leaves: a task that ended without Evidence, or a lease with the flag set. */
  predicate CancelHolds(t: Task)
  {
    !t.state.TaskQueued? && !t.state.TaskCompleted? && (t.state.TaskLeased? ==> t.cancel)
  }

  lemma CancelTakesHold(db: Db, id: Id, now: Instant)
    requires !Cancel(db, id, now).reply.Failed?
    ensures id in db.tasks && id in Cancel(db, id, now).db.tasks
    ensures var t := Cancel(db, id, now).db.tasks[id]; CancelHolds(t) && t.attemptCount == db.tasks[id].attemptCount
  {
  }

  lemma CancelHoldsOn(p: Platform, db: Db, ops: seq<Op>, id: Id)
    requires Inv(p, db) && id in db.tasks && CancelHolds(db.tasks[id])
    ensures id in Run(p, db, ops).tasks
    ensures CancelHolds(Run(p, db, ops).tasks[id]) && Run(p, db, ops).tasks[id].attemptCount == db.tasks[id].attemptCount
  {
    if db.tasks[id].state.TaskLeased? {
      CancelIsFinal(p, db, ops, id);
    } else {
      TerminalTaskFrozen(p, db, ops, id);
    }
  }

  /**
   After a cancel that was accepted, whether it set the flag, cancelled the task or found it already ended, the task is never
   queued, claimed or completed again.
   */
  lemma AcceptedCancelIsFinal(p: Platform, db: Db, op: Op, ops: seq<Op>)
    requires Inv(p, db) && op.OpCancel? && !Step(p, db, op).reply.Failed?
    ensures op.id in db.tasks && op.id in Run(p, Step(p, db, op).db, ops).tasks
    ensures var t := Run(p, Step(p, db, op).db, ops).tasks[op.id];
      && !t.state.TaskQueued? && !t.state.TaskCompleted? && (t.state.TaskLeased? ==> t.cancel)
      && t.attemptCount == db.tasks[op.id].attemptCount
  {
    StepInv(p, db, op);
    CancelTakesHold(db, op.id, op.now);
    CancelHoldsOn(p, Step(p, db, op).db, ops, op.id);
  }

  // -------------------------------------------------------------------- fencing tokens

  lemma {:induction false} FenceGrows(p: Platform, db: Db, ops: seq<Op>, id: Id)
    requires Inv(p, db) && id in db.tasks
    ensures id in Run(p, db, ops).tasks && db.tasks[id].fence <= Run(p, db, ops).tasks[id].fence
    decreases |ops|
  {
    if ops != [] {
      StepMoves(p, db, ops[0]);
      assert TaskAt(db, Mid(p, db, ops[0]), id) && TaskAt(Mid(p, db, ops[0]), Step(p, db, ops[0]).db, id);
      FenceGrows(p, Step(p, db, ops[0]).db, ops[1..], id);
    }
  }

  /** What a successful claim hands out: the task's new fence, its attempt number, one more than before. */
  lemma ClaimedFence(p: Platform, db: Db, op: Op)
    requires Inv(p, db) && Step(p, db, op).reply.Claimed?
    ensures var c := Step(p, db, op).reply.claim; var db' := Step(p, db, op).db;
      && c.episodeId in db.tasks && c.episodeId in db'.tasks
      && c.fence == c.number == db'.tasks[c.episodeId].fence == db.tasks[c.episodeId].fence + 1
      && db'.tasks[c.episodeId].state.TaskLeased? && db'.tasks[c.episodeId].active == c.attemptId
      && c.attemptId !in db.attempts && c.attemptId in db'.attempts
  {
    assert op.OpClaim?;
    RecoverInv(p, db, op.now);
    RecoverKeeps(p, db, op.now);
    var id := ClaimShape(p, db, op);
    hide Step, Recover;
    assert TaskOk(Recover(p, db, op.now).db, id);
  }

  /** Recovery neither adds nor removes rows, and leaves the fences alone. */
  lemma RecoverKeeps(p: Platform, db: Db, now: Instant)
    ensures var mid := Recover(p, db, now).db;
      && mid.tasks.Keys == db.tasks.Keys && mid.attempts.Keys == db.attempts.Keys
      && forall id :: id in db.tasks ==> mid.tasks[id].fence == db.tasks[id].fence
  {
  }

  /** Two successful claims of one Episode: the later one holds the larger token. */
  lemma TokensIncrease(p: Platform, db: Db, first: Op, between: seq<Op>, second: Op)
    requires Inv(p, db)
    requires Step(p, db, first).reply.Claimed?
    requires Step(p, Run(p, Step(p, db, first).db, between), second).reply.Claimed?
    requires Step(p, db, first).reply.claim.episodeId
      == Step(p, Run(p, Step(p, db, first).db, between), second).reply.claim.episodeId
    ensures Step(p, db, first).reply.claim.fence
      < Step(p, Run(p, Step(p, db, first).db, between), second).reply.claim.fence
  {
    var db1 := Step(p, db, first).db;
    StepInv(p, db, first);
    ClaimedFence(p, db, first);
    FenceGrows(p, db1, between, Step(p, db, first).reply.claim.episodeId);
    RunInv(p, db1, between);
    ClaimedFence(p, Run(p, db1, between), second);
  }
}
