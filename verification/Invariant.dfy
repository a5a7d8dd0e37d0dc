/** What every transaction of either lane keeps. */
module Invariant {
  import opened EpisodeTypes
  import opened Coordinator

  // ------------------------------------------------------------------ the invariant

  predicate EpisodeOk(p: Platform, db: Db, id: Id)
  {
    && id in db.episodes && id in db.events
    && var row, es := db.episodes[id], db.events[id];
    && Chain(es) && |es| == row.sequence + 1
    && row.requestDigest == p.requestDigest(RequestOf(id, row))
    && (if IsTerminal(row.status) then IsTerminal(LastTo(es)) else LastTo(es) == row.status)
    && (CarriesEvidence(row.status) <==> row.evidence.Some?)
    && (row.evidence.None? ==> row.outcome == "" && row.evidenceDigest == "")
    && (row.status.RuntimeError? ==> row.errorClass == "RUNTIME_ERROR")
    && (!IsTerminal(row.status) || row.evidence.Some? ==> row.errorClass == "")
    && (row.status.Cancelled? ==> id in db.tasks && db.tasks[id].state.TaskCancelled?)
  }

  /** The attempt with this number belongs to the task, holds its fence, and is in the given state. */
  predicate LastAttempt(db: Db, id: Id, aid: Id, state: AttemptState)
  {
    && id in db.tasks
    && aid in db.attempts
    && db.attempts[aid].episodeId == id
    && db.attempts[aid].number == db.tasks[id].attemptCount
    && db.attempts[aid].state == state
  }

  ghost predicate TaskOk(db: Db, id: Id)
  {
    && id in db.tasks && id in db.episodes
    && var t := db.tasks[id];
    && 1 <= t.maxAttempts <= MAX_EPISODE_ATTEMPTS
    && 0 <= t.attemptCount <= t.maxAttempts
    && t.fence == t.attemptCount
    && (t.state.TaskLeased? <==> t.active != "")
    && (t.state.TaskCompleted? <==> t.finalAttempt != "")
    && (!t.state.TaskCompleted? ==> t.finalDigest == "")
    && match t.state
       case TaskQueued => t.attemptCount < t.maxAttempts && !t.cancel
       case TaskLeased => LastAttempt(db, id, t.active, AttemptLeased)
       case TaskCompleted =>
         && !t.cancel && LastAttempt(db, id, t.finalAttempt, AttemptCompleted)
         && db.attempts[t.finalAttempt].commit.CommitCommitted?
         && db.episodes[id].evidence.Some? && db.episodes[id].evidenceDigest == t.finalDigest
       case TaskCancelled => t.cancel && db.episodes[id].status.Cancelled?
       case TaskFailed => !t.cancel
       case TaskCommitUnknown => exists aid :: LastAttempt(db, id, aid, AttemptCommitUnknown)
  }

  predicate AttemptOk(db: Db, aid: Id)
  {
    && aid != "" && aid in db.attempts
    && var a := db.attempts[aid];
    && a.episodeId in db.tasks
    && var t := db.tasks[a.episodeId];
    && 1 <= a.number <= t.attemptCount
    && a.fence == a.number
    && (a.state.AttemptLeased? <==> t.active == aid)
    && (a.state.AttemptCompleted? <==> t.finalAttempt == aid)
    && (a.state.AttemptCommitUnknown? ==> t.state.TaskCommitUnknown? && a.number == t.attemptCount)
  }

  predicate Is(db: Db, id: Id, n: int, aid: Id)
  {
    aid in db.attempts && db.attempts[aid].episodeId == id && db.attempts[aid].number == n
  }

  ghost predicate HasNumber(db: Db, id: Id, n: int)
  {
    exists aid :: Is(db, id, n, aid)
  }

  /** Attempts are numbered without gaps or repetitions. */
  ghost predicate Numbered(db: Db, id: Id)
  {
    && id in db.tasks
    && (forall n :: 1 <= n <= db.tasks[id].attemptCount ==> HasNumber(db, id, n))
    && (forall n, aid, aid' :: Is(db, id, n, aid) && Is(db, id, n, aid') ==> aid == aid')
  }

  ghost predicate Inv(p: Platform, db: Db)
  {
    && db.events.Keys == db.episodes.Keys
    && (forall id {:trigger EpisodeOk(p, db, id)} :: id in db.episodes ==> EpisodeOk(p, db, id))
    && (forall id {:trigger TaskOk(db, id)} :: id in db.tasks ==> TaskOk(db, id))
    && (forall id {:trigger Numbered(db, id)} :: id in db.tasks ==> Numbered(db, id))
    && (forall aid {:trigger AttemptOk(db, aid)} :: aid in db.attempts ==> AttemptOk(db, aid))
  }

  lemma EmptyInv(p: Platform)
    ensures Inv(p, EMPTY)
  {
  }

  // --------------------------------------------------------------- frame conditions

  predicate SameAt<V(==)>(m: map<Id, V>, m': map<Id, V>, k: Id)
  {
    (k in m <==> k in m') && (k in m ==> m[k] == m'[k])
  }

  /** The step touches the rows of one Episode and at most one of its attempts. */
  ghost predicate Touches(db: Db, db': Db, id0: Id, aid0: Id)
  {
    && (forall id :: id != id0 ==> SameAt(db.episodes, db'.episodes, id) && SameAt(db.events, db'.events, id) && SameAt(db.tasks, db'.tasks, id))
    && (forall aid :: aid != aid0 ==> SameAt(db.attempts, db'.attempts, aid))
    && (aid0 in db.attempts ==> db.attempts[aid0].episodeId == id0)
    && (aid0 in db'.attempts ==> db'.attempts[aid0].episodeId == id0)
  }

  lemma FrameAttempts(db: Db, db': Db, id0: Id, aid0: Id, id: Id)
    requires Touches(db, db', id0, aid0) && id != id0
    ensures forall n, aid :: Is(db, id, n, aid) <==> Is(db', id, n, aid)
    ensures forall aid, s :: LastAttempt(db, id, aid, s) <==> LastAttempt(db', id, aid, s)
  {
    assert SameAt(db.tasks, db'.tasks, id);
    forall n, aid ensures Is(db, id, n, aid) <==> Is(db', id, n, aid) {
      assert aid != aid0 ==> SameAt(db.attempts, db'.attempts, aid);
    }
    forall aid, s ensures LastAttempt(db, id, aid, s) <==> LastAttempt(db', id, aid, s) {
      assert aid != aid0 ==> SameAt(db.attempts, db'.attempts, aid);
    }
  }

  lemma FrameNumbered(db: Db, db': Db, id0: Id, aid0: Id, id: Id)
    requires Touches(db, db', id0, aid0) && id != id0
    requires id in db.tasks && Numbered(db, id)
    ensures id in db'.tasks && Numbered(db', id)
  {
    FrameAttempts(db, db', id0, aid0, id);
    assert SameAt(db.tasks, db'.tasks, id);
    forall n | 1 <= n <= db'.tasks[id].attemptCount ensures HasNumber(db', id, n) {
      assert HasNumber(db, id, n);
      var aid :| Is(db, id, n, aid);
      assert Is(db', id, n, aid);
    }
  }

  lemma FrameTask(db: Db, db': Db, id0: Id, aid0: Id, id: Id)
    requires Touches(db, db', id0, aid0) && id != id0
    requires TaskOk(db, id)
    requires id in db.tasks && db.tasks[id].state.TaskCompleted? ==> aid0 != db.tasks[id].finalAttempt
    ensures TaskOk(db', id)
  {
    FrameAttempts(db, db', id0, aid0, id);
    assert SameAt(db.tasks, db'.tasks, id) && SameAt(db.episodes, db'.episodes, id);
    if db.tasks[id].state.TaskCompleted? {
      assert SameAt(db.attempts, db'.attempts, db.tasks[id].finalAttempt);
    }
    if db.tasks[id].state.TaskCommitUnknown? {
      var aid :| LastAttempt(db, id, aid, AttemptCommitUnknown);
      assert LastAttempt(db', id, aid, AttemptCommitUnknown);
    }
  }

  /** A step is safe when it is safe for the Episode it touches. */
  lemma FrameInv(p: Platform, db: Db, db': Db, id0: Id, aid0: Id)
    requires Inv(p, db) && Touches(db, db', id0, aid0)
    requires db'.events.Keys == db'.episodes.Keys
    requires id0 in db'.episodes ==> EpisodeOk(p, db', id0)
    requires id0 in db'.tasks ==> TaskOk(db', id0) && Numbered(db', id0)
    requires forall aid :: aid in db'.attempts && db'.attempts[aid].episodeId == id0 ==> AttemptOk(db', aid)
    ensures Inv(p, db')
  {
    forall id | id in db'.episodes ensures EpisodeOk(p, db', id) {
      if id != id0 {
        assert SameAt(db.episodes, db'.episodes, id) && SameAt(db.events, db'.events, id) && SameAt(db.tasks, db'.tasks, id);
        assert EpisodeOk(p, db, id);
      }
    }
    forall id | id in db'.tasks ensures TaskOk(db', id) && Numbered(db', id) {
      if id != id0 {
        assert SameAt(db.tasks, db'.tasks, id);
        assert TaskOk(db, id) && Numbered(db, id);
        if db.tasks[id].state.TaskCompleted? {
          assert LastAttempt(db, id, db.tasks[id].finalAttempt, AttemptCompleted);
        }
        FrameTask(db, db', id0, aid0, id);
        FrameNumbered(db, db', id0, aid0, id);
      }
    }
    forall aid | aid in db'.attempts ensures AttemptOk(db', aid) {
      if db'.attempts[aid].episodeId != id0 {
        assert SameAt(db.attempts, db'.attempts, aid);
        assert AttemptOk(db, aid);
        assert SameAt(db.tasks, db'.tasks, db.attempts[aid].episodeId);
      }
    }
  }

  // -------------------------------------------------------------------- reservation

  lemma NoBlankAttempt(p: Platform, db: Db)
    requires Inv(p, db)
    ensures "" !in db.attempts
  {
    assert "" in db.attempts ==> AttemptOk(db, "");
  }

  lemma NewcomerHasNoTask(p: Platform, db: Db, id: Id)
    requires Inv(p, db) && id !in db.episodes
    ensures id !in db.tasks
    ensures forall aid :: aid in db.attempts ==> db.attempts[aid].episodeId != id
  {
    assert id in db.tasks ==> TaskOk(db, id);
    forall aid | aid in db.attempts ensures db.attempts[aid].episodeId != id {
      assert AttemptOk(db, aid);
    }
  }

  lemma ReserveInv(p: Platform, db: Db, request: Request, now: Instant)
    requires Inv(p, db)
    ensures Inv(p, Reserve(p, db, request, now).db)
  {
    var result := Reserve(p, db, request, now);
    var id := request.episodeId;
    if result.reply.Done? {
      NoBlankAttempt(p, db);
      NewcomerHasNoTask(p, db, id);
      assert RequestOf(id, result.db.episodes[id]) == request;
      assert EpisodeOk(p, result.db, id);
      assert Touches(db, result.db, id, "");
      FrameInv(p, db, result.db, id, "");
    }
  }

  lemma EnqueueInv(p: Platform, db: Db, id: Id, bundle: string, profile: Effect, maxAttempts: int, created: bool, now: Instant)
    requires Inv(p, db)
    ensures Inv(p, Enqueue(p, db, id, bundle, profile, maxAttempts, created, now).db)
  {
    var result := Enqueue(p, db, id, bundle, profile, maxAttempts, created, now);
    if result.reply.Done? {
      NoBlankAttempt(p, db);
      assert EpisodeOk(p, db, id);
      forall aid | aid in db.attempts ensures db.attempts[aid].episodeId != id {
        assert AttemptOk(db, aid);
      }
      assert Touches(db, result.db, id, "");
      FrameInv(p, db, result.db, id, "");
    }
  }

  // ------------------------------------------------------------- steps on a live lease

  /** The holder of a lease and its task, as the invariant sees them. */
  lemma LeaseHolder(p: Platform, db: Db, id: Id)
    requires Inv(p, db) && id in db.tasks && db.tasks[id].state.TaskLeased?
    ensures TaskOk(db, id) && EpisodeOk(p, db, id) && Numbered(db, id)
    ensures LastAttempt(db, id, db.tasks[id].active, AttemptLeased) && AttemptOk(db, db.tasks[id].active)
    ensures db.attempts[db.tasks[id].active].fence == db.tasks[id].fence
  {
    assert TaskOk(db, id);
  }

  /** The step changes the leased task and its active attempt, keeping their identity. */
  ghost predicate OnLease(db: Db, db': Db, id: Id, aid: Id)
  {
    && Touches(db, db', id, aid)
    && id in db.tasks && db.tasks[id].state.TaskLeased? && db.tasks[id].active == aid
    && id in db'.tasks && aid in db.attempts && aid in db'.attempts
    && db'.tasks[id].attemptCount == db.tasks[id].attemptCount
    && (db'.tasks[id].active == aid || db'.tasks[id].active == "")
    && (db'.tasks[id].finalAttempt == aid || db'.tasks[id].finalAttempt == "")
    && db'.attempts[aid].number == db.attempts[aid].number
    && db'.episodes.Keys == db.episodes.Keys && db'.events.Keys == db.events.Keys
  }

  lemma OnLeaseNumbered(db: Db, db': Db, id: Id, aid: Id)
    requires OnLease(db, db', id, aid) && Numbered(db, id)
    ensures Numbered(db', id)
  {
    forall n, x ensures Is(db, id, n, x) <==> Is(db', id, n, x) {
      assert x != aid ==> SameAt(db.attempts, db'.attempts, x);
    }
    forall n | 1 <= n <= db'.tasks[id].attemptCount ensures HasNumber(db', id, n) {
      assert HasNumber(db, id, n);
      var x :| Is(db, id, n, x);
      assert Is(db', id, n, x);
    }
  }

  lemma OnLeaseInv(p: Platform, db: Db, db': Db, id: Id, aid: Id)
    requires Inv(p, db) && OnLease(db, db', id, aid)
    requires EpisodeOk(p, db', id) && TaskOk(db', id) && AttemptOk(db', aid)
    ensures Inv(p, db')
  {
    LeaseHolder(p, db, id);
    OnLeaseNumbered(db, db', id, aid);
    forall x | x in db'.attempts && db'.attempts[x].episodeId == id ensures AttemptOk(db', x) {
      if x != aid {
        assert SameAt(db.attempts, db'.attempts, x);
        assert AttemptOk(db, x);
      }
    }
    FrameInv(p, db, db', id, aid);
  }

  lemma HeartbeatInv(p: Platform, db: Db, id: Id, aid: Id, fence: int, lease: int, now: Instant)
    requires Inv(p, db)
    ensures Inv(p, Heartbeat(db, id, aid, fence, lease, now).db)
  {
    var result := Heartbeat(db, id, aid, fence, lease, now);
    if !result.reply.Failed? {
      LeaseHolder(p, db, id);
      assert EpisodeOk(p, result.db, id) && TaskOk(result.db, id) && AttemptOk(result.db, aid);
      OnLeaseInv(p, db, result.db, id, aid);
    }
  }

  lemma CompleteInv(p: Platform, db: Db, id: Id, aid: Id, fence: int, envelope: Envelope, checkedAt: Instant, now: Instant)
    requires Inv(p, db)
    ensures Inv(p, Complete(p, db, id, aid, fence, envelope, checkedAt, now).db)
  {
    hide Inv, EnvelopeOk, CompletedDb;
    var result := Complete(p, db, id, aid, fence, envelope, checkedAt, now);
    if result.reply.Accepted? && !result.reply.reused {
      CompletionShape(p, db, id, aid, fence, envelope, checkedAt, now);
      CompletedInv(p, db, id, aid, envelope, now);
    }
  }

  lemma CompletedInv(p: Platform, db: Db, id: Id, aid: Id, envelope: Envelope, now: Instant)
    requires Inv(p, db) && id in db.tasks && db.tasks[id].state.TaskLeased? && db.tasks[id].active == aid && !db.tasks[id].cancel
    requires id in db.episodes && aid in db.attempts && db.episodes[id].status.Created?
    requires envelope.evidence.Some? && EnvelopeOk(p, RequestOf(id, db.episodes[id]), envelope)
    ensures Inv(p, CompletedDb(db, id, aid, envelope, now))
  {
    hide Inv;
    var db' := CompletedDb(db, id, aid, envelope, now);
    LeaseHolder(p, db, id);
    SixEvents(envelope.evidence.value.lifecycle.events);
    assert RequestOf(id, db'.episodes[id]) == RequestOf(id, db.episodes[id]);
    assert EpisodeOk(p, db', id);
    assert LastAttempt(db', id, aid, AttemptCompleted);
    assert TaskOk(db', id) && AttemptOk(db', aid);
    OnLeaseInv(p, db, db', id, aid);
  }

  /** Cancelling the parent keeps the Episode in order. */
  lemma CancelParentsEpisode(p: Platform, db: Db, ids: set<Id>, now: Instant, id: Id)
    requires id in db.episodes && id in db.events && ParentCancellable(db, id) && id in ids
    requires Chain(db.events[id]) && |db.events[id]| == db.episodes[id].sequence + 1
    requires db.episodes[id].requestDigest == p.requestDigest(RequestOf(id, db.episodes[id]))
    requires db.episodes[id].evidence.None? && db.episodes[id].outcome == "" && db.episodes[id].evidenceDigest == ""
    requires if IsTerminal(db.episodes[id].status) then IsTerminal(LastTo(db.events[id])) else LastTo(db.events[id]) == db.episodes[id].status
    requires id in db.tasks && db.tasks[id].state.TaskCancelled?
    ensures EpisodeOk(p, CancelParents(db, ids, now), id)
    ensures CancelParents(db, ids, now).episodes[id].status.Cancelled?
  {
    var db' := CancelParents(db, ids, now);
    assert RequestOf(id, db'.episodes[id]) == RequestOf(id, db.episodes[id]);
    if db.episodes[id].status.Created? {
      ChainAppend(db.events[id], Event(1, Some(Created), Cancelled));
    }
  }

  lemma FailClaimInv(p: Platform, db: Db, id: Id, aid: Id, fence: int, commit: CommitState, errorClass: string, now: Instant)
    requires Inv(p, db)
    ensures Inv(p, FailClaim(db, id, aid, fence, commit, errorClass, now).db)
  {
    hide Inv, CancelParents, FailedDb;
    if FailClaim(db, id, aid, fence, commit, errorClass, now).reply.Done? {
      FailureShape(db, id, aid, fence, commit, errorClass, now);
      if FailedTaskState(db.tasks[id], commit).TaskCancelled? {
        FailedAndCancelledInv(p, db, id, aid, commit, errorClass, now);
      } else {
        FailedInv(p, db, id, aid, commit, errorClass, now);
      }
    }
  }

  lemma FailedInv(p: Platform, db: Db, id: Id, aid: Id, commit: CommitState, errorClass: string, now: Instant)
    requires Inv(p, db) && id in db.tasks && db.tasks[id].state.TaskLeased? && db.tasks[id].active == aid
    requires aid in db.attempts && !FailedTaskState(db.tasks[id], commit).TaskCancelled?
    ensures Inv(p, FailedDb(db, id, aid, commit, errorClass, now))
  {
    hide Inv, Chain, Numbered;
    var db' := FailedDb(db, id, aid, commit, errorClass, now);
    LeaseHolder(p, db, id);
    if commit.CommitUnknown? {
      assert LastAttempt(db', id, aid, AttemptCommitUnknown);
    }
    assert EpisodeOk(p, db', id) && TaskOk(db', id) && AttemptOk(db', aid);
    OnLeaseInv(p, db, db', id, aid);
  }

  lemma FailedAndCancelledInv(p: Platform, db: Db, id: Id, aid: Id, commit: CommitState, errorClass: string, now: Instant)
    requires Inv(p, db) && id in db.tasks && db.tasks[id].state.TaskLeased? && db.tasks[id].active == aid
    requires aid in db.attempts && FailedTaskState(db.tasks[id], commit).TaskCancelled? && ParentCancellable(db, id)
    ensures Inv(p, CancelParents(FailedDb(db, id, aid, commit, errorClass, now), {id}, now))
  {
    hide Inv, Chain, Numbered;
    var ended := FailedDb(db, id, aid, commit, errorClass, now);
    var db' := CancelParents(ended, {id}, now);
    LeaseHolder(p, db, id);
    CancelParentsEpisode(p, ended, {id}, now, id);
    assert TaskOk(db', id) && AttemptOk(db', aid);
    OnLeaseInv(p, db, db', id, aid);
  }

  lemma CancelLeasedInv(p: Platform, db: Db, id: Id, now: Instant)
    requires Inv(p, db) && id in db.tasks && db.tasks[id].state.TaskLeased?
    ensures Inv(p, db.(tasks := db.tasks[id := db.tasks[id].(cancel := true, updatedAt := now)]))
  {
    hide Inv, Chain;
    var db' := db.(tasks := db.tasks[id := db.tasks[id].(cancel := true, updatedAt := now)]);
    var aid := db.tasks[id].active;
    LeaseHolder(p, db, id);
    assert EpisodeOk(p, db', id) && TaskOk(db', id) && AttemptOk(db', aid);
    OnLeaseInv(p, db, db', id, aid);
  }

  lemma TaskHolder(p: Platform, db: Db, id: Id)
    requires Inv(p, db) && id in db.tasks
    ensures TaskOk(db, id) && EpisodeOk(p, db, id) && Numbered(db, id) && db.events.Keys == db.episodes.Keys
  {
    assert TaskOk(db, id);
  }

  lemma TaskAttempt(p: Platform, db: Db, aid: Id)
    requires Inv(p, db) && aid in db.attempts
    ensures AttemptOk(db, aid)
  {
  }

  lemma CancelQueuedInv(p: Platform, db: Db, id: Id, now: Instant)
    requires Inv(p, db) && id in db.tasks && db.tasks[id].state.TaskQueued? && ParentCancellable(db, id)
    ensures Inv(p, Cancel(db, id, now).db)
  {
    hide Inv, Chain;
    TaskHolder(p, db, id);
    NoBlankAttempt(p, db);
    var db' := Cancel(db, id, now).db;
    CancelParentsEpisode(p, db.(tasks := db.tasks[id := db.tasks[id].(cancel := true, state := TaskCancelled, updatedAt := now)]), {id}, now, id);
    assert TaskOk(db', id);
    assert forall n, x :: Is(db, id, n, x) <==> Is(db', id, n, x);
    assert forall n :: HasNumber(db, id, n) ==> HasNumber(db', id, n);
    forall x | x in db'.attempts && db'.attempts[x].episodeId == id ensures AttemptOk(db', x) {
      TaskAttempt(p, db, x);
    }
    FrameInv(p, db, db', id, "");
  }

  lemma CancelInv(p: Platform, db: Db, id: Id, now: Instant)
    requires Inv(p, db)
    ensures Inv(p, Cancel(db, id, now).db)
  {
    hide Inv;
    if Cancel(db, id, now).reply.Done? {
      if db.tasks[id].state.TaskLeased? {
        CancelLeasedInv(p, db, id, now);
      } else {
        CancelQueuedInv(p, db, id, now);
      }
    }
  }

  // ----------------------------------------------------------------------- recovery

  /** Leases that can be ended together. */
  predicate Expirable(db: Db, ids: set<Id>)
  {
    forall id :: id in ids ==>
      && id in db.tasks && db.tasks[id].state.TaskLeased?
      && (ExpiredTaskState(db.tasks[id]).TaskCancelled? ==> ParentCancellable(db, id))
  }

  lemma ExpireNone(db: Db, now: Instant)
    ensures ExpireSet(db, {}, now) == db
  {
    var db' := ExpireSet(db, {}, now);
    assert db'.tasks == db.tasks && db'.attempts == db.attempts;
    assert CancelledIn(db, {}) == {};
    assert db'.episodes == db.episodes && db'.events == db.events;
  }

  /** Cancelling the parent of one Episode leaves every other row as it was. */
  lemma CancelParentsElsewhere(db: Db, ids: set<Id>, now: Instant, id0: Id)
    requires ids <= {id0}
    ensures var db' := CancelParents(db, ids, now);
      && db'.tasks == db.tasks && db'.attempts == db.attempts
      && db'.episodes.Keys == db.episodes.Keys && db'.events.Keys == db.events.Keys
      && forall id :: id != id0 ==> SameAt(db.episodes, db'.episodes, id) && SameAt(db.events, db'.events, id)
  {
  }

  lemma ExpireOneTouches(p: Platform, db: Db, id: Id, now: Instant)
    requires Inv(p, db) && id in db.tasks && db.tasks[id].state.TaskLeased?
    ensures OnLease(db, ExpireSet(db, {id}, now), id, db.tasks[id].active)
  {
    hide Inv, Numbered, TaskOk, Chain, CancelParents;
    LeaseHolder(p, db, id);
    assert CancelledIn(db, {id}) <= {id};
    CancelParentsElsewhere(EndLeases(db, {id}, now), CancelledIn(db, {id}), now, id);
    assert forall aid :: ActiveIn(db, {id}, aid) ==> aid == db.tasks[id].active;
  }

  /** Ending one lease touches that task and its attempt only. */
  lemma ExpireOneRows(p: Platform, db: Db, id: Id, now: Instant)
    requires Inv(p, db) && id in db.tasks && db.tasks[id].state.TaskLeased?
    ensures LastAttempt(db, id, db.tasks[id].active, AttemptLeased) && EpisodeOk(p, db, id)
    ensures var db' := ExpireSet(db, {id}, now); var t := db.tasks[id];
      && OnLease(db, db', id, t.active)
      && db'.tasks[id] == ExpiredTask(t, now)
      && db'.attempts[t.active] == ExpiredAttempt(t, db.attempts[t.active], now)
      && (ExpiredTaskState(t).TaskCancelled? ==>
            db'.episodes[id] == CancelledRow(db.episodes[id], now) && db'.events[id] == CancelledEvents(db.episodes[id], db.events[id]))
      && (!ExpiredTaskState(t).TaskCancelled? ==> db'.episodes[id] == db.episodes[id] && db'.events[id] == db.events[id])
  {
    hide Inv, Numbered, TaskOk, Chain, OnLease;
    LeaseHolder(p, db, id);
    ExpireOneTouches(p, db, id, now);
    assert CancelledIn(db, {id}) == if ExpiredTaskState(db.tasks[id]).TaskCancelled? then {id} else {};
    assert ActiveIn(db, {id}, db.tasks[id].active);
  }

  lemma ExpireOneInv(p: Platform, db: Db, id: Id, now: Instant)
    requires Inv(p, db) && Expirable(db, {id})
    ensures Inv(p, ExpireSet(db, {id}, now))
  {
    assert id in {id};
    var db' := ExpireSet(db, {id}, now);
    var t := db.tasks[id];
    ExpireOneRows(p, db, id, now);
    LeaseHolder(p, db, id);
    assert RequestOf(id, db'.episodes[id]) == RequestOf(id, db.episodes[id]);
    if ExpiredTaskState(t).TaskCancelled? && db.episodes[id].status.Created? {
      ChainAppend(db.events[id], Event(1, Some(Created), Cancelled));
    }
    assert EpisodeOk(p, db', id);
    if t.profile.External? {
      assert LastAttempt(db', id, t.active, AttemptCommitUnknown);
    }
    assert TaskOk(db', id) && AttemptOk(db', t.active);
    OnLeaseInv(p, db, db', id, t.active);
  }

  /** What ending the leases of some tasks leaves to another one. */
  lemma ExpireElsewhere(p: Platform, db: Db, ids: set<Id>, id: Id, now: Instant)
    requires Inv(p, db) && id in db.tasks && db.tasks[id].state.TaskLeased? && id !in ids
    ensures var mid := ExpireSet(db, ids, now);
      && mid.tasks[id] == db.tasks[id] && SameAt(db.episodes, mid.episodes, id) && SameAt(db.events, mid.events, id)
      && CancelledIn(mid, {id}) == CancelledIn(db, {id})
      && (forall aid :: ActiveIn(mid, {id}, aid) <==> ActiveIn(db, {id}, aid))
      && (forall aid :: ActiveIn(db, {id}, aid) ==> mid.attempts[aid] == db.attempts[aid])
  {
    var mid := ExpireSet(db, ids, now);
    assert id !in CancelledIn(db, ids);
    assert CancelledIn(mid, {id}) == CancelledIn(db, {id});
  }

  /** Ending leases one after the other is ending them together. */
  lemma ExpireMore(p: Platform, db: Db, ids: set<Id>, id: Id, now: Instant)
    requires Inv(p, db) && Expirable(db, ids + {id}) && id !in ids
    ensures ExpireSet(ExpireSet(db, ids, now), {id}, now) == ExpireSet(db, ids + {id}, now)
    ensures Expirable(ExpireSet(db, ids, now), {id})
  {
    hide Inv;
    var mid, all := ExpireSet(db, ids, now), ExpireSet(db, ids + {id}, now);
    var db' := ExpireSet(mid, {id}, now);
    assert id in ids + {id};
    ExpireElsewhere(p, db, ids, id, now);
    assert CancelledIn(db, ids + {id}) == CancelledIn(db, ids) + CancelledIn(db, {id});
    assert db'.tasks == all.tasks;
    assert db'.attempts == all.attempts by {
      assert forall aid :: ActiveIn(db, ids + {id}, aid) <==> ActiveIn(db, ids, aid) || ActiveIn(db, {id}, aid);
    }
    ExpireMoreParents(db, ids, id, now);
  }

  lemma ExpireMoreParents(db: Db, ids: set<Id>, id: Id, now: Instant)
    requires id !in ids && id in db.tasks
    requires CancelledIn(db, ids + {id}) == CancelledIn(db, ids) + CancelledIn(db, {id})
    requires CancelledIn(ExpireSet(db, ids, now), {id}) == CancelledIn(db, {id})
    ensures ExpireSet(ExpireSet(db, ids, now), {id}, now).episodes == ExpireSet(db, ids + {id}, now).episodes
    ensures ExpireSet(ExpireSet(db, ids, now), {id}, now).events == ExpireSet(db, ids + {id}, now).events
  {
    assert id !in CancelledIn(db, ids);
  }

  lemma {:induction false} ExpireSetInv(p: Platform, db: Db, ids: set<Id>, now: Instant)
    requires Inv(p, db) && Expirable(db, ids)
    ensures Inv(p, ExpireSet(db, ids, now))
    decreases |ids|
  {
    if ids == {} {
      ExpireNone(db, now);
    } else {
      var id :| id in ids;
      var rest := ids - {id};
      assert rest + {id} == ids;
      ExpireSetInv(p, db, rest, now);
      ExpireMore(p, db, rest, id, now);
      ExpireOneInv(p, ExpireSet(db, rest, now), id, now);
    }
  }

  /** The same on explicit rows: end the lease, then cancel the parent if the task was cancelled. */
  function EndedLease(db: Db, id: Id, now: Instant): Db
    requires id in db.tasks && db.tasks[id].active in db.attempts
  {
    var t := db.tasks[id];
    db.(tasks := db.tasks[id := ExpiredTask(t, now)],
        attempts := db.attempts[t.active := ExpiredAttempt(t, db.attempts[t.active], now)])
  }

  lemma ExpireOneExplicit(p: Platform, db: Db, id: Id, now: Instant)
    requires Inv(p, db) && id in db.tasks && db.tasks[id].state.TaskLeased?
    ensures db.tasks[id].active in db.attempts
    ensures var ended := EndedLease(db, id, now);
      ExpireSet(db, {id}, now) == if ExpiredTaskState(db.tasks[id]).TaskCancelled? then CancelParents(ended, {id}, now) else ended
    ensures Expirable(db, {id}) <==> (ExpiredTaskState(db.tasks[id]).TaskCancelled? ==> ParentCancellable(db, id))
  {
    LeaseHolder(p, db, id);
    var all, ended := ExpireSet(db, {id}, now), EndedLease(db, id, now);
    assert id in {id};
    assert CancelledIn(db, {id}) == if ExpiredTaskState(db.tasks[id]).TaskCancelled? then {id} else {};
    assert all.tasks == ended.tasks;
    assert all.attempts == ended.attempts;
    if !ExpiredTaskState(db.tasks[id]).TaskCancelled? {
      assert all.episodes == db.episodes && all.events == db.events;
    }
  }

  /** One more lease of a selection, after some have been ended. */
  lemma ExpireNext(p: Platform, db: Db, ids: set<Id>, id: Id, now: Instant)
    requires Inv(p, db) && Expirable(db, ids) && id !in ids && id in db.tasks && db.tasks[id].state.TaskLeased?
    ensures var mid := ExpireSet(db, ids, now);
      && Inv(p, mid) && id in mid.tasks && mid.tasks[id] == db.tasks[id]
      && (Expirable(mid, {id}) <==> (ExpiredTaskState(db.tasks[id]).TaskCancelled? ==> ParentCancellable(db, id)))
    ensures Expirable(ExpireSet(db, ids, now), {id}) ==>
      && Expirable(db, ids + {id}) && Inv(p, ExpireSet(db, ids + {id}, now))
      && ExpireSet(ExpireSet(db, ids, now), {id}, now) == ExpireSet(db, ids + {id}, now)
  {
    var mid := ExpireSet(db, ids, now);
    ExpireSetInv(p, db, ids, now);
    ExpireElsewhere(p, db, ids, id, now);
    assert ParentCancellable(mid, id) <==> ParentCancellable(db, id);
    ExpireOneExplicit(p, mid, id, now);
    if Expirable(mid, {id}) {
      ExpireMore(p, db, ids, id, now);
      ExpireSetInv(p, db, ids + {id}, now);
    }
  }

  lemma SelectionExpirable(p: Platform, db: Db, now: Instant)
    requires !Blocked(p, db, now)
    ensures Expirable(db, Selection(p, db, now))
  {
    forall id | id in Selection(p, db, now) && ExpiredTaskState(db.tasks[id]).TaskCancelled? ensures ParentCancellable(db, id) {
      assert id in CancelledIn(db, Selection(p, db, now));
    }
  }

  lemma RecoverInv(p: Platform, db: Db, now: Instant)
    requires Inv(p, db)
    ensures Inv(p, Recover(p, db, now).db)
  {
    if !Blocked(p, db, now) {
      SelectionExpirable(p, db, now);
      ExpireSetInv(p, db, Selection(p, db, now), now);
    }
  }

  // -------------------------------------------------------------------------- claims

  lemma LeaseInv(p: Platform, db: Db, id: Id, worker: Id, aid: Id, until: Instant, now: Instant)
    requires Inv(p, db) && id in db.tasks && db.tasks[id].state.TaskQueued?
    requires aid !in db.attempts && aid != ""
    ensures Inv(p, Lease(db, id, worker, aid, until, now))
  {
    var db' := Lease(db, id, worker, aid, until, now);
    var n := db.tasks[id].attemptCount + 1;
    assert TaskOk(db, id) && EpisodeOk(p, db, id);
    assert Numbered(db, id);
    assert forall k, x :: x != aid ==> (Is(db, id, k, x) <==> Is(db', id, k, x));
    assert Is(db', id, n, aid);
    forall k | 1 <= k <= n ensures HasNumber(db', id, k) {
      if k < n {
        assert HasNumber(db, id, k);
        var x :| Is(db, id, k, x);
        assert Is(db', id, k, x);
      }
    }
    forall x | x in db.attempts && db.attempts[x].episodeId == id ensures db.attempts[x].number < n {
      assert AttemptOk(db, x);
    }
    forall k, x, y | Is(db', id, k, x) && Is(db', id, k, y) ensures x == y {
      assert x != aid && y != aid ==> Is(db, id, k, x) && Is(db, id, k, y);
    }
    assert Numbered(db', id);
    assert EpisodeOk(p, db', id);
    assert LastAttempt(db', id, aid, AttemptLeased);
    assert TaskOk(db', id);
    forall x | x in db'.attempts && db'.attempts[x].episodeId == id ensures AttemptOk(db', x) {
      if x != aid {
        assert AttemptOk(db, x);
      }
    }
    FrameInv(p, db, db', id, aid);
  }

  lemma ClaimInv(p: Platform, db: Db, worker: Id, lease: int, profile: Option<Effect>, nonce: string, now: Instant)
    requires Inv(p, db)
    ensures Inv(p, ClaimTask(p, db, worker, lease, profile, nonce, now).db)
  {
    var result := ClaimTask(p, db, worker, lease, profile, nonce, now);
    if result.reply.Claimed? {
      RecoverInv(p, db, now);
      var mid := Recover(p, db, now).db;
      var id := First(p, mid, Candidates(mid, profile));
      assert Claimable(mid, profile, id);
      LeaseInv(p, mid, id, worker, AttemptId(nonce), now + lease, now);
    }
  }

  // ---------------------------------------------------------------------- local lane

  /** Both lanes write Episode rows only while they are not terminal. */
  lemma AdvanceInv(p: Platform, db: Db, id: Id, row: EpisodeRow, e: Event)
    requires Inv(p, db) && id in db.episodes && !IsTerminal(db.episodes[id].status)
    requires id in db.events && EpisodeOk(p, Advance(db, id, row, e), id)
    ensures Inv(p, Advance(db, id, row, e))
  {
    var db' := Advance(db, id, row, e);
    NoBlankAttempt(p, db);
    if id in db.tasks {
      assert TaskOk(db, id) && EpisodeOk(p, db, id);
      assert forall x, s :: LastAttempt(db, id, x, s) <==> LastAttempt(db', id, x, s);
      assert TaskOk(db', id);
      assert Numbered(db, id);
      assert forall n, x :: Is(db, id, n, x) <==> Is(db', id, n, x);
      assert forall n :: HasNumber(db, id, n) ==> HasNumber(db', id, n);
      assert Numbered(db', id);
    }
    forall x | x in db'.attempts && db'.attempts[x].episodeId == id ensures AttemptOk(db', x) {
      assert AttemptOk(db, x);
    }
    FrameInv(p, db, db', id, "");
  }

  lemma AdvanceEpisode(p: Platform, db: Db, id: Id, row: EpisodeRow, e: Event)
    requires id in db.episodes && EpisodeOk(p, db, id) && !IsTerminal(db.episodes[id].status)
    requires RequestOf(id, row) == RequestOf(id, db.episodes[id]) && row.requestDigest == db.episodes[id].requestDigest
    requires e == Event(db.episodes[id].sequence + 1, Some(db.episodes[id].status), row.status)
    requires row.sequence == e.sequence && AllowedTransition(db.episodes[id].status, row.status) && !row.status.Cancelled?
    requires CarriesEvidence(row.status) <==> row.evidence.Some?
    requires row.evidence.None? ==> row.outcome == "" && row.evidenceDigest == ""
    requires row.errorClass == if row.status.RuntimeError? then "RUNTIME_ERROR" else ""
    ensures EpisodeOk(p, Advance(db, id, row, e), id)
  {
    ChainAppend(db.events[id], e);
  }

  lemma LocalAppendInv(p: Platform, db: Db, request: Request, expected: int, e: Event, now: Instant)
    requires Inv(p, db)
    ensures Inv(p, LocalAppend(p, db, request, expected, e, now).db)
  {
    var id := request.episodeId;
    if LocalAppend(p, db, request, expected, e, now).reply.Done? {
      assert EpisodeOk(p, db, id);
      var row := db.episodes[id].(status := e.to, sequence := e.sequence, updatedAt := now);
      AdvanceEpisode(p, db, id, row, e);
      AdvanceInv(p, db, id, row, e);
    }
  }

  lemma LocalCompleteInv(p: Platform, db: Db, request: Request, expected: int, envelope: Envelope, now: Instant)
    requires Inv(p, db)
    ensures Inv(p, LocalComplete(p, db, request, expected, envelope, now).db)
  {
    var id := request.episodeId;
    if LocalComplete(p, db, request, expected, envelope, now).reply.Done? {
      assert EpisodeOk(p, db, id);
      var ev := envelope.evidence.value;
      var e := ev.lifecycle.events[|ev.lifecycle.events| - 1];
      var row := db.episodes[id].(status := e.to, sequence := e.sequence, outcome := ev.outcome,
                                  evidence := Some(envelope), evidenceDigest := envelope.evidenceDigest, updatedAt := now);
      AdvanceEpisode(p, db, id, row, e);
      AdvanceInv(p, db, id, row, e);
    }
  }

  lemma LocalFailInv(p: Platform, db: Db, request: Request, expected: int, now: Instant)
    requires Inv(p, db)
    ensures Inv(p, LocalFail(p, db, request, expected, now).db)
  {
    var id := request.episodeId;
    if LocalFail(p, db, request, expected, now).reply.Done? {
      assert EpisodeOk(p, db, id);
      var was := db.episodes[id];
      var row := was.(status := RuntimeError, sequence := was.sequence + 1, errorClass := "RUNTIME_ERROR", updatedAt := now);
      var e := Event(was.sequence + 1, Some(was.status), RuntimeError);
      AdvanceEpisode(p, db, id, row, e);
      AdvanceInv(p, db, id, row, e);
    }
  }

  // -------------------------------------------------------------- which rows a step touches

  /** The step was made by the holder of a lease, and touches that task and its active attempt only. */
  ghost predicate TouchesLease(db: Db, db': Db, id: Id, aid: Id, fence: int)
  {
    && Touches(db, db', id, aid) && Holds(db, id, aid, fence)
    && id in db.episodes && aid in db.attempts && db.attempts[aid].episodeId == id
  }

  lemma HeartbeatTouches(p: Platform, db: Db, id: Id, aid: Id, fence: int, lease: int, now: Instant)
    requires Inv(p, db) && Heartbeat(db, id, aid, fence, lease, now).db != db
    ensures TouchesLease(db, Heartbeat(db, id, aid, fence, lease, now).db, id, aid, fence)
  {
    hide Inv;
    LeaseHolder(p, db, id);
  }

  lemma CompleteTouches(p: Platform, db: Db, id: Id, aid: Id, fence: int, envelope: Envelope, checkedAt: Instant, now: Instant)
    requires Inv(p, db) && Complete(p, db, id, aid, fence, envelope, checkedAt, now).db != db
    ensures TouchesLease(db, Complete(p, db, id, aid, fence, envelope, checkedAt, now).db, id, aid, fence)
  {
    hide Inv, EnvelopeOk;
    CompletionShape(p, db, id, aid, fence, envelope, checkedAt, now);
    LeaseHolder(p, db, id);
  }

  lemma FailTouches(p: Platform, db: Db, id: Id, aid: Id, fence: int, commit: CommitState, errorClass: string, now: Instant)
    requires Inv(p, db) && FailClaim(db, id, aid, fence, commit, errorClass, now).db != db
    ensures TouchesLease(db, FailClaim(db, id, aid, fence, commit, errorClass, now).db, id, aid, fence)
  {
    hide Inv;
    LeaseHolder(p, db, id);
  }

  /** Heartbeats, completions and failures touch the leased task and its active attempt only. */
  lemma LeaseStepTouches(p: Platform, db: Db, op: Op)
    requires Inv(p, db) && (op.OpHeartbeat? || op.OpComplete? || op.OpFail?) && Step(p, db, op).db != db
    ensures TouchesLease(db, Step(p, db, op).db, op.id, op.aid, op.fence)
  {
    hide Inv, TouchesLease, Heartbeat, Complete, FailClaim;
    match op
    case OpHeartbeat(id, aid, fence, lease, now) => HeartbeatTouches(p, db, id, aid, fence, lease, now);
    case OpComplete(id, aid, fence, envelope, checkedAt, now) => CompleteTouches(p, db, id, aid, fence, envelope, checkedAt, now);
    case OpFail(id, aid, fence, commit, errorClass, now) => FailTouches(p, db, id, aid, fence, commit, errorClass, now);
  }

  // ---------------------------------------------------------------------- every run

  /** Every transaction of either lane, with any arguments at any time, keeps the invariant. */
  lemma StepInv(p: Platform, db: Db, op: Op)
    requires Inv(p, db)
    ensures Inv(p, Step(p, db, op).db)
  {
    match op
    case OpReserve(request, now) => ReserveInv(p, db, request, now);
    case OpEnqueue(id, bundle, profile, maxAttempts, created, now) => EnqueueInv(p, db, id, bundle, profile, maxAttempts, created, now);
    case OpClaim(worker, lease, want, nonce, now) => ClaimInv(p, db, worker, lease, want, nonce, now);
    case OpHeartbeat(id, aid, fence, lease, now) => HeartbeatInv(p, db, id, aid, fence, lease, now);
    case OpComplete(id, aid, fence, envelope, checkedAt, now) => CompleteInv(p, db, id, aid, fence, envelope, checkedAt, now);
    case OpFail(id, aid, fence, commit, errorClass, now) => FailClaimInv(p, db, id, aid, fence, commit, errorClass, now);
    case OpCancel(id, now) => CancelInv(p, db, id, now);
    case OpRecover(now) => RecoverInv(p, db, now);
    case OpLocalAppend(request, expected, event, now) => LocalAppendInv(p, db, request, expected, event, now);
    case OpLocalComplete(request, expected, envelope, now) => LocalCompleteInv(p, db, request, expected, envelope, now);
    case OpLocalFail(request, expected, now) => LocalFailInv(p, db, request, expected, now);
  }

  lemma {:induction false} RunInv(p: Platform, db: Db, ops: seq<Op>)
    requires Inv(p, db)
    ensures Inv(p, Run(p, db, ops))
    decreases |ops|
  {
    if ops != [] {
      StepInv(p, db, ops[0]);
      RunInv(p, Step(p, db, ops[0]).db, ops[1..]);
    }
  }
}
