/**
 The Episode journal: tables as fields, and each transaction as a method that performs its SQL statements one by one.
 A transaction that returns an error restores the tables it began with. Every method is proved equal to
 the closed-form step of module Coordinator, so everything proved about runs of steps holds of the journal.
 */
module EpisodeJournal {
  import opened EpisodeTypes
  import opened Coordinator
  import opened Invariant

  /** One row selected by recovery. */
  datatype Expired = Expired(episode: Id, attempt: Id, profile: Effect, cancel: bool, count: int, max: int, fence: int)

  /** Only the creation event means CREATED at sequence 0, and nothing else does. */
  lemma OneEvent(p: Platform, db: Db, id: Id)
    requires EpisodeOk(p, db, id)
    ensures |db.events[id]| == 1 <==> db.episodes[id].sequence == 0
    ensures |db.events[id]| == 1 ==> db.episodes[id].status.Created?
  {
  }

  /** The first claimable task among those seen, if there is one. */
  ghost predicate BestOf(p: Platform, db: Db, profile: Option<Effect>, seen: set<Id>, pick: Option<Id>)
  {
    && seen <= db.tasks.Keys
    && match pick
       case None => forall id :: id in seen ==> !Claimable(db, profile, id)
       case Some(best) =>
         && best in seen && Claimable(db, profile, best)
         && forall id :: id in seen && Claimable(db, profile, id) ==> Precedes(p, db, best, id)
  }

  lemma BestStep(p: Platform, db: Db, profile: Option<Effect>, seen: set<Id>, pick: Option<Id>, id: Id)
    requires BestOf(p, db, profile, seen, pick) && id in db.tasks
    ensures pick.Some? ==> pick.value in db.tasks
    ensures BestOf(p, db, profile, seen + {id},
                   if Claimable(db, profile, id) && (pick.None? || Precedes(p, db, id, pick.value)) then Some(id) else pick)
  {
    hide Precedes;
    PrecedesTotal(p, db, id, id);
    if Claimable(db, profile, id) && pick.Some? {
      PrecedesTotal(p, db, id, pick.value);
      if Precedes(p, db, id, pick.value) {
        forall other | other in seen && Claimable(db, profile, other) ensures Precedes(p, db, id, other) {
          PrecedesTransitive(p, db, id, pick.value, other);
        }
      }
    }
  }

  lemma BestOfAll(p: Platform, db: Db, profile: Option<Effect>, pick: Option<Id>)
    requires BestOf(p, db, profile, db.tasks.Keys, pick)
    ensures pick.None? <==> Candidates(db, profile) == {}
    ensures pick.Some? ==> pick.value == First(p, db, Candidates(db, profile))
  {
    if pick.Some? {
      assert IsFirst(p, db, Candidates(db, profile), pick.value);
      FirstUnique(p, db, Candidates(db, profile), pick.value);
    }
  }

  class Journal {
    const p: Platform
    var episodes: map<Id, EpisodeRow>
    var events: map<Id, seq<Event>>
    var tasks: map<Id, Task>
    var attempts: map<Id, Attempt>

    function Tables(): Db
      reads this
    {
      Db(episodes, events, tasks, attempts)
    }

    ghost predicate Valid()
      reads this
    {
      Inv(p, Tables())
    }

    constructor (p: Platform)
      ensures Valid() && Tables() == EMPTY && this.p == p
    {
      this.p := p;
      episodes, events, tasks, attempts := map[], map[], map[], map[];
    }

    // ------------------------------------------------------------------ statements

    method Rollback(saved: Db)
      modifies this
      ensures Tables() == saved
    {
      episodes, events, tasks, attempts := saved.episodes, saved.events, saved.tasks, saved.attempts;
    }

    /** INSERT INTO episode_events; the primary key is (episode, sequence). */
    method InsertEvent(id: Id, e: Event) returns (ok: bool)
      requires id in events ==> forall k :: 0 <= k < |events[id]| ==> events[id][k].sequence == k
      modifies this`events
      ensures ok <==> id in old(events) && (e.sequence >= |old(events)[id]| || e.sequence < 0)
      ensures ok && e.sequence == |old(events)[id]| ==> events == old(events)[id := old(events)[id] + [e]]
      ensures !ok ==> events == old(events)
    {
      if id !in events {
        return false;
      }
      var rows := events[id];
      for k := 0 to |rows|
        invariant !(0 <= e.sequence < k)
      {
        if rows[k].sequence == e.sequence {
          return false;
        }
      }
      events := events[id := if e.sequence < 0 then [e] + rows else rows + [e]];
      ok := true;
    }

    /** UPDATE episode_attempts ... WHERE attempt_id = ? AND state = LEASED AND fencing_token = ? */
    method UpdateAttempt(aid: Id, fence: int, state: AttemptState, commit: CommitState, errorClass: string, now: Instant)
        returns (changed: int)
      modifies this`attempts
      ensures changed == if aid in old(attempts) && old(attempts)[aid].state.AttemptLeased? && old(attempts)[aid].fence == fence then 1 else 0
      ensures attempts == if changed == 1
        then old(attempts)[aid := old(attempts)[aid].(state := state, commit := commit, errorClass := errorClass, updatedAt := now)]
        else old(attempts)
    {
      changed := 0;
      if aid in attempts && attempts[aid].state.AttemptLeased? && attempts[aid].fence == fence {
        attempts := attempts[aid := attempts[aid].(state := state, commit := commit, errorClass := errorClass, updatedAt := now)];
        changed := 1;
      }
    }

    /** UPDATE episode_tasks SET task_state, active_attempt_id = '' WHERE the lease is still held. */
    method EndTask(id: Id, aid: Id, fence: int, next: TaskState, now: Instant) returns (changed: int)
      modifies this`tasks
      ensures changed == if Holds(old(Tables()), id, aid, fence) then 1 else 0
      ensures tasks == if changed == 1
        then old(tasks)[id := old(tasks)[id].(state := next, active := "", updatedAt := now)] else old(tasks)
    {
      changed := 0;
      if id in tasks && tasks[id].active == aid && tasks[id].fence == fence && tasks[id].state.TaskLeased? {
        tasks := tasks[id := tasks[id].(state := next, active := "", updatedAt := now)];
        changed := 1;
      }
    }

    method CancelParentTx(id: Id, now: Instant) returns (ok: bool)
      requires id in episodes ==> id in events && Chain(events[id]) && |events[id]| == episodes[id].sequence + 1
      modifies this`episodes, this`events
      ensures ok <==> ParentCancellable(old(Tables()), id)
      ensures ok ==> Tables() == CancelParents(old(Tables()), {id}, now)
    {
      ghost var was := Tables();
      var changed := 0;
      if id in episodes && episodes[id].status.Created? && episodes[id].sequence == 0 {
        episodes := episodes[id := episodes[id].(status := Cancelled, sequence := 1, errorClass := "CANCELLED", updatedAt := now)];
        changed := 1;
      }
      if changed == 0 {
        if id !in episodes {
          return false;
        }
        ok := episodes[id].status.Cancelled?;
      } else {
        ok := InsertEvent(id, Event(1, Some(Created), Cancelled));
      }
      if ok {
        assert episodes == CancelParents(was, {id}, now).episodes;
        assert events == CancelParents(was, {id}, now).events;
      }
    }

    /** The statements that end a held lease: its attempt, its task, and the parent of a cancelled task. */
    method EndLease(id: Id, aid: Id, fence: int, attemptState: AttemptState, taskState: TaskState,
                    commit: CommitState, errorClass: string, now: Instant) returns (ok: bool)
      requires EpisodeOk(p, Tables(), id) && LastAttempt(Tables(), id, aid, AttemptLeased)
      requires Holds(Tables(), id, aid, fence) && attempts[aid].fence == fence
      modifies this
      ensures ok <==> (taskState.TaskCancelled? ==> ParentCancellable(old(Tables()), id))
      ensures var was := old(Tables());
        var ended := was.(tasks := was.tasks[id := was.tasks[id].(state := taskState, active := "", updatedAt := now)],
                          attempts := was.attempts[aid := was.attempts[aid].(state := attemptState, commit := commit,
                                                                             errorClass := errorClass, updatedAt := now)]);
        ok ==> Tables() == if taskState.TaskCancelled? then CancelParents(ended, {id}, now) else ended
    {
      var changed := UpdateAttempt(aid, fence, attemptState, commit, errorClass, now);
      if changed != 1 {
        return false;
      }
      changed := EndTask(id, aid, fence, taskState, now);
      if changed != 1 {
        return false;
      }
      ok := true;
      if taskState.TaskCancelled? {
        ok := CancelParentTx(id, now);
      }
    }

    // ---------------------------------------------------------------- reservation

    /** createOrLoad: read the Episode, or insert it with its creation event. */
    method CreateOrLoad(request: Request, now: Instant) returns (reply: Reply)
      requires Valid()
      modifies this
      ensures Valid() && Result(Tables(), reply) == Reserve(p, old(Tables()), request, now)
    {
      ReserveInv(p, Tables(), request, now);
      var id := request.episodeId;
      if id in episodes {
        if !ScanOk(p, id, episodes[id]) {
          return Failed(Corrupt);
        }
        if episodes[id].requestDigest != p.requestDigest(request) {
          return Failed(Conflict);
        }
        if id !in events || !EventsOk(episodes[id], events[id]) {
          return Failed(Corrupt);
        }
        return Existing;
      }
      if |episodes| >= MAX_EPISODE_RECORDS {
        return Failed(ResourceLimit);
      }
      episodes := episodes[id := EpisodeRow(p.requestDigest(request), request.bundleDigest, request.scenarioPath, request.runtime,
                                            Created, 0, "", None, "", "", now, now)];
      events := events[id := [CREATION]];
      reply := Done;
    }

    /** The second transaction of Submit. */
    method CreateTask(id: Id, bundle: string, profile: Effect, maxAttempts: int, created: bool, now: Instant) returns (reply: Reply)
      requires Valid()
      modifies this
      ensures Valid() && Result(Tables(), reply) == Enqueue(p, old(Tables()), id, bundle, profile, maxAttempts, created, now)
    {
      EnqueueInv(p, Tables(), id, bundle, profile, maxAttempts, created, now);
      if maxAttempts < 1 || maxAttempts > MAX_EPISODE_ATTEMPTS {
        return Failed(Invalid);
      }
      if id in tasks {
        if tasks[id].profile != profile || tasks[id].maxAttempts != maxAttempts {
          return Failed(Conflict);
        }
        return Existing;
      }
      if !created {
        if id !in episodes {
          return Failed(NotFound);
        }
        if id !in events || !ScanOk(p, id, episodes[id]) || !EventsOk(episodes[id], events[id]) {
          return Failed(Corrupt);
        }
        if IsTerminal(episodes[id].status) || episodes[id].sequence != 0 {
          return Failed(Conflict);
        }
      }
      if id !in episodes {
        return Failed(Constraint);
      }
      tasks := tasks[id := Task(bundle, profile, maxAttempts, TaskQueued, 0, 0, "", false, "", "", now, now)];
      reply := Done;
    }

    // ------------------------------------------------------------------- recovery

    /** The statements of recovery for one item. */
    method ExpireItem(item: Expired, stamp: Instant) returns (ok: bool)
      requires Valid() && IsItem(Tables(), item) && tasks[item.episode].state.TaskLeased?
      modifies this
      ensures ok <==> Expirable(old(Tables()), {item.episode})
      ensures ok ==> Tables() == ExpireSet(old(Tables()), {item.episode}, stamp)
    {
      ghost var was := Tables();
      var id := item.episode;
      LeaseHolder(p, was, id);
      ExpireOneExplicit(p, was, id, stamp);
      var attemptState, commitState, taskState := AttemptExpired, CommitNoEffect, TaskFailed;
      if item.profile.External? {
        attemptState, commitState, taskState := AttemptCommitUnknown, CommitUnknown, TaskCommitUnknown;
      } else if item.cancel {
        attemptState, taskState := AttemptCancelled, TaskCancelled;
      } else if item.count < item.max {
        taskState := TaskQueued;
      }
      ok := EndLease(id, item.attempt, item.fence, attemptState, taskState, commitState, "LEASE_EXPIRED", stamp);
    }

    /** recoverExpiredTx: on an error the caller rolls back. */
    method RecoverExpiredTx(now: Instant) returns (ok: bool, count: int)
      requires Valid()
      modifies this
      ensures ok ==> Valid() && Result(Tables(), Count(count)) == Recover(p, old(Tables()), now)
      ensures !ok ==> Recover(p, old(Tables()), now) == Result(old(Tables()), Failed(Conflict))
    {
      ghost var was := Tables();
      var found := SelectExpired(p, Tables(), now);
      ExpireNone(was, now);
      assert found[..0] == [] && EpisodesOf([]) == {};
      for i := 0 to |found|
        invariant Underway(p, was, found, i, now, Tables())
      {
        NextItem(p, was, found, i, now, Tables());
        ok := ExpireItem(found[i], now);
        if !ok {
          return false, 0;
        }
      }
      assert found[..|found|] == found;
      AllExpirable(p, was, now);
      return true, |found|;
    }

    method RecoverExpired(now: Instant) returns (reply: Reply)
      requires Valid()
      modifies this
      ensures Valid() && Result(Tables(), reply) == Recover(p, old(Tables()), now)
    {
      var saved := Tables();
      var ok, count := RecoverExpiredTx(now);
      if !ok {
        Rollback(saved);
        return Failed(Conflict);
      }
      reply := Count(count);
    }

    // --------------------------------------------------------------------- claims

    /** SELECT ... ORDER BY created_at, episode_id LIMIT 1. */
    method SelectQueued(profile: Option<Effect>) returns (pick: Option<Id>)
      ensures pick.None? <==> Candidates(Tables(), profile) == {}
      ensures pick.Some? ==> pick.value == First(p, Tables(), Candidates(Tables(), profile))
    {
      pick := None;
      var rest := tasks.Keys;
      ghost var seen: set<Id> := {};
      while rest != {}
        invariant seen + rest == tasks.Keys && BestOf(p, Tables(), profile, seen, pick)
        decreases |rest|
      {
        var id :| id in rest;
        rest := rest - {id};
        BestStep(p, Tables(), profile, seen, pick, id);
        seen := seen + {id};
        if Claimable(Tables(), profile, id) && (pick.None? || Precedes(p, Tables(), id, pick.value)) {
          pick := Some(id);
        }
      }
      BestOfAll(p, Tables(), profile, pick);
    }

    /** The lease part of a claim, after recovery in the same transaction. */
    method LeaseTx(worker: Id, lease: int, profile: Option<Effect>, nonce: string, now: Instant) returns (reply: Reply)
      modifies this
      ensures var mid := old(Tables()); var among := Candidates(mid, profile); var aid := AttemptId(nonce);
        if among == {} then reply == Failed(NoClaimable)
        else if aid in mid.attempts then reply == Failed(Constraint)
        else
          var id := First(p, mid, among);
          && Claimable(mid, profile, id)
          && reply == Claimed(ClaimOf(mid, id, aid, now + lease))
          && Tables() == Lease(mid, id, worker, aid, now + lease, now)
    {
      ghost var mid := Tables();
      var pick := SelectQueued(profile);
      if pick.None? {
        return Failed(NoClaimable);
      }
      var id := pick.value;
      assert Claimable(mid, profile, id);
      var t, aid := tasks[id], AttemptId(nonce);
      var claim := ClaimOf(Tables(), id, aid, now + lease);
      tasks := tasks[id := t.(state := TaskLeased, attemptCount := claim.number, fence := claim.fence, active := aid, updatedAt := now)];
      if aid in attempts {
        return Failed(Constraint);
      }
      attempts := attempts[aid := Attempt(id, claim.number, worker, claim.fence, AttemptLeased, CommitNotStarted,
                                          claim.leaseUntil, "", now, now)];
      reply := Claimed(claim);
    }

    method ClaimProfile(worker: Id, lease: int, profile: Option<Effect>, nonce: string, now: Instant) returns (reply: Reply)
      requires Valid()
      modifies this
      ensures Valid() && Result(Tables(), reply) == ClaimTask(p, old(Tables()), worker, lease, profile, nonce, now)
    {
      ClaimInv(p, Tables(), worker, lease, profile, nonce, now);
      if !ValidId(worker) || !ValidLease(lease) {
        return Failed(Invalid);
      }
      var saved := Tables();
      var ok, _ := RecoverExpiredTx(now);
      reply := Failed(Conflict);
      if ok {
        reply := LeaseTx(worker, lease, profile, nonce, now);
      }
      if reply.Failed? {
        // What recovery did inside this transaction is undone as well.
        Rollback(saved);
      }
    }

    method HeartbeatClaim(id: Id, aid: Id, fence: int, lease: int, now: Instant) returns (reply: Reply)
      requires Valid()
      modifies this
      ensures Valid() && Result(Tables(), reply) == Heartbeat(old(Tables()), id, aid, fence, lease, now)
    {
      HeartbeatInv(p, Tables(), id, aid, fence, lease, now);
      if !ValidLease(lease) {
        return Failed(Invalid);
      }
      if !(id in tasks && tasks[id].state.TaskLeased? && tasks[id].active == aid && tasks[id].fence == fence
           && aid in attempts && attempts[aid].state.AttemptLeased?) {
        return Failed(Stale);
      }
      if attempts[aid].leaseUntil <= now {
        return Failed(Stale);
      }
      LeaseHolder(p, Tables(), id);
      if attempts[aid].fence != fence {
        return Failed(Stale);
      }
      attempts := attempts[aid := attempts[aid].(leaseUntil := now + lease, updatedAt := now)];
      reply := Beat(now + lease, tasks[id].cancel);
    }

    // ----------------------------------------------------------------- completion

    /** Insert the lifecycle events after creation. */
    method InsertLifecycle(id: Id, es: seq<Event>) returns (ok: bool)
      requires Chain(es) && id in events && Chain(events[id])
      modifies this`events
      ensures ok <==> |old(events)[id]| == 1 || |es| == 1
      ensures ok && |old(events)[id]| == 1 ==> events == old(events)[id := es]
    {
      ghost var was := events;
      assert es[..1] == [CREATION];
      assert |was[id]| == 1 ==> was[id] == [CREATION];
      for k := 1 to |es|
        invariant id in events
        invariant k > 1 ==> |was[id]| == 1
        invariant |was[id]| == 1 ==> events == was[id := es[..k]]
        invariant k == 1 ==> events == was
      {
        assert es[k].sequence == k;
        assert es[..k + 1] == es[..k] + [es[k]];
        if |was[id]| == 1 {
          assert forall j :: 0 <= j < k ==> es[..k][j].sequence == j;
        }
        ok := InsertEvent(id, es[k]);
        if !ok {
          return;
        }
      }
      ok := true;
      assert es[..|es|] == es;
    }

    method CompleteTx(id: Id, aid: Id, fence: int, envelope: Envelope, checkedAt: Instant, now: Instant) returns (reply: Reply)
      requires Valid()
      modifies this
      ensures reply == Complete(p, old(Tables()), id, aid, fence, envelope, checkedAt, now).reply
      ensures !reply.Failed? ==> Tables() == Complete(p, old(Tables()), id, aid, fence, envelope, checkedAt, now).db
    {
      hide ScanOk, EventsOk;
      if envelope.evidence.None? {
        return Failed(Invalid);
      }
      if id !in tasks {
        return Failed(NotFound);
      }
      assert TaskOk(Tables(), id) && EpisodeOk(p, Tables(), id);
      var t := tasks[id];
      if t.state.TaskCompleted? {
        if t.finalAttempt == aid && t.fence == fence && t.finalDigest == envelope.evidenceDigest {
          if !ScanOk(p, id, episodes[id]) || !EventsOk(episodes[id], events[id]) {
            return Failed(Corrupt);
          }
          return Accepted(episodes[id].evidence.value, true);
        }
        return Failed(Stale);
      }
      if !t.state.TaskLeased? || t.active != aid || t.fence != fence {
        return Failed(Stale);
      }
      if t.cancel {
        return Failed(CancelRequested);
      }
      if !EnvelopeOk(p, RequestOf(id, episodes[id]), envelope) {
        return Failed(Invalid);
      }
      LeaseHolder(p, Tables(), id);
      if !(aid in attempts && attempts[aid].episodeId == id && attempts[aid].fence == fence && attempts[aid].state.AttemptLeased?) {
        return Failed(Stale);
      }
      if attempts[aid].leaseUntil <= checkedAt {
        return Failed(Stale);
      }
      if p.encodedBytes(envelope) > MAX_REPORT_BYTES {
        return Failed(ResourceLimit);
      }
      reply := StoreEvidence(id, aid, fence, envelope, now);
    }

    /** The statements that write accepted Evidence: events, Episode, attempt and task. */
    method StoreEvidence(id: Id, aid: Id, fence: int, envelope: Envelope, now: Instant) returns (reply: Reply)
      requires Valid() && id in tasks && id in episodes && tasks[id].state.TaskLeased? && tasks[id].active == aid
      requires aid in attempts && attempts[aid].state.AttemptLeased? && attempts[aid].fence == fence
      requires envelope.evidence.Some? && Chain(envelope.evidence.value.lifecycle.events) && |envelope.evidence.value.lifecycle.events| == 6
      modifies this
      ensures var stored := old(episodes[id].status.Created? && episodes[id].sequence == 0);
        && reply == (if stored then Accepted(envelope, false) else Failed(Constraint))
        && (stored ==> Tables() == CompletedDb(old(Tables()), id, aid, envelope, now))
    {
      ghost var was := Tables();
      assert EpisodeOk(p, was, id);
      var t, e := tasks[id], envelope.evidence.value;
      var ok := InsertLifecycle(id, e.lifecycle.events);
      if !ok {
        return Failed(Constraint);
      }
      OneEvent(p, was, id);
      if !episodes[id].status.Created? || episodes[id].sequence != 0 {
        return Failed(Stale);
      }
      episodes := episodes[id := episodes[id].(status := e.lifecycle.current, sequence := |e.lifecycle.events| - 1, outcome := e.outcome,
                                               evidence := Some(envelope), evidenceDigest := envelope.evidenceDigest, updatedAt := now)];
      var changed := UpdateAttempt(aid, fence, AttemptCompleted, CommitCommitted, attempts[aid].errorClass, now);
      if changed != 1 {
        return Failed(Stale);
      }
      tasks := tasks[id := t.(state := TaskCompleted, active := "", finalAttempt := aid, finalDigest := envelope.evidenceDigest, updatedAt := now)];
      reply := Accepted(envelope, false);
    }

    method CompleteClaim(id: Id, aid: Id, fence: int, envelope: Envelope, checkedAt: Instant, now: Instant) returns (reply: Reply)
      requires Valid()
      modifies this
      ensures Valid() && Result(Tables(), reply) == Complete(p, old(Tables()), id, aid, fence, envelope, checkedAt, now)
    {
      CompleteInv(p, Tables(), id, aid, fence, envelope, checkedAt, now);
      var saved := Tables();
      reply := CompleteTx(id, aid, fence, envelope, checkedAt, now);
      if reply.Failed? {
        Rollback(saved);
      }
    }

    // -------------------------------------------------------------------- failure

    method FailTx(id: Id, aid: Id, fence: int, commit: CommitState, errorClass: string, now: Instant) returns (reply: Reply)
      requires Valid()
      modifies this
      ensures reply == FailClaim(old(Tables()), id, aid, fence, commit, errorClass, now).reply
      ensures !reply.Failed? ==> Tables() == FailClaim(old(Tables()), id, aid, fence, commit, errorClass, now).db
    {
      if commit != CommitNoEffect && commit != CommitUnknown {
        return Failed(Invalid);
      }
      if errorClass != "WORKER_ERROR" && errorClass != "PROVIDER_ERROR" && errorClass != "CANCELLED" {
        return Failed(Invalid);
      }
      if id !in tasks {
        return Failed(NotFound);
      }
      var t := tasks[id];
      if !t.state.TaskLeased? || t.active != aid || t.fence != fence {
        return Failed(Stale);
      }
      LeaseHolder(p, Tables(), id);
      var attemptState, taskState := AttemptFailed, TaskFailed;
      if commit.CommitUnknown? {
        attemptState, taskState := AttemptCommitUnknown, TaskCommitUnknown;
      } else if t.cancel {
        attemptState, taskState := AttemptCancelled, TaskCancelled;
      } else if t.attemptCount < t.maxAttempts {
        taskState := TaskQueued;
      }
      var ok := EndLease(id, aid, fence, attemptState, taskState, commit, errorClass, now);
      reply := if ok then Done else Failed(Conflict);
    }

    method FailAttempt(id: Id, aid: Id, fence: int, commit: CommitState, errorClass: string, now: Instant) returns (reply: Reply)
      requires Valid()
      modifies this
      ensures Valid() && Result(Tables(), reply) == FailClaim(old(Tables()), id, aid, fence, commit, errorClass, now)
    {
      FailClaimInv(p, Tables(), id, aid, fence, commit, errorClass, now);
      var saved := Tables();
      reply := FailTx(id, aid, fence, commit, errorClass, now);
      if reply.Failed? {
        Rollback(saved);
      }
    }

    // --------------------------------------------------------------- cancellation

    method CancelTx(id: Id, now: Instant) returns (reply: Reply)
      requires Valid()
      modifies this
      ensures reply == Cancel(old(Tables()), id, now).reply
      ensures !reply.Failed? ==> Tables() == Cancel(old(Tables()), id, now).db
    {
      if id !in tasks {
        return Failed(NotFound);
      }
      assert TaskOk(Tables(), id) && EpisodeOk(p, Tables(), id);
      var state := tasks[id].state;
      if state.TaskCompleted? {
        return Failed(Conflict);
      }
      if state.TaskCancelled? || state.TaskFailed? || state.TaskCommitUnknown? {
        return Existing;
      }
      var next := state;
      if state.TaskQueued? {
        next := TaskCancelled;
        var ok := CancelParentTx(id, now);
        if !ok {
          return Failed(Conflict);
        }
      }
      tasks := tasks[id := tasks[id].(cancel := true, state := next, updatedAt := now)];
      reply := Done;
    }

    method CancelTask(id: Id, now: Instant) returns (reply: Reply)
      requires Valid()
      modifies this
      ensures Valid() && Result(Tables(), reply) == Cancel(old(Tables()), id, now)
    {
      CancelInv(p, Tables(), id, now);
      var saved := Tables();
      reply := CancelTx(id, now);
      if reply.Failed? {
        Rollback(saved);
      }
    }

    // ----------------------------------------------------------------- local lane

    method AppendTx(request: Request, expected: int, e: Event, now: Instant) returns (reply: Reply)
      requires Valid()
      modifies this
      ensures reply == LocalAppend(p, old(Tables()), request, expected, e, now).reply
      ensures !reply.Failed? ==> Tables() == LocalAppend(p, old(Tables()), request, expected, e, now).db
    {
      if e.sequence != expected + 1 || e.from.None? || !AllowedTransition(e.from.value, e.to) || IsTerminal(e.to) {
        return Failed(Invalid);
      }
      var id := request.episodeId;
      if !(id in episodes && episodes[id].requestDigest == p.requestDigest(request)
           && Some(episodes[id].status) == e.from && episodes[id].sequence == expected) {
        return Failed(Conflict);
      }
      assert EpisodeOk(p, Tables(), id);
      episodes := episodes[id := episodes[id].(status := e.to, sequence := e.sequence, updatedAt := now)];
      var ok := InsertEvent(id, e);
      if !ok {
        return Failed(Constraint);
      }
      reply := Done;
    }

    method AppendTransition(request: Request, expected: int, e: Event, now: Instant) returns (reply: Reply)
      requires Valid()
      modifies this
      ensures Valid() && Result(Tables(), reply) == LocalAppend(p, old(Tables()), request, expected, e, now)
    {
      LocalAppendInv(p, Tables(), request, expected, e, now);
      var saved := Tables();
      reply := AppendTx(request, expected, e, now);
      if reply.Failed? {
        Rollback(saved);
      }
    }

    method CompleteLocalTx(request: Request, expected: int, envelope: Envelope, now: Instant) returns (reply: Reply)
      requires Valid()
      modifies this
      ensures reply == LocalComplete(p, old(Tables()), request, expected, envelope, now).reply
      ensures !reply.Failed? ==> Tables() == LocalComplete(p, old(Tables()), request, expected, envelope, now).db
    {
      if envelope.evidence.None? || !CarriesEvidence(envelope.evidence.value.lifecycle.current) {
        return Failed(Invalid);
      }
      var id, ev := request.episodeId, envelope.evidence.value;
      if ev.episodeId != id || ev.bundleDigest != request.bundleDigest || ev.scenarioPath != request.scenarioPath
         || p.evidenceDigest(ev) != envelope.evidenceDigest {
        return Failed(Invalid);
      }
      if p.encodedBytes(envelope) > MAX_REPORT_BYTES {
        return Failed(ResourceLimit);
      }
      if |ev.lifecycle.events| == 0 {
        return Failed(Invalid);
      }
      var e := ev.lifecycle.events[|ev.lifecycle.events| - 1];
      if e.sequence != expected + 1 || e.to != ev.lifecycle.current || e.from != Some(Evaluating) {
        return Failed(Invalid);
      }
      if !(id in episodes && episodes[id].requestDigest == p.requestDigest(request)
           && episodes[id].status.Evaluating? && episodes[id].sequence == expected) {
        return Failed(Conflict);
      }
      assert EpisodeOk(p, Tables(), id);
      episodes := episodes[id := episodes[id].(status := e.to, sequence := e.sequence, outcome := ev.outcome,
                                               evidence := Some(envelope), evidenceDigest := envelope.evidenceDigest, updatedAt := now)];
      var ok := InsertEvent(id, e);
      if !ok {
        return Failed(Constraint);
      }
      reply := Done;
    }

    method CompleteLocal(request: Request, expected: int, envelope: Envelope, now: Instant) returns (reply: Reply)
      requires Valid()
      modifies this
      ensures Valid() && Result(Tables(), reply) == LocalComplete(p, old(Tables()), request, expected, envelope, now)
    {
      LocalCompleteInv(p, Tables(), request, expected, envelope, now);
      var saved := Tables();
      reply := CompleteLocalTx(request, expected, envelope, now);
      if reply.Failed? {
        Rollback(saved);
      }
    }

    method FailLocalTx(request: Request, expected: int, now: Instant) returns (reply: Reply)
      requires Valid()
      modifies this
      ensures reply == LocalFail(p, old(Tables()), request, expected, now).reply
      ensures !reply.Failed? ==> Tables() == LocalFail(p, old(Tables()), request, expected, now).db
    {
      var id := request.episodeId;
      if !(id in episodes && episodes[id].requestDigest == p.requestDigest(request)) {
        return Failed(NotFound);
      }
      var row := episodes[id];
      if row.sequence != expected || IsTerminal(row.status) || !AllowedTransition(row.status, RuntimeError) {
        return Existing;
      }
      assert EpisodeOk(p, Tables(), id);
      episodes := episodes[id := row.(status := RuntimeError, sequence := row.sequence + 1, errorClass := "RUNTIME_ERROR", updatedAt := now)];
      var ok := InsertEvent(id, Event(row.sequence + 1, Some(row.status), RuntimeError));
      if !ok {
        return Failed(Constraint);
      }
      reply := Done;
    }

    method FailLocal(request: Request, expected: int, now: Instant) returns (reply: Reply)
      requires Valid()
      modifies this
      ensures Valid() && Result(Tables(), reply) == LocalFail(p, old(Tables()), request, expected, now)
    {
      LocalFailInv(p, Tables(), request, expected, now);
      var saved := Tables();
      reply := FailLocalTx(request, expected, now);
      if reply.Failed? {
        Rollback(saved);
      }
    }
  }

  // --------------------------------------------------------------- selected items

  predicate IsItem(db: Db, item: Expired)
  {
    && item.episode in db.tasks
    && var t := db.tasks[item.episode];
    && item == Expired(item.episode, t.active, t.profile, t.cancel, t.attemptCount, t.maxAttempts, t.fence)
  }

  function EpisodesOf(found: seq<Expired>): set<Id>
  {
    set k | 0 <= k < |found| :: found[k].episode
  }

  /** The items list each of the given tasks once. */
  predicate Listing(db: Db, found: seq<Expired>, ids: set<Id>)
  {
    && EpisodesOf(found) == ids && |found| == |ids|
    && (forall k :: 0 <= k < |found| ==> IsItem(db, found[k]))
    && (forall j, k :: 0 <= j < k < |found| ==> found[j].episode != found[k].episode)
  }

  /** The SELECT of recovery: one item for each expired lease. */
  method SelectExpired(p: Platform, db: Db, now: Instant) returns (found: seq<Expired>)
    ensures Listing(db, found, Selection(p, db, now))
  {
    hide IsItem, Listing, Selection;
    found := [];
    var rest := db.tasks.Keys;
    ghost var all := Selection(p, db, now);
    ListingStart(p, db, now);
    while rest != {}
      invariant rest <= db.tasks.Keys && Listing(db, found, all - rest)
      decreases |rest|
    {
      var id :| id in rest;
      var t := db.tasks[id];
      if t.state.TaskLeased? && t.active in db.attempts && db.attempts[t.active].state.AttemptLeased?
         && p.expired(db.attempts[t.active].leaseUntil, now) {
        var item := Expired(id, t.active, t.profile, t.cancel, t.attemptCount, t.maxAttempts, t.fence);
        ItemOf(db, item);
        ListingAppend(db, found, all - rest, item);
        found := found + [item];
      }
      SelectionStep(p, db, now, rest, id);
      rest := rest - {id};
    }
    assert all - {} == all;
  }

  lemma ListingStart(p: Platform, db: Db, now: Instant)
    ensures Listing(db, [], Selection(p, db, now) - db.tasks.Keys)
  {
    assert Selection(p, db, now) - db.tasks.Keys == {};
  }

  lemma SelectionStep(p: Platform, db: Db, now: Instant, rest: set<Id>, id: Id)
    requires id in rest && id in db.tasks
    ensures var all := Selection(p, db, now);
      all - (rest - {id}) == if Selected(p, db, now, id) then all - rest + {id} else all - rest
  {
    assert id in Selection(p, db, now) <==> Selected(p, db, now, id);
  }

  lemma ItemOf(db: Db, item: Expired)
    requires item.episode in db.tasks
    requires var t := db.tasks[item.episode];
      item == Expired(item.episode, t.active, t.profile, t.cancel, t.attemptCount, t.maxAttempts, t.fence)
    ensures IsItem(db, item)
  {
  }

  lemma EpisodesOfAppend(found: seq<Expired>, item: Expired)
    ensures EpisodesOf(found + [item]) == EpisodesOf(found) + {item.episode}
  {
    var more := found + [item];
    assert more[|found|] == item;
    forall id | id in EpisodesOf(found) ensures id in EpisodesOf(more) {
      var k :| 0 <= k < |found| && found[k].episode == id;
      assert more[k].episode == id;
    }
  }

  lemma ListingAppend(db: Db, found: seq<Expired>, ids: set<Id>, item: Expired)
    requires Listing(db, found, ids) && IsItem(db, item) && item.episode !in ids
    ensures Listing(db, found + [item], ids + {item.episode})
  {
    EpisodesOfAppend(found, item);
    assert forall k :: 0 <= k < |found| ==> found[k].episode in EpisodesOf(found);
  }

  lemma ListingAt(db: Db, found: seq<Expired>, ids: set<Id>, i: int)
    requires Listing(db, found, ids) && 0 <= i < |found|
    ensures IsItem(db, found[i]) && found[i].episode in ids && found[i].episode !in EpisodesOf(found[..i])
    ensures EpisodesOf(found[..i + 1]) == EpisodesOf(found[..i]) + {found[i].episode}
  {
    assert found[..i + 1] == found[..i] + [found[i]];
    EpisodesOfAppend(found[..i], found[i]);
  }

  /** Recovery has ended the first i selected leases. */
  ghost predicate Underway(p: Platform, was: Db, found: seq<Expired>, i: int, now: Instant, db: Db)
  {
    && 0 <= i <= |found|
    && var done := EpisodesOf(found[..i]);
    && done <= Selection(p, was, now) && Expirable(was, done)
    && db == ExpireSet(was, done, now) && Inv(p, db)
  }

  lemma NextItem(p: Platform, was: Db, found: seq<Expired>, i: int, now: Instant, db: Db)
    requires Inv(p, was) && Listing(was, found, Selection(p, was, now))
    requires Underway(p, was, found, i, now, db) && i < |found|
    ensures IsItem(db, found[i]) && db.tasks[found[i].episode].state.TaskLeased?
    ensures if Expirable(db, {found[i].episode})
      then Underway(p, was, found, i + 1, now, ExpireSet(db, {found[i].episode}, now))
      else Blocked(p, was, now)
  {
    var ids, done, id := Selection(p, was, now), EpisodesOf(found[..i]), found[i].episode;
    ListingAt(was, found, ids, i);
    ExpireNext(p, was, done, id, now);
    if !Expirable(db, {id}) {
      assert id in CancelledIn(was, ids) && !ParentCancellable(was, id);
    }
  }

  lemma AllExpirable(p: Platform, was: Db, now: Instant)
    requires Expirable(was, Selection(p, was, now))
    ensures !Blocked(p, was, now)
  {
  }
}
