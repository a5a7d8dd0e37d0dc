/**
 What a run that mixes the local lane and the coordinator can break: recovery, and with it every claim. It takes a Submit
 that adopts a reservation of the local lane, which reads the Episode through the pool inside its own transaction
 (remote.go:163) and so needs a second connection. The journal opens only one (journal.go:85): see module OneConnection.
 */
module MixedLane {
  import opened EpisodeTypes
  import opened Coordinator
  import opened Invariant
  import opened Runs
  import opened FirstSteps
  import Bounds

  /** A cancelled hermetic lease whose parent Episode the local lane has already moved. */
  predicate Orphaned(db: Db, id: Id)
  {
    && id in db.tasks && db.tasks[id].state.TaskLeased?
    && db.tasks[id].active in db.attempts && db.attempts[db.tasks[id].active].state.AttemptLeased?
    && db.tasks[id].profile.Hermetic? && db.tasks[id].cancel
    && !ParentCancellable(db, id)
  }

  predicate Stuck(p: Platform, db: Db, now: Instant, id: Id)
  {
    Orphaned(db, id) && p.expired(db.attempts[db.tasks[id].active].leaseUntil, now)
  }

  /** Recovery fails exactly when such a lease has expired; one of them also stops every valid claim. */
  lemma RecoveryFailsIff(p: Platform, db: Db, now: Instant)
    ensures Recover(p, db, now).reply.Failed? <==> exists id :: Stuck(p, db, now, id)
    ensures Recover(p, db, now).reply.Failed? ==>
      forall worker, lease, want, nonce :: ValidId(worker) && ValidLease(lease) ==>
        ClaimTask(p, db, worker, lease, want, nonce, now) == Result(db, Failed(Conflict))
  {
    var ids := Selection(p, db, now);
    forall id ensures Stuck(p, db, now, id) <==> id in CancelledIn(db, ids) && !ParentCancellable(db, id) {
    }
  }

  /** A parent that left CREATED never becomes cancellable while its task is leased. */
  lemma ParentStaysMoved(p: Platform, db: Db, db': Db, id: Id)
    requires Inv(p, db) && Inv(p, db') && EpisodeAt(db, db', id)
    requires id in db.tasks && id in db'.tasks && db'.tasks[id].state.TaskLeased?
    requires !ParentCancellable(db, id)
    ensures !ParentCancellable(db', id)
  {
    assert TaskOk(db, id) && EpisodeOk(p, db, id) && EpisodeOk(p, db', id);
  }

  /** The task of this lease still holds it, and its attempt row is the same. */
  predicate KeepsLease(db: Db, db': Db, id: Id)
    requires id in db.tasks && db.tasks[id].active in db.attempts
  {
    var aid := db.tasks[id].active;
    && id in db'.tasks && db'.tasks[id].state.TaskLeased? && db'.tasks[id].active == aid
    && db'.tasks[id].profile == db.tasks[id].profile && (db.tasks[id].cancel ==> db'.tasks[id].cancel)
    && aid in db'.attempts && db'.attempts[aid] == db.attempts[aid]
  }

  /** Heartbeats, completions and failures that do not speak for this lease pass it by. */
  lemma LeaseStepsKeepLease(p: Platform, db: Db, op: Op, id: Id)
    requires Inv(p, db) && Orphaned(db, id) && LastAttempt(db, id, db.tasks[id].active, AttemptLeased)
    requires (op.OpHeartbeat? || op.OpComplete? || op.OpFail?) && !SpeaksFor(op, db.tasks[id].active)
    ensures KeepsLease(db, Step(p, db, op).db, id)
  {
    var db' := Step(p, db, op).db;
    if db' != db {
      LeaseStepTouches(p, db, op);
      assert SameAt(db.tasks, db'.tasks, id) && SameAt(db.attempts, db'.attempts, db.tasks[id].active);
    }
  }

  lemma OthersKeepLease(p: Platform, db: Db, op: Op, id: Id)
    requires Inv(p, db) && Orphaned(db, id) && LastAttempt(db, id, db.tasks[id].active, AttemptLeased)
    requires !SpeaksFor(op, db.tasks[id].active) && !op.OpRecover? && !op.OpClaim?
    ensures KeepsLease(db, Step(p, db, op).db, id)
  {
    match op
    case OpHeartbeat(_, _, _, _, _) => LeaseStepsKeepLease(p, db, op, id);
    case OpComplete(_, _, _, _, _, _) => LeaseStepsKeepLease(p, db, op, id);
    case OpFail(_, _, _, _, _, _) => LeaseStepsKeepLease(p, db, op, id);
    case OpEnqueue(_, _, _, _, _, _) => Bounds.QueueCounts(p, db, op, id);
    case OpCancel(_, _) => Bounds.QueueCounts(p, db, op, id);
    case _ => Bounds.LocalCounts(p, db, op);
  }

  /** A lease that keeps its row, under a parent that only moves forward, stays orphaned. */
  lemma StillOrphaned(p: Platform, db: Db, db': Db, id: Id)
    requires Inv(p, db) && Inv(p, db') && Orphaned(db, id)
    requires KeepsLease(db, db', id) && EpisodeAt(db, db', id)
    ensures Orphaned(db', id)
  {
    ParentStaysMoved(p, db, db', id);
  }

  lemma OrphanStays(p: Platform, db: Db, op: Op, id: Id)
    requires Inv(p, db) && Orphaned(db, id)
    requires !SpeaksFor(op, db.tasks[id].active) && !op.OpRecover? && !op.OpClaim?
    ensures Orphaned(Step(p, db, op).db, id) && KeepsLease(db, Step(p, db, op).db, id)
  {
    LeaseHolder(p, db, id);
    OthersKeepLease(p, db, op, id);
    StepInv(p, db, op);
    OtherMoves(p, db, op);
    assert EpisodeAt(db, Step(p, db, op).db, id);
    StillOrphaned(p, db, Step(p, db, op).db, id);
  }

  /** Once its time has passed, an orphaned lease makes recovery and claims fail. */
  lemma OrphanBlocks(p: Platform, db: Db, op: Op, id: Id)
    requires Stuck(p, db, op.now, id) && (op.OpRecover? || op.OpClaim?)
    ensures Step(p, db, op).db == db && Step(p, db, op).reply.Failed?
  {
    RecoveryFailsIff(p, db, op.now);
  }

  /**
   The queue stays shut: until the orphan's own worker speaks, every later recovery and claim made
   at a time when its lease counts as expired fails, whatever else happens.
   */
  lemma {:induction false} QueueStaysShut(p: Platform, db: Db, ops: seq<Op>, id: Id)
    requires Inv(p, db) && Orphaned(db, id)
    requires forall k :: 0 <= k < |ops| ==> !SpeaksFor(ops[k], db.tasks[id].active)
    requires forall k :: 0 <= k < |ops| && (ops[k].OpRecover? || ops[k].OpClaim?) ==> Stuck(p, db, ops[k].now, id)
    ensures Orphaned(Run(p, db, ops), id)
    ensures Run(p, db, ops).attempts.Keys == db.attempts.Keys
    decreases |ops|
  {
    if ops != [] {
      var db' := Step(p, db, ops[0]).db;
      StepInv(p, db, ops[0]);
      if ops[0].OpRecover? || ops[0].OpClaim? {
        OrphanBlocks(p, db, ops[0], id);
      } else {
        OrphanStays(p, db, ops[0], id);
        Bounds.OtherCounts(p, db, ops[0], id);
      }
      QueueStaysShut(p, db', ops[1..], id);
    }
  }

  // ----------------------------------------------------------------- such a run exists

  lemma MovedAndCancelled(p: Platform, db: Db, r: Request)
    requires var id := r.episodeId;
      && id in db.tasks && db.tasks[id].state.TaskLeased? && db.tasks[id].profile.Hermetic?
      && db.tasks[id].active in db.attempts && db.attempts[db.tasks[id].active].state.AttemptLeased?
      && id in db.events && Names(p, db, r) && db.episodes[id].status.Created? && db.episodes[id].sequence == 0
    ensures var db' := Step(p, db, OpLocalAppend(r, 0, Event(1, Some(Created), Provisioning), 0)).db;
      Orphaned(Step(p, db', OpCancel(r.episodeId, 0)).db, r.episodeId)
  {
    var db' := Step(p, db, OpLocalAppend(r, 0, Event(1, Some(Created), Provisioning), 0)).db;
    assert db'.episodes[r.episodeId].status.Provisioning?;
  }

  /**
   Where Submit's read through the pool finds a second connection: a local reservation adopted by Submit before its first
   transition, claimed, moved locally and cancelled.
   */
  lemma AdoptedReservationIsOrphaned(p: Platform, r: Request)
    ensures exists ops :: Orphaned(Run(p, EMPTY, ops), r.episodeId)
  {
    var id := r.episodeId;
    var submit := SubmitOps(r, false);
    var db1 := Run(p, EMPTY, submit);
    var op2 := CLAIM;
    var op3 := OpLocalAppend(r, 0, Event(1, Some(Created), Provisioning), 0);
    var op4 := OpCancel(id, 0);
    Submitted(p, r, false);
    ClaimedOnly(p, db1, id);
    MovedAndCancelled(p, Step(p, db1, op2).db, r);
    RunAppend(p, EMPTY, submit, op2);
    RunAppend(p, EMPTY, submit + [op2], op3);
    RunAppend(p, EMPTY, submit + [op2] + [op3], op4);
    assert Orphaned(Run(p, EMPTY, submit + [op2] + [op3] + [op4]), id);
  }
}
