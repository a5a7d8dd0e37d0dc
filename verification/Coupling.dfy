/** How the parent Episode follows its task, when recovery succeeds, and what a mixed lane can break. */
module Coupling {
  import opened EpisodeTypes
  import opened Coordinator
  import opened Invariant
  import opened Runs

  // -------------------------------------------------------------- recovery is exact

  /** Recovery ends exactly the selected leases, reports their number, and leaves nothing selected. */
  lemma RecoverExact(p: Platform, db: Db, now: Instant)
    requires Inv(p, db) && !Recover(p, db, now).reply.Failed?
    ensures var db' := Recover(p, db, now).db; var ids := Selection(p, db, now);
      && Recover(p, db, now).reply == Count(|ids|)
      && db'.tasks.Keys == db.tasks.Keys && db'.attempts.Keys == db.attempts.Keys && db'.episodes.Keys == db.episodes.Keys
      && (forall id :: id in db.tasks ==> db'.tasks[id] == if id in ids then ExpiredTask(db.tasks[id], now) else db.tasks[id])
      && (forall aid :: aid in db.attempts ==>
            var id := db.attempts[aid].episodeId;
            id in db.tasks &&
            db'.attempts[aid] ==
              if id in ids && aid == db.tasks[id].active then ExpiredAttempt(db.tasks[id], db.attempts[aid], now) else db.attempts[aid])
      && (forall id :: id in db.episodes && !(id in ids && ExpiredTaskState(db.tasks[id]).TaskCancelled?) ==>
            db'.episodes[id] == db.episodes[id])
      && Selection(p, db', now) == {}
      && Recover(p, db', now) == Result(db', Count(0))
  {
    hide Numbered, EpisodeOk;
    var db' := Recover(p, db, now).db;
    var ids := Selection(p, db, now);
    forall aid | aid in db.attempts ensures db.attempts[aid].episodeId in db.tasks {
      assert AttemptOk(db, aid);
    }
    NothingLeft(p, db, now);
  }

  lemma NothingLeft(p: Platform, db: Db, now: Instant)
    requires Inv(p, db) && !Recover(p, db, now).reply.Failed?
    ensures var db' := Recover(p, db, now).db;
      Selection(p, db', now) == {} && Recover(p, db', now) == Result(db', Count(0))
  {
    var db' := Recover(p, db, now).db;
    forall id | id in db'.tasks ensures id !in Selection(p, db', now) {
      if id !in Selection(p, db, now) && db.tasks[id].state.TaskLeased? {
        LeaseHolder(p, db, id);
      }
    }
    assert Selection(p, db', now) == {};
    assert CancelledIn(db', {}) == {};
    ExpireNone(db', now);
  }

  // ------------------------------------------------------------ coordinator-only runs

  /** The parent has Evidence iff the task is COMPLETED, is CANCELLED iff the task is, and is untouched otherwise. */
  predicate Coupled(db: Db, id: Id)
  {
    id in db.episodes ==>
      var row := db.episodes[id];
      if id in db.tasks && db.tasks[id].state.TaskCompleted? then CarriesEvidence(row.status)
      else if id in db.tasks && db.tasks[id].state.TaskCancelled? then row.status.Cancelled?
      else row.status.Created? && row.sequence == 0
  }

  /** Every parent outside the given Episodes follows its task, and none of those has a task. */
  ghost predicate CoupledBut(db: Db, local: set<Id>)
  {
    db.tasks.Keys !! local && forall id {:trigger Coupled(db, id)} :: id !in local ==> Coupled(db, id)
  }

  ghost predicate AllCoupled(db: Db)
  {
    CoupledBut(db, {})
  }

  lemma CoupledFrame(db: Db, db': Db, id0: Id, aid0: Id, local: set<Id>)
    requires CoupledBut(db, local) && Touches(db, db', id0, aid0)
    requires if id0 in local then id0 !in db'.tasks else Coupled(db', id0)
    ensures CoupledBut(db', local)
  {
    forall id ensures id in local ==> id !in db'.tasks {
      assert id != id0 ==> SameAt(db.tasks, db'.tasks, id);
    }
    forall id | id !in local ensures Coupled(db', id) {
      if id != id0 {
        assert SameAt(db.tasks, db'.tasks, id) && SameAt(db.episodes, db'.episodes, id);
        assert Coupled(db, id);
      }
    }
  }

  /** In a coupled journal no row guard fails after its selection passed. */
  lemma NoGuardFails(p: Platform, db: Db, op: Op, local: set<Id>)
    requires Inv(p, db) && CoupledBut(db, local)
    ensures op.OpRecover? ==> !Step(p, db, op).reply.Failed?
    ensures op.OpClaim? && Step(p, db, op).reply.Failed? ==> Step(p, db, op).reply.error != Conflict
    ensures op.OpFail? && Step(p, db, op).reply.Failed? ==> Step(p, db, op).reply.error != Conflict
    ensures op.OpCancel? && Step(p, db, op).reply == Failed(Conflict) ==> db.tasks[op.id].state.TaskCompleted?
    ensures op.OpComplete? && Step(p, db, op).reply.Failed? ==> Step(p, db, op).reply.error != Constraint
  {
    forall id | id in db.tasks && !TaskTerminal(db.tasks[id].state) ensures ParentCancellable(db, id) {
      assert TaskOk(db, id) && Coupled(db, id);
    }
    if op.OpComplete? && op.id in db.tasks {
      assert Coupled(db, op.id);
    }
  }

  lemma RecoverCoupled(p: Platform, db: Db, now: Instant, local: set<Id>)
    requires Inv(p, db) && CoupledBut(db, local)
    ensures CoupledBut(Recover(p, db, now).db, local)
  {
    var db' := Recover(p, db, now).db;
    var ids := Selection(p, db, now);
    forall id | id !in local ensures Coupled(db', id) {
      assert Coupled(db, id);
      if !Blocked(p, db, now) && id in ids {
        LeaseHolder(p, db, id);
        assert id in CancelledIn(db, ids) <==> ExpiredTaskState(db.tasks[id]).TaskCancelled?;
      }
    }
  }

  lemma LeasedStepCoupled(p: Platform, db: Db, op: Op, local: set<Id>)
    requires Inv(p, db) && CoupledBut(db, local) && (op.OpComplete? || op.OpFail? || op.OpHeartbeat?)
    ensures CoupledBut(Step(p, db, op).db, local)
  {
    var db' := Step(p, db, op).db;
    if db' != db {
      LeaseStepTouches(p, db, op);
      assert Coupled(db, op.id);
      CoupledFrame(db, db', op.id, op.aid, local);
    }
  }

  lemma CancelCoupled(p: Platform, db: Db, id: Id, now: Instant, local: set<Id>)
    requires Inv(p, db) && CoupledBut(db, local)
    ensures CoupledBut(Cancel(db, id, now).db, local)
  {
    if Cancel(db, id, now).reply.Done? {
      NoBlankAttempt(p, db);
      assert TaskOk(db, id) && Coupled(db, id);
      CoupledFrame(db, Cancel(db, id, now).db, id, "", local);
    }
  }

  lemma ClaimCoupled(p: Platform, db: Db, op: Op, local: set<Id>)
    requires Inv(p, db) && CoupledBut(db, local) && op.OpClaim?
    ensures CoupledBut(Step(p, db, op).db, local)
  {
    hide Recover, Inv;
    if Step(p, db, op).reply.Claimed? {
      var mid := Recover(p, db, op.now).db;
      RecoverCoupled(p, db, op.now, local);
      RecoverInv(p, db, op.now);
      var id := ClaimShape(p, db, op);
      assert Coupled(mid, id);
      CoupledFrame(mid, Step(p, db, op).db, id, AttemptId(op.nonce), local);
    }
  }

  lemma SubmitCoupled(p: Platform, db: Db, op: Op, local: set<Id>)
    requires Inv(p, db) && CoupledBut(db, local) && (op.OpReserve? || (op.OpEnqueue? && op.id !in local))
    ensures CoupledBut(Step(p, db, op).db, local)
  {
    hide Inv, Readable;
    var id := if op.OpReserve? then op.request.episodeId else op.id;
    if Step(p, db, op).reply.Done? {
      NoBlankAttempt(p, db);
      assert id !in local ==> Coupled(db, id);
      if op.OpReserve? {
        NewcomerHasNoTask(p, db, id);
      }
      CoupledFrame(db, Step(p, db, op).db, id, "", local);
    }
  }

  lemma StepCoupled(p: Platform, db: Db, op: Op, local: set<Id>)
    requires Inv(p, db) && CoupledBut(db, local) && !IsLocal(op) && (op.OpEnqueue? ==> op.id !in local)
    ensures CoupledBut(Step(p, db, op).db, local)
  {
    match op
    case OpReserve(_, _) => SubmitCoupled(p, db, op, local);
    case OpEnqueue(_, _, _, _, _, _) => SubmitCoupled(p, db, op, local);
    case OpClaim(_, _, _, _, _) => ClaimCoupled(p, db, op, local);
    case OpCancel(id, now) => CancelCoupled(p, db, id, now, local);
    case OpRecover(now) => RecoverCoupled(p, db, now, local);
    case _ => LeasedStepCoupled(p, db, op, local);
  }

  /** In every run of coordinator transactions alone, parents follow their tasks. */
  lemma {:induction false} CoordinatorRunCoupled(p: Platform, db: Db, ops: seq<Op>)
    requires Inv(p, db) && AllCoupled(db)
    requires forall k :: 0 <= k < |ops| ==> !IsLocal(ops[k])
    ensures AllCoupled(Run(p, db, ops)) && Inv(p, Run(p, db, ops))
    decreases |ops|
  {
    if ops != [] {
      StepInv(p, db, ops[0]);
      StepCoupled(p, db, ops[0], {});
      CoordinatorRunCoupled(p, Step(p, db, ops[0]).db, ops[1..]);
    }
  }
}
