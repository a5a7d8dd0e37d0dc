/**
 Both lanes on a journal with one connection. Whoever reserves an Episode owns it: only its reserver executes it locally, and
 Submit knows from the reservation whether it is the reserver. For an Episode it did not reserve, and that has no task yet, Submit
 reads through the pool while its own transaction holds the connection; it waits until its context ends and inserts nothing.
 */
module OneConnection {
  import opened EpisodeTypes
  import opened Coordinator
  import opened Invariant
  import opened Coupling
  import opened MixedLane

  datatype Lane = Remote | Local

  /** A transaction and the lane that runs it. */
  datatype Move = Move(lane: Lane, op: Op)

  /** The tables, and the Episodes the local lane has reserved. */
  datatype Owned = Owned(db: Db, local: set<Id>)

  /** Submit waits for the connection it holds. */
  predicate Waits(db: Db, op: Op)
  {
    op.OpEnqueue? && !op.created && op.id !in db.tasks
  }

  ghost function Next(p: Platform, w: Owned, m: Move): Owned
  {
    if Waits(w.db, m.op) then w
    else
      var r := Step(p, w.db, m.op);
      Owned(r.db, if m.op.OpReserve? && m.lane.Local? && r.reply.Done? then w.local + {m.op.request.episodeId} else w.local)
  }

  /** Local transactions name Episodes the local lane reserved; Submit passes created only for its own reservations. */
  predicate Possible(w: Owned, m: Move)
  {
    && (IsLocal(m.op) ==> m.op.request.episodeId in w.local)
    && (m.op.OpEnqueue? && m.op.created ==> m.op.id !in w.local)
  }

  ghost predicate AllPossible(p: Platform, w: Owned, ms: seq<Move>)
    decreases |ms|
  {
    ms == [] || (Possible(w, ms[0]) && AllPossible(p, Next(p, w, ms[0]), ms[1..]))
  }

  ghost function Finally(p: Platform, w: Owned, ms: seq<Move>): Owned
    decreases |ms|
  {
    if ms == [] then w else Finally(p, Next(p, w, ms[0]), ms[1..])
  }

  const START := Owned(EMPTY, {})

  ghost predicate Apart(p: Platform, w: Owned)
  {
    Inv(p, w.db) && CoupledBut(w.db, w.local)
  }

  lemma LocalStepApart(p: Platform, w: Owned, op: Op)
    requires Apart(p, w) && IsLocal(op) && op.request.episodeId in w.local
    ensures CoupledBut(Step(p, w.db, op).db, w.local)
  {
    hide Inv;
    if Step(p, w.db, op).reply.Done? {
      NoBlankAttempt(p, w.db);
      CoupledFrame(w.db, Step(p, w.db, op).db, op.request.episodeId, "", w.local);
    }
  }

  lemma ReservationApart(p: Platform, w: Owned, op: Op)
    requires Apart(p, w) && op.OpReserve? && Step(p, w.db, op).reply.Done?
    ensures CoupledBut(Step(p, w.db, op).db, w.local + {op.request.episodeId})
  {
    SubmitCoupled(p, w.db, op, w.local);
    NewcomerHasNoTask(p, w.db, op.request.episodeId);
  }

  lemma NextApart(p: Platform, w: Owned, m: Move)
    requires Apart(p, w) && Possible(w, m)
    ensures Apart(p, Next(p, w, m))
  {
    StepInv(p, w.db, m.op);
    if IsLocal(m.op) {
      LocalStepApart(p, w, m.op);
    } else if m.op.OpReserve? && m.lane.Local? && Step(p, w.db, m.op).reply.Done? {
      ReservationApart(p, w, m.op);
    } else if m.op.OpEnqueue? && m.op.id in w.local {
      assert Waits(w.db, m.op);
    } else {
      StepCoupled(p, w.db, m.op, w.local);
    }
  }

  lemma {:induction false} RunApart(p: Platform, w: Owned, ms: seq<Move>)
    requires Apart(p, w) && AllPossible(p, w, ms)
    ensures Apart(p, Finally(p, w, ms))
    decreases |ms|
  {
    if ms != [] {
      NextApart(p, w, ms[0]);
      RunApart(p, Next(p, w, ms[0]), ms[1..]);
    }
  }

  /**
   In every run of both lanes on one connection: no Episode of the local lane ever gets a task, every parent follows its task,
   no lease is ever orphaned, and no recovery fails at any time.
   */
  lemma NothingIsOrphaned(p: Platform, ms: seq<Move>, id: Id, now: Instant)
    requires AllPossible(p, START, ms)
    ensures var w := Finally(p, START, ms);
      && Inv(p, w.db)
      && (id in w.db.tasks ==> id !in w.local && Coupled(w.db, id))
      && !Orphaned(w.db, id)
      && !Recover(p, w.db, now).reply.Failed?
  {
    var w := Finally(p, START, ms);
    EmptyInv(p);
    RunApart(p, START, ms);
    NoGuardFails(p, w.db, OpRecover(now), w.local);
    if id in w.db.tasks {
      assert Coupled(w.db, id) && TaskOk(w.db, id);
    }
  }
}
