/** The shortest runs from an empty journal: one Episode reserved, submitted and claimed. */
module FirstSteps {
  import opened EpisodeTypes
  import opened Coordinator
  import opened Invariant

  /** A reservation, and the task that Submit attaches to it, whether Submit made the reservation or found it. */
  function SubmitOps(r: Request, created: bool): seq<Op>
  {
    [OpReserve(r, 0), OpEnqueue(r.episodeId, "", Hermetic, 1, created, 0)]
  }

  const CLAIM := OpClaim("w", 1, None, "0", 0)

  lemma Submitted(p: Platform, r: Request, created: bool)
    ensures var db0 := Step(p, EMPTY, OpReserve(r, 0)).db;
      var db1 := Step(p, db0, OpEnqueue(r.episodeId, "", Hermetic, 1, created, 0)).db;
      && Run(p, EMPTY, SubmitOps(r, created)) == db1
      && db1.episodes.Keys == db1.events.Keys == db1.tasks.Keys == {r.episodeId} && db1.attempts == map[]
      && db1.tasks[r.episodeId] == Task("", Hermetic, 1, TaskQueued, 0, 0, "", false, "", "", 0, 0)
      && db1.episodes[r.episodeId].status.Created? && db1.episodes[r.episodeId].sequence == 0
      && db1.episodes[r.episodeId].requestDigest == p.requestDigest(r) && RequestOf(r.episodeId, db1.episodes[r.episodeId]) == r
  {
    var id := r.episodeId;
    var op0, op1 := SubmitOps(r, created)[0], SubmitOps(r, created)[1];
    var db0 := Step(p, EMPTY, op0).db;
    var db1 := Step(p, db0, op1).db;
    assert RequestOf(id, db0.episodes[id]) == r;
    assert Readable(p, db0, id);
    assert Run(p, db1, []) == db1;
    assert Run(p, db0, [op1]) == db1;
    assert SubmitOps(r, created)[1..] == [op1];
  }

  lemma ClaimedOnly(p: Platform, db: Db, id: Id)
    requires db.tasks.Keys == {id} && id in db.episodes && db.attempts == map[]
    requires db.tasks[id].state.TaskQueued? && !db.tasks[id].cancel
    ensures Step(p, db, CLAIM).db == Lease(db, id, "w", AttemptId("0"), 1, 0)
  {
    assert Selection(p, db, 0) == {};
    assert CancelledIn(db, {}) == {};
    ExpireNone(db, 0);
    assert Claimable(db, None, id);
    assert Candidates(db, None) == {id};
    assert ValidId("w");
  }

  lemma {:induction false} RunAppend(p: Platform, db: Db, ops: seq<Op>, op: Op)
    ensures Run(p, db, ops + [op]) == Step(p, Run(p, db, ops), op).db
    decreases |ops|
  {
    if ops == [] {
      assert Run(p, Step(p, db, op).db, []) == Step(p, db, op).db;
      assert ops + [op] == [op];
    } else {
      RunAppend(p, Step(p, db, ops[0]).db, ops[1..], op);
      assert (ops + [op])[1..] == ops[1..] + [op];
    }
  }
}
