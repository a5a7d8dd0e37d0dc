/** Bounded retries: a per-task measure that every effective move consumes, and an exact count of claims. */
module Bounds {
  import opened EpisodeTypes
  import opened Coordinator
  import opened Invariant
  import opened Runs

  // --------------------------------------------------------------------------- measure

  /** How many effective moves a task can still make. */
  function Potential(t: Task): int
  {
    match t.state
    case TaskQueued => 3 * (t.maxAttempts - t.attemptCount) + 1
    case TaskLeased => 3 * (t.maxAttempts - t.attemptCount) + 2 + (if t.cancel then 0 else 1)
    case _ => 0
  }

  predicate Effective(t: Task, t': Task)
  {
    t'.state != t.state || t'.attemptCount != t.attemptCount || t'.cancel != t.cancel
  }

  lemma MovePotential(t: Task, t': Task)
    requires TaskMoves(t, t') && 0 <= t.attemptCount <= t.maxAttempts
    ensures 0 <= Potential(t') <= Potential(t)
    ensures Effective(t, t') <==> Potential(t') < Potential(t)
  {
  }

  function Effect1(db: Db, db': Db, id: Id): int
  {
    if id in db.tasks && id in db'.tasks && Effective(db.tasks[id], db'.tasks[id]) then 1 else 0
  }

  /** Effective moves of one task in a run: claims, failures, recoveries, completion, first cancel. */
  ghost function EffectiveMoves(p: Platform, db: Db, ops: seq<Op>, id: Id): int
    decreases |ops|
  {
    if ops == [] then 0
    else
      Effect1(db, Mid(p, db, ops[0]), id) + Effect1(Mid(p, db, ops[0]), Step(p, db, ops[0]).db, id)
      + EffectiveMoves(p, Step(p, db, ops[0]).db, ops[1..], id)
  }

  /** One transaction pays for each effective move it makes. */
  lemma StepPotential(p: Platform, db: Db, op: Op, id: Id)
    requires Inv(p, db) && id in db.tasks
    ensures id in Mid(p, db, op).tasks && id in Step(p, db, op).db.tasks
    ensures Step(p, db, op).db.tasks[id].maxAttempts == db.tasks[id].maxAttempts
    ensures Effect1(db, Mid(p, db, op), id) + Effect1(Mid(p, db, op), Step(p, db, op).db, id)
      <= Potential(db.tasks[id]) - Potential(Step(p, db, op).db.tasks[id])
  {
    var mid, next := Mid(p, db, op), Step(p, db, op).db;
    StepMoves(p, db, op);
    assert TaskAt(db, mid, id) && TaskAt(mid, next, id);
    assert TaskOk(db, id) && TaskOk(mid, id);
    MovePotential(db.tasks[id], mid.tasks[id]);
    MovePotential(mid.tasks[id], next.tasks[id]);
  }

  /** In any run a task makes at most as many effective moves as its measure allows. */
  lemma {:induction false} EffectiveMovesBounded(p: Platform, db: Db, ops: seq<Op>, id: Id)
    requires Inv(p, db) && id in db.tasks
    ensures id in Run(p, db, ops).tasks
    ensures 0 <= EffectiveMoves(p, db, ops, id) <= Potential(db.tasks[id]) - Potential(Run(p, db, ops).tasks[id])
    ensures EffectiveMoves(p, db, ops, id) <= 3 * db.tasks[id].maxAttempts + 1
    decreases |ops|
  {
    PotentialRange(p, db, id);
    if ops != [] {
      StepInv(p, db, ops[0]);
      StepPotential(p, db, ops[0], id);
      EffectiveMovesBounded(p, Step(p, db, ops[0]).db, ops[1..], id);
      RunInv(p, db, ops);
      PotentialRange(p, Run(p, db, ops), id);
    }
  }

  lemma PotentialRange(p: Platform, db: Db, id: Id)
    requires Inv(p, db) && id in db.tasks
    ensures 0 <= Potential(db.tasks[id]) <= 3 * db.tasks[id].maxAttempts + 1
  {
    assert TaskOk(db, id);
    if db.tasks[id].state.TaskLeased? {
      LeaseHolder(p, db, id);
      assert AttemptOk(db, db.tasks[id].active);
    }
  }

  // ----------------------------------------------------------------------------- claims

  function AttemptCount(db: Db, id: Id): int
  {
    if id in db.tasks then db.tasks[id].attemptCount else 0
  }

  function ClaimedOf(reply: Reply, id: Id): int
  {
    if reply.Claimed? && reply.claim.episodeId == id then 1 else 0
  }

  /** Successful claims of one Episode in a run. */
  ghost function Claims(p: Platform, db: Db, ops: seq<Op>, id: Id): int
    decreases |ops|
  {
    if ops == [] then 0
    else ClaimedOf(Step(p, db, ops[0]).reply, id) + Claims(p, Step(p, db, ops[0]).db, ops[1..], id)
  }

  lemma RecoverCounts(p: Platform, db: Db, now: Instant, id: Id)
    ensures AttemptCount(Recover(p, db, now).db, id) == AttemptCount(db, id)
    ensures Recover(p, db, now).db.attempts.Keys == db.attempts.Keys
  {
  }

  lemma ClaimCounts(p: Platform, db: Db, op: Op, id: Id)
    requires Inv(p, db) && op.OpClaim?
    ensures AttemptCount(Step(p, db, op).db, id) == AttemptCount(db, id) + ClaimedOf(Step(p, db, op).reply, id)
    ensures |Step(p, db, op).db.attempts| == |db.attempts| + (if Step(p, db, op).reply.Claimed? then 1 else 0)
  {
    if Step(p, db, op).reply.Claimed? {
      RecoverCounts(p, db, op.now, id);
      SameSize(db, Recover(p, db, op.now).db);
      var leased := ClaimShape(p, db, op);
      hide Step, Recover;
    }
  }

  lemma LocalCounts(p: Platform, db: Db, op: Op)
    requires IsLocal(op) || op.OpReserve?
    ensures Step(p, db, op).db.tasks == db.tasks && Step(p, db, op).db.attempts == db.attempts
    ensures !Step(p, db, op).reply.Claimed?
  {
    match op
    case OpReserve(_, _) =>
    case OpLocalAppend(_, _, _, _) =>
    case OpLocalComplete(_, _, _, _) =>
    case OpLocalFail(_, _, _) =>
  }

  /** Transactions that touch one row of each table and add no attempt. */
  lemma LeaseCounts(p: Platform, db: Db, op: Op, id: Id)
    requires Inv(p, db) && (op.OpHeartbeat? || op.OpComplete? || op.OpFail?)
    ensures AttemptCount(Step(p, db, op).db, id) == AttemptCount(db, id)
    ensures Step(p, db, op).db.attempts.Keys == db.attempts.Keys && !Step(p, db, op).reply.Claimed?
  {
    hide Inv, EnvelopeOk;
    match op
    case OpHeartbeat(_, _, _, _, _) =>
    case OpComplete(_, _, _, _, _, _) =>
    case OpFail(_, _, _, _, _, _) =>
  }

  lemma QueueCounts(p: Platform, db: Db, op: Op, id: Id)
    requires Inv(p, db) && (op.OpEnqueue? || op.OpCancel?)
    ensures AttemptCount(Step(p, db, op).db, id) == AttemptCount(db, id)
    ensures Step(p, db, op).db.attempts == db.attempts && !Step(p, db, op).reply.Claimed?
  {
    match op
    case OpEnqueue(_, _, _, _, _, _) =>
    case OpCancel(_, _) =>
  }

  lemma OtherCounts(p: Platform, db: Db, op: Op, id: Id)
    requires Inv(p, db) && !op.OpClaim?
    ensures AttemptCount(Step(p, db, op).db, id) == AttemptCount(db, id)
    ensures Step(p, db, op).db.attempts.Keys == db.attempts.Keys
    ensures !Step(p, db, op).reply.Claimed?
  {
    match op
    case OpRecover(now) => RecoverCounts(p, db, now, id);
    case OpHeartbeat(_, _, _, _, _) => LeaseCounts(p, db, op, id);
    case OpComplete(_, _, _, _, _, _) => LeaseCounts(p, db, op, id);
    case OpFail(_, _, _, _, _, _) => LeaseCounts(p, db, op, id);
    case OpEnqueue(_, _, _, _, _, _) => QueueCounts(p, db, op, id);
    case OpCancel(_, _) => QueueCounts(p, db, op, id);
    case _ => LocalCounts(p, db, op);
  }

  lemma StepCounts(p: Platform, db: Db, op: Op, id: Id)
    requires Inv(p, db)
    ensures AttemptCount(Step(p, db, op).db, id) == AttemptCount(db, id) + ClaimedOf(Step(p, db, op).reply, id)
    ensures |Step(p, db, op).db.attempts| == |db.attempts| + (if Step(p, db, op).reply.Claimed? then 1 else 0)
  {
    if op.OpClaim? {
      ClaimCounts(p, db, op, id);
    } else {
      OtherCounts(p, db, op, id);
      SameSize(db, Step(p, db, op).db);
    }
  }

  lemma SameSize(db: Db, db': Db)
    requires db'.attempts.Keys == db.attempts.Keys
    ensures |db'.attempts| == |db.attempts|
  {
    assert |db'.attempts| == |db'.attempts.Keys|;
    assert |db.attempts| == |db.attempts.Keys|;
  }

  /** The attempt counter of a task counts exactly its successful claims, so retries stay within the submitted limit. */
  lemma {:induction false} ClaimsCounted(p: Platform, db: Db, ops: seq<Op>, id: Id)
    requires Inv(p, db)
    ensures Claims(p, db, ops, id) == AttemptCount(Run(p, db, ops), id) - AttemptCount(db, id)
    ensures id in Run(p, db, ops).tasks ==>
      Claims(p, db, ops, id) <= Run(p, db, ops).tasks[id].maxAttempts <= MAX_EPISODE_ATTEMPTS
    decreases |ops|
  {
    assert id in db.tasks ==> TaskOk(db, id);
    if ops != [] {
      StepInv(p, db, ops[0]);
      StepCounts(p, db, ops[0], id);
      ClaimsCounted(p, Step(p, db, ops[0]).db, ops[1..], id);
    }
    RunInv(p, db, ops);
    assert id in Run(p, db, ops).tasks ==> TaskOk(Run(p, db, ops), id);
  }

  // --------------------------------------------------------------------------- all tasks

  ghost function Pick(ids: set<Id>): Id
    requires ids != {}
    ensures Pick(ids) in ids
  {
    var id :| id in ids;
    id
  }

  ghost function SumOfLimits(db: Db, ids: set<Id>): int
    requires ids <= db.tasks.Keys
    decreases |ids|
  {
    if ids == {} then 0 else db.tasks[Pick(ids)].maxAttempts + SumOfLimits(db, ids - {Pick(ids)})
  }

  ghost function AttemptsOf(db: Db, ids: set<Id>): set<Id>
  {
    set aid | aid in db.attempts && db.attempts[aid].episodeId in ids
  }

  lemma {:induction false} FewNumbers(db: Db, id: Id, n: int, some: set<Id>)
    requires Numbered(db, id) && 0 <= n
    requires forall aid :: aid in some ==> aid in db.attempts && db.attempts[aid].episodeId == id && 1 <= db.attempts[aid].number <= n
    ensures |some| <= n
    decreases n
  {
    if n == 0 {
      assert some == {};
    } else if aid :| aid in some && db.attempts[aid].number == n {
      forall x | x in some - {aid} ensures db.attempts[x].number <= n - 1 {
        if db.attempts[x].number == n {
          assert Is(db, id, n, x) && Is(db, id, n, aid);
        }
      }
      FewNumbers(db, id, n - 1, some - {aid});
    } else {
      FewNumbers(db, id, n - 1, some);
    }
  }

  lemma {:induction false} AttemptsWithinLimits(p: Platform, db: Db, ids: set<Id>)
    requires Inv(p, db) && ids <= db.tasks.Keys
    ensures |AttemptsOf(db, ids)| <= SumOfLimits(db, ids)
    decreases |ids|
  {
    if ids == {} {
      assert AttemptsOf(db, ids) == {};
    } else {
      var id := Pick(ids);
      assert TaskOk(db, id) && Numbered(db, id);
      forall aid | aid in AttemptsOf(db, {id}) ensures 1 <= db.attempts[aid].number <= db.tasks[id].attemptCount {
        assert AttemptOk(db, aid);
      }
      FewNumbers(db, id, db.tasks[id].attemptCount, AttemptsOf(db, {id}));
      AttemptsWithinLimits(p, db, ids - {id});
      assert AttemptsOf(db, ids) == AttemptsOf(db, ids - {id}) + AttemptsOf(db, {id});
    }
  }

  ghost function AllClaims(p: Platform, db: Db, ops: seq<Op>): int
    decreases |ops|
  {
    if ops == [] then 0
    else (if Step(p, db, ops[0]).reply.Claimed? then 1 else 0) + AllClaims(p, Step(p, db, ops[0]).db, ops[1..])
  }

  lemma {:induction false} AllClaimsAreAttempts(p: Platform, db: Db, ops: seq<Op>)
    requires Inv(p, db)
    ensures AllClaims(p, db, ops) == |Run(p, db, ops).attempts| - |db.attempts|
    decreases |ops|
  {
    if ops != [] {
      StepInv(p, db, ops[0]);
      StepCounts(p, db, ops[0], "");
      AllClaimsAreAttempts(p, Step(p, db, ops[0]).db, ops[1..]);
    }
  }

  /** From an empty journal, the successful claims of any run number at most the sum of the tasks' limits. */
  lemma AllClaimsBounded(p: Platform, ops: seq<Op>)
    ensures var db := Run(p, EMPTY, ops);
      AllClaims(p, EMPTY, ops) == |db.attempts| <= SumOfLimits(db, db.tasks.Keys)
  {
    var db := Run(p, EMPTY, ops);
    EmptyInv(p);
    RunInv(p, EMPTY, ops);
    AllClaimsAreAttempts(p, EMPTY, ops);
    AttemptsWithinLimits(p, db, db.tasks.Keys);
    assert AttemptsOf(db, db.tasks.Keys) == db.attempts.Keys by {
      forall aid | aid in db.attempts ensures aid in AttemptsOf(db, db.tasks.Keys) {
        assert AttemptOk(db, aid);
      }
    }
  }
}
