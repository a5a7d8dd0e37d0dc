/**
 What each journal transaction does to the four tables, as one atomic step on values.
 The steps are stated in closed form; class Journal performs them statement by statement.
 A failed step leaves the database as it was.
 */
module Coordinator {
  import opened EpisodeTypes
  import opened Text

  datatype Error =
    | NoClaimable | Stale | CancelRequested | NotFound | Conflict
    | Invalid | ResourceLimit | Constraint | Corrupt

  datatype Claim = Claim(
    episodeId: Id, attemptId: Id, number: int, fence: int, leaseUntil: Instant,
    bundle: string, bundleDigest: string, scenarioPath: string, runtime: Runtime, profile: Effect)

  datatype Reply =
    | Failed(error: Error)
    | Done
    | Existing
    | Claimed(claim: Claim)
    | Beat(leaseUntil: Instant, cancel: bool)
    | Accepted(envelope: Envelope, reused: bool)
    | Count(n: int)

  datatype Result = Result(db: Db, reply: Reply)

  function Rejected(db: Db, e: Error): Result
  {
    Result(db, Failed(e))
  }

  // -------------------------------------------------------------- argument checks

  predicate IdChar(c: char)
  {
    'A' <= c <= 'Z' || 'a' <= c <= 'z' || '0' <= c <= '9' || c == '.' || c == '_' || c == '-'
  }

  predicate ValidId(s: Id)
  {
    && 1 <= |s| <= 128
    && (forall i :: 0 <= i < |s| ==> IdChar(s[i]))
    && s[0] != '.' && s[0] != '_' && s[0] != '-'
  }

  predicate ValidLease(lease: int)
  {
    0 < lease <= MAX_LEASE
  }

  // ----------------------------------------------------------------------- readers

  /** The row checks made whenever an Episode row is read. */
  predicate ScanOk(p: Platform, id: Id, row: EpisodeRow)
  {
    && row.createdAt <= row.updatedAt
    && p.requestDigest(RequestOf(id, row)) == row.requestDigest
    && match row.evidence
       case Some(envelope) =>
         && envelope.evidence.Some?
         && envelope.apiVersion == API_VERSION && envelope.kind == ENVELOPE_KIND
         && envelope.evidenceDigest == row.evidenceDigest
         && var e := envelope.evidence.value;
         && e.apiVersion == API_VERSION && e.kind == EVIDENCE_KIND && e.format == EVIDENCE_FORMAT
         && e.episodeId == id && e.bundleDigest == row.bundleDigest
         && e.scenarioPath == row.scenarioPath && e.runtime == row.runtime
         && e.outcome == row.outcome
         && p.evidenceDigest(e) == row.evidenceDigest
         && CarriesEvidence(row.status)
         && row.outcome == OutcomeOf(row.status) && row.errorClass == ""
       case None =>
         && !CarriesEvidence(row.status) && row.evidenceDigest == "" && row.outcome == ""
         && (row.status.RuntimeError? ==> row.errorClass == "RUNTIME_ERROR")
         && (!IsTerminal(row.status) ==> row.errorClass == "")
  }

  /** The event checks made after a row was read. */
  predicate EventsOk(row: EpisodeRow, rows: seq<Event>)
  {
    && |rows| == row.sequence + 1
    && Chain(rows)
    && LastTo(rows) == row.status
    && (row.evidence.Some? ==>
          && row.evidence.value.evidence.Some?
          && row.evidence.value.evidence.value.lifecycle == Lifecycle(row.status, rows))
  }

  predicate Readable(p: Platform, db: Db, id: Id)
  {
    && id in db.episodes && id in db.events
    && ScanOk(p, id, db.episodes[id])
    && EventsOk(db.episodes[id], db.events[id])
  }

  // ------------------------------------------------------------------- reservation

  function Reserve(p: Platform, db: Db, request: Request, now: Instant): Result
  {
    var id := request.episodeId;
    if id in db.episodes then
      if !ScanOk(p, id, db.episodes[id]) then Rejected(db, Corrupt)
      else if db.episodes[id].requestDigest != p.requestDigest(request) then Rejected(db, Conflict)
      else if !Readable(p, db, id) then Rejected(db, Corrupt)
      else Result(db, Existing)
    else if |db.episodes| >= MAX_EPISODE_RECORDS then Rejected(db, ResourceLimit)
    else
      var row := EpisodeRow(p.requestDigest(request), request.bundleDigest, request.scenarioPath, request.runtime,
                            Created, 0, "", None, "", "", now, now);
      Result(db.(episodes := db.episodes[id := row], events := db.events[id := [CREATION]]), Done)
  }

  /** The second transaction of Submit: attach a task to a reserved Episode. */
  function Enqueue(p: Platform, db: Db, id: Id, bundle: string, profile: Effect, maxAttempts: int,
                   created: bool, now: Instant): Result
  {
    if maxAttempts < 1 || maxAttempts > MAX_EPISODE_ATTEMPTS then Rejected(db, Invalid)
    else if id in db.tasks then
      if db.tasks[id].profile != profile || db.tasks[id].maxAttempts != maxAttempts then Rejected(db, Conflict)
      else Result(db, Existing)
    else if id !in db.episodes then Rejected(db, if created then Constraint else NotFound)
    else if !created && !Readable(p, db, id) then Rejected(db, Corrupt)
    else if !created && (IsTerminal(db.episodes[id].status) || db.episodes[id].sequence != 0) then Rejected(db, Conflict)
    else
      var t := Task(bundle, profile, maxAttempts, TaskQueued, 0, 0, "", false, "", "", now, now);
      Result(db.(tasks := db.tasks[id := t]), Done)
  }

  // ---------------------------------------------------------- cancelling the parent

  /** The parent Episode can still be cancelled, or already is. */
  predicate ParentCancellable(db: Db, id: Id)
  {
    id in db.episodes &&
    ((db.episodes[id].status.Created? && db.episodes[id].sequence == 0) || db.episodes[id].status.Cancelled?)
  }

  function CancelledRow(row: EpisodeRow, now: Instant): EpisodeRow
  {
    if row.status.Created? && row.sequence == 0
    then row.(status := Cancelled, sequence := 1, errorClass := "CANCELLED", updatedAt := now)
    else row
  }

  function CancelledEvents(row: EpisodeRow, rows: seq<Event>): seq<Event>
  {
    if row.status.Created? && row.sequence == 0 then rows + [Event(1, Some(Created), Cancelled)] else rows
  }

  /** Cancel the parents of all the given Episodes. */
  function CancelParents(db: Db, ids: set<Id>, now: Instant): Db
  {
    db.(episodes := map id | id in db.episodes ::
          if id in ids then CancelledRow(db.episodes[id], now) else db.episodes[id],
        events := map id | id in db.events ::
          if id in ids && id in db.episodes then CancelledEvents(db.episodes[id], db.events[id]) else db.events[id])
  }

  // ---------------------------------------------------------------------- recovery

  /** The lease of this task is selected for recovery. */
  predicate Selected(p: Platform, db: Db, now: Instant, id: Id)
  {
    && id in db.tasks && db.tasks[id].state.TaskLeased?
    && db.tasks[id].active in db.attempts
    && db.attempts[db.tasks[id].active].state.AttemptLeased?
    && p.expired(db.attempts[db.tasks[id].active].leaseUntil, now)
  }

  function Selection(p: Platform, db: Db, now: Instant): set<Id>
  {
    set id | id in db.tasks && Selected(p, db, now, id)
  }

  function ExpiredTaskState(t: Task): TaskState
  {
    if t.profile.External? then TaskCommitUnknown
    else if t.cancel then TaskCancelled
    else if t.attemptCount < t.maxAttempts then TaskQueued
    else TaskFailed
  }

  function ExpiredTask(t: Task, now: Instant): Task
  {
    t.(state := ExpiredTaskState(t), active := "", updatedAt := now)
  }

  function ExpiredAttempt(t: Task, a: Attempt, now: Instant): Attempt
  {
    a.(state := if t.profile.External? then AttemptCommitUnknown else if t.cancel then AttemptCancelled else AttemptExpired,
       commit := if t.profile.External? then CommitUnknown else CommitNoEffect,
       errorClass := "LEASE_EXPIRED", updatedAt := now)
  }

  /** The active attempts of the given tasks. */
  predicate ActiveIn(db: Db, ids: set<Id>, aid: Id)
  {
    && aid in db.attempts
    && db.attempts[aid].episodeId in ids
    && db.attempts[aid].episodeId in db.tasks
    && db.tasks[db.attempts[aid].episodeId].active == aid
  }

  function CancelledIn(db: Db, ids: set<Id>): set<Id>
  {
    set id | id in ids && id in db.tasks && ExpiredTaskState(db.tasks[id]).TaskCancelled?
  }

  /** Tasks and attempts when the leases of the given tasks have ended. */
  function EndLeases(db: Db, ids: set<Id>, now: Instant): Db
  {
    db.(tasks := map id | id in db.tasks ::
          if id in ids then ExpiredTask(db.tasks[id], now) else db.tasks[id],
        attempts := map aid | aid in db.attempts ::
          if ActiveIn(db, ids, aid) then ExpiredAttempt(db.tasks[db.attempts[aid].episodeId], db.attempts[aid], now)
          else db.attempts[aid])
  }

  /** End the leases of exactly the given tasks, and cancel the parents of those that were asked to stop. */
  function ExpireSet(db: Db, ids: set<Id>, now: Instant): Db
  {
    CancelParents(EndLeases(db, ids, now), CancelledIn(db, ids), now)
  }

  /** A selected lease whose parent cannot be cancelled makes the whole recovery fail. */
  predicate Blocked(p: Platform, db: Db, now: Instant)
  {
    exists id :: id in CancelledIn(db, Selection(p, db, now)) && !ParentCancellable(db, id)
  }

  function Recover(p: Platform, db: Db, now: Instant): Result
  {
    if Blocked(p, db, now) then Rejected(db, Conflict)
    else Result(ExpireSet(db, Selection(p, db, now), now), Count(|Selection(p, db, now)|))
  }

  // ------------------------------------------------------------------------- claim

  predicate Claimable(db: Db, profile: Option<Effect>, id: Id)
  {
    && id in db.tasks && id in db.episodes
    && db.tasks[id].state.TaskQueued? && !db.tasks[id].cancel
    && (profile == None || profile == Some(db.tasks[id].profile))
  }

  function Candidates(db: Db, profile: Option<Effect>): set<Id>
  {
    set id | id in db.tasks && Claimable(db, profile, id)
  }

  /** Claim order: creation stamp as text, then Episode ID. */
  predicate Precedes(p: Platform, db: Db, a: Id, b: Id)
    requires a in db.tasks && b in db.tasks
  {
    var x, y := p.stamp(db.tasks[a].createdAt), p.stamp(db.tasks[b].createdAt);
    if x == y then LexLE(a, b) else LexLE(x, y)
  }

  predicate IsFirst(p: Platform, db: Db, among: set<Id>, id: Id)
    requires among <= db.tasks.Keys
  {
    id in among && forall other :: other in among ==> Precedes(p, db, id, other)
  }

  lemma PrecedesTransitive(p: Platform, db: Db, a: Id, b: Id, c: Id)
    requires a in db.tasks && b in db.tasks && c in db.tasks
    requires Precedes(p, db, a, b) && Precedes(p, db, b, c)
    ensures Precedes(p, db, a, c)
  {
    var x, y, z := p.stamp(db.tasks[a].createdAt), p.stamp(db.tasks[b].createdAt), p.stamp(db.tasks[c].createdAt);
    if x == y == z {
      LexTransitive(a, b, c);
    } else {
      LexReflexive(x);
      LexReflexive(z);
      LexTransitive(x, y, z);
      if x == z {
        LexAntisymmetric(x, y);
      }
    }
  }

  lemma PrecedesTotal(p: Platform, db: Db, a: Id, b: Id)
    requires a in db.tasks && b in db.tasks
    ensures Precedes(p, db, a, b) || Precedes(p, db, b, a)
    ensures Precedes(p, db, a, b) && Precedes(p, db, b, a) ==> a == b
  {
    var x, y := p.stamp(db.tasks[a].createdAt), p.stamp(db.tasks[b].createdAt);
    LexTotal(a, b);
    LexTotal(x, y);
    if Precedes(p, db, a, b) && Precedes(p, db, b, a) {
      if x == y {
        LexAntisymmetric(a, b);
      } else {
        LexAntisymmetric(x, y);
      }
    }
  }

  lemma {:induction false} FirstExists(p: Platform, db: Db, among: set<Id>)
    requires among <= db.tasks.Keys && among != {}
    ensures exists id :: IsFirst(p, db, among, id)
    decreases |among|
  {
    var x :| x in among;
    PrecedesTotal(p, db, x, x);
    var rest := among - {x};
    if rest == {} {
      assert among == {x};
      assert IsFirst(p, db, among, x);
    } else {
      FirstExists(p, db, rest);
      var y :| IsFirst(p, db, rest, y);
      PrecedesTotal(p, db, x, y);
      if Precedes(p, db, y, x) {
        assert IsFirst(p, db, among, y);
      } else {
        forall other | other in among ensures Precedes(p, db, x, other) {
          if other != x {
            PrecedesTransitive(p, db, x, y, other);
          }
        }
        assert IsFirst(p, db, among, x);
      }
    }
  }

  /** The task that ORDER BY ... LIMIT 1 returns. */
  ghost function First(p: Platform, db: Db, among: set<Id>): (id: Id)
    requires among <= db.tasks.Keys && among != {}
    ensures IsFirst(p, db, among, id)
  {
    FirstExists(p, db, among);
    var id :| IsFirst(p, db, among, id);
    id
  }

  lemma FirstUnique(p: Platform, db: Db, among: set<Id>, id: Id)
    requires among <= db.tasks.Keys && IsFirst(p, db, among, id)
    ensures First(p, db, among) == id
  {
    PrecedesTotal(p, db, id, First(p, db, among));
  }

  function AttemptId(nonce: string): Id
  {
    "att_" + nonce
  }

  function LeasedTask(t: Task, aid: Id, now: Instant): Task
  {
    t.(state := TaskLeased, attemptCount := t.attemptCount + 1, fence := t.fence + 1, active := aid, updatedAt := now)
  }

  /** Lease one queued task to a worker. */
  function Lease(db: Db, id: Id, worker: Id, aid: Id, until: Instant, now: Instant): Db
    requires id in db.tasks
  {
    var t := db.tasks[id];
    db.(tasks := db.tasks[id := LeasedTask(t, aid, now)],
        attempts := db.attempts[aid := Attempt(id, t.attemptCount + 1, worker, t.fence + 1, AttemptLeased,
                                               CommitNotStarted, until, "", now, now)])
  }

  function ClaimOf(db: Db, id: Id, aid: Id, until: Instant): Claim
    requires id in db.tasks && id in db.episodes
  {
    var t, e := db.tasks[id], db.episodes[id];
    Claim(id, aid, t.attemptCount + 1, t.fence + 1, until,
          t.bundle, e.bundleDigest, e.scenarioPath, e.runtime, t.profile)
  }

  ghost function ClaimTask(p: Platform, db: Db, worker: Id, lease: int, profile: Option<Effect>,
                           nonce: string, now: Instant): Result
  {
    if !ValidId(worker) || !ValidLease(lease) then Rejected(db, Invalid)
    else
      var recovered := Recover(p, db, now);
      if recovered.reply.Failed? then Rejected(db, recovered.reply.error)
      else
        var mid := recovered.db;
        var among := Candidates(mid, profile);
        if among == {} then Rejected(db, NoClaimable)
        else if AttemptId(nonce) in mid.attempts then Rejected(db, Constraint)
        else
          var id := First(p, mid, among);
          Result(Lease(mid, id, worker, AttemptId(nonce), now + lease, now),
                 Claimed(ClaimOf(mid, id, AttemptId(nonce), now + lease)))
  }

  // --------------------------------------------------------------------- heartbeat

  predicate Holds(db: Db, id: Id, aid: Id, fence: int)
  {
    && id in db.tasks && db.tasks[id].state.TaskLeased?
    && db.tasks[id].active == aid && db.tasks[id].fence == fence
  }

  function Heartbeat(db: Db, id: Id, aid: Id, fence: int, lease: int, now: Instant): Result
  {
    if !ValidLease(lease) then Rejected(db, Invalid)
    else if !Holds(db, id, aid, fence) || aid !in db.attempts || !db.attempts[aid].state.AttemptLeased? then
      Rejected(db, Stale)
    else if db.attempts[aid].leaseUntil <= now then Rejected(db, Stale)
    else
      Result(db.(attempts := db.attempts[aid := db.attempts[aid].(leaseUntil := now + lease, updatedAt := now)]),
             Beat(now + lease, db.tasks[id].cancel))
  }

  // -------------------------------------------------------------------- completion

  /** The identity, lifecycle and digest checks on Evidence sent by a worker. */
  predicate EnvelopeOk(p: Platform, request: Request, envelope: Envelope)
  {
    && envelope.apiVersion == API_VERSION && envelope.kind == ENVELOPE_KIND
    && envelope.evidence.Some?
    && var e := envelope.evidence.value;
    && e.apiVersion == API_VERSION && e.kind == EVIDENCE_KIND && e.format == EVIDENCE_FORMAT
    && e.episodeId == request.episodeId && e.bundleDigest == request.bundleDigest
    && e.scenarioPath == request.scenarioPath && e.runtime == request.runtime
    && CarriesEvidence(e.lifecycle.current)
    && |e.lifecycle.events| == 6
    && Chain(e.lifecycle.events)
    && p.evidenceDigest(e) == envelope.evidenceDigest
  }

  function CompletedRow(row: EpisodeRow, envelope: Envelope, now: Instant): EpisodeRow
    requires envelope.evidence.Some?
  {
    var e := envelope.evidence.value;
    row.(status := e.lifecycle.current, sequence := |e.lifecycle.events| - 1, outcome := e.outcome,
         evidence := Some(envelope), evidenceDigest := envelope.evidenceDigest, updatedAt := now)
  }

  function CompletedDb(db: Db, id: Id, aid: Id, envelope: Envelope, now: Instant): Db
    requires id in db.tasks && id in db.episodes && aid in db.attempts && envelope.evidence.Some?
  {
    Db(db.episodes[id := CompletedRow(db.episodes[id], envelope, now)],
       db.events[id := envelope.evidence.value.lifecycle.events],
       db.tasks[id := db.tasks[id].(state := TaskCompleted, active := "", finalAttempt := aid,
                                    finalDigest := envelope.evidenceDigest, updatedAt := now)],
       db.attempts[aid := db.attempts[aid].(state := AttemptCompleted, commit := CommitCommitted, updatedAt := now)])
  }

  function Complete(p: Platform, db: Db, id: Id, aid: Id, fence: int, envelope: Envelope,
                    checkedAt: Instant, now: Instant): Result
  {
    if envelope.evidence.None? then Rejected(db, Invalid)
    else if id !in db.tasks then Rejected(db, NotFound)
    else if db.tasks[id].state.TaskCompleted? then
      if db.tasks[id].finalAttempt == aid && db.tasks[id].fence == fence && db.tasks[id].finalDigest == envelope.evidenceDigest then
        if Readable(p, db, id) && db.episodes[id].evidence.Some?
        then Result(db, Accepted(db.episodes[id].evidence.value, true))
        else Rejected(db, Corrupt)
      else Rejected(db, Stale)
    else if !Holds(db, id, aid, fence) then Rejected(db, Stale)
    else if db.tasks[id].cancel then Rejected(db, CancelRequested)
    else if id !in db.episodes then Rejected(db, NotFound)
    else if !EnvelopeOk(p, RequestOf(id, db.episodes[id]), envelope) then Rejected(db, Invalid)
    else if aid !in db.attempts || !db.attempts[aid].state.AttemptLeased? then Rejected(db, Stale)
    else if db.attempts[aid].leaseUntil <= checkedAt then Rejected(db, Stale)
    else if p.encodedBytes(envelope) > MAX_REPORT_BYTES then Rejected(db, ResourceLimit)
    else if !db.episodes[id].status.Created? || db.episodes[id].sequence != 0 then Rejected(db, Constraint)
    else Result(CompletedDb(db, id, aid, envelope, now), Accepted(envelope, false))
  }

  /** What a completion that wins has checked, and what it writes. */
  lemma CompletionShape(p: Platform, db: Db, id: Id, aid: Id, fence: int, envelope: Envelope, checkedAt: Instant, now: Instant)
    requires Complete(p, db, id, aid, fence, envelope, checkedAt, now).reply == Accepted(envelope, false)
    ensures Holds(db, id, aid, fence) && !db.tasks[id].cancel && id in db.episodes && aid in db.attempts
    ensures db.attempts[aid].state.AttemptLeased? && db.episodes[id].status.Created? && db.episodes[id].sequence == 0
    ensures EnvelopeOk(p, RequestOf(id, db.episodes[id]), envelope) && envelope.evidence.Some?
    ensures Complete(p, db, id, aid, fence, envelope, checkedAt, now).db == CompletedDb(db, id, aid, envelope, now)
  {
    hide EnvelopeOk, CompletedDb;
  }

  // ----------------------------------------------------------------------- failure

  function FailedTaskState(t: Task, commit: CommitState): TaskState
  {
    if commit.CommitUnknown? then TaskCommitUnknown
    else if t.cancel then TaskCancelled
    else if t.attemptCount < t.maxAttempts then TaskQueued
    else TaskFailed
  }

  function FailedAttempt(t: Task, a: Attempt, commit: CommitState, errorClass: string, now: Instant): Attempt
  {
    a.(state := if commit.CommitUnknown? then AttemptCommitUnknown else if t.cancel then AttemptCancelled else AttemptFailed,
       commit := commit, errorClass := errorClass, updatedAt := now)
  }

  predicate FailArguments(commit: CommitState, errorClass: string)
  {
    && (commit.CommitNoEffect? || commit.CommitUnknown?)
    && (errorClass == "WORKER_ERROR" || errorClass == "PROVIDER_ERROR" || errorClass == "CANCELLED")
  }

  /** The lease has ended with this failure; the parent is still to be dealt with. */
  function FailedDb(db: Db, id: Id, aid: Id, commit: CommitState, errorClass: string, now: Instant): Db
    requires id in db.tasks && aid in db.attempts
  {
    var t := db.tasks[id];
    db.(tasks := db.tasks[id := t.(state := FailedTaskState(t, commit), active := "", updatedAt := now)],
        attempts := db.attempts[aid := FailedAttempt(t, db.attempts[aid], commit, errorClass, now)])
  }

  function FailClaim(db: Db, id: Id, aid: Id, fence: int, commit: CommitState, errorClass: string, now: Instant): Result
  {
    if !FailArguments(commit, errorClass) then Rejected(db, Invalid)
    else if id !in db.tasks then Rejected(db, NotFound)
    else if !Holds(db, id, aid, fence) || aid !in db.attempts then Rejected(db, Stale)
    else
      var t := db.tasks[id];
      var next := FailedTaskState(t, commit);
      if next.TaskCancelled? && !ParentCancellable(db, id) then Rejected(db, Conflict)
      else
        var ended := FailedDb(db, id, aid, commit, errorClass, now);
        Result(if next.TaskCancelled? then CancelParents(ended, {id}, now) else ended, Done)
  }

  lemma FailureShape(db: Db, id: Id, aid: Id, fence: int, commit: CommitState, errorClass: string, now: Instant)
    requires FailClaim(db, id, aid, fence, commit, errorClass, now).reply.Done?
    ensures Holds(db, id, aid, fence) && aid in db.attempts
    ensures FailedTaskState(db.tasks[id], commit).TaskCancelled? ==> ParentCancellable(db, id)
    ensures var ended := FailedDb(db, id, aid, commit, errorClass, now);
      FailClaim(db, id, aid, fence, commit, errorClass, now).db
      == if FailedTaskState(db.tasks[id], commit).TaskCancelled? then CancelParents(ended, {id}, now) else ended
  {
    hide CancelParents;
  }

  // ------------------------------------------------------------------ cancellation

  predicate TaskTerminal(s: TaskState)
  {
    !s.TaskQueued? && !s.TaskLeased?
  }

  function Cancel(db: Db, id: Id, now: Instant): Result
  {
    if id !in db.tasks then Rejected(db, NotFound)
    else if db.tasks[id].state.TaskCompleted? then Rejected(db, Conflict)
    else if TaskTerminal(db.tasks[id].state) then Result(db, Existing)
    else
      var t := db.tasks[id];
      if t.state.TaskLeased? then
        Result(db.(tasks := db.tasks[id := t.(cancel := true, updatedAt := now)]), Done)
      else if !ParentCancellable(db, id) then Rejected(db, Conflict)
      else
        Result(CancelParents(db.(tasks := db.tasks[id := t.(cancel := true, state := TaskCancelled, updatedAt := now)]), {id}, now),
               Done)
  }

  // -------------------------------------------------------------------- local lane

  /** The row a local transaction names, by Episode and request digest. */
  predicate Names(p: Platform, db: Db, request: Request)
  {
    request.episodeId in db.episodes && db.episodes[request.episodeId].requestDigest == p.requestDigest(request)
  }

  function Advance(db: Db, id: Id, row: EpisodeRow, e: Event): Db
    requires id in db.events
  {
    db.(episodes := db.episodes[id := row], events := db.events[id := db.events[id] + [e]])
  }

  function LocalAppend(p: Platform, db: Db, request: Request, expected: int, e: Event, now: Instant): Result
  {
    var id := request.episodeId;
    if e.sequence != expected + 1 || e.from.None? || !AllowedTransition(e.from.value, e.to) || IsTerminal(e.to) then
      Rejected(db, Invalid)
    else if !Names(p, db, request) || Some(db.episodes[id].status) != e.from || db.episodes[id].sequence != expected then
      Rejected(db, Conflict)
    else if id !in db.events then Rejected(db, Constraint)
    else
      Result(Advance(db, id, db.episodes[id].(status := e.to, sequence := e.sequence, updatedAt := now), e), Done)
  }

  function LocalComplete(p: Platform, db: Db, request: Request, expected: int, envelope: Envelope, now: Instant): Result
  {
    var id := request.episodeId;
    if envelope.evidence.None? then Rejected(db, Invalid)
    else
      var ev := envelope.evidence.value;
      if !CarriesEvidence(ev.lifecycle.current) then Rejected(db, Invalid)
      else if ev.episodeId != id || ev.bundleDigest != request.bundleDigest || ev.scenarioPath != request.scenarioPath then
        Rejected(db, Invalid)
      else if p.evidenceDigest(ev) != envelope.evidenceDigest then Rejected(db, Invalid)
      else if p.encodedBytes(envelope) > MAX_REPORT_BYTES then Rejected(db, ResourceLimit)
      else if |ev.lifecycle.events| == 0 then Rejected(db, Invalid)
      else
        var e := ev.lifecycle.events[|ev.lifecycle.events| - 1];
        if e.sequence != expected + 1 || e.to != ev.lifecycle.current || e.from != Some(Evaluating) then Rejected(db, Invalid)
        else if !Names(p, db, request) || !db.episodes[id].status.Evaluating? || db.episodes[id].sequence != expected then
          Rejected(db, Conflict)
        else if id !in db.events then Rejected(db, Constraint)
        else
          var row := db.episodes[id].(status := e.to, sequence := e.sequence, outcome := ev.outcome,
                                      evidence := Some(envelope), evidenceDigest := envelope.evidenceDigest, updatedAt := now);
          Result(Advance(db, id, row, e), Done)
  }

  function LocalFail(p: Platform, db: Db, request: Request, expected: int, now: Instant): Result
  {
    var id := request.episodeId;
    if !Names(p, db, request) then Rejected(db, NotFound)
    else if db.episodes[id].sequence != expected || IsTerminal(db.episodes[id].status)
            || !AllowedTransition(db.episodes[id].status, RuntimeError) then Result(db, Existing)
    else if id !in db.events then Rejected(db, Constraint)
    else
      var row := db.episodes[id];
      Result(Advance(db, id,
                     row.(status := RuntimeError, sequence := row.sequence + 1, errorClass := "RUNTIME_ERROR", updatedAt := now),
                     Event(row.sequence + 1, Some(row.status), RuntimeError)),
             Done)
  }

  // -------------------------------------------------------------------- whole runs

  datatype Op =
    | OpReserve(request: Request, now: Instant)
    | OpEnqueue(id: Id, bundle: string, profile: Effect, maxAttempts: int, created: bool, now: Instant)
    | OpClaim(worker: Id, lease: int, want: Option<Effect>, nonce: string, now: Instant)
    | OpHeartbeat(id: Id, aid: Id, fence: int, lease: int, now: Instant)
    | OpComplete(id: Id, aid: Id, fence: int, envelope: Envelope, checkedAt: Instant, now: Instant)
    | OpFail(id: Id, aid: Id, fence: int, commit: CommitState, errorClass: string, now: Instant)
    | OpCancel(id: Id, now: Instant)
    | OpRecover(now: Instant)
    | OpLocalAppend(request: Request, expected: int, event: Event, now: Instant)
    | OpLocalComplete(request: Request, expected: int, envelope: Envelope, now: Instant)
    | OpLocalFail(request: Request, expected: int, now: Instant)

  /** One transaction of either lane. */
  ghost function Step(p: Platform, db: Db, op: Op): Result
  {
    match op
    case OpReserve(request, now) => Reserve(p, db, request, now)
    case OpEnqueue(id, bundle, profile, maxAttempts, created, now) => Enqueue(p, db, id, bundle, profile, maxAttempts, created, now)
    case OpClaim(worker, lease, want, nonce, now) => ClaimTask(p, db, worker, lease, want, nonce, now)
    case OpHeartbeat(id, aid, fence, lease, now) => Heartbeat(db, id, aid, fence, lease, now)
    case OpComplete(id, aid, fence, envelope, checkedAt, now) => Complete(p, db, id, aid, fence, envelope, checkedAt, now)
    case OpFail(id, aid, fence, commit, errorClass, now) => FailClaim(db, id, aid, fence, commit, errorClass, now)
    case OpCancel(id, now) => Cancel(db, id, now)
    case OpRecover(now) => Recover(p, db, now)
    case OpLocalAppend(request, expected, event, now) => LocalAppend(p, db, request, expected, event, now)
    case OpLocalComplete(request, expected, envelope, now) => LocalComplete(p, db, request, expected, envelope, now)
    case OpLocalFail(request, expected, now) => LocalFail(p, db, request, expected, now)
  }

  /** A successful claim leases the first candidate that recovery leaves. */
  lemma ClaimShape(p: Platform, db: Db, op: Op) returns (id: Id)
    requires op.OpClaim? && Step(p, db, op).reply.Claimed?
    ensures !Recover(p, db, op.now).reply.Failed?
    ensures var mid, aid := Recover(p, db, op.now).db, AttemptId(op.nonce);
      && id in mid.tasks && id in mid.episodes && mid.tasks[id].state.TaskQueued? && !mid.tasks[id].cancel
      && aid !in mid.attempts && aid != ""
      && Step(p, db, op) == Result(Lease(mid, id, op.worker, aid, op.now + op.lease, op.now),
                                   Claimed(ClaimOf(mid, id, aid, op.now + op.lease)))
  {
    hide Recover;
    var mid := Recover(p, db, op.now).db;
    id := First(p, mid, Candidates(mid, op.want));
    assert Claimable(mid, op.want, id);
  }

  predicate IsLocal(op: Op)
  {
    op.OpLocalAppend? || op.OpLocalComplete? || op.OpLocalFail?
  }

  /** The database after any interleaving of transactions, in commit order. */
  ghost function Run(p: Platform, db: Db, ops: seq<Op>): Db
    decreases |ops|
  {
    if ops == [] then db else Run(p, Step(p, db, ops[0]).db, ops[1..])
  }
}
